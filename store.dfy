/** The two tables as mutable state, and the two operations that append to
    them: adding a hero and adding a connection. */
module Store {
  import opened Results
  import opened Sequences
  import opened Network
  import opened Stats

  /** Largest id in a non-empty node table. */
  function MaxId(nodes: seq<Node>): (r: int)
    requires |nodes| > 0
    ensures r in Ids(nodes)
    ensures forall k :: 0 <= k < |nodes| ==> nodes[k].id <= r
  {
    if |nodes| == 1 then nodes[0].id
    else
      var m := MaxId(nodes[1..]);
      assert Ids(nodes[1..]) == Ids(nodes)[1..];
      if nodes[0].id >= m then nodes[0].id else m
  }

  /** The id a new hero receives: one more than the largest existing id. */
  function NextId(nodes: seq<Node>): (r: int)
    requires |nodes| > 0
    ensures forall k :: 0 <= k < |nodes| ==> nodes[k].id < r
    ensures r - 1 in Ids(nodes)
    ensures !HasRow(nodes, r)
  {
    MaxId(nodes) + 1
  }

  /** Why a connection could not be added. */
  datatype ConnectionError =
    | NotFound   // a name matches no row
    | Ambiguous  // a name matches several rows, so no single id can be read off

  /** Number of rows named `name`. */
  function RowsNamed(nodes: seq<Node>, name: string): nat
  {
    multiset(Names(nodes))[name]
  }

  /** The edge that adding a connection between `name1` and `name2` appends, or why there is none. */
  function ConnectionFor(nodes: seq<Node>, name1: string, name2: string): (r: Result<Edge, ConnectionError>)
    ensures r == Err(NotFound) <==> RowsNamed(nodes, name1) == 0 || RowsNamed(nodes, name2) == 0
    ensures r == Err(Ambiguous) <==> RowsNamed(nodes, name1) > 0 && RowsNamed(nodes, name2) > 0 &&
                                     (RowsNamed(nodes, name1) > 1 || RowsNamed(nodes, name2) > 1)
    ensures r.Ok? ==> RowsNamed(nodes, name1) == 1 && RowsNamed(nodes, name2) == 1
                      && (exists n :: n in nodes && n.name == name1 && n.id == r.value.source)
                      && (exists n :: n in nodes && n.name == name2 && n.id == r.value.target)
  {
    var ids1, ids2 := IdsNamed(nodes, name1), IdsNamed(nodes, name2);
    if ids1 == [] || ids2 == [] then Err(NotFound)
    else if |ids1| > 1 || |ids2| > 1 then Err(Ambiguous)
    else
      assert ids1[0] in ids1 && ids2[0] in ids2;
      Ok(Edge(ids1[0], ids2[0]))
  }

  /** The node and edge tables as they are stored. */
  class SuperheroStore {
    var nodes: seq<Node>
    var edges: seq<Edge>

    constructor (nodes0: seq<Node>, edges0: seq<Edge>)
      ensures nodes == nodes0 && edges == edges0
    {
      nodes := nodes0;
      edges := edges0;
    }

    /** Appends a hero dated `today` with the next free id and returns that id. */
    method AddSuperhero(name: string, today: int) returns (newId: int)
      requires |nodes| > 0
      modifies this
      ensures newId == NextId(old(nodes))
      ensures forall k :: 0 <= k < |old(nodes)| ==> old(nodes)[k].id < newId
      ensures nodes == old(nodes) + [Node(newId, name, today)]
      ensures edges == old(edges)
    {
      newId := NextId(nodes);
      nodes := nodes + [Node(newId, name, today)];
    }

    /** Appends the edge between the rows named `name1` and `name2`; on failure nothing changes. */
    method AddConnection(name1: string, name2: string) returns (outcome: Result<Edge, ConnectionError>)
      modifies this
      ensures outcome == ConnectionFor(old(nodes), name1, name2)
      ensures nodes == old(nodes)
      ensures outcome.Ok? ==> edges == old(edges) + [outcome.value]
      ensures outcome.Err? ==> edges == old(edges)
    {
      outcome := ConnectionFor(nodes, name1, name2);
      if outcome.Ok? {
        edges := edges + [outcome.value];
      }
    }
  }

  /** A new hero is counted once more and is among the recent heroes on the day it is added. */
  lemma NewHeroCountedAndRecent(nodes: seq<Node>, name: string, today: int)
    requires |nodes| > 0
    ensures var hero := Node(NextId(nodes), name, today);
      && TotalSuperheroes(nodes + [hero]) == TotalSuperheroes(nodes) + 1
      && hero in RecentHeroes(nodes + [hero], today)
  {
    TotalSuperheroesAppend(nodes, Node(NextId(nodes), name, today));
  }

  /** An appended connection, self-loop or duplicate alike, counts once more and adds its ends to the degrees. */
  lemma NewConnectionCounted(edges: seq<Edge>, e: Edge)
    ensures TotalConnections(edges + [e]) == TotalConnections(edges) + 1
    ensures forall id :: Degree(edges + [e], id) == Degree(edges, id) + Ends(e, id)
  {
    EndpointsAppend(edges, e);
  }
}
