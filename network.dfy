/** The two tables of the superhero network: node rows `(id, name, created_at)`
    and edge rows `(source, target)`, with the column projections and the
    name/id lookups the queries and the mutations share. Dates are day numbers. */
module Network {
  import opened Results
  import opened Sequences

  datatype Node = Node(id: int, name: string, createdAt: int)

  datatype Edge = Edge(source: int, target: int)

  /** The `id` column. */
  function Ids(nodes: seq<Node>): (r: seq<int>)
    ensures |r| == |nodes|
    ensures forall k :: 0 <= k < |nodes| ==> r[k] == nodes[k].id
  {
    seq(|nodes|, k requires 0 <= k < |nodes| => nodes[k].id)
  }

  /** The `name` column. */
  function Names(nodes: seq<Node>): (r: seq<string>)
    ensures |r| == |nodes|
    ensures forall k :: 0 <= k < |nodes| ==> r[k] == nodes[k].name
  {
    seq(|nodes|, k requires 0 <= k < |nodes| => nodes[k].name)
  }

  /** The `source` column. */
  function Sources(edges: seq<Edge>): (r: seq<int>)
    ensures |r| == |edges|
    ensures forall k :: 0 <= k < |edges| ==> r[k] == edges[k].source
  {
    seq(|edges|, k requires 0 <= k < |edges| => edges[k].source)
  }

  /** The `target` column. */
  function Targets(edges: seq<Edge>): (r: seq<int>)
    ensures |r| == |edges|
    ensures forall k :: 0 <= k < |edges| ==> r[k] == edges[k].target
  {
    seq(|edges|, k requires 0 <= k < |edges| => edges[k].target)
  }

  /** Every edge end, all sources first and then all targets. */
  function Endpoints(edges: seq<Edge>): (r: seq<int>)
    ensures |r| == 2 * |edges|
    ensures forall k :: 0 <= k < |edges| ==> r[k] == edges[k].source && r[|edges| + k] == edges[k].target
  {
    Sources(edges) + Targets(edges)
  }

  /** Appending an edge adds its two ends (twice the same id for a self-loop). */
  lemma EndpointsAppend(edges: seq<Edge>, e: Edge)
    ensures multiset(Endpoints(edges + [e])) == multiset(Endpoints(edges)) + multiset{e.source, e.target}
  {
    assert Sources(edges + [e]) == Sources(edges) + [e.source];
    assert Targets(edges + [e]) == Targets(edges) + [e.target];
  }

  predicate HasRow(nodes: seq<Node>, id: int)
  {
    id in Ids(nodes)
  }

  /** The name on the first row that carries `id`, or `None` when no row does. */
  function NameOfId(nodes: seq<Node>, id: int): (r: Option<string>)
    ensures r.None? <==> forall j :: 0 <= j < |nodes| ==> nodes[j].id != id
    ensures r.Some? ==> exists j :: 0 <= j < |nodes| && nodes[j].id == id && nodes[j].name == r.value
                                  && forall k :: 0 <= k < j ==> nodes[k].id != id
  {
    var j := FirstIndex(Ids(nodes), id);
    if j < |nodes| then Some(nodes[j].name) else None
  }

  /** The ids of all rows named `name`, in table order. */
  function IdsNamed(nodes: seq<Node>, name: string): (r: seq<int>)
    ensures |r| == multiset(Names(nodes))[name]
    ensures forall id :: id in r <==> exists n :: n in nodes && n.name == name && n.id == id
  {
    if nodes == [] then []
    else
      var rest := IdsNamed(nodes[1..], name);
      assert Names(nodes) == [nodes[0].name] + Names(nodes[1..]);
      assert forall n :: n in nodes <==> n == nodes[0] || n in nodes[1..];
      if nodes[0].name == name then [nodes[0].id] + rest else rest
  }
}
