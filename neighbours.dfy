/** The neighbour report on the hero named 'dataiskole': when it was added,
    the ids it is connected to, and the names of those heroes. */
module Neighbours {
  import opened Results
  import opened Sequences
  import opened Network

  /** The hero the report is about. */
  const Dataiskole := "dataiskole"

  /** Targets of the edges whose source is `x`, in edge order. */
  function TargetsFrom(edges: seq<Edge>, x: int): (r: seq<int>)
    ensures forall y :: y in r <==> Edge(x, y) in edges
  {
    if edges == [] then []
    else (if edges[0].source == x then [edges[0].target] else []) + TargetsFrom(edges[1..], x)
  }

  /** Sources of the edges whose target is `x`, in edge order. */
  function SourcesTo(edges: seq<Edge>, x: int): (r: seq<int>)
    ensures forall y :: y in r <==> Edge(y, x) in edges
  {
    if edges == [] then []
    else (if edges[0].target == x then [edges[0].source] else []) + SourcesTo(edges[1..], x)
  }

  /** Some edge joins `x` and `y`, stored in either direction. */
  predicate Linked(edges: seq<Edge>, x: int, y: int)
  {
    Edge(x, y) in edges || Edge(y, x) in edges
  }

  /** The ids connected to `x`, without repetition; `x` itself when a self-loop is present. */
  function FriendIds(edges: seq<Edge>, x: int): (r: seq<int>)
    ensures NoDuplicates(r)
    ensures forall y :: y in r <==> Linked(edges, x, y)
  {
    Unique(TargetsFrom(edges, x) + SourcesTo(edges, x))
  }

  /** Friends reached through an edge stored as `(x, y)` come before those reached only through `(y, x)`. */
  lemma FriendIdsOutgoingFirst(edges: seq<Edge>, x: int)
    ensures forall i, j :: 0 <= i < j < |FriendIds(edges, x)| && Edge(x, FriendIds(edges, x)[j]) in edges ==>
              Edge(x, FriendIds(edges, x)[i]) in edges
  {
    var out, inc := TargetsFrom(edges, x), SourcesTo(edges, x);
    var r := FriendIds(edges, x);
    UniqueInFirstSeenOrder(out + inc);
    forall i, j | 0 <= i < j < |r| && Edge(x, r[j]) in edges
      ensures Edge(x, r[i]) in edges
    {
      FirstIndexAppend(out, inc, r[i]);
      FirstIndexAppend(out, inc, r[j]);
    }
  }

  lemma SelfLoopIsFriend(edges: seq<Edge>, x: int)
    requires Edge(x, x) in edges
    ensures x in FriendIds(edges, x)
  {
  }

  /** The rows whose id is one of `ids`, in table order. */
  function FriendRows(nodes: seq<Node>, ids: seq<int>): (r: seq<Node>)
    ensures forall n :: n in r <==> n in nodes && n.id in ids
    ensures forall n :: multiset(r)[n] == if n.id in ids then multiset(nodes)[n] else 0
    ensures IsSubsequence(r, nodes)
  {
    var isFriend := (n: Node) => n.id in ids;
    FilterCounts(nodes, isFriend);
    FilterIsSubsequence(nodes, isFriend);
    Filter(nodes, isFriend)
  }

  /** The names on the rows whose id is one of `ids`, one per row, in table order. */
  function FriendNames(nodes: seq<Node>, ids: seq<int>): (r: seq<string>)
    ensures |r| == |FriendRows(nodes, ids)|
    ensures forall k :: 0 <= k < |r| ==> r[k] == FriendRows(nodes, ids)[k].name
    ensures forall nm :: nm in r <==> exists n :: n in nodes && n.id in ids && n.name == nm
  {
    var rows := FriendRows(nodes, ids);
    assert forall nm :: nm in Names(rows) <==> exists k :: 0 <= k < |rows| && rows[k].name == nm;
    Names(rows)
  }

  /** Only which ids are listed matters, not their order or repetition. */
  lemma FriendNamesByMembership(nodes: seq<Node>, ids1: seq<int>, ids2: seq<int>)
    requires forall y :: y in ids1 <==> y in ids2
    ensures FriendNames(nodes, ids1) == FriendNames(nodes, ids2)
  {
    FilterCongruent(nodes, (n: Node) => n.id in ids1, (n: Node) => n.id in ids2);
  }

  /** Ids without a node row contribute no name. */
  lemma DanglingIdsContributeNothing(nodes: seq<Node>, ids: seq<int>)
    ensures FriendNames(nodes, ids) == FriendNames(nodes, Filter(ids, (y: int) => HasRow(nodes, y)))
  {
    var kept := Filter(ids, (y: int) => HasRow(nodes, y));
    forall n | n in nodes
      ensures (n.id in ids) == (n.id in kept)
    {
      var k :| 0 <= k < |nodes| && nodes[k] == n;
      assert Ids(nodes)[k] == n.id;
    }
    FilterCongruent(nodes, (n: Node) => n.id in ids, (n: Node) => n.id in kept);
  }

  /** The friend names of `x` are the names on the rows of heroes linked to `x`. */
  lemma FriendNamesOfLinked(nodes: seq<Node>, edges: seq<Edge>, x: int)
    ensures forall nm :: nm in FriendNames(nodes, FriendIds(edges, x)) <==>
              exists n :: n in nodes && Linked(edges, x, n.id) && n.name == nm
  {
  }

  /** What the report shows about the hero. */
  datatype Report = Report(addedOn: int, friendIds: seq<int>, friendNames: seq<string>)

  /** The report on the first row named 'dataiskole', or `None` when there is no such row. */
  function AnalyzeDataiskole(nodes: seq<Node>, edges: seq<Edge>): (r: Option<Report>)
    ensures r.None? <==> forall k :: 0 <= k < |nodes| ==> nodes[k].name != Dataiskole
    ensures r.Some? ==> var j := FirstIndex(Names(nodes), Dataiskole);
      && j < |nodes| && nodes[j].name == Dataiskole
      && r.value.addedOn == nodes[j].createdAt
      && NoDuplicates(r.value.friendIds)
      && (forall y :: y in r.value.friendIds <==> Linked(edges, nodes[j].id, y))
      && r.value.friendNames == FriendNames(nodes, r.value.friendIds)
      && (forall nm :: nm in r.value.friendNames <==> exists n :: n in nodes && Linked(edges, nodes[j].id, n.id) && n.name == nm)
  {
    var j := FirstIndex(Names(nodes), Dataiskole);
    if j == |nodes| then None
    else
      var friends := FriendIds(edges, nodes[j].id);
      FriendNamesOfLinked(nodes, edges, nodes[j].id);
      assert Names(nodes)[j] == nodes[j].name;
      Some(Report(nodes[j].createdAt, friends, FriendNames(nodes, friends)))
  }

  /** Each edge of `flipped` is the corresponding edge of `edges`, possibly reversed. */
  ghost predicate SameUpToDirection(edges: seq<Edge>, flipped: seq<Edge>)
  {
    |flipped| == |edges| &&
    forall i :: 0 <= i < |edges| ==> flipped[i] == edges[i] || flipped[i] == Edge(edges[i].target, edges[i].source)
  }

  lemma LinkedUpToDirection(edges: seq<Edge>, flipped: seq<Edge>, x: int, y: int)
    requires SameUpToDirection(edges, flipped)
    ensures Linked(edges, x, y) == Linked(flipped, x, y)
  {
  }

  /** Storing any edge the other way round changes neither the date, nor the set of friend ids,
      nor the friend names. */
  lemma ReportIgnoresDirection(nodes: seq<Node>, edges: seq<Edge>, flipped: seq<Edge>)
    requires SameUpToDirection(edges, flipped)
    ensures AnalyzeDataiskole(nodes, flipped).Some? == AnalyzeDataiskole(nodes, edges).Some?
    ensures AnalyzeDataiskole(nodes, edges).Some? ==>
              var a, b := AnalyzeDataiskole(nodes, edges).value, AnalyzeDataiskole(nodes, flipped).value;
              a.addedOn == b.addedOn && Elements(a.friendIds) == Elements(b.friendIds) && a.friendNames == b.friendNames
  {
    var j := FirstIndex(Names(nodes), Dataiskole);
    if j < |nodes| {
      var x := nodes[j].id;
      forall y
        ensures y in FriendIds(edges, x) <==> y in FriendIds(flipped, x)
      {
        LinkedUpToDirection(edges, flipped, x, y);
      }
      FriendNamesByMembership(nodes, FriendIds(edges, x), FriendIds(flipped, x));
    }
  }
}
