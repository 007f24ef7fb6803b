/** The statistics report of the superhero network: the distinct-hero count,
    the connection count, the heroes added recently, and the three most
    connected heroes with their names. */
module Stats {
  import opened Results
  import opened Sequences
  import opened Network

  /** A hero is recent when it was created at most this many days before today. */
  const RecentDays := 3

  /** The ranking keeps this many entries. */
  const TopCount: nat := 3

  /** Number of heroes: distinct ids, not rows. */
  function TotalSuperheroes(nodes: seq<Node>): (r: nat)
    ensures r == |Elements(Ids(nodes))|
    ensures r <= |nodes|
    ensures r == |nodes| <==> NoDuplicates(Ids(nodes))
  {
    UniqueLength(Ids(nodes));
    DistinctIff(Ids(nodes));
    ElementsBound(Ids(nodes));
    |Unique(Ids(nodes))|
  }

  /** A row whose id is already present adds nothing to the hero count; a row with a new id adds one. */
  lemma TotalSuperheroesAppend(nodes: seq<Node>, n: Node)
    ensures TotalSuperheroes(nodes + [n]) == TotalSuperheroes(nodes) + (if HasRow(nodes, n.id) then 0 else 1)
  {
    assert Ids(nodes + [n]) == Ids(nodes) + [n.id];
    assert Elements(Ids(nodes + [n])) == Elements(Ids(nodes)) + {n.id};
  }

  /** Number of connections: every edge row, duplicates and self-loops included. */
  function TotalConnections(edges: seq<Edge>): (r: nat)
    ensures 2 * r == |Endpoints(edges)|
  {
    |edges|
  }

  predicate IsRecent(n: Node, today: int)
  {
    n.createdAt >= today - RecentDays
  }

  /** The rows created on or after `today - RecentDays`, in table order; later dates are not excluded. */
  function RecentHeroes(nodes: seq<Node>, today: int): (r: seq<Node>)
    ensures forall n :: n in r <==> n in nodes && n.createdAt >= today - RecentDays
    ensures forall n :: multiset(r)[n] == if n.createdAt >= today - RecentDays then multiset(nodes)[n] else 0
    ensures IsSubsequence(r, nodes)
  {
    var recent := (n: Node) => IsRecent(n, today);
    FilterCounts(nodes, recent);
    FilterIsSubsequence(nodes, recent);
    Filter(nodes, recent)
  }

  /** Degree of an id: its occurrences among all sources followed by all targets. */
  function Degree(edges: seq<Edge>, id: int): (r: nat)
    ensures r == multiset(Sources(edges))[id] + multiset(Targets(edges))[id]
    ensures r > 0 <==> id in Endpoints(edges)
  {
    multiset(Endpoints(edges))[id]
  }

  /** How many ends of edge `e` are `id`: two for a self-loop on `id`. */
  function Ends(e: Edge, id: int): nat
  {
    (if e.source == id then 1 else 0) + (if e.target == id then 1 else 0)
  }

  /** Degree counted edge by edge: the reference definition. */
  function Incidence(edges: seq<Edge>, id: int): nat
  {
    if edges == [] then 0 else Incidence(edges[..|edges| - 1], id) + Ends(edges[|edges| - 1], id)
  }

  lemma {:induction false} DegreeIsIncidence(edges: seq<Edge>, id: int)
    ensures Degree(edges, id) == Incidence(edges, id)
  {
    if edges != [] {
      var init, last := edges[..|edges| - 1], edges[|edges| - 1];
      assert edges == init + [last];
      DegreeIsIncidence(init, id);
      EndpointsAppend(init, last);
    }
  }

  /** A `Counter` entry: an id and how often it was seen. */
  datatype Tally = Tally(id: int, count: nat)

  /** Entries ordered by where `xs` first mentions their ids. */
  ghost predicate InFirstSeenOrder(xs: seq<int>, ts: seq<Tally>)
  {
    forall i, j :: 0 <= i < j < |ts| ==> FirstIndex(xs, ts[i].id) < FirstIndex(xs, ts[j].id)
  }

  /** `Counter(xs)`: one entry per distinct value with its number of occurrences, in first-seen order. */
  function CounterOf(xs: seq<int>): (r: seq<Tally>)
    ensures |r| == |Elements(xs)|
    ensures forall t :: t in r <==> t.id in xs && t.count == multiset(xs)[t.id]
    ensures InFirstSeenOrder(xs, r)
  {
    var u := Unique(xs);
    UniqueLength(xs);
    UniqueInFirstSeenOrder(xs);
    var r := seq(|u|, k requires 0 <= k < |u| => Tally(u[k], multiset(xs)[u[k]]));
    assert forall t: Tally :: t.id in xs && t.count == multiset(xs)[t.id] ==> t == r[FirstIndex(u, t.id)];
    r
  }

  /** Index of the first entry with the largest count. */
  function BestIndex(ts: seq<Tally>): (r: nat)
    requires |ts| > 0
    ensures r < |ts|
    ensures forall k :: 0 <= k < |ts| ==> ts[k].count <= ts[r].count
    ensures forall k :: 0 <= k < r ==> ts[k].count < ts[r].count
  {
    if |ts| == 1 then 0
    else
      var j := BestIndex(ts[1..]) + 1;
      if ts[0].count >= ts[j].count then 0 else j
  }

  /** `most_common(n)`: the `n` largest counts, largest first, earlier entries first among equals. */
  function MostCommon(ts: seq<Tally>, n: nat): (r: seq<Tally>)
    ensures |r| == if n < |ts| then n else |ts|
    ensures forall t :: t in r ==> t in ts
    decreases |ts|
  {
    if n == 0 || ts == [] then []
    else
      var b := BestIndex(ts);
      [ts[b]] + MostCommon(RemoveAt(ts, b), n - 1)
  }

  /** The ranking order: higher count first, then earlier first appearance in `xs`. */
  ghost predicate Outranks(xs: seq<int>, a: Tally, b: Tally)
  {
    a.count > b.count || (a.count == b.count && FirstIndex(xs, a.id) < FirstIndex(xs, b.id))
  }

  /** `ts` without its entry at index `b`. */
  function RemoveAt(ts: seq<Tally>, b: nat): (r: seq<Tally>)
    requires b < |ts|
    ensures |r| == |ts| - 1
    ensures forall i :: 0 <= i < |r| ==> r[i] == ts[if i < b then i else i + 1]
  {
    ts[..b] + ts[b + 1..]
  }

  lemma RemoveAtInFirstSeenOrder(xs: seq<int>, ts: seq<Tally>, b: nat)
    requires b < |ts| && InFirstSeenOrder(xs, ts)
    ensures InFirstSeenOrder(xs, RemoveAt(ts, b))
  {
  }

  lemma RemoveAtMembers(ts: seq<Tally>, b: nat, t: Tally)
    requires b < |ts| && t in ts && t != ts[b]
    ensures t in RemoveAt(ts, b)
  {
  }

  /** The entry `BestIndex` picks outranks every other entry. */
  lemma BestOutranksRest(xs: seq<int>, ts: seq<Tally>)
    requires |ts| > 0 && InFirstSeenOrder(xs, ts)
    ensures forall t :: t in RemoveAt(ts, BestIndex(ts)) ==> Outranks(xs, ts[BestIndex(ts)], t)
  {
  }

  /** On entries in first-seen order, `MostCommon` lists its picks in ranking order. */
  lemma {:induction false} MostCommonSorted(xs: seq<int>, ts: seq<Tally>, n: nat)
    requires InFirstSeenOrder(xs, ts)
    ensures forall i, j :: 0 <= i < j < |MostCommon(ts, n)| ==> Outranks(xs, MostCommon(ts, n)[i], MostCommon(ts, n)[j])
    decreases |ts|
  {
    if n > 0 && ts != [] {
      var b := BestIndex(ts);
      var rest := RemoveAt(ts, b);
      RemoveAtInFirstSeenOrder(xs, ts, b);
      MostCommonSorted(xs, rest, n - 1);
      BestOutranksRest(xs, ts);
      var tail := MostCommon(rest, n - 1);
      var r := MostCommon(ts, n);
      assert r == [ts[b]] + tail;
      forall i, j | 0 <= i < j < |r|
        ensures Outranks(xs, r[i], r[j])
      {
        assert r[j] == tail[j - 1];
        if i > 0 {
          assert r[i] == tail[i - 1];
        }
      }
    }
  }

  /** On entries in first-seen order, each pick of `MostCommon` outranks every entry it did not pick. */
  lemma {:induction false} MostCommonTop(xs: seq<int>, ts: seq<Tally>, n: nat)
    requires InFirstSeenOrder(xs, ts)
    ensures forall t, k :: t in ts && t !in MostCommon(ts, n) && 0 <= k < |MostCommon(ts, n)| ==> Outranks(xs, MostCommon(ts, n)[k], t)
    decreases |ts|
  {
    if n > 0 && ts != [] {
      var b := BestIndex(ts);
      var rest := RemoveAt(ts, b);
      RemoveAtInFirstSeenOrder(xs, ts, b);
      MostCommonTop(xs, rest, n - 1);
      BestOutranksRest(xs, ts);
      var tail := MostCommon(rest, n - 1);
      var r := MostCommon(ts, n);
      assert r == [ts[b]] + tail;
      forall t, k | t in ts && t !in r && 0 <= k < |r|
        ensures Outranks(xs, r[k], t)
      {
        RemoveAtMembers(ts, b, t);
        if k > 0 {
          assert r[k] == tail[k - 1];
          assert t !in tail;
        }
      }
    }
  }

  /** `Counter(sources + targets).most_common(3)`. */
  function TopConnected(edges: seq<Edge>): (r: seq<Tally>)
    ensures |r| <= TopCount
    ensures forall k :: 0 <= k < |r| ==> r[k].id in Endpoints(edges) && r[k].count == Degree(edges, r[k].id)
  {
    MostCommon(CounterOf(Endpoints(edges)), TopCount)
  }

  predicate Listed(top: seq<Tally>, id: int)
  {
    exists k :: 0 <= k < |top| && top[k].id == id
  }

  /** The ranking: at most three distinct ids that occur in some edge, each with its degree,
      non-increasing in degree, ties in order of first appearance among sources then targets,
      and no unlisted id ranks above a listed one. */
  lemma TopConnectedSpec(edges: seq<Edge>)
    ensures var r, ep := TopConnected(edges), Endpoints(edges);
      && |r| == (if |Elements(ep)| < TopCount then |Elements(ep)| else TopCount)
      && (forall k :: 0 <= k < |r| ==> r[k].id in ep && r[k].count == Degree(edges, r[k].id) > 0)
      && (forall i, j :: 0 <= i < j < |r| ==> r[i].id != r[j].id && r[i].count >= r[j].count)
      && (forall i, j :: 0 <= i < j < |r| && r[i].count == r[j].count ==> FirstIndex(ep, r[i].id) < FirstIndex(ep, r[j].id))
      && (forall id :: id in ep && !Listed(r, id) ==>
            forall k :: 0 <= k < |r| ==> Outranks(ep, r[k], Tally(id, Degree(edges, id))))
  {
    var ep := Endpoints(edges);
    var c := CounterOf(ep);
    var r := TopConnected(edges);
    MostCommonSorted(ep, c, TopCount);
    MostCommonTop(ep, c, TopCount);
    forall id | id in ep && !Listed(r, id)
      ensures forall k :: 0 <= k < |r| ==> Outranks(ep, r[k], Tally(id, Degree(edges, id)))
    {
      var t := Tally(id, Degree(edges, id));
      assert t in c;
      assert t !in r;
    }
  }

  /** One line of the ranking as shown: a hero's name and its connection count. */
  datatype Ranked = Ranked(name: string, connections: nat)

  /** A ranked id has no node row: the tables disagree. */
  datatype StatsError = NameResolutionError(id: int)

  /** Names for the ranked ids, each from the first row with that id; fails on the first id without a row. */
  function ResolveNames(nodes: seq<Node>, top: seq<Tally>): (r: Result<seq<Ranked>, StatsError>)
    ensures r.Ok? <==> forall k :: 0 <= k < |top| ==> HasRow(nodes, top[k].id)
    ensures r.Ok? ==> |r.value| == |top| && forall k :: 0 <= k < |top| ==>
                        NameOfId(nodes, top[k].id) == Some(r.value[k].name) && r.value[k].connections == top[k].count
    ensures r.Err? ==> !HasRow(nodes, r.error.id) &&
                       exists k :: 0 <= k < |top| && top[k].id == r.error.id && forall j :: 0 <= j < k ==> HasRow(nodes, top[j].id)
  {
    if top == [] then Ok([])
    else
      match NameOfId(nodes, top[0].id)
      case None => Err(NameResolutionError(top[0].id))
      case Some(name) =>
        match ResolveNames(nodes, top[1..])
        case Err(e) => Err(e)
        case Ok(rest) => Ok([Ranked(name, top[0].count)] + rest)
  }

  /** Everything the statistics report shows; the ranking section can fail on its own. */
  datatype StatsReport = StatsReport(
    totalSuperheroes: nat,
    totalConnections: nat,
    recent: seq<Node>,
    top: Result<seq<Ranked>, StatsError>)

  function BasicStats(nodes: seq<Node>, edges: seq<Edge>, today: int): (r: StatsReport)
    ensures r.totalSuperheroes == |Elements(Ids(nodes))|
    ensures r.totalConnections == |edges|
    ensures forall n :: n in r.recent <==> n in nodes && n.createdAt >= today - RecentDays
    ensures forall n :: multiset(r.recent)[n] == if n.createdAt >= today - RecentDays then multiset(nodes)[n] else 0
    ensures IsSubsequence(r.recent, nodes)
    ensures r.top.Ok? <==> forall k :: 0 <= k < |TopConnected(edges)| ==> HasRow(nodes, TopConnected(edges)[k].id)
    ensures r.top.Ok? ==> |r.top.value| == |TopConnected(edges)| <= TopCount
    ensures r.top.Ok? ==> forall k :: 0 <= k < |r.top.value| ==>
              NameOfId(nodes, TopConnected(edges)[k].id) == Some(r.top.value[k].name) &&
              r.top.value[k].connections == Degree(edges, TopConnected(edges)[k].id)
    ensures r.top.Err? ==> !HasRow(nodes, r.top.error.id) && Listed(TopConnected(edges), r.top.error.id)
  {
    StatsReport(TotalSuperheroes(nodes), TotalConnections(edges), RecentHeroes(nodes, today),
                ResolveNames(nodes, TopConnected(edges)))
  }

  /** When every edge end has a node row, the ranking always resolves. */
  lemma ConsistentTablesResolve(nodes: seq<Node>, edges: seq<Edge>, today: int)
    requires forall id :: id in Endpoints(edges) ==> HasRow(nodes, id)
    ensures BasicStats(nodes, edges, today).top.Ok?
  {
  }

  /** Sum of the counts of a sequence of entries. */
  function TallySum(ts: seq<Tally>): nat
  {
    if ts == [] then 0 else TallySum(ts[..|ts| - 1]) + ts[|ts| - 1].count
  }

  /** Sum of the multiplicities in `m` of the values `us`. */
  function SumCounts(us: seq<int>, m: multiset<int>): nat
  {
    if us == [] then 0 else SumCounts(us[..|us| - 1], m) + m[us[|us| - 1]]
  }

  lemma {:induction false} TallySumOf(ts: seq<Tally>, us: seq<int>, m: multiset<int>)
    requires |ts| == |us|
    requires forall k :: 0 <= k < |ts| ==> ts[k] == Tally(us[k], m[us[k]])
    ensures TallySum(ts) == SumCounts(us, m)
  {
    if ts != [] {
      TallySumOf(ts[..|ts| - 1], us[..|us| - 1], m);
    }
  }

  lemma {:induction false} SumCountsAdd(us: seq<int>, m: multiset<int>, v: int)
    requires NoDuplicates(us)
    ensures SumCounts(us, m + multiset{v}) == SumCounts(us, m) + (if v in us then 1 else 0)
  {
    if us != [] {
      var init := us[..|us| - 1];
      assert us == init + [us[|us| - 1]];
      SumCountsAdd(init, m, v);
    }
  }

  lemma {:induction false} SumOverUnique(xs: seq<int>)
    ensures SumCounts(Unique(xs), multiset(xs)) == |xs|
  {
    if xs != [] {
      var init, last := xs[..|xs| - 1], xs[|xs| - 1];
      assert xs == init + [last];
      SumOverUnique(init);
      var u := Unique(init);
      SumCountsAdd(u, multiset(init), last);
      if last !in u {
        assert (u + [last])[..|u|] == u;
      }
    }
  }

  /** The counter's entries add up to twice the number of connections. */
  lemma Handshake(edges: seq<Edge>)
    ensures TallySum(CounterOf(Endpoints(edges))) == 2 * TotalConnections(edges)
  {
    var ep := Endpoints(edges);
    TallySumOf(CounterOf(ep), Unique(ep), multiset(ep));
    SumOverUnique(ep);
  }
}
