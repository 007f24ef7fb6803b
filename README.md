# Superhero network — a Dafny model

The program keeps a small social graph of superheroes in two tables: node rows
`(id, name, created_at)` and edge rows `(source, target)`. It reports statistics
(distinct heroes, connections, heroes added in the last three days, the three
most connected heroes), reports on the hero named `dataiskole` (its date and
friends), and appends heroes and connections.

This project models the in-memory logic of `app/superhero_network.py`:

- `results.dfy` — `Option` and `Result`.
- `sequences.dfy` (module `Sequences`) — the table operations the queries use:
  boolean-mask filtering (`Filter`), first match (`FirstIndex`, the `iloc[0]`
  and `values[0]` of the source), and first-occurrence de-duplication
  (`Unique`, pandas' `unique()` and the key order of `Counter`).
- `network.dfy` (module `Network`) — the `Node` and `Edge` rows, the column
  projections, and the name/id lookups.
- `stats.dfy` (module `Stats`) — `basic_stats`: `nunique` of ids,
  `len(links)`, the recency mask, `Counter(sources + targets)`,
  `most_common(3)`, and name resolution of the ranked ids.
- `neighbours.dfy` (module `Neighbours`) — `analyze_dataiskole`.
- `store.dfy` (module `Store`) — the class `SuperheroStore` holding both
  tables, with `AddSuperhero` (`add_superhero`) and `AddConnection`
  (`add_connection`) as methods that append to them.

Dates are integer day numbers. The current date ("today") and the names the
program reads from the terminal are parameters.

How the model reads the source:

- `Counter.most_common(3)` is modelled by `MostCommon`. It repeatedly takes the
  first entry with the largest count. This gives the same result as a stable
  sort by descending count that keeps the first three. `Counter` keeps its
  keys in the order first seen in `sources + targets`. So among equal degrees,
  an id seen earlier in that concatenated list ranks first. "Earlier" compares
  an id's first position in the whole list: all sources, then all targets. It
  does not go edge by edge.
- A ranked id with no node row makes `values[0]` fail at line 83. The model
  returns `Err(NameResolutionError(id))` for the first such id, in the ranking
  section only. The totals and the recent list are produced in any case, as
  the source prints them before it reaches that line.
- `add_connection` with a name that matches several rows calls `int()` on a
  Series of more than one element, which raises before anything is written.
  The model returns `Err(Ambiguous)` and leaves the edges unchanged. A name
  with no match gives `Err(NotFound)`, again with the edges unchanged.

The program's behaviour on these points:

- Neighbours are not filtered to exclude the hero itself. A self-loop makes a
  hero its own friend.
- Friend names come out in node-table order, because the source filters the
  node table with `isin`. They are not in set-iteration order.
- Ties in the ranking are broken by first position in `sources + targets`, not
  by edge order.
- An empty node table gets no defined id from `add_superhero`: `max()` of an
  empty column is not an id. The model requires a non-empty table.

## Model

| member | source | states |
|---|---|---|
| `Stats.TotalSuperheroes` | app/superhero_network.py:63 | the hero count is the number of distinct ids, at most the row count, and equal to it exactly when no id repeats |
| `Stats.TotalSuperheroesAppend` | app/superhero_network.py:63 | a row whose id is already present adds nothing to the count; a row with a new id adds one |
| `Stats.TotalConnections` | app/superhero_network.py:64 | the connection count is the number of edge rows: half the number of edge ends |
| `Stats.Handshake` | app/superhero_network.py:64-78 | the counter's entries add up to twice the connection count |
| `Stats.RecentHeroes` | app/superhero_network.py:67-68 | exactly the rows with `created_at >= today - 3` (inclusive, no upper bound), each with all its occurrences, as a subsequence of the table in its order |
| `Stats.DegreeIsIncidence` | app/superhero_network.py:78 | the count over `sources + targets` equals the edge-by-edge count, in which a self-loop contributes two |
| `Network.Endpoints` | app/superhero_network.py:78 | all sources in edge order, followed by all targets in edge order: twice as many entries as edges |
| `Stats.Degree` | app/superhero_network.py:78 | the counter value of an id: its occurrences among sources plus those among targets, positive exactly when the id is an edge end |
| `Stats.CounterOf` | app/superhero_network.py:78 | one entry per distinct value with its number of occurrences, in first-seen order |
| `Stats.BestIndex` | app/superhero_network.py:79 | picks an entry with the largest count, and the first of several such |
| `Stats.MostCommon` | app/superhero_network.py:79 | at most `n` entries, all taken from the counter |
| `Stats.MostCommonSorted` | app/superhero_network.py:79 | the picks are in ranking order: higher count first, then earlier first appearance |
| `Stats.MostCommonTop` | app/superhero_network.py:79 | every pick outranks every entry that was not picked |
| `Stats.TopConnected` | app/superhero_network.py:78-79 | `top_3`: at most 3 entries, each an edge end paired with its degree |
| `Stats.TopConnectedSpec` | app/superhero_network.py:78-79 | the top list has min(3, distinct ids) entries, each an id occurring in some edge with its degree, with distinct ids and non-increasing degree; ties are ordered by first appearance in `sources + targets`; no unlisted id outranks a listed one |
| `Network.NameOfId` | app/superhero_network.py:83 | the name on the first row with the id, or none when no row has it |
| `Stats.ResolveNames` | app/superhero_network.py:82-84 | succeeds exactly when every ranked id has a row, giving the first row's name and the count for each; otherwise fails with the first ranked id that has no row |
| `Stats.BasicStats` | app/superhero_network.py:49-84 | the report's distinct-id count and row count; the recent rows with every occurrence, in table order; a ranking that resolves exactly when every ranked id has a row, giving one line per top id with the first row's name and the id's degree, and otherwise failing with a listed id that has no row |
| `Stats.ConsistentTablesResolve` | app/superhero_network.py:78-83 | when every edge end has a node row, the ranking never fails |
| `Sequences.Filter` | app/superhero_network.py:68 | a boolean mask keeps exactly the rows that pass, never more rows than the input |
| `Sequences.FilterCounts` | app/superhero_network.py:68 | a mask keeps every occurrence of a passing row and none of a failing one |
| `Sequences.FilterIsSubsequence` | app/superhero_network.py:68 | a mask keeps the table order |
| `Sequences.FirstIndex` | app/superhero_network.py:102-103 | the position of the first match, or the length when nothing matches |
| `Sequences.Unique` | app/superhero_network.py:109 | `unique()` has no duplicates and the same elements as its input |
| `Sequences.UniqueInFirstSeenOrder` | app/superhero_network.py:109 | `unique()` lists values in order of first occurrence |
| `Sequences.UniqueLength` | app/superhero_network.py:63 | the number of unique values is the number of distinct elements |
| `Sequences.DistinctIff` | app/superhero_network.py:63 | distinct count equals length exactly when nothing repeats |
| `Neighbours.TargetsFrom` | app/superhero_network.py:107 | exactly the targets of edges whose source is the hero |
| `Neighbours.SourcesTo` | app/superhero_network.py:108 | exactly the sources of edges whose target is the hero |
| `Neighbours.FriendIds` | app/superhero_network.py:107-109 | friend ids have no duplicates and are exactly the ids joined to the hero by an edge stored either way |
| `Neighbours.FriendIdsOutgoingFirst` | app/superhero_network.py:107-109 | ids reached through an edge stored as (hero, y) come before ids reached only through (y, hero) |
| `Neighbours.SelfLoopIsFriend` | app/superhero_network.py:107 | a self-loop makes the hero its own friend |
| `Neighbours.FriendRows` | app/superhero_network.py:114 | the rows whose id is a friend id, each with all its occurrences, in table order |
| `Neighbours.FriendNames` | app/superhero_network.py:114 | one name per friend row, in table order, so a name carried by several friend rows repeats |
| `Neighbours.FriendNamesByMembership` | app/superhero_network.py:114 | the names depend only on which ids are friends, not on their order or repetition |
| `Neighbours.DanglingIdsContributeNothing` | app/superhero_network.py:114 | dropping friend ids that have no row leaves the names unchanged |
| `Neighbours.FriendNamesOfLinked` | app/superhero_network.py:107-114 | the friend names are the names on the rows of heroes linked to the hero |
| `Neighbours.AnalyzeDataiskole` | app/superhero_network.py:100-117 | "not found" exactly when no row is named `dataiskole`; otherwise the first such row's date, its friend ids as above, and its friend names as `FriendNames` gives them for those ids |
| `Neighbours.ReportIgnoresDirection` | app/superhero_network.py:106-114 | storing any edge the other way round changes neither the outcome, the date, the set of friend ids, nor the friend names |
| `Network.IdsNamed` | app/superhero_network.py:193-194 | the ids of all rows with the name: one per such row, and only theirs |
| `Store.MaxId` | app/superhero_network.py:169 | an id of the table that no id exceeds |
| `Store.NextId` | app/superhero_network.py:169 | the new id exceeds every existing id, is one more than an existing id, and is carried by no row |
| `Store.SuperheroStore.constructor` | app/superhero_network.py:168 | the store holds the given node and edge tables |
| `Store.SuperheroStore.AddSuperhero` | app/superhero_network.py:168-173 | appends exactly one row `(max id + 1, name, today)`; earlier rows and the edges are unchanged |
| `Store.NewHeroCountedAndRecent` | app/superhero_network.py:169-172 | a new hero raises the distinct count by one and is recent on the day it is added |
| `Store.ConnectionFor` | app/superhero_network.py:193-201 | fails with NotFound exactly when a name matches no row, with Ambiguous exactly when both match and one matches several rows; otherwise the edge from the one row named `name1` to the one row named `name2` |
| `Store.SuperheroStore.AddConnection` | app/superhero_network.py:193-204 | on failure nothing changes; on success exactly `(id1, id2)` is appended after the unchanged prior edges, self-loops and duplicates included |
| `Store.NewConnectionCounted` | app/superhero_network.py:201-203 | an appended edge raises the connection count by one and each degree by the number of its ends equal to that id |

## Left out

- `load_data`, the `pd.read_csv` and `to_csv` calls, and `pd.to_datetime`: file I/O and date parsing. The tables are inputs and outputs of the model.
- `datetime.today()`: the current date is a parameter, and dates are day numbers with no calendar arithmetic.
- `draw_graph`: layout and rendering come from plotting libraries and are purely presentational.
- `menu`, `input()` and all printing: interactive dispatch. The prompted names are parameters. The messages ("No friends found", "not found") are represented by the values they are chosen from: an empty friend-id list, or `None`.
- `Stats.ResolveNames`: the source prints the names of the ranked ids before the first one with no row, then fails. The model returns only the error, not the partial output.
- `Store.SuperheroStore.AddSuperhero`: requires a non-empty node table, because `max()` of an empty id column gives no id.
- `Store.ConnectionFor`: does not reproduce pandas' 64-bit integer columns or how `int()` parses its argument. A name with several rows is reported as `Ambiguous` instead of a raised exception.
- `Store.NextId`: ids are unbounded integers, so `max + 1` never wraps around as a 64-bit column could.
- `Stats.MostCommon`: models the result of `most_common(3)`, not how `heapq` reaches it.
- `Neighbours.ReportIgnoresDirection`: flipping an edge can reorder the friend ids, since targets come before sources. Only their set is preserved; the friend names are preserved exactly.
- The two tables are rewritten in full on every mutation. Re-reading them from disk between operations is not modelled: the store holds the tables instead.
