/** The aggregation loop of `writeRouteStatsToBuffer`: the rows of a
    TopRoutes response folded into a table keyed by route label. */
module Aggregation {
  import opened Wrappers

  /** The stats payload of a response row. The request, success and TLS
      counters are opaque (`C`); the latency percentiles are milliseconds. */
  datatype BasicStats<C> = BasicStats(counters: C, latencyMsP50: nat, latencyMsP95: nat, latencyMsP99: nat)

  /** One row of the response: a route label ("" for traffic no declared
      route matched), the destination, the row's time window and a stats
      payload that may be absent. */
  datatype RouteRow<C> = RouteRow(route: string, dst: string, timeWindow: string, stats: Option<BasicStats<C>>)

  /** The floating-point derivations the aggregation delegates to:
      request rate over the time window, success rate and TLS fraction. */
  datatype Metrics<!C, F> = Metrics(requestRate: (C, string) -> F, successRate: C -> F, percentTls: C -> F)

  /** One entry of the route table. */
  datatype RowStats<F> = RowStats(
    dst: string,
    requestRate: F,
    successRate: F,
    tlsPercent: F,
    latencyP50: nat,
    latencyP95: nat,
    latencyP99: nat)

  /** The table entry built from a row that carries stats: rates derived,
      latencies copied. */
  function ToRowStats<C, F>(r: RouteRow<C>, m: Metrics<C, F>): RowStats<F>
    requires r.stats.Some?
  {
    var s := r.stats.value;
    RowStats(r.dst, m.requestRate(s.counters, r.timeWindow), m.successRate(s.counters),
             m.percentTls(s.counters), s.latencyMsP50, s.latencyMsP95, s.latencyMsP99)
  }

  /** Row `i` carries stats for route `k`. */
  predicate Contributes<C>(rows: seq<RouteRow<C>>, i: int, k: string) {
    0 <= i < |rows| && rows[i].stats.Some? && rows[i].route == k
  }

  /** Row `i` is the last row before `n` that carries stats for route `k`. */
  predicate LastContributor<C>(rows: seq<RouteRow<C>>, n: int, i: int, k: string) {
    i < n && Contributes(rows, i, k) && forall j :: i < j < n ==> !Contributes(rows, j, k)
  }

  /** The index of the last of the first `n` rows that carries stats for
      route `k`, or -1 when none does. */
  function LastIndex<C>(rows: seq<RouteRow<C>>, n: nat, k: string): (i: int)
    requires n <= |rows|
    ensures -1 <= i < n
    ensures i >= 0 ==> LastContributor(rows, n, i, k)
    ensures i < 0 <==> forall j :: 0 <= j < n ==> !Contributes(rows, j, k)
    decreases n
  {
    if n == 0 then -1
    else if Contributes(rows, n - 1, k) then n - 1
    else LastIndex(rows, n - 1, k)
  }

  /** The body of the aggregation loop: a row with stats sets its route's
      entry, replacing any earlier one; a row without stats changes nothing. */
  function Absorb<C, F>(table: map<string, RowStats<F>>, r: RouteRow<C>, m: Metrics<C, F>): map<string, RowStats<F>>
  {
    if r.stats.Some? then table[r.route := ToRowStats(r, m)] else table
  }

  /** `table` is the aggregation of the first `n` rows: a route is present
      exactly when one of those rows carries stats for it, and its entry comes
      from the last such row. */
  ghost predicate AggregatedUpTo<C, F>(rows: seq<RouteRow<C>>, n: nat, table: map<string, RowStats<F>>, m: Metrics<C, F>)
    requires n <= |rows|
  {
    forall k :: (k in table <==> LastIndex(rows, n, k) >= 0)
                && (k in table ==> table[k] == ToRowStats(rows[LastIndex(rows, n, k)], m))
  }

  /** The loop of `writeRouteStatsToBuffer`. A route is in the table exactly
      when some row for it carries stats; rows without stats are dropped;
      when several rows share a route the last one wins. */
  method AggregateRows<C, F>(rows: seq<RouteRow<C>>, m: Metrics<C, F>) returns (table: map<string, RowStats<F>>)
    ensures AggregatedUpTo(rows, |rows|, table, m)
  {
    table := map[];
    var n := 0;
    while n < |rows|
      invariant 0 <= n <= |rows|
      invariant AggregatedUpTo(rows, n, table, m)
    {
      var r := rows[n];
      if r.stats.Some? {
        table := table[r.route := ToRowStats(r, m)];
      }
      n := n + 1;
    }
  }

  /** The same description in terms of the rows themselves: a route is in
      the table exactly when some row carries stats for it, and its entry is
      built from the last such row. */
  lemma AggregationContents<C, F>(rows: seq<RouteRow<C>>, table: map<string, RowStats<F>>, m: Metrics<C, F>)
    requires AggregatedUpTo(rows, |rows|, table, m)
    ensures forall k :: k in table <==> exists i :: Contributes(rows, i, k)
    ensures forall k :: k in table ==>
              exists i :: LastContributor(rows, |rows|, i, k) && table[k] == ToRowStats(rows[i], m)
  {
  }

  /** Aggregation is a left fold of `Absorb`: the table of the rows is the
      table of all rows but the last, with the last row absorbed. So a final
      row with stats decides its route's entry whatever came before. */
  lemma AggregateSnoc<C, F>(rows: seq<RouteRow<C>>, prev: map<string, RowStats<F>>, table: map<string, RowStats<F>>, m: Metrics<C, F>)
    requires |rows| > 0
    requires AggregatedUpTo(rows[..|rows| - 1], |rows| - 1, prev, m)
    requires AggregatedUpTo(rows, |rows|, table, m)
    ensures table == Absorb(prev, rows[|rows| - 1], m)
    ensures rows[|rows| - 1].stats.Some? ==>
              rows[|rows| - 1].route in table && table[rows[|rows| - 1].route] == ToRowStats(rows[|rows| - 1], m)
  {
    var n := |rows| - 1;
    var next := Absorb(prev, rows[n], m);
    forall k
      ensures k in table <==> k in next
      ensures k in table ==> table[k] == next[k]
    {
      PrefixLastIndex(rows, n, n, k);
      assert LastIndex(rows, n + 1, k) == if Contributes(rows, n, k) then n else LastIndex(rows, n, k);
    }
  }

  /** The last index below `j` is the same in the rows and in a prefix of
      them that contains the first `j`. */
  lemma {:induction false} PrefixLastIndex<C>(rows: seq<RouteRow<C>>, n: nat, j: nat, k: string)
    requires j <= n <= |rows|
    ensures LastIndex(rows[..n], j, k) == LastIndex(rows, j, k)
    decreases j
  {
    if j > 0 {
      assert rows[..n][j - 1] == rows[j - 1];
      PrefixLastIndex(rows, n, j - 1, k);
    }
  }
}
