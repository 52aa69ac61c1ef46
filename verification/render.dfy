/** The two renderers of `linkerd routes` and the output-format dispatch of
    `writeRouteStatsToBuffer`. Only the structure of the output is modelled:
    which rows or entries appear, in what order, with which label and which
    values. Column alignment, number formatting and JSON text are not. */
module Render {
  import opened Wrappers
  import opened RouteOrder
  import opened Aggregation

  /** The label printed for a route: the unlabeled route shows as the
      sentinel, every other route as itself. */
  function DisplayRoute(route: string): (shown: string)
    ensures shown != ""
    ensures route != "" ==> shown == route
    ensures route == "" ==> shown == DefaultRoute
  {
    if route == "" then DefaultRoute else route
  }

  /** Reading a label back: the sentinel stands for the unlabeled route. */
  function ParseRoute(shown: string): string
  {
    if shown == DefaultRoute then "" else shown
  }

  /** The label can be read back for every route except one literally named
      like the sentinel. */
  lemma DisplayRouteRoundTrip(route: string)
    ensures ParseRoute(DisplayRoute(route)) == route <==> route != DefaultRoute
  {
  }

  /** Two different routes share a label only when one is unlabeled and the
      other is literally named "[UNKNOWN]". */
  lemma DisplayRouteCollision(a: string, b: string)
    requires a != b && DisplayRoute(a) == DisplayRoute(b)
    ensures (a == "" && b == DefaultRoute) || (a == DefaultRoute && b == "")
  {
  }

  // ---------------------------------------------------------------------
  // Table output
  // ---------------------------------------------------------------------

  /** A table line: a route with its stats, or a route with dashes. */
  datatype TableRow<F> = FullRow(routeLabel: string, stats: RowStats<F>) | DashRow(routeLabel: string)

  /** The table: the route column's width and the lines under the header. */
  datatype RouteTable<F> = RouteTable(routeWidth: nat, rows: seq<TableRow<F>>)

  /** The line printed for one route. A route with stats gets a full line
      with its display label; a route without gets dashes, and its label is
      printed as it is, without the sentinel substitution. */
  function TableRowFor<F>(route: string, stats: map<string, RowStats<F>>): (row: TableRow<F>)
    ensures row.FullRow? <==> route in stats
    ensures row.FullRow? ==> row.routeLabel == DisplayRoute(route) && row.stats == stats[route]
    ensures row.DashRow? ==> row.routeLabel == route
  {
    if route in stats then FullRow(DisplayRoute(route), stats[route]) else DashRow(route)
  }

  /** The lines for a sequence of routes, one per route, in order. */
  function TableRows<F>(routes: seq<string>, stats: map<string, RowStats<F>>): (rows: seq<TableRow<F>>)
    ensures |rows| == |routes|
    ensures forall i :: 0 <= i < |routes| ==> rows[i] == TableRowFor(routes[i], stats)
    decreases |routes|
  {
    if |routes| == 0 then []
    else TableRows(routes[..|routes| - 1], stats) + [TableRowFor(routes[|routes| - 1], stats)]
  }

  /** `printRouteTable`: the rows of the table in display order, one full
      row per route of the table and no dash rows, with the route column as
      wide as `sortRoutes` computes. */
  method PrintRouteTable<F>(stats: map<string, RowStats<F>>) returns (table: RouteTable<F>, ghost order: seq<string>)
    ensures InDisplayOrder(order) && (forall k :: k in order <==> k in stats)
    ensures table.rows == TableRows(order, stats)
    ensures |table.rows| == |stats|
    ensures IsRouteWidth(stats.Keys, table.routeWidth)
    ensures forall i :: 0 <= i < |table.rows| ==> table.rows[i].FullRow?
  {
    var routes, width := SortRoutes(stats);
    order := routes;
    table := RouteTable(width, TableRows(routes, stats));
  }

  // ---------------------------------------------------------------------
  // JSON output
  // ---------------------------------------------------------------------

  /** One element of the JSON array. A `None` field is a JSON null. */
  datatype JsonEntry<F> = JsonEntry(
    route: string,
    service: string,
    success: Option<F>,
    rps: Option<F>,
    latencyMsP50: Option<nat>,
    latencyMsP95: Option<nat>,
    latencyMsP99: Option<nat>,
    tls: Option<F>)

  /** The entry for one route: the display label, then either every value of
      the route's stats or, for a route without stats, an empty service and
      nulls. */
  function JsonEntryFor<F>(route: string, stats: map<string, RowStats<F>>): (e: JsonEntry<F>)
    ensures e.route == DisplayRoute(route)
    ensures route in stats <==> e.success.Some?
    ensures route in stats ==> EntryStats(e) == Some(stats[route])
    ensures route !in stats ==> e == JsonEntry(DisplayRoute(route), "", None, None, None, None, None, None)
  {
    var entry := JsonEntry(DisplayRoute(route), "", None, None, None, None, None, None);
    if route in stats then
      var row := stats[route];
      entry.(service := row.dst, success := Some(row.successRate), rps := Some(row.requestRate),
             latencyMsP50 := Some(row.latencyP50), latencyMsP95 := Some(row.latencyP95),
             latencyMsP99 := Some(row.latencyP99), tls := Some(row.tlsPercent))
    else entry
  }

  /** Reading the stats back out of an entry whose fields are all set. */
  function EntryStats<F>(e: JsonEntry<F>): Option<RowStats<F>>
  {
    if e.success.Some? && e.rps.Some? && e.tls.Some? && e.latencyMsP50.Some?
       && e.latencyMsP95.Some? && e.latencyMsP99.Some?
    then Some(RowStats(e.service, e.rps.value, e.success.value, e.tls.value,
                       e.latencyMsP50.value, e.latencyMsP95.value, e.latencyMsP99.value))
    else None
  }

  /** The entries for a sequence of routes, appended one per route, in order;
      the list starts empty, so no routes gives an empty array. */
  function JsonEntries<F>(routes: seq<string>, stats: map<string, RowStats<F>>): (entries: seq<JsonEntry<F>>)
    ensures |entries| == |routes|
    ensures forall i :: 0 <= i < |routes| ==> entries[i] == JsonEntryFor(routes[i], stats)
    decreases |routes|
  {
    if |routes| == 0 then []
    else JsonEntries(routes[..|routes| - 1], stats) + [JsonEntryFor(routes[|routes| - 1], stats)]
  }

  /** `printRouteJson`: one entry per route of the table in display order,
      every field set; an empty table gives an empty array. */
  method PrintRouteJson<F>(stats: map<string, RowStats<F>>) returns (entries: seq<JsonEntry<F>>, ghost order: seq<string>)
    ensures InDisplayOrder(order) && (forall k :: k in order <==> k in stats)
    ensures entries == JsonEntries(order, stats)
    ensures |entries| == |stats|
    ensures forall i :: 0 <= i < |entries| ==> EntryStats(entries[i]) == Some(stats[order[i]])
  {
    var routes, _ := SortRoutes(stats);
    order := routes;
    entries := JsonEntries(routes, stats);
  }

  /** The two renderers agree on every route: a full table row exactly when
      the JSON entry has values, with the same values; the labels agree
      except for a dash row of the unlabeled route, which the table prints
      raw and the JSON prints as the sentinel. */
  lemma RenderersAgree<F>(routes: seq<string>, stats: map<string, RowStats<F>>, i: int)
    requires 0 <= i < |routes|
    ensures TableRows(routes, stats)[i].FullRow? <==> EntryStats(JsonEntries(routes, stats)[i]).Some?
    ensures TableRows(routes, stats)[i].FullRow? ==>
              Some(TableRows(routes, stats)[i].stats) == EntryStats(JsonEntries(routes, stats)[i])
    ensures (TableRows(routes, stats)[i].routeLabel == JsonEntries(routes, stats)[i].route)
            <==> (routes[i] in stats || routes[i] != "")
  {
  }

  // ---------------------------------------------------------------------
  // Output-format dispatch
  // ---------------------------------------------------------------------

  /** What `writeRouteStatsToBuffer` produces: the "no traffic" diagnostic
      (printed to standard error before exiting with status 0), a table, a
      JSON array, or nothing for a format it does not know. */
  datatype Report<F> = NoTraffic | Table(table: RouteTable<F>) | Json(entries: seq<JsonEntry<F>>) | NoOutput

  /** `writeRouteStatsToBuffer`: aggregates the rows, then renders them in
      the requested format. An empty table is a diagnostic in table format
      and an empty array in JSON. `order` is the display order the renderer
      walked. */
  method WriteRouteStats<C, F>(rows: seq<RouteRow<C>>, m: Metrics<C, F>, outputFormat: string)
    returns (report: Report<F>, ghost stats: map<string, RowStats<F>>, ghost order: seq<string>)
    ensures AggregatedUpTo(rows, |rows|, stats, m)
    ensures outputFormat == "table" || outputFormat == "" ==>
              && (report.NoTraffic? <==> forall i :: 0 <= i < |rows| ==> rows[i].stats.None?)
              && (report.NoTraffic? || report.Table?)
    ensures outputFormat == "json" ==>
              && report.Json?
              && ((forall i :: 0 <= i < |rows| ==> rows[i].stats.None?) ==> report.entries == [])
    ensures outputFormat != "table" && outputFormat != "" && outputFormat != "json" ==> report == NoOutput
    ensures report.Table? || report.Json? ==> InDisplayOrder(order) && (forall k :: k in order <==> k in stats)
    ensures report.Table? ==>
              && report.table.rows == TableRows(order, stats)
              && |report.table.rows| == |stats|
              && (forall i :: 0 <= i < |report.table.rows| ==> report.table.rows[i].FullRow?)
              && IsRouteWidth(stats.Keys, report.table.routeWidth)
    ensures report.Json? ==> report.entries == JsonEntries(order, stats) && |report.entries| == |stats|
  {
    var table := AggregateRows(rows, m);
    stats := table;
    order := [];
    NoTrafficIffEmpty(rows, table, m);
    if outputFormat == "table" || outputFormat == "" {
      if |table| == 0 {
        report := NoTraffic;
      } else {
        var t, o := PrintRouteTable(table);
        report := Table(t);
        order := o;
      }
    } else if outputFormat == "json" {
      var entries, o := PrintRouteJson(table);
      report := Json(entries);
      order := o;
    } else {
      report := NoOutput;
    }
  }

  /** The aggregated table is empty exactly when no row carries stats. */
  lemma NoTrafficIffEmpty<C, F>(rows: seq<RouteRow<C>>, table: map<string, RowStats<F>>, m: Metrics<C, F>)
    requires AggregatedUpTo(rows, |rows|, table, m)
    ensures |table| == 0 <==> forall i :: 0 <= i < |rows| ==> rows[i].stats.None?
  {
    if i :| 0 <= i < |rows| && rows[i].stats.Some? {
      assert Contributes(rows, i, rows[i].route);
      assert LastIndex(rows, |rows|, rows[i].route) >= 0;
      assert rows[i].route in table;
    }
  }

  /** The worked example of a table holding the labelled route "/api/vote"
      and the unlabeled route: "/api/vote" is shown first, then the
      unlabeled route as "[UNKNOWN]", with all its values, in both formats. */
  lemma ExampleRendering<F>(stats: map<string, RowStats<F>>, order: seq<string>)
    requires stats.Keys == {"", "/api/vote"}
    requires InDisplayOrder(order) && (forall k :: k in order <==> k in stats)
    ensures order == ["/api/vote", ""]
    ensures TableRows(order, stats) == [FullRow("/api/vote", stats["/api/vote"]), FullRow("[UNKNOWN]", stats[""])]
    ensures |JsonEntries(order, stats)| == 2
    ensures JsonEntries(order, stats)[0].route == "/api/vote"
    ensures JsonEntries(order, stats)[1].route == "[UNKNOWN]"
    ensures EntryStats(JsonEntries(order, stats)[1]) == Some(stats[""])
  {
    ExampleOrder(order);
  }
}
