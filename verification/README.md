# Route statistics rendering of `linkerd routes`, modelled in Dafny

`linkerd routes` asks the control plane for per-route traffic statistics of a
resource. It then prints them as an aligned table or as a JSON array. This
project models the data-shaping core of that command (`cli/cmd/routes.go`):

- **Request building** (`RouteRequest`). `buildTopRoutesRequest` checks the
  destination options. `--to-service` is qualified to
  `<name>.<namespace>.svc.cluster.local`. `--to-service` and `--to-external`
  are mutually exclusive, and `--to-all` cannot be combined with either.
- **Aggregation** (`Aggregation`). The loop of `writeRouteStatsToBuffer`
  folds the response rows into a table keyed by route label. Rows without a
  stats payload are dropped. A later row for the same route replaces an
  earlier one.
- **Route ordering** (`RouteOrder`, `StringSort`, `Lex`). `sortRoutes` sorts
  the labelled routes ascending and puts the unlabeled route `""` last. It
  also computes the route column width: the byte length of the longest
  labelled route, but at least that of `[UNKNOWN]`.
- **Rendering** (`Render`). `printRouteTable` emits one line per ordered
  route. `printRouteJson` emits one entry per ordered route, using JSON null
  for missing values. The output-format switch picks between them, or
  reports "no traffic" for an empty table in table format.

Strings are `seq<char>` (Unicode scalar values). Go compares and measures
strings as bytes. For a label that is valid UTF-8, UTF-8 preserves code-point
order, so `Lex.Less` (lexicographic on code points) is the order
`sort.Strings` uses. Likewise `Lex.ByteLen` is the UTF-8 length, so the width
is exact for non-ASCII labels too.
Floating-point metrics are an opaque type parameter `F`. The helpers that
derive them are function-valued parameters (`Aggregation.Metrics`).

`--to-external` is stored in the same request field as `--to-service`
(`cli/cmd/routes.go:251`, `258-260`). So `Destination` has three variants:
`NoDestination`, `ToService(name)` and `ToAll`.

## Model

| member | source | states |
|---|---|---|
| `RouteOrder.SortRoutes` | cli/cmd/routes.go:269-288 | Every key of the map appears exactly once and nothing else does. The result is in display order: labelled routes strictly ascending, every labelled route before `""`. `""` is last exactly when it is a key. The width is the route width of the key set. |
| `RouteOrder.PartitionKeys` | cli/cmd/routes.go:270-282 | Visiting the keys in any order, the loop collects each labelled key exactly once. Its flag is set exactly when `""` is a key. The collected keys plus the flag account for every key. The width is the running maximum. |
| `RouteOrder.LongestKey` | cli/cmd/routes.go:271-281 | The running width is at least the floor and at least the byte length of every collected key. It equals the floor or the length of one of the keys. |
| `RouteOrder.LongestKeyIsRouteWidth` | cli/cmd/routes.go:271-281 | The running width over the labelled keys is the maximum of `len("[UNKNOWN]")` and every labelled key's length. `""` contributes nothing of its own. |
| `RouteOrder.AppendDefaultRoute` | cli/cmd/routes.go:283-286 | Sorting the distinct labelled keys and appending `""` when it was seen gives exactly those keys, in display order, with `""` last exactly when it was seen. |
| `RouteOrder.DisplayOrderUnique` | cli/cmd/routes.go:273-287 | Two sequences in display order with the same elements are equal. So the output does not depend on Go's random map iteration order. |
| `RouteOrder.RouteWidthUnique` | cli/cmd/routes.go:271-281 | The route width of a key set is uniquely determined. |
| `RouteOrder.DefaultRouteWidthIsNine` | cli/cmd/routes.go:29 | The sentinel `[UNKNOWN]` is 9 bytes long. |
| `RouteOrder.BeforeTransitive` | cli/cmd/routes.go:283-286 | The display order is transitive, including across the sentinel-last rule. |
| `RouteOrder.BeforeTotal` | cli/cmd/routes.go:283-286 | Any two different labels are ordered by the display order. |
| `RouteOrder.ExampleOrder` | cli/cmd/routes.go:269-288 | For the keys `""` and `/api/vote`, the display order is `["/api/vote", ""]`. |
| `StringSort.SortStrings` | cli/cmd/routes.go:283 | The result is ascending and a permutation (same multiset) of the input. |
| `StringSort.SortedUnique` | cli/cmd/routes.go:283 | Two ascending permutations of the same strings are equal. So any correct sort, including Go's, gives the modelled result. |
| `StringSort.SortDistinct` | cli/cmd/routes.go:283 | Sorting strings without duplicates gives a strictly ascending sequence without duplicates. |
| `Lex.LessTrichotomy` | cli/cmd/routes.go:283 | The string order is total. |
| `Lex.LessTransitive` | cli/cmd/routes.go:283 | The string order is transitive. |
| `Lex.LessAsymmetric` | cli/cmd/routes.go:283 | The string order is asymmetric. |
| `Lex.ByteLenBounds` | cli/cmd/routes.go:279-280 | A string's byte length is between its character count and four times that. It equals the character count exactly for ASCII strings. |
| `Aggregation.LastIndex` | cli/cmd/routes.go:109-111 | The index of the last row before `n` with stats for a route, or -1 exactly when no such row exists. |
| `Aggregation.AggregateRows` | cli/cmd/routes.go:107-121 | A route is in the table exactly when some row for it carries stats. Its entry is built from the last such row. |
| `Aggregation.AggregationContents` | cli/cmd/routes.go:109-121 | The same statement in terms of the rows: a route is a key exactly when some row carries stats for it, so rows without stats never produce a key. Each entry comes from the last contributing row. |
| `Aggregation.AggregateSnoc` | cli/cmd/routes.go:109-121 | Aggregating the rows equals aggregating all but the last row and then applying the last. A final row with stats therefore decides its route's entry. |
| `Aggregation.PrefixLastIndex` | cli/cmd/routes.go:109-111 | Extra rows after position `j` do not change the last contributing index below `j`. |
| `Render.DisplayRoute` | cli/cmd/routes.go:158-160 | The printed label is never empty. It is the route itself for a labelled route and `[UNKNOWN]` for `""`. |
| `Render.DisplayRouteRoundTrip` | cli/cmd/routes.go:196-198 | Reading a label back gives the route for every route except one literally named `[UNKNOWN]`. |
| `Render.DisplayRouteCollision` | cli/cmd/routes.go:196-198 | Two different routes get the same label only when one is `""` and the other is named `[UNKNOWN]`. |
| `Render.TableRowFor` | cli/cmd/routes.go:157-172 | A route with stats gets a full line with its display label and its stats. A route without stats gets a dash line whose label is printed raw. |
| `Render.TableRows` | cli/cmd/routes.go:156-173 | There is one line per route, and line `i` belongs to route `i`. |
| `Render.PrintRouteTable` | cli/cmd/routes.go:135-173 | The lines follow the display order of the table's keys, one per key, all full lines (never the dash branch). The route column has the route width. |
| `Render.JsonEntryFor` | cli/cmd/routes.go:193-207 | The entry's route is the display label. Its values are set exactly when the route has stats, and then they read back as the route's stats. Otherwise the service is empty and every value is null. |
| `Render.JsonEntries` | cli/cmd/routes.go:190-209 | There is one entry per route, and entry `i` belongs to route `i`. No routes gives the empty array. |
| `Render.PrintRouteJson` | cli/cmd/routes.go:188-209 | The entries follow the display order of the table's keys, one per key, and every entry reads back as its route's stats. An empty table gives `[]`. |
| `Render.RenderersAgree` | cli/cmd/routes.go:156-209 | A table line is full exactly when the JSON entry has values. Both then come from the same aggregated row: the line holds the unscaled row, and the entry reads back as it. Labels agree except for the dash line of `""`, printed raw in the table and as `[UNKNOWN]` in JSON. |
| `Render.WriteRouteStats` | cli/cmd/routes.go:106-133 | Table format (`table` or empty) reports no traffic exactly when no row has stats. Otherwise it prints the aggregated table: one full line per key in display order, with the route width. JSON format prints one entry per key of the aggregated table in display order, or `[]` when no row has stats. Any other format prints nothing. |
| `Render.NoTrafficIffEmpty` | cli/cmd/routes.go:125 | The aggregated table is empty exactly when no row carries stats. |
| `Render.ExampleRendering` | cli/cmd/routes.go:156-209 | For a table with `""` and `/api/vote`, the table shows `/api/vote` and then `[UNKNOWN]`. The JSON has the same order, and the `[UNKNOWN]` entry carries all of the `""` route's values. |
| `RouteRequest.QualifiedService` | cli/cmd/routes.go:244 | The qualified name is the service, a dot, the namespace and `.svc.cluster.local`, in that order. Its length is the sum of its parts. |
| `RouteRequest.DestinationFilter` | cli/cmd/routes.go:238-263 | It fails with the mutual-exclusion error exactly when both `--to-service` and `--to-external` are set. It fails with the `--to-all` error exactly when `--to-all` is combined with one of them. Otherwise it selects the qualified service, the external name, all destinations, or none. |
| `RouteRequest.ToServiceNamespaceNeedsToService` | cli/cmd/routes.go:239-245 | Without `--to-service`, `--to-service-namespace` has no effect. |
| `RouteRequest.BuildTopRoutesRequest` | cli/cmd/routes.go:218-266 | Errors take precedence in this order: output format, then resource resolution, then destination conflicts, then the parameter-conversion helper's own error. A built request names the resolved resource in the `--namespace` namespace. It carries the selected destination name or to-all, never both. |

## Left out

- Command and flag wiring, `newRoutesOptions` and the help text (`cli/cmd/routes.go:31-83`): command-line plumbing.
- `requestRouteStatsFromAPI` (`cli/cmd/routes.go:85-95`): the TopRoutes call and its two error paths are network transport.
- `renderRouteStats` and `renderStats` (`cli/cmd/routes.go:97-104`): buffer and tab-writer handling.
- The header line, the `tabwriter` alignment and the `fmt` number formats (`%.2f%%`, `%.1frps`, `%dms`, `%.f%%`) of the table (`cli/cmd/routes.go:137-154`, `161-171`): byte-level formatting of floating-point values. The model keeps each line's route label and the row it prints.
- The table scales the success rate and the TLS share by 100 before printing (`cli/cmd/routes.go:163`, `168`). The JSON carries the raw fractions (`cli/cmd/routes.go:201`, `206`). `FullRow.stats` holds the unscaled row, because floating-point multiplication is outside this model.
- `json.MarshalIndent` and its error log (`cli/cmd/routes.go:210-215`): the model keeps the entries, not their JSON text.
- Printing the no-traffic message to standard error and `os.Exit(0)` (`cli/cmd/routes.go:125-128`): process side effects, modelled as the `NoTraffic` report.
- `validateOutputFormat` and `util.BuildResource`: they are not part of this model. `BuildTopRoutesRequest` takes their outcomes as parameters.
- `util.BuildTopRoutesRequest`: not part of this model. The model's `Request` holds the parameters passed to it. Its possible error is the parameter `paramsError` of `RouteRequest.BuildTopRoutesRequest`.
- Route labels are assumed to be valid UTF-8. A Go string can hold any bytes, and for invalid UTF-8 neither the code-point order of `Lex.Less` nor `Lex.ByteLen` need match Go's byte order and `len`.
- `util.GetRequestRate`, `util.GetSuccessRate` and `util.GetPercentTls`: floating-point computations outside this model. They are the function parameters of `Metrics`, and their results have the opaque type `F`.
- Go's distinction between a nil and an empty slice has no counterpart in `seq`. Starting the JSON entries from an empty list corresponds to `JsonEntries` returning `[]` for no routes.
