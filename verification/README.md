# Delhi Metro route finder — a Dafny model

This project models the route-finding core of the Delhi Metro route finder (`Delhi_Metro.c`).
The model covers five parts:

- **Typed names.** A station name typed by the traveller is normalised: whitespace is dropped and ASCII capitals are lower-cased.
- **Lookup.** The normalised name is looked up by exact match in a table of station records.
- **Network building.** The network is built from ordered per-line station lists plus interchange pairs. Every write to the adjacency matrix is mirrored. Consecutive stops get an in-line weight of 10 minutes and interchanges a weight of 5. The "no edge" sentinel is 99999.
- **Search.** A Dijkstra search finds the route that is earliest in time and, among equally fast routes, has the fewest line changes.
- **Report.** The route is read back along the predecessor records and summarised as a value: station count, announced interchanges and travel time.

Modules follow the program's structure:

| module | file | models |
|---|---|---|
| `Text` | text.dfy | `normalize_input` and the "C"-locale `isspace`/`tolower` |
| `Metro` | metro.dfy | constants, the station record, the network, and `find_station_index` |
| `Builder` | builder.dfy | `create_metro_network`, over any configuration of lines and interchange pairs |
| `Paths` | paths.dfy | routes through the matrix, their cost in minutes and in line changes |
| `Search` | search.dfy | the search loop of `dijkstra_shortest_path` |
| `Report` | report.dfy | path reconstruction and the printed summary of `dijkstra_shortest_path` |
| `Planner` | planner.dfy | the "Find Shortest Route" menu action: normalise, look up, search |
| `Examples` | examples.dfy | a small excerpt of the table showing two behaviours of the program, and one typed query answered end to end |

The model follows the code as written, including where its behaviour is evidently unintended:

- **Shared stations are duplicated.** A station on several lines gets one record per line. Only the first record is ever found by lookup, so only it receives edges. Later records exist but are isolated (`Builder.DuplicateHasNoEdges`).
- **Interchanges usually write only a diagonal entry.** Every interchange in the table except dwarka/dwarkasec21 (`Delhi_Metro.c:271-276`) names the same station twice. Such a pair resolves to one record and writes only that record's diagonal entry (`Builder.SameNameLinkIsLoop`). The dwarka/dwarkasec21 pair is the only one that joins two records.
- **Unknown names are skipped silently.** An interchange whose name is missing is ignored without any error. The same guard protects each pair of consecutive stops, but there it always holds: every stop is itself a record, so its name is always found (`Builder.StopIsListed`).
- **Line changes come from record labels.** The search counts a change whenever the line labels of the two records of a step differ. The report announces an interchange only when the previous label is non-empty. The two counts agree whenever every label is non-empty (`Report.InterchangesAreLineChanges`).
- **No early exit.** The search does not stop when the destination is settled; it stops after one round fewer than the number of records, or earlier when no unvisited station is reachable. Ties between equally near stations go to the lowest index.
- **The matrix is n × n.** It is modelled over the records in use, not 200 × 200. Entries beyond the station count are never read by the program.

The search is proved correct on every network whose matrix is square, whose entries are 99999 or weights from 1 to 10, and which has at most 200 records. The builder proves its own output meets these conditions. Under them every finite time stays below 2000, so the 99999 sentinel is never reached by a real sum.

The proved results for a query between two found stations are:

- "no path" is answered exactly when the destination is unreachable;
- otherwise the route follows edges, starts and ends at the two records, and its time is the sum of its weights;
- no route between the same records is earlier in the (time, line changes) order.

## Model

| member | source | states |
|---|---|---|
| Text.ToLower | Delhi_Metro.c:44 | the result is never an ASCII capital, and it is whitespace exactly when the input is |
| Text.Normalize | Delhi_Metro.c:41-47 | the normalised name contains no whitespace and no capital, and is never longer than the input |
| Text.NormalizeIsLoweredNonSpace | Delhi_Metro.c:41-47 | normalising equals keeping the non-whitespace characters in order and lower-casing each one; this is an independent reference definition |
| Text.NormalizeConcat | Delhi_Metro.c:42-46 | the character-by-character loop distributes over concatenation |
| Text.KeyIsFixed | Delhi_Metro.c:41-47 | a name without whitespace or capitals normalises to itself |
| Text.BlankDropped | Delhi_Metro.c:42-46 | a whitespace character between two parts of a name is dropped, and each part is normalised on its own |
| Text.KeysAroundSpace | Delhi_Metro.c:42-46 | two keys separated by one whitespace character normalise to the two keys run together, so the separating space is lost |
| Text.NormalizeIdempotent | Delhi_Metro.c:41-47 | normalising a normalised name changes nothing |
| Text.NormalizeInput | Delhi_Metro.c:41-47 | the copy loop (skip whitespace, lower-case the rest) returns the normalised name |
| Metro.FindStation | Delhi_Metro.c:53-59 | -1 exactly when no record has the name; otherwise the index of the first record with exactly that name |
| Metro.NormalizedLookupHitsKeysOnly | Delhi_Metro.c:399-408 | looking up a normalised typed name lands either nowhere or on a record whose name has no whitespace and no capital |
| Metro.SpacedNameNeverFound | Delhi_Metro.c:399-408 | a record whose name contains whitespace is never the result of looking up any typed name |
| Builder.StationsOf | Delhi_Metro.c:181-188 | the table has one record per stop occurrence over all lines, and each record's index is its own position |
| Builder.StationPlacement | Delhi_Metro.c:181-188 | stop i of line l is record (stops of the earlier lines) + i, with that stop's name, that index and the line's label |
| Builder.RecordOrigin | Delhi_Metro.c:181-188 | every record is some stop of some line, at the position the line order gives |
| Builder.StopIsListed | Delhi_Metro.c:181-188 | every stop name of every line is found by lookup in the built table |
| Builder.LineWrites | Delhi_Metro.c:192-199 | the writes of one line join the first records of two found names, each with weight 10 |
| Builder.InLineWrites | Delhi_Metro.c:191-200 | the writes of all lines, line after line, join the first records of two found names, each with weight 10 |
| Builder.LinkWrites | Delhi_Metro.c:203-276 | the interchange writes, in the order the pairs are listed, join the first records of two found names, each with weight 5 |
| Builder.LineWriteListed | Delhi_Metro.c:192-199 | when both names of two consecutive stops are found, the line's writes touch the pair of their first records |
| Builder.InLineWriteListed | Delhi_Metro.c:191-200 | the same for any step of any line, among the writes of all lines |
| Builder.LineWriteOrigin | Delhi_Metro.c:192-199 | conversely, every entry a line's writes touch is the pair of first records of two consecutive stops of that line |
| Builder.InLineWriteOrigin | Delhi_Metro.c:191-200 | every entry the in-line writes touch is the pair of first records of two consecutive stops of some line |
| Builder.LinkWriteListed | Delhi_Metro.c:203-276 | when both names of an interchange pair are found, the interchange writes touch the pair of their first records |
| Builder.LinkWriteOrigin | Delhi_Metro.c:203-276 | conversely, every entry the interchange writes touch is the pair of first records of the two names of some listed pair |
| Builder.Connect | Delhi_Metro.c:193-197 | a mirrored write happens exactly when both names are found, between the first records of the two names, with the given weight |
| Builder.LastWeightSymmetric | Delhi_Metro.c:195-196 | because every write is mirrored, the weight left at (i, j) equals the weight left at (j, i) |
| Builder.Put | Delhi_Metro.c:196-197 | one mirrored write sets the entry and its mirror to the weight and changes nothing else |
| Builder.Apply | Delhi_Metro.c:196-197 | applying writes in order leaves each touched entry at the weight of the last write touching it, and every other entry unchanged |
| Builder.ApplyIsLastWeight | Delhi_Metro.c:66-71 | starting from the all-99999 matrix, each entry ends at the weight of the last write touching it, or 99999 if none does |
| Builder.LastWeightConcat | Delhi_Metro.c:190-276 | writes made later (the interchanges after all in-line edges) override earlier ones on the entries they touch, and leave the others unchanged |
| Builder.MatrixEntries | Delhi_Metro.c:190-276 | each matrix entry is 5 if an interchange touches it, else 10 if consecutive stops touch it, else 99999; the matrix is symmetric |
| Builder.Build | Delhi_Metro.c:63-279 | for a configuration that fits 200 records and the name and label buffers, the network is well formed and symmetric, every entry is 99999, 10 or 5, and the table is the per-stop record list |
| Builder.BuildAdjacency | Delhi_Metro.c:190-276 | a built entry is 5 when an interchange pair resolves to it, otherwise 10 when two consecutive stops resolve to it, otherwise 99999 |
| Builder.InLineEdge | Delhi_Metro.c:191-199 | consecutive stops of a line are joined, in both directions, between the first records of their names: weight 5 if an interchange covers that pair, 10 otherwise |
| Builder.PlainLineEdge | Delhi_Metro.c:191-199 | with no interchange pairs, consecutive stops of a line are joined both ways with weight 10 |
| Builder.PlainStep | Delhi_Metro.c:191-199 | the same, for two stops already known to resolve to records a and b: a and b are joined both ways with weight 10 |
| Builder.DuplicateHasNoEdges | Delhi_Metro.c:193-197 | a record that is not the first with its name has no edge in either direction |
| Builder.SameNameLinksOffDiagonal | Delhi_Metro.c:203-269 | off the diagonal, interchange pairs that name one station twice touch nothing that the other pairs do not |
| Builder.SameNameLinkIsLoop | Delhi_Metro.c:203-207 | an interchange naming one station twice sets only that record's diagonal entry (to 5); every off-diagonal entry equals the one built without such pairs |
| Builder.BuildKeyed | Delhi_Metro.c:181-188 | the corrected builder stores normalised names: same shape guarantees as the builder, and every record name is a lookup key |
| Builder.KeyedStopFound | Delhi_Metro.c:399-408 | with normalised table names, any spelling of a listed stop that normalises to the same key finds a record carrying that key |
| Builder.KeyedLookup | Delhi_Metro.c:399-408 | with normalised table names, lookup of a key succeeds exactly when some stop of the configuration normalises to that key |
| Paths.UniformCost | Delhi_Metro.c:320 | when every edge weighs w, a route's time is w times its number of steps |
| Paths.OnlyWayOut | Delhi_Metro.c:320 | when every edge weighs w, the start's only edge leads to h, and h is not the end, a route to the end costing at most 2w is exactly start, h, end |
| Paths.ExtendPath | Delhi_Metro.c:318-321 | adding one step to a route adds that edge's weight to its time, and adds 1 to its line changes exactly when the two labels differ |
| Paths.LastStep | Delhi_Metro.c:320 | the last step of a route adds at least one minute and never removes a line change |
| Paths.PrefixCheaper | Delhi_Metro.c:320 | with positive weights a proper prefix of a route takes strictly less time, and is never later in the (time, changes) order |
| Search.SelectNearest | Delhi_Metro.c:301-308 | returns -1 exactly when no unvisited station has a finite time; otherwise an unvisited station of minimal time, the lowest such index |
| Search.Relax | Delhi_Metro.c:314-330 | each record is kept or replaced by the step from u (unvisited, adjacent, strictly better in (time, changes)); afterwards no unvisited neighbour of u can still be improved through u; visited flags are unchanged |
| Search.NoPredecessorIsStart | Delhi_Metro.c:289-296 | a reached station with no predecessor is the start |
| Search.OnlyStartAtZero | Delhi_Metro.c:296 | every reached station other than the start has time at least 1 |
| Search.RoundKeepsInv | Delhi_Metro.c:299-331 | one round (select, mark visited, relax) keeps the search invariant: records chain back to the start, settled stations are no later than unsettled ones, and no step out of a settled station improves any record |
| Search.RoundOrderPair | Delhi_Metro.c:301-308 | after a round, every settled station is no later than every station still open, because the station settled was the nearest open one |
| Search.PathDominated | Delhi_Metro.c:299-331 | when the search ends, every route from the start ends at a reached station whose record is no later in the (time, changes) order than the route |
| Search.Dijkstra | Delhi_Metro.c:288-331 | the final records chain back to the start along edges, and no route from the start beats the record of its final station |
| Report.PrevChain | Delhi_Metro.c:339-344 | following predecessors from a reached station gives a route from the start to it whose time and line changes are exactly the station's record |
| Report.Interchanges | Delhi_Metro.c:348-359 | the announced interchanges are never negative, never more than the route's line changes, and at most one per step |
| Report.CountInterchanges | Delhi_Metro.c:348-359 | the report loop counts a step when the previous label is non-empty and differs from the next label |
| Report.InterchangesAreLineChanges | Delhi_Metro.c:352 | when no label on the route is empty, the announced interchanges equal the line changes the search minimised |
| Report.ShortestRoute | Delhi_Metro.c:333-366 | "no path" exactly when the destination is unreachable; otherwise the route is a best route, its station count is its length, its time is its cost, and its interchanges are those announced |
| Planner.FindRoute | Delhi_Metro.c:399-419 | "station not found" exactly when a normalised name has no record; "no route" exactly when both are found and the destination is unreachable; otherwise the best route between the two records, whose end records carry the normalised names |
| Planner.FindRouteKeyed | Delhi_Metro.c:399-419 | with the corrected builder, "station not found" exactly when no stop of the configuration normalises to a typed name's key |
| Planner.SameStationTrip | Delhi_Metro.c:296-366 | the best route from a station to itself is the one-stop route with time 0 and no interchanges |
| Examples.CivilLinesNotFound | Delhi_Metro.c:98 | in a table containing "civil lines", neither "civil lines" nor "Civil Lines" finds any record |
| Examples.CivilLinesFoundWhenKeyed | Delhi_Metro.c:98 | with normalised table names both spellings find the station |
| Examples.SampleEdges | Delhi_Metro.c:191-199 | in the excerpt both Yellow steps around rajivchowk (from patelchowk, on to newdelhi) use its Blue record with weight 10 |
| Examples.SampleEntry | Delhi_Metro.c:190-199 | every edge of the excerpt weighs 10 and is one of its four joined pairs: the Blue step and the three Yellow steps, each between first records |
| Examples.SampleWeights | Delhi_Metro.c:190-199 | the same for all edges of the excerpt at once |
| Examples.SampleDuplicateIsolated | Delhi_Metro.c:193-197 | in the excerpt the Yellow record of rajivchowk, a repeated name, has no edge at all |
| Examples.StraightRideCountsTwoInterchanges | Delhi_Metro.c:333-366 | newdelhi is reachable from patelchowk, and every best route between them is the ride through rajivchowk's Blue record, 20 minutes, announced with 2 interchanges although it stays on the Yellow line |
| Examples.OnlyRide | Delhi_Metro.c:333-366 | the same for any network with the excerpt's records whose edges are the excerpt's joined pairs |
| Examples.RideIsBest | Delhi_Metro.c:348-359 | in such a network a best route from patelchowk to newdelhi is that ride and announces 2 interchanges |
| Examples.PatelChowkToNewDelhi | Delhi_Metro.c:399-419 | typing "patelchowk" and "newdelhi" (both listed on Yellow, line 97) answers with the route patelchowk, rajivchowk (Blue), newdelhi: 20 minutes, 2 interchanges |

## Left out

- The menu loop, the "View All Stations" listing, all `printf` output and the `scanf` error recovery in `main` are not modelled. The query is modelled as `Planner.FindRoute` on the two typed lines.
- Reading the typed names with `fgets` is not modelled: the 49-character truncation, and the spill of a longer line into the next read. The query takes both names as already read, with the newline removed.
- Memory allocation and its failure paths (`malloc` returning NULL in `normalize_input` and `create_metro_network`) are not modelled, and neither is `free`.
- The literal eight-line Delhi table is not transcribed. The builder is modelled over any configuration of lines and interchange pairs, and `Examples` uses a two-line excerpt.
- `isspace` and `tolower` are modelled for the "C" locale only.
- Search.Dijkstra: requires matrix entries to be 99999 or 1..10 and at most 200 records, while the C function accepts any matrix. This is what makes the 99999 sentinel sound, and every network the builder produces meets it (`Builder.Build`).
- Builder.Build: requires the configuration to fit 200 records, names shorter than 50 characters and labels shorter than 20. Beyond those limits the C code overflows its fixed arrays, so no behaviour is modelled there.

## Findings

| source | as written | input that shows it | evidently intended | confidence | as-written member | corrected member |
|---|---|---|---|---|---|---|
| Delhi_Metro.c:98 | station names are stored with spaces ("civil lines", "vidhan sabha", "gtb nagar", "shastri park", "tis hazari", "shastri nagar", "kohat enclave", "dhaula kuan"), but every typed name is normalised without whitespace before the exact-match lookup | typing "civil lines" (or "Civil Lines") as source or destination answers "station not found" | table names stored in normalised form, so every listed station can be typed back | high; not executed | Metro.SpacedNameNeverFound, Examples.CivilLinesNotFound | Builder.KeyedLookup, Examples.CivilLinesFoundWhenKeyed |
