# FleetMatrix in Dafny

FleetMatrix is a logistics dashboard. It holds a fleet of vehicles (Truck,
Van or Pickup, each with a capacity in tons and a status) and a list of
client requests (a pickup, a drop, a weight and a priority). One button
runs the optimiser, which assigns vehicles to requests. The dashboard then
shows the assignments and several figures: total cost, a baseline cost and
the savings against it, total distance, fleet utilisation, and the idle
vehicles and unassigned requests.

This project models:

- the records and closed enumerations of the dashboard (`FleetTypes`);
- the optimiser that actually runs (`Optimizer`). It is a greedy
  first-fit matcher. Requests are taken in input order. Each request gets
  the first vehicle, in input order, whose id is not used yet and whose
  capacity covers the weight. Every distance, cost and total is rounded to
  cents, as the source rounds it;
- the route label `"pickup -> drop"` and how the route map reads it back
  with `split('->')` and `trim()` (`RouteLabel`);
- the sequential ids `V001`, `R002`, … handed to new entries (`IdGen`);
- the dashboard state (`Dashboard`). This covers the vehicle and request
  lists, adding and deleting, the Available filter in front of the
  optimiser, the loading / result / error transitions of an optimisation
  run, and the savings figures.

The optimiser draws random numbers. In the model the caller supplies them
as `draw: nat -> Sample`. The k-th assignment made uses `draw(k)`: six
numbers in [0, 1), in the order the source draws them. Properties that
depend on the range of the draws require `ValidSample` for every draw.

`MockOptimization` is the loop itself. It keeps the source's
`assignments` list and its `usedVehicles` and `assignedRequests` sets, and
it is proved equal to the specification function `Optimization`.
`Optimization` folds `Step` over the requests and then derives the metrics
in `Finish`. The lemmas about `Optimization` state what the matcher
guarantees.

The disabled Gemini prompt (services/geminiService.ts:131-136) asks for a
matching that minimises the total cost, with a separate first-fit
assignment as the baseline. The code that runs does something else: it
returns the first-fit matching itself as the optimised result, and sets
the baseline to 1.3 × its own total. This model follows the code.
`LargeVehicleFirst` and `SmallVehicleFirst` show that the result depends
on the order of the vehicles, so it is not an optimal matching.

The only entry point a caller uses, `runFleetOptimization`, returns the
mock result directly. The Gemini call that follows it in the source is
commented out and is not part of this model.

## Model

| member | source | states |
|---|---|---|
| FleetTypes.ParseStatus | types.ts:2-6 | a parsed status has exactly the parsed tag |
| FleetTypes.StatusTagRoundTrip | types.ts:2-6 | the three status tags 'Available', 'In Use', 'Under Maintenance' parse back to their status, so the set is closed and the tags distinct |
| FleetTypes.ParseVehicleType | types.ts:11 | a parsed vehicle type has exactly the parsed tag |
| FleetTypes.VehicleTypeTagRoundTrip | types.ts:11 | Truck, Van and Pickup parse back from their tags |
| FleetTypes.ParsePriority | types.ts:24 | a parsed priority has exactly the parsed tag |
| FleetTypes.PriorityTagRoundTrip | types.ts:24 | High, Medium and Low parse back from their tags |
| RouteLabel.Route | services/geminiService.ts:75 | the label is pickup, then exactly the 4 characters " -> ", then drop |
| RouteLabel.SplitArrow | components/maps/RouteMap.tsx:114 | `split('->')` gives at least one piece; no piece contains "->"; the first piece is a prefix of the input; there is a single piece exactly when the input has no "->", and that piece is the input |
| RouteLabel.SplitJoin | components/maps/RouteMap.tsx:114 | joining the pieces of any string with "->" gives the string back |
| RouteLabel.JoinSplit | components/maps/RouteMap.tsx:114 | pieces that contain no "->" come back unchanged from splitting their join, the inverse direction |
| RouteLabel.TrimStart | components/maps/RouteMap.tsx:114 | removes exactly the leading white space: a suffix of the input that does not start with white space |
| RouteLabel.TrimEnd | components/maps/RouteMap.tsx:119 | removes exactly the trailing white space: a prefix of the input that does not end with white space |
| RouteLabel.Trim | components/maps/RouteMap.tsx:114 | `trim()`: the result is no longer than the input and has no surrounding white space, and a string without surrounding white space is returned unchanged |
| RouteLabel.TrimSlice | components/maps/RouteMap.tsx:114-119 | `trim()` returns the contiguous slice of its input that starts right after the leading white space, and everything it cuts before and after that slice is white space |
| RouteLabel.PickupLabel | components/maps/RouteMap.tsx:114 | the pickup text is trimmed, and for a route without "->" it is the whole route trimmed |
| RouteLabel.DropLabel | components/maps/RouteMap.tsx:119 | a drop text exists exactly when the route contains "->", and it is trimmed |
| RouteLabel.RouteSplit | services/geminiService.ts:75 | splitting a label whose ends contain no "->" gives exactly [pickup + " ", " " + drop] |
| RouteLabel.RouteRoundTrip | components/maps/RouteMap.tsx:114-119 | the map's pickup and drop texts equal the request's pickup and drop when neither contains "->" and neither has surrounding white space |
| IdGen.DigitChar | App.tsx:65 | a digit character whose code is '0' plus the digit |
| IdGen.DigitValue | App.tsx:65 | the value of a digit character, inverse of DigitChar |
| IdGen.Decimal | App.tsx:65 | `toString()` of a natural number: non-empty, all digits, no leading zero unless the number is 0 |
| IdGen.DecimalRoundTrip | App.tsx:65 | reading the decimal form back gives the number |
| IdGen.PadStart | App.tsx:65 | `padStart`: the string kept as a suffix, length the larger of its length and the width, padded on the left with the fill character |
| IdGen.SequentialId | App.tsx:65-69 | `prefix + (n + 1).toString().padStart(3, '0')`: at least four characters, starting with the prefix |
| IdGen.SequentialIdShape | App.tsx:65-69 | a new id is the prefix letter followed by at least three digits whose value is the list length plus one, with no leading zero once it is longer than three digits (so the padding is minimal) |
| IdGen.SequentialIdInjective | App.tsx:65-69 | two lengths give the same id exactly when they are equal |
| Optimizer.Cents | services/geminiService.ts:76-77 | `Math.round(x * 100) / 100` lies in (x - 0.005, x + 0.005] and is a whole number of cents |
| Optimizer.CentsMonotone | services/geminiService.ts:108-111 | rounding to cents preserves order |
| Optimizer.CentsOfWhole | services/geminiService.ts:108-111 | whole numbers are unchanged by rounding |
| Optimizer.CentsIdempotent | services/geminiService.ts:108-111 | rounding an already rounded value changes nothing |
| Optimizer.CanTake | services/geminiService.ts:62-63 | the `find` test: the vehicle's id is not used and its capacity covers the weight (a definition; FirstFit and FirstFitChoice state what follows from it) |
| Optimizer.FirstFit | services/geminiService.ts:62-64 | `find`: the index of the first vehicle whose id is unused and whose capacity covers the weight; None exactly when no vehicle qualifies |
| Optimizer.Quote | services/geminiService.ts:67-86 | the pushed record carries the vehicle's id and name, the request's id and client name, the route label of its two locations, and a distance and a cost in whole cents |
| Optimizer.QuoteBounds | services/geminiService.ts:67-86 | with draws in [0, 1): the assignment carries the vehicle's and request's ids, distance in [10, 60], cost in [25, 170], coordinates within 0.05 of (40.7128, -74.0060) |
| Optimizer.KeysNotIn | services/geminiService.ts:98-104 | `filter(...).map(id)`: at most as long as the input, and an id is in it exactly when it is an input id that is not taken |
| Optimizer.KeysNotInAppend | services/geminiService.ts:98-104 | the filter keeps input order, since it distributes over concatenation |
| Optimizer.KeysNotInNothingTaken | services/geminiService.ts:98-104 | with nothing taken the filter is the plain list of ids, position by position |
| Optimizer.SumBy | services/geminiService.ts:93-95 | the `reduce` sum of one field over the assignments (a definition; SumAtLeast and SumAtMost bound it) |
| Optimizer.UtilizationOf | services/geminiService.ts:96-111 | NaN exactly when there are no vehicles, otherwise a whole number of cents |
| Optimizer.UtilizationShare | services/geminiService.ts:96 | utilisation is NaN exactly when there are no vehicles; otherwise it is within half a cent of 100 × used / total, 0 when none is used, 100 when all are used, and in [0, 100] |
| Optimizer.UtilizationMonotone | services/geminiService.ts:96 | using more vehicles never lowers utilisation |
| Optimizer.Step | services/geminiService.ts:61-90 | one iteration of the loop (a definition; FirstFitChoice states its effect) |
| Optimizer.Run | services/geminiService.ts:61-91 | the loop state after the first n requests (a definition; MockOptimization is proved to follow it, and RunConsistent proves its invariant) |
| Optimizer.RunConsistent | services/geminiService.ts:56-91 | after any number of requests the state is consistent: every assignment is explained by a feasible pick, picks follow request order, the used vehicles are pairwise distinct and make up `usedVehicles`, and the picked requests make up `assignedRequests` |
| Optimizer.Finish | services/geminiService.ts:93-114 | the result keeps the assignments as pushed, its three totals are whole numbers of cents, and the two id lists are no longer than the inputs |
| Optimizer.Optimization | services/geminiService.ts:55-115 | the loop followed by the metrics (a definition; the lemmas below state what it guarantees) |
| Optimizer.MockOptimization | services/geminiService.ts:55-115 | the loop over requests, with its mutable list and sets, returns exactly `Optimization` |
| Optimizer.RunFleetOptimization | services/geminiService.ts:117-124 | the entry point returns the mock optimiser's result |
| Optimizer.FinalState | services/geminiService.ts:56-91 | after the loop, the used-vehicle and assigned-request sets are the ids in the assignments, taken from the inputs, and there is one used vehicle per assignment |
| Optimizer.AssignmentsFeasible | services/geminiService.ts:61-89 | each assignment pairs an input vehicle whose capacity covers the weight with an input request, is priced from its own draw, and assignments follow request input order strictly, so no request position is served twice |
| Optimizer.VehiclesUsedOnce | services/geminiService.ts:57-88 | no vehicle id appears in two assignments |
| Optimizer.RequestsServedOnce | services/geminiService.ts:61-89 | with distinct request ids, no request id appears in two assignments |
| Optimizer.AssignmentCount | services/geminiService.ts:61-89 | there are no more assignments than requests, nor than vehicles |
| Optimizer.FirstFitChoice | services/geminiService.ts:62-66 | at its turn a request gets the earliest unused vehicle that is large enough, and it leaves the state unchanged exactly when no such vehicle exists |
| Optimizer.RequestPartition | services/geminiService.ts:98-100 | the input request ids split exactly and disjointly into the unassigned ids, in input order, and the assigned ids |
| Optimizer.VehiclePartition | services/geminiService.ts:102-104 | the input vehicle ids split exactly and disjointly into the idle ids, in input order, and the used ids |
| Optimizer.UtilizationBounds | services/geminiService.ts:96 | the utilisation field is the share of vehicles that received an assignment: NaN exactly without vehicles, otherwise in [0, 100] |
| Optimizer.SumAtLeast | services/geminiService.ts:93-95 | a sum of values each at least lo is at least n × lo |
| Optimizer.SumAtMost | services/geminiService.ts:93-95 | a sum of values each at most hi is at most n × hi |
| Optimizer.RoundedSumBounds | services/geminiService.ts:108-110 | a rounded sum of n values in whole bounds [lo, hi] lies in [n × lo, n × hi] |
| Optimizer.BaselineCoversTotal | services/geminiService.ts:94-109 | for a non-negative total, the rounded baseline is at least the rounded total |
| Optimizer.CostTotals | services/geminiService.ts:93-94 | the total is the rounded sum of the costs, and the baseline is the rounded 1.3 × that sum; with draws in [0, 1) the total lies in [25n, 170n], is at most the baseline, and is 0 exactly when nothing was assigned |
| Optimizer.DistanceTotals | services/geminiService.ts:95 | the total distance is the rounded sum of the distances, in [10n, 60n] |
| Optimizer.NoVehicles | services/geminiService.ts:55-115 | without vehicles nothing is assigned, the totals are 0, utilisation is NaN, every request is unassigned and no vehicle is idle |
| Optimizer.NoRequests | services/geminiService.ts:55-115 | without requests nothing is assigned, the cost, baseline and distance totals are 0, every vehicle is idle, and utilisation is 0 when vehicles exist |
| Optimizer.LargeVehicleFirst | services/geminiService.ts:61-66 | with the large vehicle listed first, the light request takes it and the heavy request stays unassigned, although a matching serving both exists |
| Optimizer.SmallVehicleFirst | services/geminiService.ts:61-66 | with the small vehicle listed first, both requests are served and no vehicle is idle |
| Dashboard.NewVehicle | App.tsx:65 | the new vehicle is Available and its id is "V" plus at least three digits that read back as the count plus one, with no leading zero beyond three digits |
| Dashboard.NewRequest | App.tsx:69 | the new request's id is "R" plus at least three digits that read back as the count plus one, with no leading zero beyond three digits |
| Dashboard.AddedVehicle | App.tsx:64-66 | adding keeps every existing vehicle and appends exactly the form's name, type, capacity, cost per km and fuel efficiency with status Available, under an id "V" plus at least three digits that read back as the new length, with no leading zero beyond three digits |
| Dashboard.AddedRequest | App.tsx:68-70 | adding keeps every existing request and appends exactly the form's client, pickup, drop, weight and priority, under an id "R" plus at least three digits that read back as the new length, with no leading zero beyond three digits |
| Dashboard.WithoutId | App.tsx:73 | `filter(x => x.id !== id)`: no remaining entry has the id, and every other entry is kept |
| Dashboard.WithoutIdAppend | App.tsx:73-77 | deletion keeps the remaining entries in order, since it distributes over concatenation |
| Dashboard.WithoutIdAbsent | App.tsx:73-77 | deleting an id that is not present leaves the list unchanged |
| Dashboard.WithoutIdIdempotent | App.tsx:73-77 | deleting the same id twice is deleting it once |
| Dashboard.AvailableOnly | App.tsx:52 | exactly the vehicles with status Available are kept, and only those |
| Dashboard.AvailableOnlyAppend | App.tsx:52 | the Available filter keeps input order |
| Dashboard.OnlyAvailableAssigned | App.tsx:52-55 | every assignment of a run names the id of a vehicle of the fleet whose status is Available |
| Dashboard.Savings | App.tsx:81 | 0 without a result; otherwise total cost plus savings is the baseline |
| Dashboard.SavingsPercentage | App.tsx:82 | non-zero only for a result with a positive baseline, and then the percentage times the baseline is 100 times the savings |
| Dashboard.SavingsPercentageBounds | App.tsx:81-82 | for a result whose total is non-negative and at most its baseline, the percentage lies in [0, 100], is below 100 when the total is positive, and is 0 when total and baseline are equal |
| Dashboard.MockSavings | App.tsx:81-82 | for the optimiser's result, savings are non-negative and within a cent of 30% of the summed costs; the percentage is 0 when nothing was assigned and below 100 otherwise |
| Dashboard.ErrorText | App.tsx:58 | the error shown is never empty: it is the message itself when the message is not empty, and exactly "An unknown error occurred." when it is empty |
| Dashboard.AppState.constructor | App.tsx:38-42 | the component starts with the initial lists, not loading, with no result and no error |
| Dashboard.AppState.AddVehicle | App.tsx:64-66 | appends the new vehicle for the current length and changes nothing else |
| Dashboard.AppState.AddRequest | App.tsx:68-70 | appends the new request for the current length and changes nothing else |
| Dashboard.AppState.DeleteVehicle | App.tsx:72-74 | replaces the vehicles by the list without the id and changes nothing else |
| Dashboard.AppState.DeleteRequest | App.tsx:76-78 | replaces the requests by the list without the id and changes nothing else |
| Dashboard.AppState.BeginOptimization | App.tsx:48-52 | starts loading, clears error and result, and hands the Available vehicles and all requests to the optimiser |
| Dashboard.AppState.SettleOptimization | App.tsx:54-61 | a resolved call stores the result and no error; a rejected call stores the message or the fallback text and no result; loading ends either way |
| Dashboard.AppState.HandleOptimization | App.tsx:47-62 | after a run loading is off and the lists are unchanged; without a rejection the result is the optimiser's result on the Available vehicles and the error is null, and with a rejection the error is set and there is no result |
| Dashboard.IdReuseAfterDelete | App.tsx:65-73 | after deleting V001 from [V001, V002], an add hands out V002 a second time |

## Left out

- The Gemini API client, the check for the API key at module load, the prompt and the response schema (services/geminiService.ts:2-52, 126-181). These are network calls into a foreign library, and the code that would make them is commented out.
- The `console.log` notice in `runFleetOptimization` (services/geminiService.ts:123). It is console output only.
- `Math.random`: the model replaces it with the caller-supplied `draw` function.
- IEEE floating point: numbers are exact reals. The JavaScript results can differ by floating-point error in the last digits, and `Math.round`'s handling of -0 is not modelled.
- `toFixed` formatting of the figures, and the display-only adjustments in the rendered page (the utilisation fudge factors and the cost-per-km figure in App.tsx).
- RouteLabel.IsSpace: `trim()` is modelled over the listed white-space characters only: the ASCII ones, NBSP, BOM, LINE SEPARATOR, PARAGRAPH SEPARATOR. The other Unicode space separators (U+1680, U+2000 to U+200A, U+202F, U+205F, U+3000) are not included.
- RouteLabel.DropLabel: a route without "->" gives None. In the source, `trim()` on the missing piece throws a TypeError while rendering.
- The route map's geometry, colours and scaling, the cost comparison chart, the modals, forms, icons and panels. These are presentation only.
- The initial vehicle and request lists come from data/mockData, which is not part of this model. The constructor takes them as parameters.
- React's hooks, memoisation and asynchronous scheduling. `HandleOptimization` runs the steps of one call in order and does not model two overlapping calls. The button is disabled while loading, and that is not modelled either.
- Dashboard.AppState.HandleOptimization: the optimiser that runs cannot reject. The `rejection` parameter stands in for a rejecting call, so the error path is modelled without a source of real errors.
- Vehicle and request ids need not be unique. The model keys the used sets by id, exactly as the source does. Of the general properties, only `RequestsServedOnce` requires distinct request ids, since with duplicates two requests sharing an id can both be served. The two vehicle-order scenarios, `LargeVehicleFirst` and `SmallVehicleFirst`, take distinct ids as part of their inputs.
