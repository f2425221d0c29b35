# TransitTimer — a verified model of its schedule and dial logic

TransitTimer is a SwiftUI client for TriMet arrivals. It fetches a
schedule of arrivals and stops. It keeps the arrivals that have a live
estimate, sorts them by scheduled time and groups them by stop. It then
draws each stop's arrivals in two ways:

- as concentric coloured bands on a dial, each sweeping an arc that
  shrinks as the vehicle approaches;
- as a scrolling list, whose rows fade as they pass under the top of the
  scroll view.

This project models the logic beneath those screens and proves what it
promises.

- `wrappers.dfy` — `Option`, used for Swift optionals.
- `decimal.dfy` (`Decimal`) — `String(_: Int)` for route IDs. It comes with
  an inverse parser, and their round trip is proved.
- `text_search.dfy` (`TextSearch`) — Foundation's `range(of:)`, with and
  without `.caseInsensitive`, as a first-occurrence search. It is
  specified against a "matches at position i" predicate.
- `group_sizes.dfy` (`GroupSizes`) — the total size of the groups of a
  grouping dictionary, with the lemma that appending one element to one
  group adds one.
- `models.dfy` (`Models`) — Models.swift:
  - the entities (`Arrival`, `Stop`, `Route`, `Status`, …);
  - the route tables `isRail`, `iconName` and `symbol`;
  - `Arrival.displayName`;
  - `Schedule` as a class whose `PostProcess` method fills in the two
    derived indexes. The filter, sort and grouping are pure functions with
    their own lemmas.
- `content_view.dfy` (`ContentView`) — ContentView.swift:
  - `rowVisibility`, `rowOpacity` and `arrivalOpacities` over an explicit
    `frames` map;
  - the dial layout (`ringSpace`, the `cumulativeRingSpace` loop,
    `totalRingSpace`, `ringRadius` and `ringWidth`);
  - `ringAngle`, as a method that clamps a local variable;
  - the "Now" cut-off of the arrival row;
  - `RingArc`'s start and end angles;
  - the frame-merging `reduce` of the preference key.

Dates are real numbers of seconds, and `timeIntervalSince` is a
subtraction. Lengths and angles are reals. A measured `CGRect` is reduced
to its standardized vertical edges `(minY, maxY)`. `Dictionary` is a Dafny
`map`. Arrays are sequences.

Three edge cases of the source are modelled as written and stated as lemmas:

- When the scroll view's inset top edge lies exactly on a row's bottom
  edge, the row's opacity is 1, although the row is entirely above that
  edge. Its visibility is 1 too when the row ends at or above the scroll
  view's bottom edge; when that edge cuts the row, the part above it
  counts (`ContentView.TopOnBottomEdge`).
- When a row's top edge lies exactly on the scroll view's bottom edge, a
  row starting at or below the inset top, or ending exactly on it, has
  visibility 1, although none of it is inside the scroll view
  (`ContentView.RowOnBottomEdge`).
- A row below the scroll view's bottom edge that starts at or below the
  inset top has visibility 0 but opacity 1 (`ContentView.BelowViewport`).

## Model

| member | source | states |
|---|---|---|
| Models.IsRail | TransitTimer/Models.swift:101-106 | a route is rail exactly when its ID is one of 90, 100, 190, 193, 194, 200, 203, 208, 250 |
| Models.IconName | TransitTimer/Models.swift:108-110 | the icon is "tram.fill" exactly for rail routes and "bus.fill" exactly for the others |
| Models.Symbol | TransitTimer/Models.swift:112-125 | the nine named IDs get a fixed name starting with a capital letter; every other ID gets `String(routeID)`, its canonical decimal form (`Decimal.IntToString`). `SymbolFallsBackToDecimal` and `SymbolInjective` carry the rest |
| Models.SymbolFallsBackToDecimal | TransitTimer/Models.swift:112-125 | outside the nine named IDs the symbol is the canonical decimal string of the ID, which parses back to the ID; the nine fixed names never parse as a number |
| Models.SymbolInjective | TransitTimer/Models.swift:112-125 | two different routes never show the same symbol |
| Models.SymbolExamples | TransitTimer/Models.swift:101-125 | rail route 250 shows "250"; bus route 195 shows "B" |
| Models.DisplayName | TransitTimer/Models.swift:61-78 | the name is a suffix of the sign. The arrival's route (`RouteOf`, lines 61-63) is `Route(routeID)`. For a rail sign containing " to " under case folding, it starts just after the first such occurrence. Otherwise, if the sign has a double space, it starts just after the first one. Otherwise it is the whole sign |
| Models.DisplayNameRailExample | TransitTimer/Models.swift:71-72 | rail sign "Red to Airport" is shown as "Airport" |
| Models.DisplayNameCaseExample | TransitTimer/Models.swift:67-72 | " TO " also cuts a rail sign: "Blue TO Gresham" is shown as "Gresham" |
| Models.DisplayNameBusExample | TransitTimer/Models.swift:73-74 | bus sign "12  Main St" is shown as "Main St" |
| Models.DisplayNameWholeExample | TransitTimer/Models.swift:69-77 | a bus sign with " to " but no double space is kept whole |
| Models.FilterEstimated | TransitTimer/Models.swift:31-32 | the filter keeps only estimated arrivals and never lengthens the list; `FilterEstimatedCounts` states exactly which arrivals it keeps |
| Models.FilterEstimatedCounts | TransitTimer/Models.swift:31-32 | the filter keeps each estimated arrival as often as it occurs and drops every other arrival |
| Models.InsertByDate | TransitTimer/Models.swift:33-34 | inserting adds exactly the one arrival |
| Models.InsertByDateSorted | TransitTimer/Models.swift:33-34 | inserting into a date-ordered sequence keeps it ordered |
| Models.SortByDate | TransitTimer/Models.swift:33-34 | the result is ordered by scheduled date and is a permutation of the input |
| Models.SortTwoOutOfOrder | TransitTimer/Models.swift:33-34 | two arrivals given latest first come out earliest first |
| Models.ArrivalsAtCounts | TransitTimer/Models.swift:30-37 | one stop's group holds each arrival at that stop as often as it occurs, and nothing else |
| Models.ArrivalsAtSorted | TransitTimer/Models.swift:30-37 | selecting one stop's arrivals from an ordered sequence keeps them ordered |
| Models.ArrivalsAtAbsentStop | TransitTimer/Models.swift:30-37 | a stop no arrival names has an empty selection |
| Models.ArrivalsAtAppend | TransitTimer/Models.swift:30-37 | a new last arrival goes to the end of its own stop's selection and changes no other |
| Models.GroupByStop | TransitTimer/Models.swift:30-37 | the keys are exactly the stop IDs that occur; `GroupByStopContents`, `GroupByStopKeepsOrder` and `GroupByStopSizes` state the groups' contents, order and sizes |
| Models.GroupByStopContents | TransitTimer/Models.swift:30-37 | the keys are the stop IDs that occur; no group is empty; each group holds its stop's arrivals with their multiplicity |
| Models.GroupByStopKeepsOrder | TransitTimer/Models.swift:30-37 | grouping an ordered sequence gives ordered groups |
| Models.GroupByStopAppend | TransitTimer/Models.swift:30-37 | grouping one more arrival appends it to its stop's group, creating the group if it is new |
| Models.GroupByStopSizes | TransitTimer/Models.swift:30-37 | the group sizes add up to the number of arrivals grouped |
| Models.StopsByID | TransitTimer/Models.swift:40 | with distinct stop IDs, the index has exactly the stop IDs as keys and maps each stop's ID to that stop |
| Models.ArrivalsByStop | TransitTimer/Models.swift:30-38 | each stop's list is ordered by scheduled date; the `ArrivalsByStop*` lemmas below state its keys, contents and sizes |
| Models.ArrivalsByStopCount | TransitTimer/Models.swift:29-38 | under stop k, an arrival occurs as often as in the input if it is estimated and at k, and otherwise never |
| Models.ArrivalsByStopCounts | TransitTimer/Models.swift:29-38 | the counting statement for every stop and every arrival at once |
| Models.ArrivalsByStopMembers | TransitTimer/Models.swift:29-38 | every listed arrival is estimated and listed under its own stop ID |
| Models.ArrivalListed | TransitTimer/Models.swift:29-38 | an estimated input arrival is listed under its stop |
| Models.ArrivalsByStopComplete | TransitTimer/Models.swift:29-38 | the stops listed are exactly those of the estimated arrivals, and each estimated arrival is listed under its stop |
| Models.ArrivalsByStopSorted | TransitTimer/Models.swift:33-37 | each stop's list is ordered by scheduled date |
| Models.ArrivalsByStopSizes | TransitTimer/Models.swift:29-38 | the list lengths add up to the number of estimated arrivals |
| Models.GroupTwoAtOneStop | TransitTimer/Models.swift:30-37 | two arrivals at one stop form one group in input order |
| Models.ArrivalsByStopExample | TransitTimer/Models.swift:29-38 | two estimated arrivals and one scheduled arrival at a stop give that stop the two estimated ones, earliest first |
| Models.Schedule.constructor | TransitTimer/Models.swift:21-27 | a decoded schedule keeps its arrivals, stops and query date, and both derived indexes start empty |
| Models.Schedule.PostProcess | TransitTimer/Models.swift:29-41 | with distinct stop IDs, the indexes agree with the raw lists. Each listed arrival is estimated and under its own stop. Every estimated arrival is listed with its multiplicity. Sizes add up. Lists are date-ordered. The stop index is exact. Arrivals, stops and query date are constants and cannot change |
| Decimal.NatToString | TransitTimer/Models.swift:123 | the rendering is a non-empty digit string with no leading zero, and 0 is "0" |
| Decimal.IntToString | TransitTimer/Models.swift:123 | `String(routeID)`: a minus sign exactly for negative IDs, then digits with no leading zero other than "0" itself |
| Decimal.NatToStringRoundTrip | TransitTimer/Models.swift:123 | the digits read back to the number |
| Decimal.IntToStringRoundTrip | TransitTimer/Models.swift:123 | parsing `String(routeID)` gives `routeID` back, including negative IDs |
| Decimal.IntToStringInjective | TransitTimer/Models.swift:123 | distinct IDs render as distinct strings |
| Decimal.ParseInt | TransitTimer/Models.swift:123 | a parsed string starts with a digit or a minus sign |
| TextSearch.FindFrom | TransitTimer/Models.swift:66-67 | a found position at or after the start matches, and no earlier position from the start does. When nothing is found, no position from the start matches |
| TextSearch.Find | TransitTimer/Models.swift:66-67 | a found position is the first occurrence; nothing is found exactly when the pattern is empty or does not occur |
| ContentView.Reduce | TransitTimer/ContentView.swift:403-405 | the merged keys are the union of both maps; keys of the next value take its frame; all other keys keep their frame |
| ContentView.ReduceIdentity | TransitTimer/ContentView.swift:401-405 | the empty default value is neutral on both sides |
| ContentView.ReduceAssociative | TransitTimer/ContentView.swift:403-405 | reports merged in any grouping give the same frames |
| ContentView.ReduceIdempotent | TransitTimer/ContentView.swift:403-405 | merging the same report twice is merging it once |
| ContentView.FractionInUnit | TransitTimer/ContentView.swift:79-85 | a part strictly inside a row's height gives a share strictly between 0 and 1 |
| ContentView.RowVisibility | TransitTimer/ContentView.swift:70-88 | the result is in [0, 1]; a missing frame gives 0.5; it is 0 exactly when the row ends above the inset top or starts below the bottom; a row cut by the inset top, unless it starts below the bottom edge, shows the part below it; a row cut only by the bottom edge shows the part above it; a row wholly inside shows fully; an inset top exactly on the row's bottom edge counts as not cutting it, and so does a bottom edge exactly on the row's top edge |
| ContentView.RowOpacity | TransitTimer/ContentView.swift:90-103 | the result is in [0, 1]; a missing frame gives 0.5; it is 0 exactly when the row ends above the inset top; a row cut by the inset top, unless it starts below the bottom edge, shows the part below it; a row starting below the inset top is opaque |
| ContentView.OpacityAtLeastVisibility | TransitTimer/ContentView.swift:70-103 | for the same frames, the opacity is never below the visibility |
| ContentView.BelowViewport | TransitTimer/ContentView.swift:76-77 | a row below the bottom edge that starts at or below the inset top has visibility 0 but opacity 1 |
| ContentView.TopOnBottomEdge | TransitTimer/ContentView.swift:76-102 | when the inset top lies exactly on the row's bottom edge, the opacity is 1, and so is the visibility when the row ends at or above the scroll view's bottom; when the bottom edge cuts the row, the visibility is the part above it |
| ContentView.RowOnBottomEdge | TransitTimer/ContentView.swift:76-87 | when a row starting at or below the inset top, or ending exactly on it, has its top edge exactly on the scroll view's bottom edge, its visibility is 1 |
| ContentView.RowVisibilityExample | TransitTimer/ContentView.swift:70-103 | a 40-point row straddling the inset top at its middle weighs 0.5 both ways; an unmeasured row weighs 0.5 |
| ContentView.ArrivalOpacities | TransitTimer/ContentView.swift:105-107 | with distinct arrival IDs, the keys are the arrival IDs; each value is that row's visibility and lies in [0, 1] |
| ContentView.ArrivalOpacitiesAreNonNegative | TransitTimer/ContentView.swift:105-107 | the opacities the stop screen passes to its dial are non-negative |
| ContentView.RingSpace | TransitTimer/ContentView.swift:194-198 | an index off the list, or an arrival with no opacity entry, gets no room; otherwise ten times the opacity the ring is drawn with (line 177); never negative when no opacity is |
| ContentView.CumulativeRingSpace | TransitTimer/ContentView.swift:200-206 | the loop's total is the room taken by the rings before `limit` |
| ContentView.TotalRingSpace | TransitTimer/ContentView.swift:208-210 | the total is the room taken by all the rings |
| ContentView.CumulativeMonotone | TransitTimer/ContentView.swift:200-206 | with non-negative opacities, the prefix sums are non-negative and non-decreasing |
| ContentView.CumulativeSaturates | TransitTimer/ContentView.swift:200-210 | a prefix at or past the end of the list is the total |
| ContentView.PrefixWithinTotal | TransitTimer/ContentView.swift:200-210 | with non-negative opacities, every prefix sum lies between 0 and the total |
| ContentView.SpaceWithinTotal | TransitTimer/ContentView.swift:194-210 | with non-negative opacities, one ring's room lies between 0 and the total |
| ContentView.RingWidth | TransitTimer/ContentView.swift:220-224 | an index off the list or a ring of opacity 0 gets width 0; with non-negative opacities and the center disc inside the dial, a width lies between 0 and the room between disc and rim. `WidthsFillDial` shows the widths add up to that room |
| ContentView.RingRadius | TransitTimer/ContentView.swift:212-218 | half a width out from the radius lies as deep as the rings before the band reach; half a width in lies as deep as the rings through the band reach. `OuterEdge`, `Adjacent`, `InnerEdge` and `BandInsideDial` follow from it |
| ContentView.DepthAdd | TransitTimer/ContentView.swift:217-223 | the depth into the dial taken by room is additive |
| ContentView.DepthHalf | TransitTimer/ContentView.swift:217 | half the room takes half the depth |
| ContentView.OuterEdge | TransitTimer/ContentView.swift:212-224 | the first band touches the dial's rim |
| ContentView.Adjacent | TransitTimer/ContentView.swift:212-224 | each band's inner edge is the next band's outer edge |
| ContentView.InnerEdge | TransitTimer/ContentView.swift:212-224 | with a non-zero total there is at least one ring, and the last band touches the center disc |
| ContentView.WidthSumIsDepth | TransitTimer/ContentView.swift:220-224 | the widths of the first k bands add up to the depth of their room |
| ContentView.WidthsFillDial | TransitTimer/ContentView.swift:220-224 | the widths of all bands add up to the dial radius minus the center radius |
| ContentView.TransparentRingHasNoWidth | TransitTimer/ContentView.swift:220-224 | a ring drawn with opacity 0 has width 0 |
| ContentView.DepthWithin | TransitTimer/ContentView.swift:217-223 | room within the total reaches no deeper than the center disc |
| ContentView.BandInsideDial | TransitTimer/ContentView.swift:212-224 | with non-negative opacities and the center disc inside the dial, every band lies between the center disc and the rim, with its inner edge inside its outer edge |
| ContentView.TwoRingExample | TransitTimer/ContentView.swift:194-224 | a visible and an invisible ring on a 100-point dial with a 15-point center split the room 85 to 0, centered at 57.5 and 15 |
| ContentView.SweepDegrees | TransitTimer/ContentView.swift:188-190 | the sweep is in [1, 360]; it is a tenth of the interval when that lies in range, and clamped to the nearer end otherwise |
| ContentView.RingAngle | TransitTimer/ContentView.swift:187-192 | the clamped local variable ends as the sweep of the time until the scheduled arrival, within [1, 360] degrees |
| ContentView.SweepShrinksOverTime | TransitTimer/ContentView.swift:187-192 | a later current date never gives a larger sweep |
| ContentView.SweepExamples | TransitTimer/ContentView.swift:187-192 | an hour or more is 360 degrees, half an hour 180 degrees, and a departed or due arrival 1 degree |
| ContentView.FormattedTime | TransitTimer/ContentView.swift:371-378 | an arrival a minute or less away shows "Now"; otherwise the row shows the formatter's text, or "--" when there is none |
| ContentView.NowIsSmallSweep | TransitTimer/ContentView.swift:371-373 | an arrival shown as "Now" sweeps at most 6 degrees |
| ContentView.StartAngle | TransitTimer/ContentView.swift:300-305 | a clockwise arc starts at -90 degrees; a counter-clockwise arc starts `angle` degrees past -90 |
| ContentView.EndAngle | TransitTimer/ContentView.swift:307-312 | in both directions the arc ends `angle` degrees before its start |
| ContentView.ArcSpan | TransitTimer/ContentView.swift:300-312 | in both directions the start angle exceeds the end angle by the sweep; a clockwise arc starts at -90 degrees and a counter-clockwise arc ends there |
| ContentView.ArcMirror | TransitTimer/ContentView.swift:300-312 | the two directions are mirror images through -90 degrees |

## Left out

- Fetching, the `.task` re-trigger, `URLSession`, the request URL and the Codable/JSON decoding with millisecond dates. These are I/O and framework code. `Schedule`'s constructor stands for a decoded response.
- `Route.color`. It uses `UIColor` and the C generator `srand48`/`drand48`, which are foreign calls.
- All SwiftUI view bodies and drawing (`RingView`, `RingGutter`, `RingArc.path`, `Tag.path`, timeline ticks, blur, offsets). The "foo" key, which the scroll view's frame is reported under in a view body, is a named constant. So is the 50-point inset, a literal in `rowVisibility` and `rowOpacity`.
- The `print` diagnostics on the missing-frame paths of `rowVisibility` and `rowOpacity`. They are console output and do not affect the returned weight.
- `ArrivalView`'s formatted minutes from `DateComponentsFormatter`. It is a foreign formatter, so `ContentView.FormattedTime` takes its output as a parameter and models only the "Now" cut-off and the "--" fallback.
- `StopView.arrivals` and the lookups `schedule?.stopsByStopID[stopID]`. They are plain optional-map lookups, and the dial and list functions take the arrivals directly.
- `DialView.ringMargin` is carried in `Dial` but is unused, as it is in the source.
- Models.SortByDate: it is a stable insertion sort, while Swift's `sorted(by:)` promises no tie order. Every property is stated without it: date order plus permutation.
- Models.StopsByID: `Dictionary(uniqueKeysWithValues:)` traps on a repeated key. The model requires distinct stop IDs instead of modelling the trap.
- ContentView.ArrivalOpacities: the same trap on repeated arrival IDs is a precondition.
- ContentView.RingWidth and ContentView.RingRadius: a zero total divides by zero (NaN in Swift), so both require a non-zero total. `RingRadius` also requires a non-negative index, because `0..<limit` traps on a negative limit.
- ContentView.CumulativeRingSpace: requires a non-negative limit, because its `0..<limit` loop traps on a negative limit.
- IEEE-754 `Double`/`CGFloat` rounding, NaN and infinities. The model uses exact reals.
- `range(of:options: .caseInsensitive)` folds only ASCII letters here. There is no Unicode case folding, normalisation or grapheme-cluster semantics.
- Stale-response ordering. The source has only `lastUpdateBegan` re-triggering a download, so there is no ordering logic to model.
