# Navigation core of the rust-core library, in Dafny

This project models the platform-independent navigation core of the
`rust-core` crate. It has three parts.

- **Track to route conversion** (`convert.dfy`, module `Convert`). This is
  the Ramer-Douglas-Peucker simplification of a recorded track. The scan
  finds the interior point farthest from the chord joining the first and
  last points, keeping the first strict maximum. If that distance exceeds
  the tolerance, the point list is split there and both halves are
  simplified recursively. The halves are then joined by popping the
  junction off the left half and extending it with the right half.
  Otherwise the list collapses to its two endpoints. The file also models
  the route to track copy.
  - `Simplify` is the recursive specification.
  - `RdpSimplify` is the imperative version: a scanning loop, two recursive
    calls and the pop-then-extend join. It is proved equal to `Simplify`.
  - Lemmas prove the promised properties: endpoints kept, an
    order-preserving subsequence, collapse exactly when every interior point
    is within tolerance, and idempotence.
  - Idempotence means that converting a route back to a track and
    simplifying it again with the same tolerance returns the same route.
- **Projection onto a track** (`nav.dfy`, module `Nav`).
  - `TrackLength` is the windowed sum of segment lengths.
  - `ProjectOnSegment` is the clamp-and-interpolate projection onto one
    segment.
  - `ProjectOnTrack` is the loop over all segments. It keeps the nearest
    projection (the earliest one on a tie, because the comparison is strict)
    and the running length along the track.
- **Turn-by-turn instructions** (`route_nav.dfy`, module `RouteNav`). This
  produces one instruction per waypoint: Start first, Arrive last, and for
  each waypoint in between the turn classified from the change of bearing.
  The change of bearing is normalised into [-180, 180] by the two `while`
  loops. The file also models each turn's phrase and the distance text
  (`"<n> m"` rounded to 10 m below a kilometre, `"<x.y> km"` from one on).

`gpx.dfy` holds the shapes the three parts share: `Point`, `Track` and
`Route`, from `rust-core/src/gpx.rs`. `wrappers.dfy` holds `Option`.

The floating-point numerics are parameters of the operations, as function
values: the haversine distance, the initial bearing, the perpendicular
distance from a chord, and the cosine of the mean latitude. The proofs rely
on nothing about them. The exceptions are a few lemmas that state it
outright: they require distances to be non-negative (`Nav.NonNegative`).
Coordinates, distances and angles are `real`.

## Model

| member | source | states |
|---|---|---|
| Convert.FindFarthest | rust-core/src/convert.rs:47-60 | The scan loop returns exactly `FarthestOf` of the points: the first interior index whose chord distance is a strict maximum, with that distance, or (0.0, 0) when no distance is positive |
| Convert.ScanFindsFirstMax | rust-core/src/convert.rs:51-60 | After visiting indices 1..n-1, the candidate bounds every visited distance. Its index is the first one reaching the maximum, or it is still (0.0, 0) |
| Convert.FarthestOf | rust-core/src/convert.rs:51-60 | The reported index is 0 with distance 0.0, or an interior index 1..len-2 with a positive distance |
| Convert.FarthestIsFirstMax | rust-core/src/convert.rs:51-60 | The full scan yields the first strict maximum over all interior points |
| Convert.Join | rust-core/src/convert.rs:67-69 | Pop the last point of the left half (a no-op on an empty half), then extend with the right half. It has no contract of its own: `Convert.JoinSlices`, `Convert.JoinDropsOnlyJunction` and `Convert.JoinKeepsEnds` state its properties |
| Convert.JoinDropsOnlyJunction | rust-core/src/convert.rs:67-69 | The join of a non-empty left half with a right half holds the points of both halves, as a multiset, less one copy of the left half's last point (the popped junction) |
| Convert.FirstMaxUnique | rust-core/src/convert.rs:54-60 | Two candidates that are both the first strict maximum are equal, so the scan's result is determined by the distances |
| Convert.Simplify | rust-core/src/convert.rs:42-75 | Inputs of at most two points come back unchanged. Longer inputs give between 2 and len points, starting with the first input point and ending with the last |
| Convert.SimplifySplits | rust-core/src/convert.rs:62-70 | When the farthest distance exceeds the tolerance, the split index is interior (so both halves are strictly shorter), and the result is the join of the simplified halves `[..=max_idx]` and `[max_idx..]` |
| Convert.SimplifyCollapses | rust-core/src/convert.rs:71-74 | When the farthest distance is within the tolerance, the result is `[first, last]` |
| Convert.PopExtend | rust-core/src/convert.rs:67-69 | `left.pop(); left.extend(right)`, done step by step on the left half, returns exactly `Join` of the two halves |
| Convert.SplitJoins | rust-core/src/convert.rs:62-70 | When the farthest distance exceeds the tolerance, the simplified left half has at least two points and the whole simplifies to the join of the two simplified halves |
| Convert.RdpSimplify | rust-core/src/convert.rs:42-75 | The imperative simplification (loop, two recursive calls, `pop` then `extend`) returns exactly `Simplify` of its input |
| Convert.JoinSlices | rust-core/src/convert.rs:67-69 | Joining two halves that share the junction point loses nothing: the first len(left) points of the join are the left half, and the rest from the junction on are the right half |
| Convert.JoinKeepsEnds | rust-core/src/convert.rs:62-70 | If each half keeps the ends of its slice as an ordered subsequence, their join keeps the ends of the whole as an ordered subsequence. The split point sits at exactly one position, len(left)-1 |
| Convert.SimplifyKeepsEnds | rust-core/src/convert.rs:42-75 | The result is an order-preserving subsequence of the input, at strictly increasing positions that start at 0 and end at len-1 |
| Convert.SimplifyCollapsesIff | rust-core/src/convert.rs:62-74 | The result is `[first, last]` if and only if no interior point lies farther than the tolerance, and if and only if the result has two points |
| Convert.NegativeToleranceStalls | rust-core/src/convert.rs:51-65 | With a negative tolerance and no interior point off the chord, the scan reports (0.0, 0), the split branch is still taken, and the right-hand slice `[max_idx..]` is the whole input again, so the recursion makes no progress |
| Convert.KeptFarthest | rust-core/src/convert.rs:51-60 | If the farthest point of a list survives in a subsequence that keeps both ends, it is also the first farthest point of the subsequence, with the same distance |
| Convert.JoinedFarthest | rust-core/src/convert.rs:62-70 | Halves that keep the ends of `[..=max_idx]` and `[max_idx..]` join into a list whose farthest point is the junction, with the original distance |
| Convert.SplitPointSurvives | rust-core/src/convert.rs:62-70 | After a split, the split point is the farthest point of the joined simplified halves, at the junction position |
| Convert.SplitHalvesMeet | rust-core/src/convert.rs:62-69 | The two simplified halves have at least two points each and meet at the split point |
| Convert.SimplifyAtJunction | rust-core/src/convert.rs:62-70 | A list whose farthest point (beyond the tolerance) is where two halves meet simplifies to the join of the simplified halves |
| Convert.ResimplifySplit | rust-core/src/convert.rs:62-70 | Simplifying a split result again splits it at the same point, into the two simplified halves |
| Convert.SimplifyIdempotent | rust-core/src/convert.rs:42-75 | Simplifying an already simplified list changes nothing |
| Convert.TrackToRoute | rust-core/src/convert.rs:16-22 | The route keeps the track's name. Short tracks keep their points. Otherwise the route has 2..len points, with the track's first and last point |
| Convert.RouteToTrack | rust-core/src/convert.rs:30-35 | The track has the route's name and exactly the route's points |
| Convert.ShortRouteRoundTrip | rust-core/src/convert.rs:16-35 | A route of at most two waypoints survives `route_to_track` then `track_to_route` unchanged, name and points |
| Convert.ReconversionIsStable | rust-core/src/convert.rs:16-35 | A converted route, copied back to a track and converted again with the same tolerance, is the same route |
| Nav.TrackLength | rust-core/src/nav.rs:39-45 | The sum over the windows of two: 0 for fewer than two points, the one distance for two points, and never negative when every distance is non-negative |
| Nav.TrackLengthIsWindowSum | rust-core/src/nav.rs:39-45 | The length accumulated pair by pair from the front (the windowed sum) equals the prefix-recursive length used elsewhere, and is 0 for fewer than two points |
| Nav.TrackLengthSplit | rust-core/src/nav.rs:39-45 | The length splits at any shared index k: length of `[..=k]` plus length of `[k..]` is the whole |
| Nav.PrefixStep | rust-core/src/nav.rs:60-87 | Adding a segment's length to the running total gives the length of the prefix one point longer; this is the loop's cumulative distance |
| Nav.PrefixMonotone | rust-core/src/nav.rs:39-45 | With non-negative distances, a longer prefix is never shorter |
| Nav.Clamp01 | rust-core/src/nav.rs:112-113 | The clamped parameter is in [0, 1], equals t inside, and equals 0 or 1 at or beyond either end |
| Nav.LerpBetween | rust-core/src/nav.rs:115-117 | Interpolating with a fraction in [0, 1] stays between the two ends |
| Nav.Fraction | rust-core/src/nav.rs:98-113 | The clamped fraction along a non-degenerate segment is in [0, 1] |
| Nav.ProjectOnSegment | rust-core/src/nav.rs:97-123 | The projection lies on segment a-b (some fraction in [0, 1]), with latitude and longitude between the ends. A degenerate segment (squared scaled length below 1e-20) gives `a`. Otherwise elevation is present if and only if both ends have one, and lies between them |
| Nav.ProjectedElevation | rust-core/src/nav.rs:107-121 | The projection has an elevation only when `a` has one, and always when both ends do |
| Nav.FractionIsNearest | rust-core/src/nav.rs:105-117 | On a non-degenerate segment, the clamped fraction minimises the squared planar distance from the position over all points of the segment |
| Nav.StartProjectsToStart | rust-core/src/nav.rs:97-117 | Projecting the segment's start onto it gives the start's latitude and longitude |
| Nav.EndProjectsToEnd | rust-core/src/nav.rs:97-117 | Projecting a non-degenerate segment's end onto it gives the end's latitude and longitude |
| Nav.NearestKept | rust-core/src/nav.rs:73-85 | A segment no nearer than the best so far leaves the best in place, and it stays the nearest (earliest on a tie) of one more segment |
| Nav.NearestReplaced | rust-core/src/nav.rs:73-85 | A segment strictly nearer than the best so far, or the first segment, becomes the nearest of the segments seen so far |
| Nav.ProjectOnTrack | rust-core/src/nav.rs:54-91 | None exactly when the track has fewer than two points. Otherwise `segment_index < len-1`, and the result describes that segment (projection, distance, and distance along = prefix length + distance to the projection). Its distance is at most that of every segment and strictly less than that of every earlier segment |
| Nav.DistanceAlongBounds | rust-core/src/nav.rs:70-71 | With non-negative distances, the distance along the track is at least the length up to the segment's start, and non-negative |
| Nav.NearestIsUnique | rust-core/src/nav.rs:73-85 | The nearest-segment result with the earliest-tie rule is unique: any two such results agree in every field |
| RouteNav.ClassifyTurn | rust-core/src/route_nav.rs:110-124 | Never Start or Arrive. A right-hand turn only for a positive angle, a left-hand one only for a negative angle |
| RouteNav.ClassifyTurnBands | rust-core/src/route_nav.rs:110-124 | UTurn if and only if the absolute angle is above 170; sharp if and only if it is in (120, 170]; plain left/right if and only if it is in (60, 120]; slight if and only if it is in (20, 60]; straight if and only if it is at most 20 |
| RouteNav.ClassifyTurnSide | rust-core/src/route_nav.rs:115-120 | Outside the straight and U-turn bands, the turn is rightward if and only if the angle is positive, and leftward if and only if it is negative |
| RouteNav.ClassifyTurnMirror | rust-core/src/route_nav.rs:110-124 | Negating the angle mirrors the turn left for right; Straight and UTurn are their own mirrors |
| RouteNav.ReduceDown | rust-core/src/route_nav.rs:99-101 | Subtracting 360 while above 180 ends at most 180 and never above the start, and leaves an angle of at most 180 alone |
| RouteNav.RaiseUp | rust-core/src/route_nav.rs:102-104 | Adding 360 while below -180 ends at least -180 and never below the start, leaves an angle of at least -180 alone, and does not push an angle of at most 180 above 180 |
| RouteNav.Normalized | rust-core/src/route_nav.rs:98-104 | Both loops in turn give an angle in [-180, 180], and an angle already in that range is unchanged |
| RouteNav.ReduceDownFacts | rust-core/src/route_nav.rs:99-101 | The first loop ends at most 180, leaves angles at most 180 alone, stays above -180 when it subtracted, and keeps the direction (a whole number of full turns) |
| RouteNav.RaiseUpFacts | rust-core/src/route_nav.rs:102-104 | The second loop ends at least -180, leaves angles of at least -180 alone, does not push an angle of at most 180 above 180, and keeps the direction |
| RouteNav.NormalizedRange | rust-core/src/route_nav.rs:98-104 | After both loops the angle is in [-180, 180] and points the same way as the raw one |
| RouteNav.NormalizedIdentity | rust-core/src/route_nav.rs:98-104 | An angle already in [-180, 180] passes both loops unchanged |
| RouteNav.SameDirectionInRange | rust-core/src/route_nav.rs:98-104 | Two angles in [-180, 180] that point the same way are equal, except for the pair -180 and 180, so the normalised angle is determined by the direction |
| RouteNav.NormalizeAngle | rust-core/src/route_nav.rs:96-104 | The two `while` loops terminate, with the angle equal to `Normalized` of the raw change of bearing and in [-180, 180] |
| RouteNav.TurnAt | rust-core/src/route_nav.rs:91-107 | The turn at a middle waypoint is never Start or Arrive |
| RouteNav.ComputeTurn | rust-core/src/route_nav.rs:91-107 | Returns exactly `TurnAt`: the classified, normalised change of bearing |
| RouteNav.TurnAtSide | rust-core/src/route_nav.rs:95-106 | A rightward turn means a normalised change of bearing in (0, 170]; a leftward one means a change in [-170, 0) |
| RouteNav.SameBearingIsStraight | rust-core/src/route_nav.rs:91-107 | Leaving on the bearing of arrival is Straight |
| RouteNav.TurnText | rust-core/src/route_nav.rs:139-152 | The phrase of each of the ten turns. It has no contract of its own: `RouteNav.TurnTextReadsBack` and `RouteNav.TurnTextInjective` state its properties |
| RouteNav.TurnTextReadsBack | rust-core/src/route_nav.rs:139-152 | Each turn's phrase reads back, through the inverse table `TurnOfText`, as that turn |
| RouteNav.TurnTextInjective | rust-core/src/route_nav.rs:139-152 | Different turns have different phrases |
| RouteNav.RoundHalfAwayFromZero | rust-core/src/route_nav.rs:158 | `round()` gives an integer within one half of x; a tie goes away from zero |
| RouteNav.FormatDistance | rust-core/src/route_nav.rs:154-160 | Kilometres if and only if the distance is at least 1000, as distance/1000. Below that, a multiple of 10 within 5 of the distance, and in 0..1000 for a non-negative distance |
| RouteNav.JustUnderAKilometre | rust-core/src/route_nav.rs:155-158 | Distances in [995, 1000) are shown as 1000 m, not as kilometres |
| RouteNav.RoundHalfEven | rust-core/src/route_nav.rs:156 | The nearest integer, within one half; an exact tie goes to the even neighbour |
| RouteNav.OneDecimalReadsBack | rust-core/src/route_nav.rs:156 | The `{:.1}` text of a non-negative value is "digits.digit", and reads back as a number of tenths within half a tenth of the value |
| RouteNav.DigitChar | rust-core/src/route_nav.rs:158 | The character's code is '0' plus the digit |
| RouteNav.NatToString | rust-core/src/route_nav.rs:158 | The `{}` text of a non-negative integer is a non-empty string of decimal digits, without a leading zero unless it is "0" |
| RouteNav.NatToStringRoundTrip | rust-core/src/route_nav.rs:158 | Reading the digits back gives the number |
| RouteNav.IntToString | rust-core/src/route_nav.rs:158 | The `{}` text of an `i64` is non-empty, ends with a digit, and starts with a minus sign if and only if the number is negative |
| RouteNav.DistanceString | rust-core/src/route_nav.rs:156-158 | The formatted distance has at least three characters. It ends in " m" if and only if it is a count of metres, and in " km" if and only if it is a number of kilometres |
| RouteNav.DistanceStringMeters | rust-core/src/route_nav.rs:243-245 | 150 m reads "150 m" |
| RouteNav.DistanceStringRoundsUp | rust-core/src/route_nav.rs:243-245 | 5 m rounds up to "10 m" |
| RouteNav.DistanceStringKilometres | rust-core/src/route_nav.rs:248-250 | 2500 m reads "2.5 km" |
| RouteNav.PhraseText | rust-core/src/route_nav.rs:55-81 | A phrase renders as "Start navigation" if and only if it is the start phrase. Any other renders as "In " followed by the distance text, ", " and the action, so it starts with "In " and ends with the action |
| RouteNav.InstructionAt | rust-core/src/route_nav.rs:43-85 | Instruction i carries index i. It is Start if and only if i = 0, with distance 0. It is Arrive if and only if i is the last index. Every other instruction has the distance from the previous waypoint, and a middle one has the turn `TurnAt` of its neighbours |
| RouteNav.InstructionTextMatches | rust-core/src/route_nav.rs:50-82 | Only the start reads "Start navigation". Any other reads "In <its distance>, <phrase>" with its own turn's phrase, so the turn can be read back from the text |
| RouteNav.Instructions | rust-core/src/route_nav.rs:43-48 | No instructions for fewer than two points; otherwise exactly one per waypoint |
| RouteNav.InstructionsShape | rust-core/src/route_nav.rs:43-85 | The first instruction is Start with distance 0 and text "Start navigation", and the last is Arrive. Instruction i has index i. Each one after the first has the distance from the previous waypoint. Each middle one has the classified turn |
| RouteNav.InstructionOf | rust-core/src/route_nav.rs:43-85 | For a route of at least two points, there is one instruction per waypoint, and instruction i is `InstructionAt` of waypoint i |
| RouteNav.StepInstruction | rust-core/src/route_nav.rs:59-82 | The instruction built for waypoint i > 0 (distance from the previous waypoint, the computed turn or Arrive, and the text) is exactly `InstructionAt` of waypoint i |
| RouteNav.GenerateInstructions | rust-core/src/route_nav.rs:43-85 | The pushing loop returns exactly `Instructions` of the route |

## Left out

- The trigonometry: the bodies of `haversine`, `bearing`, `perpendicular_distance_m` and the latitude cosine are floating-point formulas. The operations take them as parameters, and no proof depends on their values. Numerical facts such as a particular distance or bearing are therefore not stated.
- IEEE 754 doubles are modelled as exact reals. Rounding error, NaN and infinity are not modelled. The kilometre value `meters / 1000.0` and the interpolations are exact here.
- Convert.Simplify, Convert.RdpSimplify and Convert.TrackToRoute: the tolerance has type `Tolerance` (non-negative reals). For a negative tolerance, the source's recursion does not terminate when the interior of a slice lies on the chord; `Convert.NegativeToleranceStalls` shows that stall. A negative-tolerance run that does terminate returns the tolerance-0 result. Every slice it visits has a positive farthest distance, so it splits exactly as at tolerance 0. The restriction therefore loses only the stall.
- RouteNav.FormatDistance: the `i64` arithmetic is not modelled. The product `(meters / 10.0).round() as i64 * 10` overflows `i64` from about -9.22e18 m down: it panics in a debug build and wraps in a release build. Below about -9.2e19 m the `as i64` cast also saturates. Here both are exact integers. Neither case is reachable from a haversine distance, which is never negative.
- RouteNav.RoundHalfEven: the `{:.1}` formatting rounds the exact decimal value of the double, with ties to even. Here that rounding is applied to the exact real quotient.
- RouteNav.GenerateInstructions: each instruction's `text` is kept as its `format!` arguments (`Phrase`: the formatted distance and the turn's phrase, or the start). `RouteNav.PhraseText` renders that to the string.
- Serialisation of `ProjectionResult`, `Turn` and `Instruction` (serde derives) is not modelled.
- GPX parsing and JSON output (`parse`, `parse_to_json` in `rust-core/src/gpx.rs`) wrap external crates and are not part of this model; only the `Point`, `Track` and `Route` shapes are.
- `rust-core/src/android_jni.rs` (a JNI call returning a version string), `rust-core/src/lib.rs` (module declarations) and `app/src/main/cpp/main.c` (EGL, GLES and Android lifecycle) are not part of this model.
