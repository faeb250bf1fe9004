# Tripwise route and hazard core, modelled in Dafny

Tripwise plans driving routes that avoid dangerous areas. This project models four parts of it.

- **Exclusion rings and the Valhalla request** (`src/lib/planRouteWithObstacles.ts`).
  - Each dangerous geometry gives up the exterior ring of its first polygon.
  - A ring is dropped when it is missing, has two points or fewer, or holds a point that is not a pair of slots `parseFloat` can read.
  - A slot such as `"1.5x"` passes that filter, yet the cleaning's `Number` turns it into NaN (see Findings). The ring pass therefore takes the filter as a parameter: `ExcludePolygonsAsWritten` uses the source's filter, which the request is built from, and `ExcludePolygons` uses the corrected one.
  - Each component of a surviving ring is rounded to six decimals. The ring is closed by repeating its first vertex when its ends differ.
  - `exclude_polygons` is attached only when at least one ring survives.
  - The route comes from the first leg's polyline, with `[lat, lon]` pairs swapped to `[lon, lat]`.
  - Modules: `ExclusionRings` (functions and lemmas) and `RouteWithObstacles` (the request, the reply and the whole call).
- **OSRM route** (`src/lib/planOptimalRoute.ts`), module `OptimalRoute`.
  - The URL path is built by a loop that pushes one `lon,lat` part per coordinate; the parts are then joined with `;`.
  - An empty or missing `routes` gives no route. A failed fetch gives no route either.
  - The decoded pairs are swapped to `[lng, lat]`.
- **Hazard pre-processing** (`scripts/merge_by_distance.py`), module `MergeByDistance`.
  - The script's loops are kept as methods: grouping records by event type, building circles, laying out polygon coordinates, emitting features.
  - Each method is proved against specification functions, and lemmas about those functions state the script's promises.
- **Risk slider** (`src/components/sidebar/safetyCard.tsx`), module `SafetyCard`.
  - The slider value is inverted and classified into one of four danger levels.
  - The four level icons are coloured by a threshold test.

Supporting modules:
- `Wrappers`: `Option` and `Result`.
- `Seqs`: `map` and `filter`.
- `Strings`: `join`, `split` and `replace`.
- `Geo`: coordinates, pairs, the swap, the route feature, and the outcome of a fetch.

Numbers are exact reals. `NaN` is a separate constructor wherever JavaScript can produce it.

## Model

| member | source | states |
|---|---|---|
| ExclusionRings.Round6 | src/lib/planRouteWithObstacles.ts:42-43 | `parseFloat(x.toFixed(6))` gives a whole number of millionths within half a millionth of x. Ties go away from zero. Magnitudes of 10^21 and above come back unchanged. |
| ExclusionRings.RoundIsIdempotent | src/lib/planRouteWithObstacles.ts:41-44 | Rounding an already rounded coordinate again changes nothing. |
| ExclusionRings.KeptAsWritten | src/lib/planRouteWithObstacles.ts:35-39 | The source's filter: a ring it keeps is present and has more than two points, each a two-slot pair. A cleaned component of such a ring is NaN exactly when its slot is text whose leading numeral `parseFloat` reads and that `Number` rejects, such as "1.5x". A radix string such as "0x10" passes on its leading 0 and is cleaned to the value `Number` reads. |
| ExclusionRings.Kept | src/lib/planRouteWithObstacles.ts:35-39 | The corrected filter: it requires every slot to be a number for `Number`, the conversion the cleaning uses. Anything it keeps also passes the filter as written. |
| ExclusionRings.CleanComponent | src/lib/planRouteWithObstacles.ts:42-43 | A slot cleans to NaN exactly when `Number` cannot read it. Otherwise it is that number rounded to six decimals, and rounding it again changes nothing. |
| ExclusionRings.Close | src/lib/planRouteWithObstacles.ts:46-51 | The closed ring keeps every earlier vertex and ends with its first vertex. It grows by one exactly when the first and last vertices differ. |
| ExclusionRings.CleanRing | src/lib/planRouteWithObstacles.ts:40-53 | Vertex j of the output is vertex j of the input with both components converted and rounded. The length grows by at most one, exactly when the cleaned ends differ. The result has at least three vertices, rounded components, and ends on its first vertex. |
| ExclusionRings.FirstExteriorRing | src/lib/planRouteWithObstacles.ts:34 | `coordinates[0][0]` of a geometry with a polygon. An empty first polygon gives `undefined`, which neither filter keeps. |
| ExclusionRings.ExteriorRings | src/lib/planRouteWithObstacles.ts:34 | Fails with a TypeError exactly when some geometry has no first polygon. Otherwise it returns `coordinates[0][0]` of each geometry, in order. |
| ExclusionRings.ExcludeRingsWith | src/lib/planRouteWithObstacles.ts:35-53 | For any filter at least as strict as the source's: at most one output ring per input ring, each with at least three vertices and rounded components, ending on its first vertex. |
| ExclusionRings.ExcludePolygonsWith | src/lib/planRouteWithObstacles.ts:33-53 | For any such filter: fails exactly when some geometry lacks a polygon. Otherwise it gives at most one closed, rounded ring per geometry. |
| ExclusionRings.ExcludePolygonsAsWritten | src/lib/planRouteWithObstacles.ts:33-53 | The source's pipeline, with its `parseFloat` filter: fails exactly when some geometry lacks a polygon. Otherwise it gives at most one ring per geometry, each with at least three vertices, rounded components (NaN aside), and its first vertex repeated last. |
| ExclusionRings.CorrectedRingsAreWellFormed | src/lib/planRouteWithObstacles.ts:35-53 | Corrected pipeline: every ring that the corrected filter lets through is well formed. |
| ExclusionRings.ExcludePolygons | src/lib/planRouteWithObstacles.ts:33-53 | Corrected pipeline: fails exactly when some geometry lacks a polygon. Otherwise it gives at most one well-formed ring per geometry, with only finite rounded numbers and ends that compare equal. |
| ExclusionRings.CleanedKeptRingIsWellFormed | src/lib/planRouteWithObstacles.ts:40-52 | Corrected pipeline: cleaning and closing a ring that passes the corrected filter yields at least three finite, rounded vertices, with the last equal to the first. |
| ExclusionRings.ExcludeRingsAppend | src/lib/planRouteWithObstacles.ts:35-53 | For either filter, the ring pass distributes over concatenation, so surviving rings keep their relative input order. |
| ExclusionRings.ExcludePolygonsAppend | src/lib/planRouteWithObstacles.ts:33-53 | For either filter, the output for `a + b` is the output for `a` followed by the output for `b`. |
| ExclusionRings.ExcludePolygonsOfOne | src/lib/planRouteWithObstacles.ts:33-53 | For either filter, one geometry gives its cleaned first exterior ring when the filter keeps it, and nothing otherwise. |
| ExclusionRings.MalformedRingIsDropped | src/lib/planRouteWithObstacles.ts:35-39 | For either filter, a geometry whose ring fails it can be removed from anywhere in the input without changing the output. It is dropped, not an error. |
| ExclusionRings.FaultIsKept | src/lib/planRouteWithObstacles.ts:34 | For either filter, a geometry without a polygon fails the whole pipeline wherever it sits, whatever else is around it. |
| ExclusionRings.OnlyFirstExteriorRingMatters | src/lib/planRouteWithObstacles.ts:34 | For either filter, two inputs whose geometries agree on the first exterior ring of each (or both lack one) give the same output. Other polygons and holes never matter. |
| ExclusionRings.CorrectionAgreesOnNumericRings | src/lib/planRouteWithObstacles.ts:35-43 | When every ring the source keeps is also a ring of numbers, the pipeline as written and the corrected pipeline give the same output. |
| ExclusionRings.NumeralPrefixKeptAsNaN | src/lib/planRouteWithObstacles.ts:37-43 | As written, a ring whose first slot reads "1.5x" passes the filter and is sent with a NaN longitude and unequal ends. The corrected pipeline drops it. |
| RouteWithObstacles.Locations | src/lib/planRouteWithObstacles.ts:18-21 | Same length and order as the coordinates. Each location copies its coordinate's lon and lat. |
| RouteWithObstacles.BuildRequest | src/lib/planRouteWithObstacles.ts:23-57 | Fails exactly when a geometry lacks a polygon. Otherwise `costing` is "auto", `alternates` is 1, `costing_options` is `{auto: {}}`, and the locations mirror the coordinates. `exclude_polygons` is present exactly when geometries were given and some ring survived the source's filter, and then it holds those rings, as the pipeline as written produces them. |
| RouteWithObstacles.RouteFromReply | src/lib/planRouteWithObstacles.ts:66-88 | Gives a route exactly when the response is ok and its trip has a non-empty `legs`. The route is the first leg's decoded shape with every pair swapped, with the same length and order. |
| RouteWithObstacles.OnlyFirstLegIsDrawn | src/lib/planRouteWithObstacles.ts:77-78 | Replies that agree on their first leg give the same route. |
| RouteWithObstacles.PlanRouteWithExclusions | src/lib/planRouteWithObstacles.ts:14-93 | A missing polygon throws before any request is made. Otherwise the request sent is exactly the one `BuildRequest` builds: fixed to "auto" with one alternate, its locations and its exclusion rings. The route is exactly what `RouteFromReply` makes of the reply: null when the fetch fails, the response is not ok, or there is no leg. |
| Geo.SwapAll | src/lib/planOptimalRoute.ts:43 | Same length and order, with each pair's components exchanged. |
| Geo.SwapAllTwice | src/lib/planOptimalRoute.ts:43 | Swapping twice gives back the decoded pairs. |
| Geo.RouteFromDecoded | src/lib/planOptimalRoute.ts:37-45 | The LineString has one `[lng, lat]` point per decoded `[lat, lng]` pair, in order. Swapping it back gives the decoded pairs. |
| Strings.SplitJoin | src/lib/planOptimalRoute.ts:19 | Splitting a join of separator-free parts gives the parts back. |
| Strings.JoinSplit | src/lib/planOptimalRoute.ts:19 | Joining what a split produced rebuilds the text, so split and join are inverse both ways. |
| Strings.JoinSeparatorCount | src/lib/planOptimalRoute.ts:19 | A join of n separator-free parts has exactly n-1 separators. |
| Strings.ReplaceFirst | src/components/sidebar/safetyCard.tsx:93 | A string without the pattern is unchanged. A pattern at the start is replaced there. |
| Strings.ReplaceFirstOccurrence | src/components/sidebar/safetyCard.tsx:93 | The replacement lands at the first occurrence, wherever it is, and everything before and after it is kept. |
| OptimalRoute.PartSplitsIntoLonLat | src/lib/planOptimalRoute.ts:17 | A part holds no `;` and splits at its comma into the longitude text, then the latitude text. |
| OptimalRoute.PathHasOnePartPerCoordinate | src/lib/planOptimalRoute.ts:15-19 | For n ≥ 1 coordinates the path splits at `;` into exactly n parts, in input order. Part i splits into coordinate i's lon text, then its lat text. The path holds n-1 semicolons. |
| OptimalRoute.CoordinatePath | src/lib/planOptimalRoute.ts:15-19 | The loop that pushes one part per coordinate and joins them computes the path above. |
| OptimalRoute.RouteFromOsrm | src/lib/planOptimalRoute.ts:24-45 | Gives a route exactly when the response is ok and `routes` is present and non-empty. The route is the first route's decoded geometry with every pair swapped. |
| OptimalRoute.PlanOptimalRoute | src/lib/planOptimalRoute.ts:14-51 | The URL is the OSRM base, a slash, the coordinate path and the fixed query. The result is null exactly when the fetch fails, the response is not ok, or there are no routes. A thrown error becomes null. |
| MergeByDistance.CreateCircle | scripts/merge_by_distance.py:11-16 | The circle is centred on `(lon, lat)`. Its radius in degrees, times 111320, is the radius in metres, and a radius that is not negative does not grow. |
| MergeByDistance.ScaledRadius | scripts/merge_by_distance.py:40 | An absent `c` counts as 0. Otherwise the radius is 3/10 of `c`, so a range that is not negative never grows. |
| MergeByDistance.Circles | scripts/merge_by_distance.py:36-42 | A group yields at most one circle per record. With `PositionedItemAddsItsCircle`, `UnlocatedItemAddsNoCircle` and `CirclesAppend`, this fixes the circles of every group. |
| MergeByDistance.PositionedItemAddsItsCircle | scripts/merge_by_distance.py:38-42 | A record with both `a` and `b` contributes exactly one circle, centred at `(b, a)` with the scaled radius of its `c`. |
| MergeByDistance.CirclesAppend | scripts/merge_by_distance.py:37-42 | Circles are made record by record: the circles of a concatenation are the concatenated circles. |
| MergeByDistance.UnlocatedItemAddsNoCircle | scripts/merge_by_distance.py:38-42 | A record missing `a` or `b` can be removed from anywhere in a group without changing its circles. |
| MergeByDistance.MissingRangeGivesZeroRadius | scripts/merge_by_distance.py:40 | A record without `c` gets radius 0 rather than failing. |
| MergeByDistance.ItemsOf | scripts/merge_by_distance.py:27-32 | A group holds exactly the records of its event type, and no other records. |
| MergeByDistance.EventTypes | scripts/merge_by_distance.py:27-32 | The group keys are distinct, and a key is present exactly when some record has that type. |
| MergeByDistance.ItemsOfAppend | scripts/merge_by_distance.py:28-32 | Grouping distributes over concatenation, so each group lists its records in input order. |
| MergeByDistance.EventTypesGrowAtTheEnd | scripts/merge_by_distance.py:28-31 | The keys of a prefix of the input are a prefix of the keys of the whole input. This is first-appearance order. |
| MergeByDistance.EveryItemInOneGroup | scripts/merge_by_distance.py:27-32 | The group sizes add up to the number of records. Since each group holds only its own type, every record lands in exactly one group. |
| MergeByDistance.CirclesEmptyIffUnlocated | scripts/merge_by_distance.py:36-45 | A group has no circle exactly when none of its records has both `a` and `b`. Stated for the group of a key, the same fact is `CirclesExistIffPositioned`. |
| MergeByDistance.FeatureOf | scripts/merge_by_distance.py:35-71 | No feature exactly when the group has no circle. Otherwise a MultiPolygon tagged with the group's key, with one coordinate entry per merged polygon. When the union is a single polygon, the feature holds exactly that polygon's one entry (lines 51-52). |
| MergeByDistance.FeatureCoordinates | scripts/merge_by_distance.py:51-59 | Coordinate entry i of a group's feature is merged polygon i: its exterior ring, then its holes. |
| MergeByDistance.KeysWithPosition | scripts/merge_by_distance.py:35-45 | Keeps, in order, exactly the keys whose group has a record with a position. |
| MergeByDistance.FeaturesFor | scripts/merge_by_distance.py:35-71 | At most one feature per key, each a MultiPolygon. The `name_id` sequence is exactly the keys whose group has a positioned record, in key order. |
| MergeByDistance.FeaturesAreTagged | scripts/merge_by_distance.py:35-71 | Every feature's `name_id` is one of the keys, and that key's group has a record with a position. |
| MergeByDistance.GroupByEvent | scripts/merge_by_distance.py:27-32 | The dictionary loop yields the keys in first-appearance order, and under each key exactly that type's records in input order. |
| MergeByDistance.BufferPoints | scripts/merge_by_distance.py:36-42 | Fails exactly when a record of the group has a null `c`, even one without a position. Otherwise it gives the group's circles. |
| MergeByDistance.PolygonCoords | scripts/merge_by_distance.py:55-59 | One entry per polygon, in order. Each entry is the exterior ring followed by the interiors, so its length is 1 + the number of interiors. |
| MergeByDistance.GroupFeature | scripts/merge_by_distance.py:36-71 | The body of the per-group loop: it fails on a null `c`, and otherwise gives the group's feature, or none when the group has no circle. |
| MergeByDistance.ProcessData | scripts/merge_by_distance.py:18-77 | Fails exactly when some record has a null `c`. Otherwise the features are those of the event types in first-appearance order. |
| SafetyCard.Threshold | src/components/sidebar/safetyCard.tsx:17-42 | The thresholds are 25, 50, 75 and 100, rising by 25 per severity step. |
| SafetyCard.InvertedValue | src/components/sidebar/safetyCard.tsx:49 | The inverted value lies in 0..100 and mirrors the slider around 50. |
| SafetyCard.CurrentLevel | src/components/sidebar/safetyCard.tsx:51-56 | Gives the least severe level whose threshold is at or above the inverted value, and Critical when there is none. |
| SafetyCard.LevelBands | src/components/sidebar/safetyCard.tsx:51-56 | Minor iff the value is ≤ 25. Moderate iff it is in (25, 50]. Significant iff it is in (50, 75]. Critical iff it is > 75. |
| SafetyCard.RaisingDangerLevelIsNeverMoreSevere | src/components/sidebar/safetyCard.tsx:49-56 | Moving the slider right never selects a more severe level. |
| SafetyCard.IconsPairWithLevels | src/components/sidebar/safetyCard.tsx:60-62 | `levels`, `icons` and `iconsBw` all have length 4. Index i is severity 3-i, its icon is `level(4-i).svg`, and its grey icon is the `-bw` variant. |
| SafetyCard.TextColor | src/components/sidebar/safetyCard.tsx:93 | The coloured class is the level's colour with `bg-` turned into `text-`. |
| SafetyCard.IconRow | src/components/sidebar/safetyCard.tsx:85-98 | Four icons, most severe first, labelled with their level. An icon shows the coloured image and the text colour exactly when the inverted value is below its threshold; otherwise it shows the grey image and the muted class. |
| SafetyCard.IconOf | src/components/sidebar/safetyCard.tsx:85-93 | Icon i is labelled with its level. It shows the coloured image and the level's text colour exactly when the inverted value is below the level's threshold; otherwise it shows the grey image and the muted class. |
| SafetyCard.ColouringIsUpwardClosed | src/components/sidebar/safetyCard.tsx:86 | If an icon is coloured, every icon with a higher threshold is coloured too. |
| SafetyCard.ColouredIconCount | src/components/sidebar/safetyCard.tsx:85-93 | On 0..100, the number of coloured icons is 4 - ⌊inverted/25⌋. |
| SafetyCard.ColouringAgainstCurrentLevel | src/components/sidebar/safetyCard.tsx:49-93 | Icons of levels more severe than the current level are coloured, and those less severe are not. The current level's own icon is coloured unless the value sits exactly on its threshold. |
| SafetyCard.InitialPositionIsCritical | src/components/sidebar/safetyCard.tsx:46-93 | At the initial slider value 0 the level is Critical and every icon is grey. |
| SafetyCard.DescriptionsDiffer | src/components/sidebar/safetyCard.tsx:17-42 | The four level descriptions are pairwise different. |
| SafetyCard.DescriptionBox | src/components/sidebar/safetyCard.tsx:102-104 | The box carries the current level's colour and description. It describes the Minor level exactly when the inverted value is at most 25, and the Critical level exactly when it is above 75. |
| SafetyCard.MinorBoundary | src/components/sidebar/safetyCard.tsx:52-93 | At inverted value 25 the level is Minor, yet the Minor icon is grey. |

## Left out

- Network I/O is not modelled. Each `fetch` and `response.json()` outcome is an input: a network failure, or a response with its `ok` flag and an optional parsed body. A body that fails to parse is a missing body, and both give null.
- `JSON.stringify` of the request body is not modelled.
- Polyline decoding is a function parameter (`@mapbox/polyline`, precision 6 for Valhalla and the default for OSRM).
- The text form of a number inside the OSRM path is a function parameter, assumed to produce digits, sign, point, exponent, `NaN` or `Infinity`.
- `@/types/coords` is not part of this model. `Coords` is assumed to hold numeric `lat` and `lon`.
- Infinities and negative zero are not modelled; numbers are exact reals or NaN.
- ExclusionRings.KeptAsWritten: a slot holding the text "Infinity" passes the filter and is cleaned to an infinite value in the source (null once serialised). The model has no infinite numbers and does not cover that slot.
- A point given as a two-character string (which passes `c.length === 2`) is not modelled. Ring points are arrays of components or missing.
- ExclusionRings.Round6: the source rounds the binary double nearest to the input. The model rounds the exact real. Ties that a double cannot represent exactly may round differently in the source.
- Geometries whose `coordinates` nest less deeply than a MultiPolygon are not modelled. The declared type only admits the MultiPolygon nesting.
- The geometry's `type` field is not modelled. It is carried along and never read.
- `console.warn` and `console.error` are not modelled.
- MergeByDistance: Shapely's `buffer` and `unary_union` are not modelled. A circle is kept as its centre and radius in degrees, and the union is a function parameter returning one polygon or a MultiPolygon.
- MergeByDistance: a union returning an empty geometry or a GeometryCollection is not modelled.
- MergeByDistance: numpy coordinate conversion is not modelled.
- MergeByDistance: the radius arithmetic is done in exact reals.
- MergeByDistance: event types are modelled as optional integers, so Python's mixing of `1`, `1.0` and `True` as one dictionary key is not modelled.
- MergeByDistance: non-numeric `a`, `b` or `c` values are not modelled beyond a null `c`, which raises the TypeError.
- MergeByDistance: file reading and writing, `os.makedirs`, `tqdm` and the final `print` are not modelled. `ProcessData` takes the parsed records and returns the features instead of writing the FeatureCollection.
- SafetyCard: the React state hook, the Slider widget's events, and the card markup are not modelled, apart from the icon row and the description box. The markup left out includes the title and the label spans.
- Hazard ray-casting, the severity lookup table, bounding-box filtering, per-point danger classification and a 1..10 severity cutoff derived from the slider are not implemented in these files and are not part of this model. The slider here only selects one of the four levels above.
- A ring that passes the filter is not checked for three distinct vertices. Only its point count is checked, and the model keeps it that way.
- The routing proxy (`src/app/api/routing/route.ts`) is not part of this model. The same goes for the street-name completion, the stores, the carbon card and the remaining UI components.

## Findings

| source | as written | input that shows it | evidently intended | confidence | as-written member | corrected member |
|---|---|---|---|---|---|---|
| src/lib/planRouteWithObstacles.ts:37 | The filter accepts a slot when `parseFloat` reads a number from it, but the cleaning at lines 42-43 converts with `Number`, which rejects trailing text. | A ring whose first point is `["1.5x", 0]`, then `[1, 1]` and `[2, 0]`. It passes the filter and is sent with a NaN longitude (null once serialised), and its ends no longer compare equal. | Rings whose components `Number` cannot read are dropped, like other non-numeric rings. | low, not executed | ExclusionRings.NumeralPrefixKeptAsNaN | ExclusionRings.ExcludePolygons |
