# Road-graph construction, pedestrian turns and simulation ticks

This project models three pieces of an OpenStreetMap-based traffic
simulator in Dafny:

- **Splitting raw ways into a road graph** (`split_up_roads`). Roundabout
  ways are removed and their points remapped to the roundabout's centre.
  Ways that touch a roundabout at an end are extended by the centre. Every
  point that ends a way or occurs twice becomes an intersection; a roundabout
  point met anywhere else in a way aborts the conversion, except the way's
  original end right beside a centre it was extended by. Intersections are
  numbered in ascending point order and every way is cut into road segments
  at intersection points. Each pass is an imperative method (`SplitWays`)
  proved against a specification function, and the lemmas at the end of
  `split_ways.dfy` state what the finished map guarantees.
- **Pedestrian turns at an intersection** (`make_walking_turns` and its
  helpers). A dead end gets a corner around it, a two-road intersection gets
  the degenerate crosswalks plus corners, and every other intersection gets,
  road by road, a crosswalk straight across and a corner or crosswalk to the
  nearest neighbouring sidewalk. The imperative builders in
  `walking_turns.dfy` are proved equal to the function `WalkingTurnsOf`;
  `walking_turn_properties.dfy` proves what that function promises: turns
  come in sibling pairs, pairing sets are right, corners join neighbouring
  roads, and every due corner is emitted.
- **Simulation time and position tags** (`Tick`, `On`) in `sim.dfy`.

Points (`Geom.Pt`) are the snapped, hashable points the source uses as map
keys, with exact equality and the derived lexicographic order. Every
computation that produces new coordinates (shifting lines, midpoints,
polyline construction, smoothing, lengths, `LonLat::center`, elevation
lookup) is a function-valued parameter. The `Geometry` datatype bundles the
ones the pedestrian-turn code uses.

## Model

| member | source | states |
|---|---|---|
| SplitWays.IsRoundabout | convert_osm/src/split_ways.rs:24 | a way is a roundabout exactly when its `junction` tag is `roundabout` |
| SplitWays.NonRoundabouts | convert_osm/src/split_ways.rs:23-33 | a way is kept exactly when it is an input way not tagged `junction=roundabout`, and no more ways come out than went in |
| SplitWays.NonRoundaboutsSnoc | convert_osm/src/split_ways.rs:23-33 | one more way is kept at the end exactly when it is not a roundabout |
| SplitWays.NonRoundaboutsAppend | convert_osm/src/split_ways.rs:23-33 | the kept ways of a concatenation are the kept ways of each part in order, and a single way is kept exactly when it is no roundabout; so order and multiplicity are preserved |
| SplitWays.RoundaboutRemap | convert_osm/src/split_ways.rs:22-33 | the remap: roundabout by roundabout in input order, each point sent to its roundabout's centre, later roundabouts overriding earlier ones |
| SplitWays.RoundaboutRemapIsLastCentre | convert_osm/src/split_ways.rs:22-33 | a point is remapped exactly when it lies on some roundabout, and it goes to the centre of the last roundabout it lies on |
| SplitWays.SendToCentre | convert_osm/src/split_ways.rs:25-28 | the remap afterwards is the old remap overridden by every point of the roundabout sent to its centre |
| SplitWays.CollapseRoundabouts | convert_osm/src/split_ways.rs:22-33 | returns the kept ways and the remap exactly as the two specifications above define them |
| SplitWays.ExtendWay | convert_osm/src/split_ways.rs:38-51 | extension never shortens a way |
| SplitWays.ExtendWayShape | convert_osm/src/split_ways.rs:38-51 | the centre is prepended (appended) exactly when the first (last) point is remapped, the way grows by exactly one point at each such end, the original points stay in place, and nothing but the points changes |
| SplitWays.ExtendInPlace | convert_osm/src/split_ways.rs:38-51 | the insert-and-push step yields exactly the extended way |
| SplitWays.IntersectionPoints | convert_osm/src/split_ways.rs:53-65 | the intersection set: every way end and every point occurring twice across all ways |
| SplitWays.IntersectionPointsIff | convert_osm/src/split_ways.rs:53-65 | a point is an intersection exactly when it is the first or last point of some way or occurs at least twice across all ways |
| SplitWays.WayEndsAreIntersections | convert_osm/src/split_ways.rs:63-65 | the first and last points of every way are intersections |
| SplitWays.InsertSorted | convert_osm/src/split_ways.rs:59-65 | inserting into the ascending set keeps it ascending and adds exactly the new point |
| SplitWays.SortedUnique | convert_osm/src/split_ways.rs:36 | two ascending enumerations of the same set are equal |
| SplitWays.SortedSubset | convert_osm/src/split_ways.rs:36 | the enumeration is ascending and holds exactly the chosen points |
| SplitWays.CountOccurrence | convert_osm/src/split_ways.rs:54-65 | counts stay equal to the occurrences seen, and the set holds the way ends and every point counted twice |
| SplitWays.HitsRoundaboutMidway | convert_osm/src/split_ways.rs:66-79 | an occurrence aborts when it is a remapped point strictly inside the way and not the original end next to an inserted centre |
| SplitWays.FirstHit | convert_osm/src/split_ways.rs:37-79 | the way and index the loops abort at: no earlier way hits, and no earlier index of that way hits |
| SplitWays.FirstHitUnique | convert_osm/src/split_ways.rs:37-79 | there is at most one first hit, so the reported error is determined |
| SplitWays.TallyPoint | convert_osm/src/split_ways.rs:53-79 | the step stops exactly at a roundabout point that is not an end nor the original end beside an inserted centre; otherwise it keeps the counting invariant |
| SplitWays.TallyWay | convert_osm/src/split_ways.rs:53-80 | a hit is reported exactly when the way meets a roundabout mid-way, and it is the first such index; otherwise counts and set cover the whole way |
| SplitWays.FindIntersections | convert_osm/src/split_ways.rs:35-81 | fails exactly when some extended way hits a roundabout mid-way, naming the first such way, its first such index and its length; otherwise returns the extended ways and the ascending set of their intersection points |
| SplitWays.IdsArePositions | convert_osm/src/split_ways.rs:87-101 | each intersection point's id is its position in ascending order |
| SplitWays.NumberIntersections | convert_osm/src/split_ways.rs:87-101 | builds the intersections and the point-to-id table of the ascending enumeration |
| SplitWays.IntersectionNumbering | convert_osm/src/split_ways.rs:89-101 | ids are 0..n-1 in ascending point order; each intersection is a stop sign with no label at its sampled elevation |
| SplitWays.CutRoads | convert_osm/src/split_ways.rs:109-121 | every emitted segment has at least two points |
| SplitWays.CutRoadsSegments | convert_osm/src/split_ways.rs:104-122 | every segment starts at intersection `i1`, ends at intersection `i2`, crosses no other intersection and keeps the way's id and tags |
| SplitWays.CutRoadsRebuild | convert_osm/src/split_ways.rs:109-121 | the segments glued back together, then the leftover buffer, give back the points; nothing is lost or duplicated |
| SplitWays.Leftover | convert_osm/src/split_ways.rs:109-123 | the buffer the cutting loop holds once it has consumed the remaining points |
| SplitWays.LeftoverIsLastPoint | convert_osm/src/split_ways.rs:123 | when the last point is an intersection exactly that one point stays in the buffer |
| SplitWays.WaySplit | convert_osm/src/split_ways.rs:104-124 | a way with intersection ends is cut into joining segments, one point remains, and two or more points give at least one segment that rebuilds the way |
| SplitWays.SplitWay | convert_osm/src/split_ways.rs:104-124 | appends the way's segments to the map under the next consecutive road ids |
| SplitWays.SplitRoads | convert_osm/src/split_ways.rs:103-124 | the roads are all segments keyed 0, 1, 2, ... in emission order |
| SplitWays.RemappedWays | convert_osm/src/split_ways.rs:22-51 | every remapped way has a point |
| SplitWays.ExpectedMap | convert_osm/src/split_ways.rs:84-124 | the successful result: the numbered intersections of the remapped ways, their segments keyed in emission order, buildings and areas passed through |
| SplitWays.SplitAbortsWith | convert_osm/src/split_ways.rs:35-79 | the abort names the first remapped way that hits a roundabout mid-way, its first such index and its length |
| SplitWays.SplitUpRoads | convert_osm/src/split_ways.rs:9-127 | aborts exactly when a remapped way hits a roundabout mid-way, reporting the first hit; otherwise returns the specified map, with buildings and areas copied unchanged |
| SplitWays.AllSegmentsMembers | convert_osm/src/split_ways.rs:104-124 | every emitted segment comes from one of the ways |
| SplitWays.SegmentJoinsIntersections | convert_osm/src/split_ways.rs:89-121 | a segment's `i1` and `i2` name the intersections at its first and last points, and no interior point is an intersection |
| SplitWays.RemappedWayIsNoRoundabout | convert_osm/src/split_ways.rs:23-33 | no remaining way is a roundabout |
| SplitWays.RoadsConnectIntersections | convert_osm/src/split_ways.rs:104-124 | every road of the map has at least two points, joins the intersections `i1` and `i2` at its ends, crosses no other intersection and is no roundabout |
| SplitWays.WaysAreRebuilt | convert_osm/src/split_ways.rs:109-121 | a remapped way of two or more points gives at least one road, and its roads glued back together are exactly its points |
| Geom.BelowIsStrictTotalOrder | convert_osm/src/split_ways.rs:36 | the derived order of snapped points is a strict total order |
| Geom.Reversed | map_model/src/make/walking_turns.rs:281 | the reversed polyline has the same length |
| Geom.ReversedTwice | map_model/src/make/walking_turns.rs:281 | reversing a polyline twice gives it back |
| Geom.Dedup | map_model/src/make/walking_turns.rs:383-384 | dedup keeps the first and last points and every distinct point, and leaves no two equal neighbours |
| Geom.RunStarts | map_model/src/make/walking_turns.rs:383-384 | reference definition: a point is kept exactly when it is the first or differs from its predecessor, in the original order |
| Geom.DedupSnoc | map_model/src/make/walking_turns.rs:383-384 | appending a point to a non-empty polyline adds it to the deduplicated result unless it repeats the last point |
| Geom.DedupIsRunStarts | map_model/src/make/walking_turns.rs:383-384 | dedup removes exactly the points equal to their predecessor and keeps the rest in order |
| Geom.HasDuplicates | map_model/src/make/walking_turns.rs:420 | some point occurs at two different positions |
| WalkingTurns.MakeTurnId | map_model/src/make/walking_turns.rs:442-444 | the id has the given parent, source and destination |
| WalkingTurns.Endpoint | map_model/src/make/walking_turns.rs:257-258 | the end of a lane at the intersection: its last point when it ends there, otherwise its first point |
| WalkingTurns.GetSidewalk | map_model/src/make/walking_turns.rs:446-453 | the lane of the first sidewalk or shoulder child, if any |
| WalkingTurns.GetSidewalkFirstMatch | map_model/src/make/walking_turns.rs:446-453 | no sidewalk exactly when no child is a sidewalk or shoulder; otherwise the lane of the first child that is one |
| WalkingTurns.CrosswalkPoints | map_model/src/make/walking_turns.rs:260-268 | the crosswalk's points: `l1`'s end, the line shifted by half of `l1`'s width to the side given by which ends the lanes meet, then `l2`'s end |
| WalkingTurns.MakeCrosswalks | map_model/src/make/walking_turns.rs:256-284 | nothing exactly when the line or the polyline is degenerate; otherwise two crosswalks, `l1`→`l2` then back, each paired with the other, along mutually reversed paths |
| WalkingTurns.MakeDegenerateCrosswalks | map_model/src/make/walking_turns.rs:287-348 | the four crosswalks between the two roads' sidewalks through the shared line's midpoints, when every step succeeds |
| WalkingTurns.DegenerateCrosswalksShape | map_model/src/make/walking_turns.rs:287-348 | four crosswalks only when all four sidewalks exist and the midpoints differ, each paired with the other three; nothing when any step fails |
| WalkingTurns.TracedBetween | map_model/src/make/walking_turns.rs:360-401 | the intersection polygon's points between the two shifted sidewalk corners, deduplicated and right-shifted; empty below two points, none when a duplicate remains |
| WalkingTurns.Smoothed | map_model/src/make/walking_turns.rs:404-419 | the smoothed corner is non-empty and ends exactly at `l2`'s first point |
| WalkingTurns.SmoothCorner | map_model/src/make/walking_turns.rs:405-419 | the in-place smoothing yields the specified smoothed points |
| WalkingTurns.CornerPoints | map_model/src/make/walking_turns.rs:376-403 | the corner points run from `l1`'s last point through the traced points, in reverse, to `l2`'s first point |
| WalkingTurns.CornerGeometry | map_model/src/make/walking_turns.rs:351-440 | the shared-sidewalk corner path: the intersection polygon's points between the two sidewalk corners, deduplicated and shifted, run from `l1` to `l2` and smoothed; the straight baseline when a duplicate appears or the path exceeds ten times the baseline's length |
| WalkingTurns.CornerGeometryShape | map_model/src/make/walking_turns.rs:351-440 | the corner ends at `l2`'s first point and is the baseline or a duplicate-free path at most ten times the baseline's length; duplicates or an overlong path give the baseline |
| WalkingTurns.MakeSharedSidewalkCorner | map_model/src/make/walking_turns.rs:351-440 | the imperative corner builder returns the specified corner path |
| WalkingTurns.Neighbor | map_model/src/make/walking_turns.rs:24-28 | the neighbouring index is in range and congruent to `idx + steps * offset` modulo the road count |
| WalkingTurns.NeighborWraps | map_model/src/make/walking_turns.rs:24-39 | up to a full turn, stepping backwards (right-hand traffic) or forwards (left-hand) wraps past the first or last road to the other end |
| WalkingTurns.FindPartner | map_model/src/make/walking_turns.rs:89-139 | the partner a road's incoming sidewalk is joined to: the next road's outgoing sidewalk by a corner, or the nearest sidewalk up to three roads away by a crosswalk |
| WalkingTurns.PartnerProbeOrder | map_model/src/make/walking_turns.rs:89-139 | corner to the next road's outgoing sidewalk; else crosswalk to the nearest sidewalk up to two roads away, outgoing first, or three away with more than three roads; none otherwise |
| WalkingTurns.CornerPair | map_model/src/make/walking_turns.rs:94-107 | pushes the corner and its reverse along the reversed path |
| WalkingTurns.DeadEndTurns | map_model/src/make/walking_turns.rs:61-80 | a dead end's turns: the corner from its incoming to its outgoing sidewalk, when both exist |
| WalkingTurns.TwoRoadCorner | map_model/src/make/walking_turns.rs:36-57 | at a two-road intersection, one road's corner pair to the next road's outgoing sidewalk, when both sidewalks exist and their ends differ |
| WalkingTurns.RoadTurns | map_model/src/make/walking_turns.rs:83-139 | one road's turns in the general case: its own crosswalks, then the corner or crosswalk to its partner |
| WalkingTurns.WalkingTurnsOf | map_model/src/make/walking_turns.rs:10-144 | the turns of an intersection: with two roads the degenerate crosswalks then both corners, with one road the dead end's corner, otherwise every road's turns in angle order |
| WalkingTurns.MakeWalkingTurns | map_model/src/make/walking_turns.rs:10-144 | the loops build exactly the specified turns of the intersection |
| WalkingTurns.DegenerateStep | map_model/src/make/walking_turns.rs:30-33 | adds the degenerate crosswalks when they exist |
| WalkingTurns.TwoRoadCornersStep | map_model/src/make/walking_turns.rs:35-58 | the two-road loop builds the corners of both roads in order |
| WalkingTurns.TwoRoadCornerStep | map_model/src/make/walking_turns.rs:36-57 | one road's corner at a two-road intersection |
| WalkingTurns.DeadEndStep | map_model/src/make/walking_turns.rs:61-80 | the dead end's corner pair |
| WalkingTurns.RoadStep | map_model/src/make/walking_turns.rs:82-140 | one road's turns in the general case |
| WalkingTurns.PartnerStep | map_model/src/make/walking_turns.rs:89-139 | the corner or crosswalk to the partner the probe finds |
| WalkingTurnProperties.CornerTurnsPaired | map_model/src/make/walking_turns.rs:94-107 | a corner pair is a sibling pair along reversed paths |
| WalkingTurnProperties.CrosswalksPaired | map_model/src/make/walking_turns.rs:270-283 | crosswalks come as a sibling pair along reversed paths |
| WalkingTurnProperties.DegenerateCrosswalksPaired | map_model/src/make/walking_turns.rs:311-341 | the degenerate crosswalks come as two sibling pairs |
| WalkingTurnProperties.RoadTurnsPaired | map_model/src/make/walking_turns.rs:82-140 | one road's turns come as sibling pairs along reversed paths |
| WalkingTurnProperties.GeneralTurnsPaired | map_model/src/make/walking_turns.rs:82-141 | the general case's turns come as sibling pairs along reversed paths |
| WalkingTurnProperties.TwoRoadCornerPaired | map_model/src/make/walking_turns.rs:36-57 | a two-road corner is a sibling pair |
| WalkingTurnProperties.TwoRoadCornersPaired | map_model/src/make/walking_turns.rs:35-58 | all two-road corners come as sibling pairs |
| WalkingTurnProperties.WalkingTurnsPaired | map_model/src/make/walking_turns.rs:10-144 | the turns come in consecutive pairs (0,1), (2,3), ..., each a turn and its sibling (same type, swapped lanes); off the two-road case the pair also runs along reversed paths |
| WalkingTurnProperties.CrosswalkFacts | map_model/src/make/walking_turns.rs:270-283 | each crosswalk belongs to the intersection and is paired with exactly its sibling |
| WalkingTurnProperties.CornerFacts | map_model/src/make/walking_turns.rs:96-107 | corner turns belong to the intersection, are paired with nothing and join `l1` and `l2` |
| WalkingTurnProperties.DegenerateFacts | map_model/src/make/walking_turns.rs:305-346 | the degenerate turns are crosswalks of the intersection |
| WalkingTurnProperties.PartnerFacts | map_model/src/make/walking_turns.rs:89-139 | partner turns are correctly paired; a corner among them joins `l1` to the corner partner it does not meet |
| WalkingTurnProperties.RoadTurnsFacts | map_model/src/make/walking_turns.rs:82-140 | one road's turns are correctly paired, and its corners lead to the next road |
| WalkingTurnProperties.TwoRoadCornerFacts | map_model/src/make/walking_turns.rs:36-57 | a two-road corner is paired with nothing and leads to the other road |
| WalkingTurnProperties.GeneralTurnsFacts | map_model/src/make/walking_turns.rs:82-141 | all general-case turns are correctly paired and their corners join neighbours |
| WalkingTurnProperties.TwoRoadCornersFacts | map_model/src/make/walking_turns.rs:35-58 | all two-road corners are correctly paired and join neighbours |
| WalkingTurnProperties.WalkingTurnsPairingSets | map_model/src/make/walking_turns.rs:10-144 | every turn belongs to the intersection and corners are paired with nothing; off the two-road case each crosswalk is paired with exactly its sibling |
| WalkingTurnProperties.WalkingTurnsCornersJoin | map_model/src/make/walking_turns.rs:30-141 | with two roads or more, a corner only joins a road's incoming sidewalk to the next road's outgoing sidewalk, when they do not meet |
| WalkingTurnProperties.GeneralTurnsPrefix | map_model/src/make/walking_turns.rs:82-141 | the turns of the first roads are a prefix of the turns of more roads |
| WalkingTurnProperties.TwoRoadCornerEmitted | map_model/src/make/walking_turns.rs:35-58 | a due two-road corner pair appears consecutively, at a known index |
| WalkingTurnProperties.RoadTurnsEndInCorner | map_model/src/make/walking_turns.rs:83-108 | a road whose corner is due ends its turns with the corner pair |
| WalkingTurnProperties.GeneralCornerEmitted | map_model/src/make/walking_turns.rs:82-141 | a due general-case corner pair appears consecutively, at a known index |
| WalkingTurnProperties.WalkingTurnsCornerEmitted | map_model/src/make/walking_turns.rs:10-144 | conversely, whenever a road's incoming and the next road's outgoing sidewalks exist and do not meet, both corner turns are emitted consecutively along reversed paths |
| WalkingTurnProperties.DeadEndShape | map_model/src/make/walking_turns.rs:61-80 | a dead end gets nothing exactly when a sidewalk side is missing; otherwise exactly the corner pair, paired with nothing, along reversed paths |
| WalkingTurnProperties.RoadTurnsShape | map_model/src/make/walking_turns.rs:83-88 | a road without an incoming sidewalk adds nothing; with both sidewalks its own crosswalks come first |
| Sim.Tick.Zero | sim/src/lib.rs:70-72 | the zero tick's counter is 0 |
| Sim.Tick.Increment | sim/src/lib.rs:78-80 | the counter grows by exactly one and nothing else changes |
| Sim.Tick.Sub | sim/src/lib.rs:83-89 | a new tick whose counter is the difference of the counters |
| Sim.Tick.Cmp | sim/src/lib.rs:66-67 | ticks compare equal, less or greater exactly as their counters do |
| Sim.CmpIsTotalOrder | sim/src/lib.rs:66-67 | the tick ordering is reflexive, antisymmetric and transitive |
| Sim.AsLane | sim/src/lib.rs:106-111 | succeeds exactly on a lane tag, with its id; aborts on a turn |
| Sim.AsTurn | sim/src/lib.rs:113-118 | succeeds exactly on a turn tag, with its id; aborts on a lane |
| Sim.MaybeTurn | sim/src/lib.rs:120-125 | `Some(id)` exactly for a turn tag, `None` for a lane |
| Sim.ProjectionsAgree | sim/src/lib.rs:105-125 | exactly one projection succeeds, recovering the tag, and `maybe_turn` agrees with `as_turn` |
| Sim.ProjectionRoundTrips | sim/src/lib.rs:105-125 | tagging an id and projecting it back gives the id |

## Left out

- Floating-point geometry is not modelled: `Line::new`, `shift_either_direction`, `percent_along`, `PolyLine::deduping_new`, `right_shift_line`, `find_pts_between`, `must_right_shift`, `approx_dedupe`, `PolyLine::length`, `LonLat::center` and elevation lookup are opaque function parameters. Only the equality tests and the ten-times length comparison are kept.
- `Lane::endpoint`, `Road::incoming_lanes`/`outgoing_lanes` and `Intersection::get_roads_sorted_by_incoming_angle` come from files that are not part of this model. A road is given as its incoming and outgoing `(lane, type)` children, already in angle order.
- `WalkingTurns.Endpoint` stands for `Lane::endpoint`: a lane that both starts and ends at the intersection gives its last point, and a lane touching neither end gives its first point instead of panicking.
- The lane table is a total lookup function, so an out-of-range lane id (a panic in the source) is not modelled.
- `wraparound_get` is not part of this model; it is taken as Euclidean modulo on the road index (`WalkingTurns.Neighbor`).
- Panics of `PolyLine::must_new` and `must_right_shift` on degenerate input are not modelled.
- `Timer::warn` diagnostics and the `println!` progress line have no effect on the result and are left out.
- The unreachable `Ring` shortcut under `if false` in `make_shared_sidewalk_corner` is left out, as is the unused `_new_make_walking_turns`.
- `Tick::as_time`, `Tick`'s `Display`, `On::length` and `On::dist_along` are left out: floating point and map lookups.
- `Sim.Tick.Increment` requires the counter below `u32::MAX`. `Sim.Tick.Sub` requires the subtrahend not to exceed the minuend. Wrap-around and overflow panics are not modelled.
- `SplitWays.SplitUpRoads` requires every non-roundabout way to have a point. The source indexes `points[0]` unchecked and would panic on an empty way.
- `roads.retain` is modelled as building the list of kept ways, not as compaction in place.
- `SplitWays.Intersection` calls the label field `intersectionLabel`.
- `WalkingTurnProperties.WalkingTurnsPaired`: at two-road intersections, pairs are not shown to run along reversed paths. The degenerate crosswalks' paths come from an opaque `deduping_new` applied to mutually reversed point lists.
- `WalkingTurnProperties.WalkingTurnsPairingSets`: at two-road intersections, each degenerate crosswalk is paired with the other three (`WalkingTurns.DegenerateCrosswalksShape`), not only with its sibling.
- The `Geometry` parameter's functions are assumed deterministic. Two calls with the same arguments give the same polyline.
