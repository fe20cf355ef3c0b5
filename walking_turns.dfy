/**
 * Pedestrian turns at one intersection (`map_model/src/make/walking_turns.rs`).
 *
 * Which turns are generated, with which ids, types, pairing sets and
 * geometry symmetry, is modelled exactly. The coordinate computations of the
 * geometry library (building and shifting lines, midpoints, tracing the
 * intersection polygon, smoothing, lengths) are parameters collected in
 * `Geometry`; only the equality tests and the comparisons the code makes on
 * their results are modelled.
 */
module WalkingTurns {
  import opened Wrappers
  import opened Geom
  import opened MapIds

  datatype DrivingSide = Right | Left

  datatype LaneType = Driving | Parking | Sidewalk | Shoulder | Biking | Bus | SharedLeftTurn | Construction | LightRail

  /** A straight line between two points. */
  datatype Line = Line(pt1: Pt, pt2: Pt)

  /**
   * The parts of a lane the turn generator reads: its id and type, the
   * intersections at its two ends, its width, and the first and last lines
   * of its centre line.
   */
  datatype Lane = Lane(
    id: LaneId, laneType: LaneType, srcI: IntersectionId, dstI: IntersectionId,
    width: real, firstLine: Line, lastLine: Line)

  function FirstPt(l: Lane): Pt { l.firstLine.pt1 }

  function LastPt(l: Lane): Pt { l.lastLine.pt2 }

  /** The end of the lane at intersection `i`. */
  function Endpoint(l: Lane, i: IntersectionId): Pt
  {
    if l.dstI == i then LastPt(l) else FirstPt(l)
  }

  /** One entry of `Road::incoming_lanes(i)` or `Road::outgoing_lanes(i)`. */
  datatype Child = Child(lane: LaneId, laneType: LaneType)

  /** A road as seen from the intersection: its lanes towards it and away from it. */
  datatype RoadEnd = RoadEnd(incoming: seq<Child>, outgoing: seq<Child>)

  datatype Intersection = Intersection(id: IntersectionId, polygon: seq<Pt>)

  datatype TurnType = SharedSidewalkCorner | Crosswalk

  datatype Turn = Turn(id: TurnId, turnType: TurnType, otherCrosswalkIds: set<TurnId>, geom: seq<Pt>)

  /**
   * The geometry library, as parameters:
   * `lineNew` is `Line::new` (None for a degenerate line),
   * `shiftEitherDirection` and `percentAlong` the `Line` methods,
   * `dedupingNew` is `PolyLine::deduping_new(..).ok()`,
   * `rightShiftLine` and `mustRightShift` the `DrivingSide` shifts,
   * `findPtsBetween` is `Pt2D::find_pts_between`,
   * `approxDedupe` is `Pt2D::approx_dedupe` and `length` is `PolyLine::length`.
   */
  datatype Geometry = Geometry(
    lineNew: (Pt, Pt) -> Option<Line>,
    shiftEitherDirection: (Line, real) -> Line,
    percentAlong: (Line, real) -> Option<Pt>,
    dedupingNew: seq<Pt> -> Option<seq<Pt>>,
    rightShiftLine: (DrivingSide, Line, real) -> Line,
    findPtsBetween: (seq<Pt>, Pt, Pt, real) -> Option<seq<Pt>>,
    mustRightShift: (DrivingSide, seq<Pt>, real) -> seq<Pt>,
    approxDedupe: (seq<Pt>, real) -> seq<Pt>,
    length: seq<Pt> -> real)

  // ---------------------------------------------------------------------
  // Ids and sidewalks

  /** `turn_id`. */
  function MakeTurnId(parent: IntersectionId, src: LaneId, dst: LaneId): (t: TurnId)
    ensures t.parent == parent && t.src == src && t.dst == dst
  {
    TurnId(parent, src, dst)
  }

  predicate Walkable(lt: LaneType)
  {
    lt == Sidewalk || lt == Shoulder
  }

  /** `get_sidewalk`: the lane of the first child that is a sidewalk or a shoulder. */
  function GetSidewalk(lanes: LaneId -> Lane, children: seq<Child>): Option<Lane>
  {
    if children == [] then None
    else if Walkable(children[0].laneType) then Some(lanes(children[0].lane))
    else GetSidewalk(lanes, children[1..])
  }

  /**
   * `get_sidewalk` finds the first child that is a sidewalk or a shoulder,
   * and finds nothing exactly when no child is one.
   */
  lemma {:induction false} GetSidewalkFirstMatch(lanes: LaneId -> Lane, children: seq<Child>)
    ensures GetSidewalk(lanes, children).None? <==>
      forall k :: 0 <= k < |children| ==> !Walkable(children[k].laneType)
    ensures GetSidewalk(lanes, children).Some? ==>
      exists k :: (&& 0 <= k < |children| && Walkable(children[k].laneType)
        && GetSidewalk(lanes, children).value == lanes(children[k].lane)
        && forall j :: 0 <= j < k ==> !Walkable(children[j].laneType))
  {
    if children != [] && !Walkable(children[0].laneType) {
      var rest := children[1..];
      GetSidewalkFirstMatch(lanes, rest);
      assert forall k :: 1 <= k < |children| ==> children[k] == rest[k - 1];
      if GetSidewalk(lanes, rest).Some? {
        var k :| (&& 0 <= k < |rest| && Walkable(rest[k].laneType)
          && GetSidewalk(lanes, rest).value == lanes(rest[k].lane)
          && forall j :: 0 <= j < k ==> !Walkable(rest[j].laneType));
        assert Walkable(children[k + 1].laneType);
      }
    }
  }

  function InSidewalk(lanes: LaneId -> Lane, road: RoadEnd): Option<Lane>
  {
    GetSidewalk(lanes, road.incoming)
  }

  function OutSidewalk(lanes: LaneId -> Lane, road: RoadEnd): Option<Lane>
  {
    GetSidewalk(lanes, road.outgoing)
  }

  // ---------------------------------------------------------------------
  // Crosswalks

  /** `.into_iter().flatten()` on an optional list of turns. */
  function Flatten(o: Option<seq<Turn>>): seq<Turn>
  {
    if o.Some? then o.value else []
  }

  /**
   * `make_crosswalks`: nothing when the line between the two sidewalk ends
   * or the jutting polyline is degenerate; otherwise the crosswalk from
   * `l1` to `l2` and back, each paired with the other, along mutually
   * reversed polylines.
   */
  function MakeCrosswalks(g: Geometry, i: IntersectionId, l1: Lane, l2: Lane): (r: Option<seq<Turn>>)
    ensures r.None? <==>
      var line := g.lineNew(Endpoint(l1, i), Endpoint(l2, i));
      line.None? || g.dedupingNew(CrosswalkPoints(g, i, l1, l2, line.value)).None?
    ensures r.Some? ==>
      && |r.value| == 2
      && r.value[0].id == MakeTurnId(i, l1.id, l2.id)
      && r.value[1].id == MakeTurnId(i, l2.id, l1.id)
      && r.value[0].turnType == Crosswalk && r.value[1].turnType == Crosswalk
      && r.value[0].otherCrosswalkIds == {r.value[1].id}
      && r.value[1].otherCrosswalkIds == {r.value[0].id}
      && r.value[1].geom == Reversed(r.value[0].geom)
      && r.value[0].geom == Reversed(r.value[1].geom)
  {
    match g.lineNew(Endpoint(l1, i), Endpoint(l2, i))
    case None => None
    case Some(line) =>
      match g.dedupingNew(CrosswalkPoints(g, i, l1, l2, line))
      case None => None
      case Some(fwds) =>
        ReversedTwice(fwds);
        var there := MakeTurnId(i, l1.id, l2.id);
        var back := MakeTurnId(i, l2.id, l1.id);
        Some([Turn(there, Crosswalk, {back}, fwds), Turn(back, Crosswalk, {there}, Reversed(fwds))])
  }

  /**
   * The crosswalk's points: from `l1`'s end, out along the line shifted by
   * half of `l1`'s width, and into `l2`'s end. The shift is to one side when
   * both lanes end (or both start) here, and to the other side otherwise.
   */
  function CrosswalkPoints(g: Geometry, i: IntersectionId, l1: Lane, l2: Lane, line: Line): seq<Pt>
  {
    var direction := if (l1.dstI == i) == (l2.dstI == i) then -1.0 else 1.0;
    var shifted := g.shiftEitherDirection(line, direction * l1.width / 2.0);
    [Endpoint(l1, i), shifted.pt1, shifted.pt2, Endpoint(l2, i)]
  }

  /** The midpoint of the line between two points, when that line exists. */
  function Midpoint(g: Geometry, a: Pt, b: Pt): Option<Pt>
  {
    match g.lineNew(a, b)
    case None => None
    case Some(line) => g.percentAlong(line, 0.5)
  }

  /** The four ids of a degenerate intersection's crosswalks. */
  function DegenerateIds(i: IntersectionId, l1In: Lane, l1Out: Lane, l2In: Lane, l2Out: Lane): set<TurnId>
  {
    {MakeTurnId(i, l1In.id, l1Out.id), MakeTurnId(i, l1Out.id, l1In.id),
     MakeTurnId(i, l2In.id, l2Out.id), MakeTurnId(i, l2Out.id, l2In.id)}
  }

  /**
   * `make_degenerate_crosswalks`: one physical crosswalk in the middle of an
   * intersection of two roads. Nothing unless both roads have sidewalks on
   * both sides, both midpoints exist and differ, and every polyline can be
   * built; otherwise four crosswalks, each paired with the other three.
   */
  function MakeDegenerateCrosswalks(g: Geometry, i: IntersectionId, lanes: LaneId -> Lane, r1: RoadEnd, r2: RoadEnd)
    : Option<seq<Turn>>
  {
    var l1In := GetSidewalk(lanes, r1.incoming);
    var l1Out := GetSidewalk(lanes, r1.outgoing);
    var l2In := GetSidewalk(lanes, r2.incoming);
    var l2Out := GetSidewalk(lanes, r2.outgoing);
    if l1In.None? || l1Out.None? || l2In.None? || l2Out.None? then None
    else
      var l1In, l1Out, l2In, l2Out := l1In.value, l1Out.value, l2In.value, l2Out.value;
      var pt1 := Midpoint(g, LastPt(l1In), FirstPt(l2Out));
      var pt2 := Midpoint(g, FirstPt(l1Out), LastPt(l2In));
      if pt1.None? || pt2.None? || pt1.value == pt2.value then None
      else
        var pt1, pt2 := pt1.value, pt2.value;
        var allIds := DegenerateIds(i, l1In, l1Out, l2In, l2Out);
        var g1 := g.dedupingNew([LastPt(l1In), pt1, pt2, FirstPt(l1Out)]);
        var g2 := g.dedupingNew([FirstPt(l1Out), pt2, pt1, LastPt(l1In)]);
        var g3 := g.dedupingNew([LastPt(l2In), pt2, pt1, FirstPt(l2Out)]);
        var g4 := g.dedupingNew([FirstPt(l2Out), pt1, pt2, LastPt(l2In)]);
        if g1.None? || g2.None? || g3.None? || g4.None? then None
        else
          var id1, id2 := MakeTurnId(i, l1In.id, l1Out.id), MakeTurnId(i, l1Out.id, l1In.id);
          var id3, id4 := MakeTurnId(i, l2In.id, l2Out.id), MakeTurnId(i, l2Out.id, l2In.id);
          Some([Turn(id1, Crosswalk, allIds - {id1}, g1.value), Turn(id2, Crosswalk, allIds - {id2}, g2.value),
                Turn(id3, Crosswalk, allIds - {id3}, g3.value), Turn(id4, Crosswalk, allIds - {id4}, g4.value)])
  }

  /**
   * The degenerate crosswalks exist only when all four sidewalks exist and
   * the two midpoints differ; then there are four of them, each paired with
   * the other three.
   */
  lemma DegenerateCrosswalksShape(g: Geometry, i: IntersectionId, lanes: LaneId -> Lane, r1: RoadEnd, r2: RoadEnd)
    ensures var r := MakeDegenerateCrosswalks(g, i, lanes, r1, r2);
      r.Some? ==>
      && InSidewalk(lanes, r1).Some? && OutSidewalk(lanes, r1).Some?
      && InSidewalk(lanes, r2).Some? && OutSidewalk(lanes, r2).Some?
      && var l1In, l1Out := InSidewalk(lanes, r1).value, OutSidewalk(lanes, r1).value;
      var l2In, l2Out := InSidewalk(lanes, r2).value, OutSidewalk(lanes, r2).value;
      var pt1 := Midpoint(g, LastPt(l1In), FirstPt(l2Out));
      var pt2 := Midpoint(g, FirstPt(l1Out), LastPt(l2In));
      && pt1.Some? && pt2.Some? && pt1 != pt2
      && |r.value| == 4
      && r.value[0].id == MakeTurnId(i, l1In.id, l1Out.id)
      && r.value[1].id == MakeTurnId(i, l1Out.id, l1In.id)
      && r.value[2].id == MakeTurnId(i, l2In.id, l2Out.id)
      && r.value[3].id == MakeTurnId(i, l2Out.id, l2In.id)
      && forall k :: 0 <= k < 4 ==>
           && r.value[k].turnType == Crosswalk
           && r.value[k].otherCrosswalkIds == DegenerateIds(i, l1In, l1Out, l2In, l2Out) - {r.value[k].id}
    ensures var r := MakeDegenerateCrosswalks(g, i, lanes, r1, r2);
      r.None? ==>
      || InSidewalk(lanes, r1).None? || OutSidewalk(lanes, r1).None?
      || InSidewalk(lanes, r2).None? || OutSidewalk(lanes, r2).None?
      || var l1In, l1Out := InSidewalk(lanes, r1).value, OutSidewalk(lanes, r1).value;
         var l2In, l2Out := InSidewalk(lanes, r2).value, OutSidewalk(lanes, r2).value;
         var pt1 := Midpoint(g, LastPt(l1In), FirstPt(l2Out));
         var pt2 := Midpoint(g, FirstPt(l1Out), LastPt(l2In));
         || pt1.None? || pt2.None? || pt1 == pt2
         || g.dedupingNew([LastPt(l1In), pt1.value, pt2.value, FirstPt(l1Out)]).None?
         || g.dedupingNew([FirstPt(l1Out), pt2.value, pt1.value, LastPt(l1In)]).None?
         || g.dedupingNew([LastPt(l2In), pt2.value, pt1.value, FirstPt(l2Out)]).None?
         || g.dedupingNew([FirstPt(l2Out), pt1.value, pt2.value, LastPt(l2In)]).None?
  {
  }

  // ---------------------------------------------------------------------
  // Shared sidewalk corners

  function Min(a: real, b: real): real
  {
    if a <= b then a else b
  }

  /** The straight two-point fallback from `l1`'s last point to `l2`'s first point. */
  function Baseline(l1: Lane, l2: Lane): seq<Pt>
  {
    [LastPt(l1), FirstPt(l2)]
  }

  /**
   * The points of the intersection polygon between the two sidewalk
   * corners, right-shifted by half the narrower sidewalk's width; empty when
   * fewer than two distinct points are found, and None when they contain a
   * duplicate point.
   */
  function TracedBetween(g: Geometry, side: DrivingSide, inter: Intersection, l1: Lane, l2: Lane): Option<seq<Pt>>
  {
    var corner1 := g.rightShiftLine(side, l1.lastLine, l1.width / 2.0).pt2;
    var corner2 := g.rightShiftLine(side, l2.firstLine, l2.width / 2.0).pt1;
    var iPts := if side == Left then Reversed(inter.polygon) else inter.polygon;
    match g.findPtsBetween(iPts, corner2, corner1, 0.5)
    case None => Some([])
    case Some(pts) =>
      var deduped := Dedup(pts);
      if |deduped| < 2 then Some([])
      else if HasDuplicates(deduped) then None
      else Some(g.mustRightShift(side, deduped, Min(l1.width, l2.width) / 2.0))
  }

  /**
   * Smoothing the corner's points, falling back to plain deduplication when
   * smoothing leaves fewer than two points, and forcing the last point to be
   * `end`.
   */
  function Smoothed(g: Geometry, pts: seq<Pt>, end: Pt): (r: seq<Pt>)
    requires |pts| > 0
    ensures |r| > 0 && Last(r) == end
    ensures |g.approxDedupe(pts, 1.0)| < 2 ==> r[0] == pts[0] || |r| == 1
  {
    var approx := g.approxDedupe(pts, 1.0);
    var final := if |approx| < 2 then Dedup(pts) else approx;
    if Last(final) != end then final[..|final| - 1] + [end] else final
  }

  /** The path a pedestrian takes around the corner from sidewalk `l1` to sidewalk `l2`. */
  function CornerGeometry(g: Geometry, side: DrivingSide, inter: Intersection, l1: Lane, l2: Lane): seq<Pt>
  {
    match TracedBetween(g, side, inter, l1, l2)
    case None => Baseline(l1, l2)
    case Some(traced) =>
      var final := Smoothed(g, CornerPoints(l1, l2, traced), FirstPt(l2));
      if HasDuplicates(final) || g.length(final) > 10.0 * g.length(Baseline(l1, l2)) then Baseline(l1, l2)
      else final
  }

  /**
   * The corner path always ends exactly at `l2`'s first point, and it is
   * either the straight baseline or a duplicate-free path at most ten times
   * as long as the baseline. The baseline is taken whenever the traced
   * points or the final points contain a duplicate, or the final path would
   * be longer than that.
   */
  lemma CornerGeometryShape(g: Geometry, side: DrivingSide, inter: Intersection, l1: Lane, l2: Lane)
    ensures var r := CornerGeometry(g, side, inter, l1, l2);
      && |r| > 0 && Last(r) == FirstPt(l2)
      && (r == Baseline(l1, l2) || (!HasDuplicates(r) && g.length(r) <= 10.0 * g.length(Baseline(l1, l2))))
      && (TracedBetween(g, side, inter, l1, l2).None? ==> r == Baseline(l1, l2))
      && (TracedBetween(g, side, inter, l1, l2).Some? ==>
            var final := Smoothed(g, CornerPoints(l1, l2, TracedBetween(g, side, inter, l1, l2).value), FirstPt(l2));
            (HasDuplicates(final) || g.length(final) > 10.0 * g.length(Baseline(l1, l2))) ==> r == Baseline(l1, l2))
  {
  }

  /** From `l1`'s last point through the traced points (in reverse) to `l2`'s first point. */
  function CornerPoints(l1: Lane, l2: Lane, traced: seq<Pt>): (r: seq<Pt>)
    ensures |r| == |traced| + 2 && r[0] == LastPt(l1) && Last(r) == FirstPt(l2)
    ensures r[1..|r| - 1] == Reversed(traced)
  {
    var pts := [FirstPt(l2)] + traced + [LastPt(l1)];
    ReversedIndex(pts);
    ReversedIndex(traced);
    assert Reversed(pts)[1..|pts| - 1] == Reversed(traced) by {
      forall k | 0 <= k < |traced|
        ensures Reversed(pts)[1 + k] == Reversed(traced)[k]
      {
        assert pts[|pts| - 2 - k] == traced[|traced| - 1 - k];
      }
    }
    Reversed(pts)
  }

  /** `make_shared_sidewalk_corner`. */
  method MakeSharedSidewalkCorner(g: Geometry, side: DrivingSide, inter: Intersection, l1: Lane, l2: Lane)
    returns (r: seq<Pt>)
    ensures r == CornerGeometry(g, side, inter, l1, l2)
  {
    var baseline := [LastPt(l1), FirstPt(l2)];
    var corner1 := g.rightShiftLine(side, l1.lastLine, l1.width / 2.0).pt2;
    var corner2 := g.rightShiftLine(side, l2.firstLine, l2.width / 2.0).pt1;
    var ptsBetween := [FirstPt(l2)];
    ghost var traced: seq<Pt> := [];
    var iPts := inter.polygon;
    if side == Left {
      iPts := Reversed(iPts);
    }
    var found := g.findPtsBetween(iPts, corner2, corner1, 0.5);
    if found.Some? {
      var deduped := Dedup(found.value);
      if |deduped| >= 2 {
        if HasDuplicates(deduped) {
          assert TracedBetween(g, side, inter, l1, l2).None?;
          return baseline;
        }
        var shifted := g.mustRightShift(side, deduped, Min(l1.width, l2.width) / 2.0);
        traced := shifted;
        ptsBetween := ptsBetween + shifted;
      }
    }
    assert TracedBetween(g, side, inter, l1, l2) == Some(traced);
    ptsBetween := ptsBetween + [LastPt(l1)];
    ptsBetween := Reversed(ptsBetween);
    assert ptsBetween == CornerPoints(l1, l2, traced);
    var finalPts := SmoothCorner(g, ptsBetween, FirstPt(l2));
    if HasDuplicates(finalPts) {
      return baseline;
    }
    if g.length(finalPts) > 10.0 * g.length(baseline) {
      return baseline;
    }
    return finalPts;
  }

  /** Smoothing the corner's points in place, then replacing the last point by `end`. */
  method SmoothCorner(g: Geometry, pts: seq<Pt>, end: Pt) returns (finalPts: seq<Pt>)
    requires |pts| > 0
    ensures finalPts == Smoothed(g, pts, end)
  {
    finalPts := g.approxDedupe(pts, 1.0);
    if |finalPts| < 2 {
      finalPts := Dedup(pts);
    }
    if Last(finalPts) != end {
      finalPts := finalPts[..|finalPts| - 1];
      finalPts := finalPts + [end];
    }
  }

  /** The corner from `l1` to `l2` and back, along mutually reversed paths, paired with nothing. */
  function CornerTurns(i: IntersectionId, l1: Lane, l2: Lane, geom: seq<Pt>): seq<Turn>
  {
    [Turn(MakeTurnId(i, l1.id, l2.id), SharedSidewalkCorner, {}, geom),
     Turn(MakeTurnId(i, l2.id, l1.id), SharedSidewalkCorner, {}, Reversed(geom))]
  }

  /** A corner is emitted between two sidewalks only when they do not already meet. */
  function CornerIfApart(g: Geometry, side: DrivingSide, inter: Intersection, l1: Lane, l2: Lane): seq<Turn>
  {
    if LastPt(l1) != FirstPt(l2) then CornerTurns(inter.id, l1, l2, CornerGeometry(g, side, inter, l1, l2))
    else []
  }

  // ---------------------------------------------------------------------
  // Neighbouring roads

  /** The index step towards the next road: -1 when driving on the right, +1 on the left. */
  function Offset(side: DrivingSide): int
  {
    if side == Right then -1 else 1
  }

  /** Euclidean remainder is unique: `x = q * n + m` with `0 <= m < n` makes `m` the remainder. */
  lemma ModUnique(x: int, n: int, q: int, m: int)
    requires 0 <= m < n && x == q * n + m
    ensures x % n == m
  {
    var d := q - x / n;
    assert d * n == x % n - m by {
      assert x == (x / n) * n + x % n;
      assert d * n == q * n - (x / n) * n;
    }
  }

  /** `wraparound_get(roads, idx + steps * offset)`: the index taken modulo the road count. */
  function Neighbor(side: DrivingSide, n: nat, idx: nat, steps: nat): (r: nat)
    requires n > 0
    ensures r < n
    ensures (idx + steps * Offset(side) - r) % n == 0
  {
    var x := idx + steps * Offset(side);
    ModUnique(x - x % n, n, x / n, 0);
    x % n
  }

  /**
   * Stepping `steps <= n` roads from road `idx` wraps around the ends:
   * backwards past road 0 when driving on the right, forwards past the last
   * road when driving on the left.
   */
  lemma NeighborWraps(side: DrivingSide, n: nat, idx: nat, steps: nat)
    requires idx < n && steps <= n
    ensures side == Right ==>
      Neighbor(side, n, idx, steps) == if steps <= idx then idx - steps else idx + n - steps
    ensures side == Left ==>
      Neighbor(side, n, idx, steps) == if idx + steps < n then idx + steps else idx + steps - n
  {
    var x := idx + steps * Offset(side);
    if side == Right {
      if steps <= idx {
        ModUnique(x, n, 0, x);
      } else {
        ModUnique(x, n, -1, x + n);
      }
    } else {
      if idx + steps < n {
        ModUnique(x, n, 0, x);
      } else {
        ModUnique(x, n, 1, x - n);
      }
    }
  }

  /** What the general case connects a road's incoming sidewalk to. */
  datatype Partner =
    | Corner(l2: Lane)
    | Cross(l2: Lane, steps: nat)
    | NoPartner

  predicate NoSidewalks(lanes: LaneId -> Lane, road: RoadEnd)
  {
    InSidewalk(lanes, road).None? && OutSidewalk(lanes, road).None?
  }

  /**
   * The probe for a road's partner sidewalk, `step` roads along in the
   * driving side's direction.
   */
  function FindPartner(lanes: LaneId -> Lane, roads: seq<RoadEnd>, side: DrivingSide, idx: nat): Partner
    requires idx < |roads|
  {
    var n := |roads|;
    var r1 := roads[Neighbor(side, n, idx, 1)];
    var r2 := roads[Neighbor(side, n, idx, 2)];
    var r3 := roads[Neighbor(side, n, idx, 3)];
    if OutSidewalk(lanes, r1).Some? then Corner(OutSidewalk(lanes, r1).value)
    else if InSidewalk(lanes, r1).Some? then Cross(InSidewalk(lanes, r1).value, 1)
    else if OutSidewalk(lanes, r2).Some? then Cross(OutSidewalk(lanes, r2).value, 2)
    else if InSidewalk(lanes, r2).Some? then Cross(InSidewalk(lanes, r2).value, 2)
    else if n > 3 && OutSidewalk(lanes, r3).Some? then Cross(OutSidewalk(lanes, r3).value, 3)
    else NoPartner
  }


  /**
   * The probe order: the next road's outgoing sidewalk makes a corner;
   * otherwise the nearest sidewalk up to two roads away, outgoing before
   * incoming, or three roads away (outgoing only, and only with more than
   * three roads) gets a crosswalk, skipping only roads without any sidewalk;
   * with none of these there is no partner.
   */
  lemma PartnerProbeOrder(lanes: LaneId -> Lane, roads: seq<RoadEnd>, side: DrivingSide, idx: nat)
    requires idx < |roads|
    ensures var p, n := FindPartner(lanes, roads, side, idx), |roads|;
      var r1, r2, r3 := roads[Neighbor(side, n, idx, 1)], roads[Neighbor(side, n, idx, 2)], roads[Neighbor(side, n, idx, 3)];
      && (p.Corner? <==> OutSidewalk(lanes, r1).Some?)
      && (p.Corner? ==> OutSidewalk(lanes, r1) == Some(p.l2))
      && (p.Cross? ==>
            && 1 <= p.steps <= 3
            && (p.steps == 1 ==> OutSidewalk(lanes, r1).None? && InSidewalk(lanes, r1) == Some(p.l2))
            && (p.steps >= 2 ==> NoSidewalks(lanes, r1))
            && (p.steps == 2 ==>
                  || OutSidewalk(lanes, r2) == Some(p.l2)
                  || (OutSidewalk(lanes, r2).None? && InSidewalk(lanes, r2) == Some(p.l2)))
            && (p.steps == 3 ==> n > 3 && NoSidewalks(lanes, r2) && OutSidewalk(lanes, r3) == Some(p.l2)))
      && (p.NoPartner? <==>
            NoSidewalks(lanes, r1) && NoSidewalks(lanes, r2) && (n <= 3 || OutSidewalk(lanes, r3).None?))
  {
  }

  // ---------------------------------------------------------------------
  // All the turns of an intersection

  /**
   * The turns the general case makes for the road at `idx`: none without an
   * incoming sidewalk; otherwise first the straight crosswalk to the road's
   * own outgoing sidewalk (when there is one), then the corner or crosswalk
   * to its partner.
   */
  function RoadTurns(g: Geometry, side: DrivingSide, inter: Intersection, lanes: LaneId -> Lane, roads: seq<RoadEnd>,
                     idx: nat): seq<Turn>
    requires idx < |roads|
  {
    match InSidewalk(lanes, roads[idx])
    case None => []
    case Some(l1) =>
      var own := match OutSidewalk(lanes, roads[idx])
        case None => []
        case Some(l2) => Flatten(MakeCrosswalks(g, inter.id, l1, l2));
      own + PartnerTurns(g, side, inter, l1, FindPartner(lanes, roads, side, idx))
  }

  /** The turns between a road's incoming sidewalk `l1` and its partner. */
  function PartnerTurns(g: Geometry, side: DrivingSide, inter: Intersection, l1: Lane, p: Partner): seq<Turn>
  {
    match p
    case Corner(l2) => CornerIfApart(g, side, inter, l1, l2)
    case Cross(l2, _) => Flatten(MakeCrosswalks(g, inter.id, l1, l2))
    case NoPartner => []
  }

  /** The general case's turns for the first `k` roads, road after road. */
  function GeneralTurns(g: Geometry, side: DrivingSide, inter: Intersection, lanes: LaneId -> Lane, roads: seq<RoadEnd>,
                        k: nat): seq<Turn>
    requires k <= |roads|
  {
    if k == 0 then [] else GeneralTurns(g, side, inter, lanes, roads, k - 1) + RoadTurns(g, side, inter, lanes, roads, k - 1)
  }

  /** The corner a road of a two-road intersection makes to the next road. */
  function TwoRoadCorner(g: Geometry, side: DrivingSide, inter: Intersection, lanes: LaneId -> Lane, roads: seq<RoadEnd>,
                         idx: nat): seq<Turn>
    requires idx < |roads|
  {
    match InSidewalk(lanes, roads[idx])
    case None => []
    case Some(l1) =>
      match OutSidewalk(lanes, roads[Neighbor(side, |roads|, idx, 1)])
      case None => []
      case Some(l2) => CornerIfApart(g, side, inter, l1, l2)
  }

  /** The corners of the first `k` roads of a two-road intersection, in order. */
  function TwoRoadCorners(g: Geometry, side: DrivingSide, inter: Intersection, lanes: LaneId -> Lane, roads: seq<RoadEnd>,
                          k: nat): seq<Turn>
    requires k <= |roads|
  {
    if k == 0 then [] else TwoRoadCorners(g, side, inter, lanes, roads, k - 1) + TwoRoadCorner(g, side, inter, lanes, roads, k - 1)
  }

  /** The turns of a dead end: the corner around it, when it has sidewalks on both sides. */
  function DeadEndTurns(g: Geometry, side: DrivingSide, inter: Intersection, lanes: LaneId -> Lane, road: RoadEnd): seq<Turn>
  {
    match InSidewalk(lanes, road)
    case None => []
    case Some(l1) =>
      match OutSidewalk(lanes, road)
      case None => []
      case Some(l2) => CornerTurns(inter.id, l1, l2, CornerGeometry(g, side, inter, l1, l2))
  }

  /** The turns of an intersection whose roads are `roads`, in angle order. */
  function WalkingTurnsOf(g: Geometry, side: DrivingSide, inter: Intersection, lanes: LaneId -> Lane, roads: seq<RoadEnd>)
    : seq<Turn>
  {
    if |roads| == 2 then
      Flatten(MakeDegenerateCrosswalks(g, inter.id, lanes, roads[0], roads[1]))
        + TwoRoadCorners(g, side, inter, lanes, roads, 2)
    else if |roads| == 1 then DeadEndTurns(g, side, inter, lanes, roads[0])
    else GeneralTurns(g, side, inter, lanes, roads, |roads|)
  }

  /** A road's corner pair, as the loops build it. */
  method CornerPair(g: Geometry, side: DrivingSide, inter: Intersection, l1: Lane, l2: Lane) returns (ts: seq<Turn>)
    ensures ts == CornerTurns(inter.id, l1, l2, CornerGeometry(g, side, inter, l1, l2))
  {
    var geom := MakeSharedSidewalkCorner(g, side, inter, l1, l2);
    ts := [Turn(MakeTurnId(inter.id, l1.id, l2.id), SharedSidewalkCorner, {}, geom)];
    ts := ts + [Turn(MakeTurnId(inter.id, l2.id, l1.id), SharedSidewalkCorner, {}, Reversed(geom))];
  }

  /**
   * `make_walking_turns`: the pedestrian turns at `inter`, whose roads are
   * `roads` sorted by incoming angle.
   */
  method MakeWalkingTurns(g: Geometry, side: DrivingSide, inter: Intersection, lanes: LaneId -> Lane, roads: seq<RoadEnd>)
    returns (result: seq<Turn>)
    ensures result == WalkingTurnsOf(g, side, inter, lanes, roads)
  {
    var n := |roads|;
    if n == 2 {
      result := DegenerateStep(g, inter.id, lanes, roads[0], roads[1]);
      var corners := TwoRoadCornersStep(g, side, inter, lanes, roads);
      result := result + corners;
      return;
    }
    if n == 1 {
      result := DeadEndStep(g, side, inter, lanes, roads[0]);
      return;
    }
    result := [];
    for idx1 := 0 to n
      invariant result == GeneralTurns(g, side, inter, lanes, roads, idx1)
    {
      var turns := RoadStep(g, side, inter, lanes, roads, idx1);
      result := result + turns;
    }
  }

  /** The two-road case's loop: each road's corner to the other road. */
  method TwoRoadCornersStep(g: Geometry, side: DrivingSide, inter: Intersection, lanes: LaneId -> Lane, roads: seq<RoadEnd>)
    returns (result: seq<Turn>)
    requires |roads| == 2
    ensures result == TwoRoadCorners(g, side, inter, lanes, roads, 2)
  {
    result := [];
    for idx1 := 0 to |roads|
      invariant result == TwoRoadCorners(g, side, inter, lanes, roads, idx1)
    {
      var turns := TwoRoadCornerStep(g, side, inter, lanes, roads, idx1);
      result := result + turns;
    }
  }

  /** The degenerate crosswalks, when there are any, start the two-road case's result. */
  method DegenerateStep(g: Geometry, i: IntersectionId, lanes: LaneId -> Lane, r1: RoadEnd, r2: RoadEnd)
    returns (result: seq<Turn>)
    ensures result == Flatten(MakeDegenerateCrosswalks(g, i, lanes, r1, r2))
  {
    result := [];
    var degenerate := MakeDegenerateCrosswalks(g, i, lanes, r1, r2);
    if degenerate.Some? {
      result := result + degenerate.value;
    }
  }

  /** The body of the two-road loop for the road at `idx1`. */
  method TwoRoadCornerStep(g: Geometry, side: DrivingSide, inter: Intersection, lanes: LaneId -> Lane, roads: seq<RoadEnd>,
                           idx1: nat) returns (result: seq<Turn>)
    requires idx1 < |roads|
    ensures result == TwoRoadCorner(g, side, inter, lanes, roads, idx1)
  {
    result := [];
    var l1 := GetSidewalk(lanes, roads[idx1].incoming);
    if l1.Some? {
      var l2 := GetSidewalk(lanes, roads[Neighbor(side, |roads|, idx1, 1)].outgoing);
      if l2.Some? {
        if LastPt(l1.value) != FirstPt(l2.value) {
          var pair := CornerPair(g, side, inter, l1.value, l2.value);
          result := pair;
        }
      }
    }
  }

  /** The dead-end case. */
  method DeadEndStep(g: Geometry, side: DrivingSide, inter: Intersection, lanes: LaneId -> Lane, road: RoadEnd)
    returns (result: seq<Turn>)
    ensures result == DeadEndTurns(g, side, inter, lanes, road)
  {
    result := [];
    var l1 := GetSidewalk(lanes, road.incoming);
    if l1.Some? {
      var l2 := GetSidewalk(lanes, road.outgoing);
      if l2.Some? {
        var pair := CornerPair(g, side, inter, l1.value, l2.value);
        result := result + pair;
      }
    }
  }

  /** The body of the general case's loop for the road at `idx1`. */
  method RoadStep(g: Geometry, side: DrivingSide, inter: Intersection, lanes: LaneId -> Lane, roads: seq<RoadEnd>,
                  idx1: nat) returns (ts: seq<Turn>)
    requires idx1 < |roads|
    ensures ts == RoadTurns(g, side, inter, lanes, roads, idx1)
  {
    ts := [];
    var l1 := GetSidewalk(lanes, roads[idx1].incoming);
    if l1.None? {
      return;
    }
    var own := GetSidewalk(lanes, roads[idx1].outgoing);
    if own.Some? {
      ts := ts + Flatten(MakeCrosswalks(g, inter.id, l1.value, own.value));
    }
    var partner := PartnerStep(g, side, inter, lanes, roads, idx1, l1.value);
    ts := ts + partner;
  }

  /** The probe for the partner of sidewalk `l1`, the incoming sidewalk of the road at `idx1`. */
  method PartnerStep(g: Geometry, side: DrivingSide, inter: Intersection, lanes: LaneId -> Lane, roads: seq<RoadEnd>,
                     idx1: nat, l1: Lane) returns (ts: seq<Turn>)
    requires idx1 < |roads|
    ensures ts == PartnerTurns(g, side, inter, l1, FindPartner(lanes, roads, side, idx1))
  {
    ts := [];
    var n := |roads|;
    var next := roads[Neighbor(side, n, idx1, 1)];
    var afterNext := roads[Neighbor(side, n, idx1, 2)];
    var l2 := GetSidewalk(lanes, next.outgoing);
    if l2.Some? {
      assert FindPartner(lanes, roads, side, idx1) == Corner(l2.value);
      if LastPt(l1) != FirstPt(l2.value) {
        ts := CornerPair(g, side, inter, l1, l2.value);
      }
      return;
    }
    l2 := GetSidewalk(lanes, next.incoming);
    if l2.Some? {
      assert FindPartner(lanes, roads, side, idx1) == Cross(l2.value, 1);
      ts := Flatten(MakeCrosswalks(g, inter.id, l1, l2.value));
      return;
    }
    l2 := GetSidewalk(lanes, afterNext.outgoing);
    if l2.Some? {
      assert FindPartner(lanes, roads, side, idx1) == Cross(l2.value, 2);
      ts := Flatten(MakeCrosswalks(g, inter.id, l1, l2.value));
      return;
    }
    l2 := GetSidewalk(lanes, afterNext.incoming);
    if l2.Some? {
      assert FindPartner(lanes, roads, side, idx1) == Cross(l2.value, 2);
      ts := Flatten(MakeCrosswalks(g, inter.id, l1, l2.value));
      return;
    }
    if n > 3 {
      l2 := GetSidewalk(lanes, roads[Neighbor(side, n, idx1, 3)].outgoing);
      if l2.Some? {
        assert FindPartner(lanes, roads, side, idx1) == Cross(l2.value, 3);
        ts := Flatten(MakeCrosswalks(g, inter.id, l1, l2.value));
        return;
      }
    }
    assert FindPartner(lanes, roads, side, idx1) == NoPartner;
  }
}
