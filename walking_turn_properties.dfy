/**
 * What `make_walking_turns` guarantees about all the turns of an
 * intersection: they come in sibling pairs, corners are paired with nothing
 * and ordinary crosswalks with their sibling, and every corner joins a
 * road's incoming sidewalk to the next road's outgoing sidewalk.
 */
module WalkingTurnProperties {
  import opened Wrappers
  import opened Geom
  import opened MapIds
  import opened WalkingTurns

  // ---------------------------------------------------------------------
  // Sibling pairs

  /**
   * `b` is the same movement as `a` in the opposite direction and of the
   * same type; with `paths`, also along the reversed path.
   */
  predicate Siblings(a: Turn, b: Turn, paths: bool)
  {
    b.id == Swap(a.id) && b.turnType == a.turnType && (paths ==> b.geom == Reversed(a.geom))
  }

  /** The turns come as consecutive sibling pairs. */
  predicate Paired(ts: seq<Turn>, paths: bool)
    decreases |ts|
  {
    ts == [] || (|ts| >= 2 && Siblings(ts[0], ts[1], paths) && Paired(ts[2..], paths))
  }

  lemma {:induction false} PairedAppend(a: seq<Turn>, b: seq<Turn>, paths: bool)
    requires Paired(a, paths) && Paired(b, paths)
    ensures Paired(a + b, paths)
    decreases |a|
  {
    if a != [] {
      assert (a + b)[2..] == a[2..] + b;
      PairedAppend(a[2..], b, paths);
    } else {
      assert a + b == b;
    }
  }

  /** Pairs whose paths are reversed are in particular pairs. */
  lemma {:induction false} PairedWithoutPaths(ts: seq<Turn>)
    requires Paired(ts, true)
    ensures Paired(ts, false)
    decreases |ts|
  {
    if ts != [] {
      PairedWithoutPaths(ts[2..]);
    }
  }

  lemma CornerTurnsPaired(i: IntersectionId, l1: Lane, l2: Lane, geom: seq<Pt>)
    ensures Paired(CornerTurns(i, l1, l2, geom), true)
  {
    var ts := CornerTurns(i, l1, l2, geom);
    assert ts[2..] == [];
  }

  lemma CrosswalksPaired(g: Geometry, i: IntersectionId, l1: Lane, l2: Lane)
    ensures Paired(Flatten(MakeCrosswalks(g, i, l1, l2)), true)
  {
    var ts := Flatten(MakeCrosswalks(g, i, l1, l2));
    if ts != [] {
      assert ts[2..] == [];
    }
  }

  lemma DegenerateCrosswalksPaired(g: Geometry, i: IntersectionId, lanes: LaneId -> Lane, r1: RoadEnd, r2: RoadEnd)
    ensures Paired(Flatten(MakeDegenerateCrosswalks(g, i, lanes, r1, r2)), false)
  {
    DegenerateCrosswalksShape(g, i, lanes, r1, r2);
    var ts := Flatten(MakeDegenerateCrosswalks(g, i, lanes, r1, r2));
    if ts != [] {
      assert ts[2..][2..] == [];
    }
  }

  lemma RoadTurnsPaired(g: Geometry, side: DrivingSide, inter: Intersection, lanes: LaneId -> Lane, roads: seq<RoadEnd>,
                        idx: nat)
    requires idx < |roads|
    ensures Paired(RoadTurns(g, side, inter, lanes, roads, idx), true)
  {
    var l1 := InSidewalk(lanes, roads[idx]);
    if l1.Some? {
      var l2 := OutSidewalk(lanes, roads[idx]);
      var own := if l2.Some? then Flatten(MakeCrosswalks(g, inter.id, l1.value, l2.value)) else [];
      if l2.Some? {
        CrosswalksPaired(g, inter.id, l1.value, l2.value);
      }
      var p := FindPartner(lanes, roads, side, idx);
      match p {
        case Corner(l2) =>
          if LastPt(l1.value) != FirstPt(l2) {
            CornerTurnsPaired(inter.id, l1.value, l2, CornerGeometry(g, side, inter, l1.value, l2));
          }
        case Cross(l2, _) =>
          CrosswalksPaired(g, inter.id, l1.value, l2);
        case NoPartner =>
      }
      PairedAppend(own, PartnerTurns(g, side, inter, l1.value, p), true);
    }
  }

  lemma {:induction false} GeneralTurnsPaired(g: Geometry, side: DrivingSide, inter: Intersection, lanes: LaneId -> Lane,
                                              roads: seq<RoadEnd>, k: nat)
    requires k <= |roads|
    ensures Paired(GeneralTurns(g, side, inter, lanes, roads, k), true)
  {
    hide RoadTurns;
    if k > 0 {
      GeneralTurnsPaired(g, side, inter, lanes, roads, k - 1);
      RoadTurnsPaired(g, side, inter, lanes, roads, k - 1);
      PairedAppend(GeneralTurns(g, side, inter, lanes, roads, k - 1), RoadTurns(g, side, inter, lanes, roads, k - 1), true);
    }
  }

  lemma TwoRoadCornerPaired(g: Geometry, side: DrivingSide, inter: Intersection, lanes: LaneId -> Lane,
                            roads: seq<RoadEnd>, idx: nat)
    requires idx < |roads|
    ensures Paired(TwoRoadCorner(g, side, inter, lanes, roads, idx), true)
  {
    var l1 := InSidewalk(lanes, roads[idx]);
    var l2 := OutSidewalk(lanes, roads[Neighbor(side, |roads|, idx, 1)]);
    if l1.Some? && l2.Some? && LastPt(l1.value) != FirstPt(l2.value) {
      CornerTurnsPaired(inter.id, l1.value, l2.value, CornerGeometry(g, side, inter, l1.value, l2.value));
    }
  }

  lemma {:induction false} TwoRoadCornersPaired(g: Geometry, side: DrivingSide, inter: Intersection, lanes: LaneId -> Lane,
                                                roads: seq<RoadEnd>, k: nat)
    requires k <= |roads|
    ensures Paired(TwoRoadCorners(g, side, inter, lanes, roads, k), true)
  {
    hide TwoRoadCorner;
    if k > 0 {
      TwoRoadCornersPaired(g, side, inter, lanes, roads, k - 1);
      TwoRoadCornerPaired(g, side, inter, lanes, roads, k - 1);
      PairedAppend(TwoRoadCorners(g, side, inter, lanes, roads, k - 1), TwoRoadCorner(g, side, inter, lanes, roads, k - 1), true);
    }
  }

  /**
   * Every turn of an intersection comes right before or after its sibling;
   * away from the degenerate two-road case, siblings also run along
   * mutually reversed paths.
   */
  lemma WalkingTurnsPaired(g: Geometry, side: DrivingSide, inter: Intersection, lanes: LaneId -> Lane, roads: seq<RoadEnd>)
    ensures Paired(WalkingTurnsOf(g, side, inter, lanes, roads), |roads| != 2)
  {
    var n := |roads|;
    if n == 2 {
      DegenerateCrosswalksPaired(g, inter.id, lanes, roads[0], roads[1]);
      TwoRoadCornersPaired(g, side, inter, lanes, roads, 2);
      PairedWithoutPaths(TwoRoadCorners(g, side, inter, lanes, roads, 2));
      PairedAppend(Flatten(MakeDegenerateCrosswalks(g, inter.id, lanes, roads[0], roads[1])),
                   TwoRoadCorners(g, side, inter, lanes, roads, 2), false);
    } else if n == 1 {
      var l1 := InSidewalk(lanes, roads[0]);
      var l2 := OutSidewalk(lanes, roads[0]);
      if l1.Some? && l2.Some? {
        CornerTurnsPaired(inter.id, l1.value, l2.value, CornerGeometry(g, side, inter, l1.value, l2.value));
      }
    } else {
      GeneralTurnsPaired(g, side, inter, lanes, roads, n);
    }
  }

  // ---------------------------------------------------------------------
  // Pairing sets and corners, turn by turn

  /**
   * `t` belongs to intersection `i` and, when it is a corner, is paired
   * with no crosswalk; with `siblingOnly`, a crosswalk is paired with
   * exactly its sibling.
   */
  predicate PairingOk(t: Turn, i: IntersectionId, siblingOnly: bool)
  {
    && t.id.parent == i
    && (t.turnType == SharedSidewalkCorner ==> t.otherCrosswalkIds == {})
    && (siblingOnly && t.turnType == Crosswalk ==> t.otherCrosswalkIds == {Swap(t.id)})
  }

  predicate PairingSets(ts: seq<Turn>, i: IntersectionId, siblingOnly: bool)
  {
    forall j :: 0 <= j < |ts| ==> PairingOk(ts[j], i, siblingOnly)
  }

  /**
   * `t` is one of the two corner movements between road `idx`'s incoming
   * sidewalk and the next road's outgoing sidewalk, which exist and do not
   * already meet.
   */
  predicate CornerAt(lanes: LaneId -> Lane, roads: seq<RoadEnd>, side: DrivingSide, i: IntersectionId, idx: nat, t: Turn)
    requires idx < |roads|
  {
    var l1 := InSidewalk(lanes, roads[idx]);
    var l2 := OutSidewalk(lanes, roads[Neighbor(side, |roads|, idx, 1)]);
    && l1.Some? && l2.Some? && LastPt(l1.value) != FirstPt(l2.value)
    && (t.id == MakeTurnId(i, l1.value.id, l2.value.id) || t.id == MakeTurnId(i, l2.value.id, l1.value.id))
  }

  /** When `t` is a corner, it joins some road to the next one. */
  ghost predicate JoinsNeighbours(t: Turn, lanes: LaneId -> Lane, roads: seq<RoadEnd>, side: DrivingSide, i: IntersectionId)
  {
    t.turnType == SharedSidewalkCorner ==> exists idx :: 0 <= idx < |roads| && CornerAt(lanes, roads, side, i, idx, t)
  }

  ghost predicate CornersJoinNeighbours(ts: seq<Turn>, lanes: LaneId -> Lane, roads: seq<RoadEnd>, side: DrivingSide,
                                        i: IntersectionId)
  {
    forall j :: 0 <= j < |ts| ==> JoinsNeighbours(ts[j], lanes, roads, side, i)
  }

  lemma PairingSetsAppend(a: seq<Turn>, b: seq<Turn>, i: IntersectionId, siblingOnly: bool)
    requires PairingSets(a, i, siblingOnly) && PairingSets(b, i, siblingOnly)
    ensures PairingSets(a + b, i, siblingOnly)
  {
    forall j | 0 <= j < |a + b|
      ensures PairingOk((a + b)[j], i, siblingOnly)
    {
      if j >= |a| {
        assert (a + b)[j] == b[j - |a|];
      }
    }
  }

  lemma CornersJoinAppend(a: seq<Turn>, b: seq<Turn>, lanes: LaneId -> Lane, roads: seq<RoadEnd>, side: DrivingSide,
                          i: IntersectionId)
    requires CornersJoinNeighbours(a, lanes, roads, side, i) && CornersJoinNeighbours(b, lanes, roads, side, i)
    ensures CornersJoinNeighbours(a + b, lanes, roads, side, i)
  {
    forall j | 0 <= j < |a + b|
      ensures JoinsNeighbours((a + b)[j], lanes, roads, side, i)
    {
      if j >= |a| {
        assert (a + b)[j] == b[j - |a|];
      }
    }
  }

  // ---------------------------------------------------------------------
  // What each builder emits

  /** Ordinary crosswalks belong to `i` and are paired with their sibling. */
  lemma CrosswalkFacts(g: Geometry, i: IntersectionId, l1: Lane, l2: Lane)
    ensures var ts := Flatten(MakeCrosswalks(g, i, l1, l2));
      forall j :: 0 <= j < |ts| ==> ts[j].turnType == Crosswalk && PairingOk(ts[j], i, true)
  {
  }

  /** Corner turns belong to `i`, are paired with nothing and join `l1` and `l2`. */
  lemma CornerFacts(i: IntersectionId, l1: Lane, l2: Lane, geom: seq<Pt>)
    ensures var ts := CornerTurns(i, l1, l2, geom);
      forall j :: 0 <= j < |ts| ==>
        && ts[j].turnType == SharedSidewalkCorner && PairingOk(ts[j], i, true)
        && (ts[j].id == MakeTurnId(i, l1.id, l2.id) || ts[j].id == MakeTurnId(i, l2.id, l1.id))
  {
  }

  /** The degenerate crosswalks belong to `i` and are crosswalks. */
  lemma DegenerateFacts(g: Geometry, i: IntersectionId, lanes: LaneId -> Lane, r1: RoadEnd, r2: RoadEnd)
    ensures var ts := Flatten(MakeDegenerateCrosswalks(g, i, lanes, r1, r2));
      forall j :: 0 <= j < |ts| ==> ts[j].turnType == Crosswalk && PairingOk(ts[j], i, false)
  {
    DegenerateCrosswalksShape(g, i, lanes, r1, r2);
  }

  /** The general case's turns for one road: its own crosswalks, then those to its partner. */
  lemma RoadTurnsParts(g: Geometry, side: DrivingSide, inter: Intersection, lanes: LaneId -> Lane,
                       roads: seq<RoadEnd>, idx: nat)
    requires idx < |roads|
    ensures var l1, l2 := InSidewalk(lanes, roads[idx]), OutSidewalk(lanes, roads[idx]);
      var ts := RoadTurns(g, side, inter, lanes, roads, idx);
      && (l1.None? ==> ts == [])
      && (l1.Some? ==>
            ts == (if l2.Some? then Flatten(MakeCrosswalks(g, inter.id, l1.value, l2.value)) else [])
                  + PartnerTurns(g, side, inter, l1.value, FindPartner(lanes, roads, side, idx)))
  {
  }

  /**
   * The partner turns belong to the intersection and are paired as they
   * should be; a corner among them joins `l1` to the partner found as a
   * corner, which it does not already meet.
   */
  lemma PartnerFacts(g: Geometry, side: DrivingSide, inter: Intersection, l1: Lane, p: Partner)
    ensures var ts := PartnerTurns(g, side, inter, l1, p);
      forall j :: 0 <= j < |ts| ==>
        && PairingOk(ts[j], inter.id, true)
        && (ts[j].turnType == SharedSidewalkCorner ==>
              p.Corner? && LastPt(l1) != FirstPt(p.l2)
              && (ts[j].id == MakeTurnId(inter.id, l1.id, p.l2.id) || ts[j].id == MakeTurnId(inter.id, p.l2.id, l1.id)))
  {
    match p {
      case Corner(l2) =>
        CornerFacts(inter.id, l1, l2, CornerGeometry(g, side, inter, l1, l2));
      case Cross(l2, _) =>
        CrosswalkFacts(g, inter.id, l1, l2);
      case NoPartner =>
    }
  }

  /** One road's turns in the general case: paired as they should be, corners towards the next road. */
  lemma RoadTurnsFacts(g: Geometry, side: DrivingSide, inter: Intersection, lanes: LaneId -> Lane,
                       roads: seq<RoadEnd>, idx: nat)
    requires idx < |roads|
    ensures var ts := RoadTurns(g, side, inter, lanes, roads, idx);
      forall j :: 0 <= j < |ts| ==>
        && PairingOk(ts[j], inter.id, true)
        && (ts[j].turnType == SharedSidewalkCorner ==> CornerAt(lanes, roads, side, inter.id, idx, ts[j]))
  {
    RoadTurnsParts(g, side, inter, lanes, roads, idx);
    var l1, l2 := InSidewalk(lanes, roads[idx]), OutSidewalk(lanes, roads[idx]);
    if l1.Some? {
      var p := FindPartner(lanes, roads, side, idx);
      var own := if l2.Some? then Flatten(MakeCrosswalks(g, inter.id, l1.value, l2.value)) else [];
      var rest := PartnerTurns(g, side, inter, l1.value, p);
      PartnerFacts(g, side, inter, l1.value, p);
      PartnerProbeOrder(lanes, roads, side, idx);
      if l2.Some? {
        CrosswalkFacts(g, inter.id, l1.value, l2.value);
      }
      forall j | 0 <= j < |own + rest|
        ensures && PairingOk((own + rest)[j], inter.id, true)
                && ((own + rest)[j].turnType == SharedSidewalkCorner ==>
                      CornerAt(lanes, roads, side, inter.id, idx, (own + rest)[j]))
      {
        if j >= |own| {
          assert (own + rest)[j] == rest[j - |own|];
        }
      }
    }
  }

  /** A two-road intersection's corner for one road: paired with nothing, towards the other road. */
  lemma TwoRoadCornerFacts(g: Geometry, side: DrivingSide, inter: Intersection, lanes: LaneId -> Lane,
                           roads: seq<RoadEnd>, idx: nat)
    requires idx < |roads|
    ensures var ts := TwoRoadCorner(g, side, inter, lanes, roads, idx);
      forall j :: 0 <= j < |ts| ==>
        && PairingOk(ts[j], inter.id, true)
        && ts[j].turnType == SharedSidewalkCorner && CornerAt(lanes, roads, side, inter.id, idx, ts[j])
  {
    var l1 := InSidewalk(lanes, roads[idx]);
    var l2 := OutSidewalk(lanes, roads[Neighbor(side, |roads|, idx, 1)]);
    if l1.Some? && l2.Some? && LastPt(l1.value) != FirstPt(l2.value) {
      CornerFacts(inter.id, l1.value, l2.value, CornerGeometry(g, side, inter, l1.value, l2.value));
    }
  }

  // ---------------------------------------------------------------------
  // All the turns of an intersection

  lemma {:induction false} GeneralTurnsFacts(g: Geometry, side: DrivingSide, inter: Intersection,
                                             lanes: LaneId -> Lane, roads: seq<RoadEnd>, k: nat)
    requires k <= |roads|
    ensures PairingSets(GeneralTurns(g, side, inter, lanes, roads, k), inter.id, true)
    ensures CornersJoinNeighbours(GeneralTurns(g, side, inter, lanes, roads, k), lanes, roads, side, inter.id)
  {
    hide RoadTurns;
    if k > 0 {
      var pre, last := GeneralTurns(g, side, inter, lanes, roads, k - 1), RoadTurns(g, side, inter, lanes, roads, k - 1);
      GeneralTurnsFacts(g, side, inter, lanes, roads, k - 1);
      RoadTurnsFacts(g, side, inter, lanes, roads, k - 1);
      assert CornersJoinNeighbours(last, lanes, roads, side, inter.id) by {
        forall j | 0 <= j < |last|
          ensures JoinsNeighbours(last[j], lanes, roads, side, inter.id)
        {
          if last[j].turnType == SharedSidewalkCorner {
            assert CornerAt(lanes, roads, side, inter.id, k - 1, last[j]);
          }
        }
      }
      PairingSetsAppend(pre, last, inter.id, true);
      CornersJoinAppend(pre, last, lanes, roads, side, inter.id);
    }
  }

  lemma {:induction false} TwoRoadCornersFacts(g: Geometry, side: DrivingSide, inter: Intersection,
                                               lanes: LaneId -> Lane, roads: seq<RoadEnd>, k: nat)
    requires k <= |roads|
    ensures PairingSets(TwoRoadCorners(g, side, inter, lanes, roads, k), inter.id, true)
    ensures CornersJoinNeighbours(TwoRoadCorners(g, side, inter, lanes, roads, k), lanes, roads, side, inter.id)
  {
    hide TwoRoadCorner;
    if k > 0 {
      var pre, last := TwoRoadCorners(g, side, inter, lanes, roads, k - 1), TwoRoadCorner(g, side, inter, lanes, roads, k - 1);
      TwoRoadCornersFacts(g, side, inter, lanes, roads, k - 1);
      TwoRoadCornerFacts(g, side, inter, lanes, roads, k - 1);
      assert CornersJoinNeighbours(last, lanes, roads, side, inter.id) by {
        forall j | 0 <= j < |last|
          ensures JoinsNeighbours(last[j], lanes, roads, side, inter.id)
        {
          assert CornerAt(lanes, roads, side, inter.id, k - 1, last[j]);
        }
      }
      PairingSetsAppend(pre, last, inter.id, true);
      CornersJoinAppend(pre, last, lanes, roads, side, inter.id);
    }
  }

  /**
   * Every turn belongs to the intersection and corners are paired with
   * nothing; away from the degenerate two-road case, each crosswalk is
   * paired with exactly its sibling (the degenerate crosswalks are paired
   * with the other three, as `DegenerateCrosswalksShape` states).
   */
  lemma WalkingTurnsPairingSets(g: Geometry, side: DrivingSide, inter: Intersection, lanes: LaneId -> Lane,
                                roads: seq<RoadEnd>)
    ensures PairingSets(WalkingTurnsOf(g, side, inter, lanes, roads), inter.id, |roads| != 2)
  {
    var n := |roads|;
    if n == 2 {
      var d := Flatten(MakeDegenerateCrosswalks(g, inter.id, lanes, roads[0], roads[1]));
      var c := TwoRoadCorners(g, side, inter, lanes, roads, 2);
      DegenerateFacts(g, inter.id, lanes, roads[0], roads[1]);
      TwoRoadCornersFacts(g, side, inter, lanes, roads, 2);
      assert PairingSets(c, inter.id, false) by {
        forall j | 0 <= j < |c|
          ensures PairingOk(c[j], inter.id, false)
        {
          assert PairingOk(c[j], inter.id, true);
        }
      }
      PairingSetsAppend(d, c, inter.id, false);
    } else if n == 1 {
      var l1 := InSidewalk(lanes, roads[0]);
      var l2 := OutSidewalk(lanes, roads[0]);
      if l1.Some? && l2.Some? {
        CornerFacts(inter.id, l1.value, l2.value, CornerGeometry(g, side, inter, l1.value, l2.value));
      }
    } else if n > 2 {
      GeneralTurnsFacts(g, side, inter, lanes, roads, n);
    }
  }

  /**
   * With two roads or more, a corner is emitted only between a road's
   * incoming sidewalk and the next road's outgoing sidewalk, and only when
   * the two do not already meet.
   */
  lemma WalkingTurnsCornersJoin(g: Geometry, side: DrivingSide, inter: Intersection, lanes: LaneId -> Lane,
                                roads: seq<RoadEnd>)
    requires |roads| >= 2
    ensures CornersJoinNeighbours(WalkingTurnsOf(g, side, inter, lanes, roads), lanes, roads, side, inter.id)
  {
    if |roads| == 2 {
      var d := Flatten(MakeDegenerateCrosswalks(g, inter.id, lanes, roads[0], roads[1]));
      DegenerateFacts(g, inter.id, lanes, roads[0], roads[1]);
      TwoRoadCornersFacts(g, side, inter, lanes, roads, 2);
      assert CornersJoinNeighbours(d, lanes, roads, side, inter.id);
      CornersJoinAppend(d, TwoRoadCorners(g, side, inter, lanes, roads, 2), lanes, roads, side, inter.id);
    } else {
      GeneralTurnsFacts(g, side, inter, lanes, roads, |roads|);
    }
  }

  lemma PrefixAppend(a: seq<Turn>, b: seq<Turn>, c: seq<Turn>)
    requires a <= b
    ensures a <= b + c
  {
    assert (b + c)[..|b|] == b;
  }

  /** The turns of the first `k1` roads start the turns of the first `k2`. */
  lemma {:induction false} GeneralTurnsPrefix(g: Geometry, side: DrivingSide, inter: Intersection,
                                              lanes: LaneId -> Lane, roads: seq<RoadEnd>, k1: nat, k2: nat)
    requires k1 <= k2 <= |roads|
    ensures GeneralTurns(g, side, inter, lanes, roads, k1) <= GeneralTurns(g, side, inter, lanes, roads, k2)
    decreases k2
  {
    hide RoadTurns;
    if k1 < k2 {
      GeneralTurnsPrefix(g, side, inter, lanes, roads, k1, k2 - 1);
      PrefixAppend(GeneralTurns(g, side, inter, lanes, roads, k1), GeneralTurns(g, side, inter, lanes, roads, k2 - 1),
                   RoadTurns(g, side, inter, lanes, roads, k2 - 1));
    }
  }

  /** Two consecutive turns of a prefix are consecutive turns of the whole. */
  lemma PairInPrefix(a: seq<Turn>, b: seq<Turn>, j: nat)
    requires a <= b && j + 1 < |a|
    ensures b[j] == a[j] && b[j + 1] == a[j + 1]
  {
  }

  /** The corner of road `idx` at a two-road intersection, when both sidewalks exist and do not meet. */
  lemma TwoRoadCornerIsPair(g: Geometry, side: DrivingSide, inter: Intersection, lanes: LaneId -> Lane,
                            roads: seq<RoadEnd>, idx: nat, l1: Lane, l2: Lane)
    requires |roads| == 2 && idx < 2
    requires InSidewalk(lanes, roads[idx]) == Some(l1)
    requires OutSidewalk(lanes, roads[Neighbor(side, 2, idx, 1)]) == Some(l2)
    requires LastPt(l1) != FirstPt(l2)
    ensures TwoRoadCorner(g, side, inter, lanes, roads, idx) == CornerTurns(inter.id, l1, l2, CornerGeometry(g, side, inter, l1, l2))
  {
  }

  lemma TwoRoadCornersSplit(g: Geometry, side: DrivingSide, inter: Intersection, lanes: LaneId -> Lane,
                            roads: seq<RoadEnd>)
    requires |roads| == 2
    ensures TwoRoadCorners(g, side, inter, lanes, roads, 2)
      == TwoRoadCorner(g, side, inter, lanes, roads, 0) + TwoRoadCorner(g, side, inter, lanes, roads, 1)
  {
    hide TwoRoadCorner;
    assert TwoRoadCorners(g, side, inter, lanes, roads, 1) == [] + TwoRoadCorner(g, side, inter, lanes, roads, 0);
  }

  /** A two-element run placed between `pre` and `post` starts at index `|pre|`. */
  lemma PairAt(pre: seq<Turn>, pair: seq<Turn>, post: seq<Turn>)
    requires |pair| == 2
    ensures (pre + pair + post)[|pre|] == pair[0] && (pre + pair + post)[|pre| + 1] == pair[1]
  {
  }

  /** The last two turns of `a + b` are the last two of `b`. */
  lemma TailPair(a: seq<Turn>, b: seq<Turn>)
    requires |b| >= 2
    ensures var s := a + b; s[|s| - 2] == b[|b| - 2] && s[|s| - 1] == b[|b| - 1]
  {
  }

  /** One of two consecutive runs of turns, `c0` or `c1`, placed after `d`. */
  lemma PairInThree(d: seq<Turn>, c0: seq<Turn>, c1: seq<Turn>, pair: seq<Turn>, idx: nat)
    requires |pair| == 2 && idx < 2
    requires idx == 0 ==> c0 == pair
    requires idx == 1 ==> c1 == pair
    ensures var s, j := d + (c0 + c1), |d| + (if idx == 0 then 0 else |c0|);
      j + 1 < |s| && s[j] == pair[0] && s[j + 1] == pair[1]
  {
    if idx == 0 {
      PairAt(d, c0, c1);
    } else {
      PairAt(d + c0, c1, []);
    }
  }

  /**
   * The corner pair of road `idx` at a two-road intersection is emitted,
   * one turn right after the other, after whatever turns `d` come first.
   */
  lemma TwoRoadCornerEmitted(g: Geometry, side: DrivingSide, inter: Intersection, lanes: LaneId -> Lane,
                             roads: seq<RoadEnd>, idx: nat, l1: Lane, l2: Lane, d: seq<Turn>)
    requires |roads| == 2 && idx < 2
    requires InSidewalk(lanes, roads[idx]) == Some(l1)
    requires OutSidewalk(lanes, roads[Neighbor(side, 2, idx, 1)]) == Some(l2)
    requires LastPt(l1) != FirstPt(l2)
    ensures var pair, ts := CornerTurns(inter.id, l1, l2, CornerGeometry(g, side, inter, l1, l2)), d + TwoRoadCorners(g, side, inter, lanes, roads, 2);
      var j := |d| + (if idx == 0 then 0 else |TwoRoadCorner(g, side, inter, lanes, roads, 0)|);
      j + 1 < |ts| && ts[j] == pair[0] && ts[j + 1] == pair[1]
  {
    hide TwoRoadCorner;
    TwoRoadCornersSplit(g, side, inter, lanes, roads);
    TwoRoadCornerIsPair(g, side, inter, lanes, roads, idx, l1, l2);
    PairInThree(d, TwoRoadCorner(g, side, inter, lanes, roads, 0), TwoRoadCorner(g, side, inter, lanes, roads, 1),
                CornerTurns(inter.id, l1, l2, CornerGeometry(g, side, inter, l1, l2)), idx);
  }

  /** With the next road's outgoing sidewalk present, the general case's partner is a corner to it. */
  lemma FindsCorner(lanes: LaneId -> Lane, roads: seq<RoadEnd>, side: DrivingSide, idx: nat, l2: Lane)
    requires idx < |roads|
    requires OutSidewalk(lanes, roads[Neighbor(side, |roads|, idx, 1)]) == Some(l2)
    ensures FindPartner(lanes, roads, side, idx) == Corner(l2)
  {
  }

  /** In the general case, a road whose corner is due ends its turns with the corner pair. */
  lemma RoadTurnsEndInCorner(g: Geometry, side: DrivingSide, inter: Intersection, lanes: LaneId -> Lane,
                             roads: seq<RoadEnd>, idx: nat, l1: Lane, l2: Lane)
    requires idx < |roads|
    requires InSidewalk(lanes, roads[idx]) == Some(l1)
    requires OutSidewalk(lanes, roads[Neighbor(side, |roads|, idx, 1)]) == Some(l2)
    requires LastPt(l1) != FirstPt(l2)
    ensures var rt, pair := RoadTurns(g, side, inter, lanes, roads, idx), CornerTurns(inter.id, l1, l2, CornerGeometry(g, side, inter, l1, l2));
      |rt| >= 2 && rt[|rt| - 2] == pair[0] && rt[|rt| - 1] == pair[1]
  {
    FindsCorner(lanes, roads, side, idx, l2);
    RoadTurnsParts(g, side, inter, lanes, roads, idx);
    var l2Own := OutSidewalk(lanes, roads[idx]);
    var own := if l2Own.Some? then Flatten(MakeCrosswalks(g, inter.id, l1, l2Own.value)) else [];
    TailPair(own, CornerTurns(inter.id, l1, l2, CornerGeometry(g, side, inter, l1, l2)));
  }

  /** The corner pair of road `idx` in the general case closes the turns of the first `idx + 1` roads. */
  lemma GeneralCornerEmitted(g: Geometry, side: DrivingSide, inter: Intersection, lanes: LaneId -> Lane,
                             roads: seq<RoadEnd>, idx: nat, l1: Lane, l2: Lane)
    requires |roads| > 2 && idx < |roads|
    requires InSidewalk(lanes, roads[idx]) == Some(l1)
    requires OutSidewalk(lanes, roads[Neighbor(side, |roads|, idx, 1)]) == Some(l2)
    requires LastPt(l1) != FirstPt(l2)
    ensures var pair, ts := CornerTurns(inter.id, l1, l2, CornerGeometry(g, side, inter, l1, l2)), WalkingTurnsOf(g, side, inter, lanes, roads);
      var j := |GeneralTurns(g, side, inter, lanes, roads, idx + 1)| - 2;
      0 <= j && j + 1 < |ts| && ts[j] == pair[0] && ts[j + 1] == pair[1]
  {
    hide RoadTurns, MakeDegenerateCrosswalks;
    var upTo := GeneralTurns(g, side, inter, lanes, roads, idx + 1);
    RoadTurnsEndInCorner(g, side, inter, lanes, roads, idx, l1, l2);
    TailPair(GeneralTurns(g, side, inter, lanes, roads, idx), RoadTurns(g, side, inter, lanes, roads, idx));
    GeneralTurnsPrefix(g, side, inter, lanes, roads, idx + 1, |roads|);
    PairInPrefix(upTo, WalkingTurnsOf(g, side, inter, lanes, roads), |upTo| - 2);
  }

  /**
   * Conversely, with two roads or more, whenever a road's incoming
   * sidewalk and the next road's outgoing sidewalk exist and do not meet,
   * both corner turns between them are emitted, one right after the other,
   * along mutually reversed copies of the corner path.
   */
  lemma WalkingTurnsCornerEmitted(g: Geometry, side: DrivingSide, inter: Intersection, lanes: LaneId -> Lane,
                                  roads: seq<RoadEnd>, idx: nat, l1: Lane, l2: Lane)
    requires 2 <= |roads| && idx < |roads|
    requires InSidewalk(lanes, roads[idx]) == Some(l1)
    requires OutSidewalk(lanes, roads[Neighbor(side, |roads|, idx, 1)]) == Some(l2)
    requires LastPt(l1) != FirstPt(l2)
    ensures var geom, ts := CornerGeometry(g, side, inter, l1, l2), WalkingTurnsOf(g, side, inter, lanes, roads);
      exists j :: 0 <= j < |ts| - 1
        && ts[j] == Turn(MakeTurnId(inter.id, l1.id, l2.id), SharedSidewalkCorner, {}, geom)
        && ts[j + 1] == Turn(MakeTurnId(inter.id, l2.id, l1.id), SharedSidewalkCorner, {}, Reversed(geom))
  {
    if |roads| == 2 {
      var d := Flatten(MakeDegenerateCrosswalks(g, inter.id, lanes, roads[0], roads[1]));
      TwoRoadCornerEmitted(g, side, inter, lanes, roads, idx, l1, l2, d);
      var j := |d| + (if idx == 0 then 0 else |TwoRoadCorner(g, side, inter, lanes, roads, 0)|);
      assert d + TwoRoadCorners(g, side, inter, lanes, roads, 2) == WalkingTurnsOf(g, side, inter, lanes, roads);
    } else {
      GeneralCornerEmitted(g, side, inter, lanes, roads, idx, l1, l2);
      var j := |GeneralTurns(g, side, inter, lanes, roads, idx + 1)| - 2;
    }
  }

  // ---------------------------------------------------------------------
  // Dead ends and the general case's roads

  /**
   * At a dead end, the two corner turns around it, from the incoming to the
   * outgoing sidewalk and back along the reversed path and paired with
   * nothing, exactly when it has sidewalks on both sides; nothing otherwise.
   */
  lemma DeadEndShape(g: Geometry, side: DrivingSide, inter: Intersection, lanes: LaneId -> Lane, roads: seq<RoadEnd>)
    requires |roads| == 1
    ensures var ts := WalkingTurnsOf(g, side, inter, lanes, roads);
      var l1, l2 := InSidewalk(lanes, roads[0]), OutSidewalk(lanes, roads[0]);
      && (l1.None? || l2.None? <==> ts == [])
      && (l1.Some? && l2.Some? ==>
            && |ts| == 2
            && ts[0].id == MakeTurnId(inter.id, l1.value.id, l2.value.id)
            && ts[1].id == MakeTurnId(inter.id, l2.value.id, l1.value.id)
            && ts[0].turnType == SharedSidewalkCorner && ts[1].turnType == SharedSidewalkCorner
            && ts[0].otherCrosswalkIds == {} && ts[1].otherCrosswalkIds == {}
            && ts[1].geom == Reversed(ts[0].geom)
            && ts[0].geom == CornerGeometry(g, side, inter, l1.value, l2.value))
  {
  }

  /**
   * In the general case a road without an incoming sidewalk contributes no
   * turns, and a road with sidewalks on both sides starts with its own
   * crosswalks straight across.
   */
  lemma RoadTurnsShape(g: Geometry, side: DrivingSide, inter: Intersection, lanes: LaneId -> Lane,
                       roads: seq<RoadEnd>, idx: nat)
    requires idx < |roads|
    ensures var ts := RoadTurns(g, side, inter, lanes, roads, idx);
      var l1, l2 := InSidewalk(lanes, roads[idx]), OutSidewalk(lanes, roads[idx]);
      && (l1.None? ==> ts == [])
      && (l1.Some? && l2.Some? ==>
            var own := Flatten(MakeCrosswalks(g, inter.id, l1.value, l2.value));
            |own| <= |ts| && ts[..|own|] == own)
  {
  }
}
