/**
 * Splitting raw ways into a road graph (`split_up_roads`).
 *
 * The conversion runs in passes over the raw ways:
 *  1. every roundabout way is removed and each of its points is remapped to
 *     the roundabout's centre (`CollapseRoundabouts`);
 *  2. a remaining way whose first or last point lies on a roundabout is
 *     extended by the centre at that end, and
 *  3. every point is tallied: a point is an intersection when it starts or
 *     ends a way or occurs at least twice; a roundabout point anywhere else
 *     aborts the conversion, except the way's original end right beside a
 *     centre it was extended by (`FindIntersections`);
 *  4. intersections are numbered in ascending point order
 *     (`NumberIntersections`);
 *  5. every way is cut into road segments at intersection points
 *     (`SplitRoads`).
 * `SplitUpRoads` runs the passes; each pass is proved against a
 * specification function, and the lemmas at the end state what the
 * finished map guarantees.
 */
module SplitWays {
  import opened Wrappers
  import opened Geom

  datatype IntersectionType = StopSign | TrafficSignal | Border

  /** A way: its OSM id, its points, its tags and its two end intersections. */
  datatype Road = Road(osmWayId: int, points: seq<Pt>, osmTags: map<string, string>, i1: nat, i2: nat)

  datatype Intersection = Intersection(
    point: Pt,
    elevation: real,
    intersectionType: IntersectionType,
    intersectionLabel: Option<string>)

  /** The converted map; buildings and areas are carried through untouched. */
  datatype RawMap<B, A> = RawMap(
    roads: map<nat, Road>,
    intersections: map<nat, Intersection>,
    buildings: seq<B>,
    areas: seq<A>)

  /** The one fatal condition: a way runs through a roundabout point mid-span. */
  datatype SplitError = HitsRoundabout(osmWayId: int, idx: nat, len: nat)

  predicate IsRoundabout(r: Road)
  {
    "junction" in r.osmTags && r.osmTags["junction"] == "roundabout"
  }

  // ---------------------------------------------------------------------
  // Pass 1: roundabouts

  /** The ways that `retain` keeps: every non-roundabout way, in order. */
  function NonRoundabouts(roads: seq<Road>): (kept: seq<Road>)
    ensures |kept| <= |roads|
    ensures forall r :: r in kept <==> r in roads && !IsRoundabout(r)
  {
    if roads == [] then []
    else
      var init := NonRoundabouts(roads[..|roads| - 1]);
      assert roads == roads[..|roads| - 1] + [Last(roads)];
      if IsRoundabout(Last(roads)) then init else init + [Last(roads)]
  }

  /** Splitting the last element off the second part of a concatenation. */
  lemma SplitLast<T>(a: seq<T>, b: seq<T>)
    requires |b| > 0
    ensures a + b == (a + b[..|b| - 1]) + [Last(b)]
    ensures b == b[..|b| - 1] + [Last(b)]
  {
  }

  /** Extending both sides of `whole == front + back` by the same tail. */
  lemma ConcatStep<T>(whole': seq<T>, whole: seq<T>, back': seq<T>, front: seq<T>, back: seq<T>, tail: seq<T>)
    requires whole == front + back && whole' == whole + tail && back' == back + tail
    ensures whole' == front + back'
  {
  }

  /** One more way: it is kept at the end unless it is a roundabout. */
  lemma NonRoundaboutsSnoc(init: seq<Road>, x: Road)
    ensures NonRoundabouts(init + [x]) == NonRoundabouts(init) + (if IsRoundabout(x) then [] else [x])
  {
    assert (init + [x])[..|init|] == init;
  }

  /**
   * `retain` filters way by way: the kept ways of a concatenation are the
   * kept ways of each part, in order, and a single way is kept exactly when
   * it is not a roundabout. Together these fix order and multiplicity.
   */
  lemma {:induction false} NonRoundaboutsAppend(a: seq<Road>, b: seq<Road>)
    ensures NonRoundabouts(a + b) == NonRoundabouts(a) + NonRoundabouts(b)
    ensures |b| == 1 ==> NonRoundabouts(b) == if IsRoundabout(b[0]) then [] else [b[0]]
    decreases |b|
  {
    if b == [] {
      assert a + b == a;
    } else {
      var init, x := b[..|b| - 1], Last(b);
      var tail := if IsRoundabout(x) then [] else [x];
      if |b| == 1 {
        assert NonRoundabouts(init) == [];
      }
      hide NonRoundabouts;
      SplitLast(a, b);
      NonRoundaboutsAppend(a, init);
      NonRoundaboutsSnoc(a + init, x);
      NonRoundaboutsSnoc(init, x);
      ConcatStep(NonRoundabouts(a + b), NonRoundabouts(a + init), NonRoundabouts(b),
        NonRoundabouts(a), NonRoundabouts(init), tail);
    }
  }

  /** Every point of `pts` sent to `c`. */
  function ToCentre(pts: seq<Pt>, c: Pt): map<Pt, Pt>
  {
    map p | p in pts :: c
  }

  /**
   * The roundabout remap after visiting `roads` in order; a point shared by
   * two roundabouts ends up at the centre of the later one.
   */
  function RoundaboutRemap(roads: seq<Road>, center: seq<Pt> -> Pt): map<Pt, Pt>
  {
    if roads == [] then map[]
    else
      var init := RoundaboutRemap(roads[..|roads| - 1], center);
      var r := Last(roads);
      if IsRoundabout(r) then init + ToCentre(r.points, center(r.points)) else init
  }

  /** Point `p` lies on way `k`, which is a roundabout. */
  predicate OnRoundabout(roads: seq<Road>, k: int, p: Pt)
  {
    0 <= k < |roads| && IsRoundabout(roads[k]) && p in roads[k].points
  }

  /**
   * A point is remapped exactly when it lies on some roundabout, and it is
   * remapped to the centre of the last roundabout it lies on.
   */
  lemma {:induction false} RoundaboutRemapIsLastCentre(roads: seq<Road>, center: seq<Pt> -> Pt, p: Pt)
    ensures p in RoundaboutRemap(roads, center) <==> exists k :: OnRoundabout(roads, k, p)
    ensures p in RoundaboutRemap(roads, center) ==>
      exists k :: OnRoundabout(roads, k, p)
        && RoundaboutRemap(roads, center)[p] == center(roads[k].points)
        && forall k' :: k < k' < |roads| ==> !OnRoundabout(roads, k', p)
  {
    if roads != [] {
      var n := |roads| - 1;
      var init := roads[..n];
      RoundaboutRemapIsLastCentre(init, center, p);
      assert forall k :: 0 <= k < n ==> (OnRoundabout(init, k, p) <==> OnRoundabout(roads, k, p));
      if OnRoundabout(roads, n, p) {
        assert RoundaboutRemap(roads, center)[p] == center(roads[n].points);
      } else if p in RoundaboutRemap(init, center) {
        var k :| OnRoundabout(init, k, p)
          && RoundaboutRemap(init, center)[p] == center(init[k].points)
          && forall k' :: k < k' < |init| ==> !OnRoundabout(init, k', p);
        assert OnRoundabout(roads, k, p);
      } else {
        assert forall k :: OnRoundabout(roads, k, p) ==> 0 <= k < n && OnRoundabout(init, k, p);
      }
    }
  }

  /** The inner loop of `roads.retain(..)`: every point of a roundabout is sent to its centre. */
  method SendToCentre(remap: map<Pt, Pt>, pts: seq<Pt>, c: Pt) returns (remap': map<Pt, Pt>)
    ensures remap' == remap + ToCentre(pts, c)
  {
    remap' := remap;
    for j := 0 to |pts|
      invariant remap' == remap + ToCentre(pts[..j], c)
    {
      assert pts[..j + 1] == pts[..j] + [pts[j]];
      remap' := remap'[pts[j] := c];
    }
    assert pts[..|pts|] == pts;
  }

  /** `roads.retain(..)`: drops the roundabouts and records where their points go. */
  method CollapseRoundabouts(roads: seq<Road>, center: seq<Pt> -> Pt) returns (kept: seq<Road>, remap: map<Pt, Pt>)
    ensures kept == NonRoundabouts(roads)
    ensures remap == RoundaboutRemap(roads, center)
  {
    kept, remap := [], map[];
    for k := 0 to |roads|
      invariant kept == NonRoundabouts(roads[..k])
      invariant remap == RoundaboutRemap(roads[..k], center)
    {
      var r := roads[k];
      assert roads[..k + 1][..k] == roads[..k];
      if IsRoundabout(r) {
        remap := SendToCentre(remap, r.points, center(r.points));
      } else {
        kept := kept + [r];
      }
    }
    assert roads[..|roads|] == roads;
  }

  // ---------------------------------------------------------------------
  // Passes 2 and 3: extending ways to roundabout centres, finding intersections

  /** A way after the roundabout remap, with the ends that were extended. */
  datatype Extended = Extended(road: Road, addedToStart: bool, addedToEnd: bool)

  /**
   * `roads.iter_mut()` first step: a way whose first (last) point is a
   * roundabout point gets that roundabout's centre prepended (appended).
   */
  function ExtendWay(r: Road, remap: map<Pt, Pt>): (e: Extended)
    requires |r.points| > 0
    ensures |e.road.points| >= |r.points|
  {
    var pts := if r.points[0] in remap then [remap[r.points[0]]] + r.points else r.points;
    var pts' := if Last(pts) in remap then pts + [remap[Last(pts)]] else pts;
    Extended(r.(points := pts'), r.points[0] in remap, Last(pts) in remap)
  }

  /**
   * Extension inserts exactly the centres of the roundabouts the way's
   * original ends lie on, around the unchanged original points; nothing
   * but the points changes.
   */
  lemma ExtendWayShape(r: Road, remap: map<Pt, Pt>)
    requires |r.points| > 0
    ensures var e := ExtendWay(r, remap);
      && (e.addedToStart <==> r.points[0] in remap)
      && (e.addedToEnd <==> Last(r.points) in remap)
      && e.road == r.(points := e.road.points)
      && (var s := if e.addedToStart then 1 else 0;
          && |e.road.points| == |r.points| + s + (if e.addedToEnd then 1 else 0)
          && e.road.points[s..s + |r.points|] == r.points)
      && (e.addedToStart ==> e.road.points[0] == remap[r.points[0]])
      && (e.addedToEnd ==> Last(e.road.points) == remap[Last(r.points)])
  {
    var pts := if r.points[0] in remap then [remap[r.points[0]]] + r.points else r.points;
    assert Last(pts) == Last(r.points);
  }

  predicate NonEmptyWays(roads: seq<Road>)
  {
    forall k :: 0 <= k < |roads| ==> |roads[k].points| > 0
  }

  function Extensions(roads: seq<Road>, remap: map<Pt, Pt>): seq<Extended>
    requires NonEmptyWays(roads)
  {
    seq(|roads|, k requires 0 <= k < |roads| => ExtendWay(roads[k], remap))
  }

  function Ways(es: seq<Extended>): seq<Road>
  {
    seq(|es|, k requires 0 <= k < |es| => es[k].road)
  }

  /**
   * The occurrence at `idx` of an extended way is a roundabout point that is
   * neither an end of the way nor the original end right next to an
   * inserted centre.
   */
  predicate HitsRoundaboutMidway(e: Extended, idx: int, remap: map<Pt, Pt>)
  {
    && 0 < idx < |e.road.points| - 1
    && e.road.points[idx] in remap
    && !(idx == 1 && e.addedToStart)
    && !(idx == |e.road.points| - 2 && e.addedToEnd)
  }

  /** Some occurrence of the extended way hits a roundabout mid-way. */
  ghost predicate HitsAnywhere(e: Extended, remap: map<Pt, Pt>)
  {
    exists idx :: HitsRoundaboutMidway(e, idx, remap)
  }

  ghost predicate Aborts(es: seq<Extended>, remap: map<Pt, Pt>)
  {
    exists k :: 0 <= k < |es| && HitsAnywhere(es[k], remap)
  }

  /**
   * Way `k` is the first way with a roundabout point mid-way, and `idx` is
   * the first such occurrence on it: the place the loop aborts at.
   */
  ghost predicate FirstHit(es: seq<Extended>, k: int, idx: int, remap: map<Pt, Pt>)
  {
    && 0 <= k < |es|
    && (forall k' :: 0 <= k' < k ==> !HitsAnywhere(es[k'], remap))
    && HitsRoundaboutMidway(es[k], idx, remap)
    && forall i :: 0 <= i < idx ==> !HitsRoundaboutMidway(es[k], i, remap)
  }

  /** The loop aborts with `err`, naming the way and occurrence of the first hit. */
  ghost predicate AbortsWith(es: seq<Extended>, remap: map<Pt, Pt>, err: SplitError)
  {
    exists k, idx :: FirstHit(es, k, idx, remap)
      && err == HitsRoundabout(es[k].road.osmWayId, idx, |es[k].road.points|)
  }

  /** There is at most one first hit, so the error an abort reports is determined. */
  lemma FirstHitUnique(es: seq<Extended>, remap: map<Pt, Pt>, k1: int, i1: int, k2: int, i2: int)
    requires FirstHit(es, k1, i1, remap) && FirstHit(es, k2, i2, remap)
    ensures k1 == k2 && i1 == i2
  {
    if k1 < k2 {
      assert HitsAnywhere(es[k1], remap);
    } else if k2 < k1 {
      assert HitsAnywhere(es[k2], remap);
    }
  }

  /** All points of all ways, way after way. */
  function AllPoints(ways: seq<Road>): seq<Pt>
  {
    if ways == [] then [] else AllPoints(ways[..|ways| - 1]) + Last(ways).points
  }

  predicate IsWayEnd(w: Road, p: Pt)
  {
    |w.points| > 0 && (p == w.points[0] || p == Last(w.points))
  }

  /** First and last points of all ways. */
  function WayEnds(ways: seq<Road>): set<Pt>
  {
    if ways == [] then {}
    else
      var w := Last(ways);
      WayEnds(ways[..|ways| - 1]) + (if |w.points| > 0 then {w.points[0], Last(w.points)} else {})
  }

  /** The intersection points: way ends, and points occurring at least twice. */
  function IntersectionPoints(ways: seq<Road>): set<Pt>
  {
    var all := AllPoints(ways);
    WayEnds(ways) + set p | p in all && multiset(all)[p] >= 2
  }

  /**
   * A point is an intersection exactly when it is the first or last point of
   * some way, or it occurs at least twice across all the ways.
   */
  lemma {:induction false} IntersectionPointsIff(ways: seq<Road>, p: Pt)
    ensures p in IntersectionPoints(ways) <==>
      (exists k :: 0 <= k < |ways| && IsWayEnd(ways[k], p)) || multiset(AllPoints(ways))[p] >= 2
  {
    WayEndsIff(ways, p);
  }

  lemma {:induction false} WayEndsIff(ways: seq<Road>, p: Pt)
    ensures p in WayEnds(ways) <==> exists k :: 0 <= k < |ways| && IsWayEnd(ways[k], p)
  {
    if ways != [] {
      var n := |ways| - 1;
      WayEndsIff(ways[..n], p);
      assert forall k :: 0 <= k < n ==> ways[..n][k] == ways[k];
    }
  }

  /** Intersection points are points of the ways. */
  lemma {:induction false} IntersectionPointsOccur(ways: seq<Road>, p: Pt)
    requires p in IntersectionPoints(ways)
    ensures p in AllPoints(ways)
  {
    WayEndsOccur(ways, p);
  }

  lemma {:induction false} WayEndsOccur(ways: seq<Road>, p: Pt)
    ensures p in WayEnds(ways) ==> p in AllPoints(ways)
  {
    if ways != [] {
      WayEndsOccur(ways[..|ways| - 1], p);
    }
  }

  /** `BTreeSet::insert` on the set's ascending enumeration. */
  function InsertSorted(s: seq<Pt>, p: Pt): (r: seq<Pt>)
    requires StrictlySorted(s)
    ensures StrictlySorted(r)
    ensures forall q :: q in r <==> q in s || q == p
  {
    if s == [] then [p]
    else if p == s[0] then s
    else if Below(p, s[0]) then [p] + s
    else
      var rest := InsertSorted(s[1..], p);
      assert forall q :: q in rest ==> Below(s[0], q);
      [s[0]] + rest
  }

  lemma SortedHeadIsLeast(s: seq<Pt>, p: Pt)
    requires StrictlySorted(s) && p in s
    ensures p == s[0] || Below(s[0], p)
  {
    var i :| 0 <= i < |s| && s[i] == p;
    if i > 0 {
      assert Below(s[0], s[i]);
    }
  }

  /** Two ascending enumerations of the same set are equal. */
  lemma {:induction false} SortedUnique(a: seq<Pt>, b: seq<Pt>)
    requires StrictlySorted(a) && StrictlySorted(b)
    requires forall p :: p in a <==> p in b
    ensures a == b
  {
    assert a != [] ==> a[0] in b;
    assert b != [] ==> b[0] in a;
    if a != [] && b != [] {
      assert a[0] == b[0] by {
        SortedHeadIsLeast(a, b[0]);
        SortedHeadIsLeast(b, a[0]);
      }
      forall p
        ensures p in a[1..] <==> p in b[1..]
      {
        if p in a[1..] {
          var m :| 1 <= m < |a| && a[m] == p;
          assert Below(a[0], a[m]);
          assert p in b;
        }
        if p in b[1..] {
          var m :| 1 <= m < |b| && b[m] == p;
          assert Below(b[0], b[m]);
          assert p in a;
        }
      }
      SortedUnique(a[1..], b[1..]);
      assert a == [a[0]] + a[1..] && b == [b[0]] + b[1..];
    }
  }

  /** The ascending enumeration of the points of `xs` that are in `keep`. */
  function SortedSubset(xs: seq<Pt>, keep: set<Pt>): (r: seq<Pt>)
    ensures StrictlySorted(r)
    ensures forall p :: p in r <==> p in xs && p in keep
  {
    if xs == [] then []
    else
      var init := SortedSubset(xs[..|xs| - 1], keep);
      assert xs == xs[..|xs| - 1] + [Last(xs)];
      if Last(xs) in keep then InsertSorted(init, Last(xs)) else init
  }

  function CountOf(counts: map<Pt, nat>, p: Pt): nat
  {
    if p in counts then counts[p] else 0
  }

  /** The remapped ways and their intersections in ascending order. */
  datatype Tally = Tally(ways: seq<Road>, intersections: seq<Pt>)

  /** `counts` holds the number of occurrences of every point in `seen`. */
  ghost predicate CountsMatch(counts: map<Pt, nat>, seen: seq<Pt>)
  {
    forall p :: CountOf(counts, p) == multiset(seen)[p]
  }

  /** `ints` holds the way ends seen so far and every point counted twice or more. */
  ghost predicate IntsMatch(ints: seq<Pt>, ends: set<Pt>, counts: map<Pt, nat>)
  {
    forall p :: p in ints <==> p in ends || CountOf(counts, p) >= 2
  }

  /** The counting loop's state after visiting `seen`, whose way ends are `ends`. */
  ghost predicate TallyState(counts: map<Pt, nat>, ints: seq<Pt>, seen: seq<Pt>, ends: set<Pt>)
  {
    StrictlySorted(ints) && CountsMatch(counts, seen) && IntsMatch(ints, ends, counts)
  }

  /**
   * One step of the counting loop: bumps the point's count, and adds it to
   * the intersection set when it reaches two occurrences or ends a way.
   */
  method CountOccurrence(pt: Pt, isEnd: bool, counts: map<Pt, nat>, ints: seq<Pt>,
                         ghost seen: seq<Pt>, ghost ends: set<Pt>)
    returns (counts': map<Pt, nat>, ints': seq<Pt>)
    requires StrictlySorted(ints)
    requires CountsMatch(counts, seen) && IntsMatch(ints, ends, counts)
    ensures StrictlySorted(ints')
    ensures CountsMatch(counts', seen + [pt])
    ensures IntsMatch(ints', if isEnd then ends + {pt} else ends, counts')
  {
    ints' := ints;
    var count := CountOf(counts, pt) + 1;
    counts' := counts[pt := count];
    if count == 2 {
      ints' := InsertSorted(ints', pt);
    }
    if isEnd {
      ints' := InsertSorted(ints', pt);
    }
    forall p
      ensures CountOf(counts', p) == multiset(seen + [pt])[p]
    {
      assert CountOf(counts, p) == multiset(seen)[p];
    }
    var ends' := if isEnd then ends + {pt} else ends;
    forall p
      ensures p in ints' <==> p in ends' || CountOf(counts', p) >= 2
    {
      assert p in ints <==> p in ends || CountOf(counts, p) >= 2;
    }
  }

  /** The way ends among the first `idx` points of a way. */
  ghost function EndsUpTo(ends: set<Pt>, pts: seq<Pt>, idx: nat): set<Pt>
    requires 0 < |pts|
  {
    ends + (if idx > 0 then {pts[0]} else {}) + (if idx == |pts| then {Last(pts)} else {})
  }

  lemma EndsUpToStep(ends: set<Pt>, pts: seq<Pt>, idx: nat)
    requires idx < |pts|
    ensures EndsUpTo(ends, pts, idx + 1) ==
      if idx == 0 || idx == |pts| - 1 then EndsUpTo(ends, pts, idx) + {pts[idx]} else EndsUpTo(ends, pts, idx)
  {
  }

  /**
   * One pass of the inner loop: counts the point at `idx` and reports
   * whether it is a roundabout point met mid-way.
   */
  method TallyPoint(e: Extended, remap: map<Pt, Pt>, idx: nat, ghost seen: seq<Pt>, ghost ends: set<Pt>,
                    counts: map<Pt, nat>, ints: seq<Pt>)
    returns (counts': map<Pt, nat>, ints': seq<Pt>, stop: bool)
    requires idx < |e.road.points|
    requires StrictlySorted(ints)
    requires CountsMatch(counts, seen + e.road.points[..idx])
    requires IntsMatch(ints, EndsUpTo(ends, e.road.points, idx), counts)
    ensures stop <==> HitsRoundaboutMidway(e, idx, remap)
    ensures StrictlySorted(ints')
    ensures CountsMatch(counts', seen + e.road.points[..idx + 1])
    ensures IntsMatch(ints', EndsUpTo(ends, e.road.points, idx + 1), counts')
  {
    var pts := e.road.points;
    var n := |pts|;
    var pt := pts[idx];
    assert seen + pts[..idx + 1] == (seen + pts[..idx]) + [pt];
    var isEnd := idx == 0 || idx == n - 1;
    counts', ints' := CountOccurrence(pt, isEnd, counts, ints, seen + pts[..idx], EndsUpTo(ends, pts, idx));
    EndsUpToStep(ends, pts, idx);
    stop := false;
    if !isEnd && pt in remap {
      if idx == 1 && e.addedToStart {
      } else if idx == n - 2 && e.addedToEnd {
      } else {
        stop := true;
      }
    }
  }

  /**
   * The inner loop over one extended way's points: counts each occurrence,
   * adds the way's ends and every point reaching two occurrences to the
   * intersection set, and stops at the first roundabout point met mid-way.
   * `seen` and `ends` are the points and way ends of the ways before it.
   */
  method TallyWay(e: Extended, remap: map<Pt, Pt>, ghost seen: seq<Pt>, ghost ends: set<Pt>,
                  counts: map<Pt, nat>, ints: seq<Pt>)
    returns (counts': map<Pt, nat>, ints': seq<Pt>, hit: Option<nat>)
    requires |e.road.points| > 0
    requires StrictlySorted(ints)
    requires CountsMatch(counts, seen) && IntsMatch(ints, ends, counts)
    ensures hit.Some? ==> HitsRoundaboutMidway(e, hit.value, remap)
    ensures hit.Some? ==> forall i :: 0 <= i < hit.value ==> !HitsRoundaboutMidway(e, i, remap)
    ensures hit.None? <==> !HitsAnywhere(e, remap)
    ensures hit.None? ==>
      && StrictlySorted(ints')
      && CountsMatch(counts', seen + e.road.points)
      && IntsMatch(ints', ends + {e.road.points[0], Last(e.road.points)}, counts')
  {
    counts', ints' := counts, ints;
    var pts := e.road.points;
    var n := |pts|;
    assert seen + pts[..0] == seen;
    assert EndsUpTo(ends, pts, 0) == ends;
    for idx := 0 to n
      invariant forall i :: 0 <= i < idx ==> !HitsRoundaboutMidway(e, i, remap)
      invariant TallyState(counts', ints', seen + pts[..idx], EndsUpTo(ends, pts, idx))
    {
      var stop;
      counts', ints', stop := TallyPoint(e, remap, idx, seen, ends, counts', ints');
      if stop {
        return counts', ints', Some(idx);
      }
    }
    assert pts[..n] == pts;
    assert EndsUpTo(ends, pts, n) == ends + {pts[0], Last(pts)};
    hit := None;
  }

  /** The body of the extension step, updating one way's points. */
  method ExtendInPlace(r: Road, remap: map<Pt, Pt>) returns (e: Extended)
    requires |r.points| > 0
    ensures e == ExtendWay(r, remap)
  {
    var road := r;
    var addedToStart := false;
    if road.points[0] in remap {
      road := road.(points := [remap[road.points[0]]] + road.points);
      addedToStart := true;
    }
    var addedToEnd := false;
    if Last(road.points) in remap {
      road := road.(points := road.points + [remap[Last(road.points)]]);
      addedToEnd := true;
    }
    e := Extended(road, addedToStart, addedToEnd);
  }

  lemma NoHitsGrow(es: seq<Extended>, k: nat, remap: map<Pt, Pt>)
    requires k < |es|
    requires forall k' :: 0 <= k' < k ==> !HitsAnywhere(es[k'], remap)
    requires !HitsAnywhere(es[k], remap)
    ensures forall k' :: 0 <= k' < k + 1 ==> !HitsAnywhere(es[k'], remap)
  {
  }

  /** Bookkeeping of the outer loop: one more way is extended and tallied. */
  lemma WaysGrow(es: seq<Extended>, k: nat, ways: seq<Road>, done: seq<Road>)
    requires k < |es| == |ways| && done == Ways(es[..k]) && ways[k] == es[k].road
    requires ways[..k] == done && |es[k].road.points| > 0
    ensures ways[..k + 1] == Ways(es[..k + 1])
    ensures AllPoints(ways[..k + 1]) == AllPoints(done) + es[k].road.points
    ensures WayEnds(ways[..k + 1]) == WayEnds(done) + {es[k].road.points[0], Last(es[k].road.points)}
  {
    assert ways[..k + 1] == done + [ways[k]];
    assert (done + [ways[k]])[..k] == done;
  }

  /**
   * The loop over `roads.iter_mut()`: extends each way at roundabout ends,
   * counts point occurrences and collects the intersection set, aborting at
   * the first occurrence of a roundabout point mid-way.
   */
  method FindIntersections(roads: seq<Road>, remap: map<Pt, Pt>) returns (res: Result<Tally, SplitError>)
    requires NonEmptyWays(roads)
    ensures res.Failure? <==> Aborts(Extensions(roads, remap), remap)
    ensures res.Failure? ==> AbortsWith(Extensions(roads, remap), remap, res.error)
    ensures res.Success? ==>
      && res.value.ways == Ways(Extensions(roads, remap))
      && StrictlySorted(res.value.intersections)
      && forall p :: p in res.value.intersections <==> p in IntersectionPoints(res.value.ways)
  {
    ghost var es := Extensions(roads, remap);
    var ways := roads;
    var counts: map<Pt, nat> := map[];
    var ints: seq<Pt> := [];
    for k := 0 to |roads|
      invariant |ways| == |roads|
      invariant ways[..k] == Ways(es[..k])
      invariant forall k' :: k <= k' < |ways| ==> ways[k'] == roads[k']
      invariant forall k' :: 0 <= k' < k ==> !HitsAnywhere(es[k'], remap)
      invariant StrictlySorted(ints)
      invariant CountsMatch(counts, AllPoints(ways[..k]))
      invariant IntsMatch(ints, WayEnds(ways[..k]), counts)
    {
      var e := ExtendInPlace(ways[k], remap);
      assert e == es[k];
      ghost var done := ways[..k];
      var hit;
      counts, ints, hit := TallyWay(e, remap, AllPoints(done), WayEnds(done), counts, ints);
      if hit.Some? {
        assert FirstHit(es, k, hit.value, remap);
        return Failure(HitsRoundabout(e.road.osmWayId, hit.value, |e.road.points|));
      }
      NoHitsGrow(es, k, remap);
      ways := ways[k := e.road];
      WaysGrow(es, k, ways, done);
    }
    assert ways == ways[..|roads|];
    assert es[..|roads|] == es;
    assert forall p :: p in ints <==> p in IntersectionPoints(ways) by {
      forall p
        ensures p in ints <==> p in IntersectionPoints(ways)
      {
        assert CountOf(counts, p) == multiset(AllPoints(ways))[p];
        assert p in ints <==> p in WayEnds(ways) || CountOf(counts, p) >= 2;
      }
    }
    return Success(Tally(ways, ints));
  }

  // ---------------------------------------------------------------------
  // Pass 4: numbering intersections

  function IntersectionsFrom(ints: seq<Pt>, elevation: Pt -> real): map<nat, Intersection>
  {
    map k: nat | k < |ints| :: Intersection(ints[k], elevation(ints[k]), StopSign, None)
  }

  /** Each intersection point's id: its position in ascending order. */
  function IdsFrom(ints: seq<Pt>): map<Pt, nat>
  {
    if ints == [] then map[] else IdsFrom(ints[..|ints| - 1])[Last(ints) := |ints| - 1]
  }

  /** The ids are exactly the positions of the points. */
  lemma {:induction false} IdsArePositions(ints: seq<Pt>)
    requires StrictlySorted(ints)
    ensures forall p :: p in IdsFrom(ints) <==> p in ints
    ensures forall k :: 0 <= k < |ints| ==> IdsFrom(ints)[ints[k]] == k
  {
    if ints != [] {
      var n := |ints| - 1;
      IdsArePositions(ints[..n]);
      assert ints == ints[..n] + [ints[n]];
      forall k | 0 <= k < n
        ensures IdsFrom(ints)[ints[k]] == k
      {
        assert Below(ints[k], ints[n]);
        assert ints[..n][k] == ints[k];
      }
    }
  }

  /** Numbering one more point of an ascending enumeration. */
  lemma NumberingGrows(ints: seq<Pt>, idx: nat, elevation: Pt -> real)
    requires idx < |ints|
    ensures IntersectionsFrom(ints[..idx + 1], elevation)
      == IntersectionsFrom(ints[..idx], elevation)[idx := Intersection(ints[idx], elevation(ints[idx]), StopSign, None)]
    ensures IdsFrom(ints[..idx + 1]) == IdsFrom(ints[..idx])[ints[idx] := idx]
  {
    assert ints[..idx + 1][..idx] == ints[..idx];
  }

  /** Materialises the intersections in ascending point order, numbering them 0, 1, 2, ... */
  method NumberIntersections(ints: seq<Pt>, elevation: Pt -> real)
    returns (inters: map<nat, Intersection>, ids: map<Pt, nat>)
    requires StrictlySorted(ints)
    ensures inters == IntersectionsFrom(ints, elevation)
    ensures ids == IdsFrom(ints)
  {
    inters, ids := map[], map[];
    for idx := 0 to |ints|
      invariant inters == IntersectionsFrom(ints[..idx], elevation)
      invariant ids == IdsFrom(ints[..idx])
    {
      var pt := ints[idx];
      NumberingGrows(ints, idx, elevation);
      inters := inters[idx := Intersection(pt, elevation(pt), StopSign, None)];
      ids := ids[pt := idx];
    }
    assert ints[..|ints|] == ints;
  }

  /**
   * Intersection ids are 0..n-1, follow ascending point order, and every
   * intersection is a stop sign without a label at its sampled elevation.
   */
  lemma IntersectionNumbering(ints: seq<Pt>, elevation: Pt -> real)
    requires StrictlySorted(ints)
    ensures var inters := IntersectionsFrom(ints, elevation);
      && (forall k: nat :: k in inters <==> k < |ints|)
      && (forall a, b :: a in inters && b in inters ==>
            (a < b <==> Below(inters[a].point, inters[b].point)))
      && (forall k :: k in inters ==>
            inters[k].intersectionType == StopSign && inters[k].intersectionLabel == None
            && inters[k].elevation == elevation(inters[k].point))
    ensures var ids := IdsFrom(ints);
      && (forall p :: p in ids <==> p in ints)
      && (forall k :: 0 <= k < |ints| ==> ids[ints[k]] == k)
  {
    var inters := IntersectionsFrom(ints, elevation);
    forall a, b | a in inters && b in inters
      ensures a < b <==> Below(inters[a].point, inters[b].point)
    {
      BelowIsStrictTotalOrder(ints[a], ints[b], ints[a]);
    }
    IdsArePositions(ints);
  }

  // ---------------------------------------------------------------------
  // Pass 5: cutting ways into road segments

  /**
   * The splitting loop from the state `r` (its `points` are the segment
   * buffer, `i1` the segment's start intersection) over the remaining points:
   * each point is pushed, and once the buffer holds two or more points and
   * the point is an intersection, the buffer is emitted as a road ending
   * there and a new buffer starts at that point.
   */
  function CutRoads(r: Road, rest: seq<Pt>, ids: map<Pt, nat>): (segs: seq<Road>)
    ensures forall s :: s in segs ==> |s.points| >= 2
    decreases |rest|
  {
    if rest == [] then []
    else
      var p := rest[0];
      var r' := r.(points := r.points + [p]);
      if |r'.points| > 1 && p in ids then
        var done := r'.(i2 := ids[p]);
        [done] + CutRoads(done.(points := [p], i1 := ids[p]), rest[1..], ids)
      else
        CutRoads(r', rest[1..], ids)
  }

  /** The buffer left over when the splitting loop has consumed `rest`. */
  function Leftover(r: Road, rest: seq<Pt>, ids: map<Pt, nat>): seq<Pt>
    decreases |rest|
  {
    if rest == [] then r.points
    else
      var p := rest[0];
      var r' := r.(points := r.points + [p]);
      if |r'.points| > 1 && p in ids then
        Leftover(r'.(i2 := ids[p], points := [p], i1 := ids[p]), rest[1..], ids)
      else
        Leftover(r', rest[1..], ids)
  }

  /** One unfolding of the splitting loop's specification. */
  lemma CutStep(r: Road, rest: seq<Pt>, ids: map<Pt, nat>)
    requires rest != []
    ensures var p := rest[0];
      var r' := r.(points := r.points + [p]);
      if |r'.points| > 1 && p in ids then
        var next := r'.(i2 := ids[p], points := [p], i1 := ids[p]);
        && CutRoads(r, rest, ids) == [r'.(i2 := ids[p])] + CutRoads(next, rest[1..], ids)
        && Leftover(r, rest, ids) == Leftover(next, rest[1..], ids)
      else
        && CutRoads(r, rest, ids) == CutRoads(r', rest[1..], ids)
        && Leftover(r, rest, ids) == Leftover(r', rest[1..], ids)
  {
  }

  /** The state the splitting loop starts a way in. */
  function WayStart(w: Road, ids: map<Pt, nat>): Road
    requires |w.points| > 0 && w.points[0] in ids
  {
    w.(points := [], i1 := ids[w.points[0]])
  }

  function WaySegments(w: Road, ids: map<Pt, nat>): seq<Road>
    requires |w.points| > 0 && w.points[0] in ids
  {
    CutRoads(WayStart(w, ids), w.points, ids)
  }

  predicate StartsAtIntersections(ways: seq<Road>, ids: map<Pt, nat>)
  {
    forall k :: 0 <= k < |ways| ==> |ways[k].points| > 0 && ways[k].points[0] in ids
  }

  /** The segments of all ways, in emission order. */
  function AllSegments(ways: seq<Road>, ids: map<Pt, nat>): seq<Road>
    requires StartsAtIntersections(ways, ids)
  {
    if ways == [] then []
    else AllSegments(ways[..|ways| - 1], ids) + WaySegments(Last(ways), ids)
  }

  /** `map.roads`: the segments keyed by emission order. */
  function Indexed(rs: seq<Road>): map<nat, Road>
  {
    map k: nat | k < |rs| :: rs[k]
  }

  /** A way's segments glued back together, dropping the shared first point of each later one. */
  function Rejoin(segs: seq<Road>): seq<Pt>
  {
    if segs == [] then [] else segs[0].points + Tails(segs[1..])
  }

  function Tails(segs: seq<Road>): seq<Pt>
  {
    if segs == [] then []
    else (if segs[0].points == [] then [] else segs[0].points[1..]) + Tails(segs[1..])
  }

  /** The splitting loop's state is consistent: the buffer starts at intersection `i1` and holds no other intersection. */
  predicate BufferOk(r: Road, rest: seq<Pt>, ids: map<Pt, nat>)
  {
    && (|r.points| == 0 ==> |rest| > 0 && rest[0] in ids && r.i1 == ids[rest[0]])
    && (|r.points| > 0 ==> r.points[0] in ids && r.i1 == ids[r.points[0]])
    && forall m :: 1 <= m < |r.points| ==> r.points[m] !in ids
  }

  /** A segment runs from intersection `i1` to intersection `i2` and crosses no other intersection. */
  predicate SegmentOk(s: Road, ids: map<Pt, nat>)
  {
    && |s.points| >= 2
    && s.points[0] in ids && s.i1 == ids[s.points[0]]
    && Last(s.points) in ids && s.i2 == ids[Last(s.points)]
    && forall m :: 0 < m < |s.points| - 1 ==> s.points[m] !in ids
  }

  /** Every emitted segment connects two intersections and keeps the way's id and tags. */
  lemma {:induction false} CutRoadsSegments(r: Road, rest: seq<Pt>, ids: map<Pt, nat>)
    requires BufferOk(r, rest, ids)
    ensures forall s :: s in CutRoads(r, rest, ids) ==>
      SegmentOk(s, ids) && s.osmWayId == r.osmWayId && s.osmTags == r.osmTags
    decreases |rest|
  {
    if rest != [] {
      var p := rest[0];
      var r' := r.(points := r.points + [p]);
      if |r'.points| > 1 && p in ids {
        var done := r'.(i2 := ids[p]);
        CutRoadsSegments(done.(points := [p], i1 := ids[p]), rest[1..], ids);
      } else {
        CutRoadsSegments(r', rest[1..], ids);
      }
    }
  }

  /**
   * `segs` glued back together, followed by the buffer `left` without its
   * first point, give `whole`; the buffer starts where the last segment
   * ended. Without segments the buffer is all of `whole`.
   */
  predicate Rebuilds(segs: seq<Road>, left: seq<Pt>, whole: seq<Pt>)
  {
    && |left| > 0
    && (segs == [] ==> left == whole)
    && (segs != [] ==>
          && Rejoin(segs) + left[1..] == whole
          && |Last(segs).points| > 0 && left[0] == Last(Last(segs).points))
  }

  /**
   * Nothing is lost or duplicated: the segments glued back together,
   * followed by the leftover buffer without its first point, are the buffer
   * followed by the remaining points; and the leftover buffer starts where
   * the last segment ended.
   */
  lemma {:induction false} CutRoadsRebuild(r: Road, rest: seq<Pt>, ids: map<Pt, nat>)
    requires |r.points| > 0
    ensures Rebuilds(CutRoads(r, rest, ids), Leftover(r, rest, ids), r.points + rest)
    decreases |rest|
  {
    if rest != [] {
      var p, rest' := rest[0], rest[1..];
      var r' := r.(points := r.points + [p]);
      CutStep(r, rest, ids);
      if p in ids {
        var next := r'.(i2 := ids[p], points := [p], i1 := ids[p]);
        CutRoadsRebuild(next, rest', ids);
        RebuildAfterCut(r.points, r'.(i2 := ids[p]), CutRoads(next, rest', ids), Leftover(next, rest', ids), p, rest');
        assert r.points + [p] + rest' == r.points + rest;
      } else {
        CutRoadsRebuild(r', rest', ids);
        assert r'.points + rest' == r.points + rest;
      }
    } else {
      assert r.points + rest == r.points;
    }
  }

  /** The step of `CutRoadsRebuild` where the buffer is emitted as a segment. */
  lemma RebuildAfterCut(pts: seq<Pt>, done: Road, sub: seq<Road>, left: seq<Pt>, p: Pt, rest: seq<Pt>)
    requires done.points == pts + [p]
    requires |left| > 0
    requires forall s :: s in sub ==> |s.points| >= 2
    requires Rebuilds(sub, left, [p] + rest)
    ensures Rebuilds([done] + sub, left, pts + [p] + rest)
  {
    if sub == [] {
      assert Rejoin([done]) == done.points;
    } else {
      assert sub[0] in sub;
      RejoinCons(done, sub);
      var joined := Rejoin(sub);
      calc {
        joined[1..] + left[1..];
        (joined + left[1..])[1..];
        ([p] + rest)[1..];
        rest;
      }
      assert Last([done] + sub) == Last(sub);
    }
  }

  lemma RejoinCons(s: Road, segs: seq<Road>)
    requires segs != [] && |segs[0].points| > 0
    ensures |Rejoin(segs)| > 0
    ensures Rejoin([s] + segs) == s.points + Rejoin(segs)[1..]
  {
    var joined := Rejoin(segs);
    assert ([s] + segs)[1..] == segs;
    assert (segs[0].points + Tails(segs[1..]))[1..] == segs[0].points[1..] + Tails(segs[1..]);
  }

  /** When the last point is an intersection, exactly that one point is left in the buffer. */
  lemma {:induction false} LeftoverIsLastPoint(r: Road, rest: seq<Pt>, ids: map<Pt, nat>)
    requires |rest| > 0 && Last(rest) in ids
    ensures Leftover(r, rest, ids) == [Last(rest)]
    decreases |rest|
  {
    var p := rest[0];
    var r' := r.(points := r.points + [p]);
    if |rest| > 1 {
      if |r'.points| > 1 && p in ids {
        LeftoverIsLastPoint(r'.(i2 := ids[p], points := [p], i1 := ids[p]), rest[1..], ids);
      } else {
        LeftoverIsLastPoint(r', rest[1..], ids);
      }
    }
  }

  /**
   * Cutting a way whose ends are intersections: every segment connects two
   * intersections, exactly one point remains, and a way of two or more
   * points yields at least one segment and is rebuilt by its segments.
   */
  lemma WaySplit(w: Road, ids: map<Pt, nat>)
    requires |w.points| > 0 && w.points[0] in ids && Last(w.points) in ids
    ensures forall s :: s in WaySegments(w, ids) ==>
      SegmentOk(s, ids) && s.osmWayId == w.osmWayId && s.osmTags == w.osmTags
    ensures Leftover(WayStart(w, ids), w.points, ids) == [Last(w.points)]
    ensures |w.points| >= 2 ==> |WaySegments(w, ids)| >= 1 && Rejoin(WaySegments(w, ids)) == w.points
  {
    var start := WayStart(w, ids);
    CutRoadsSegments(start, w.points, ids);
    LeftoverIsLastPoint(start, w.points, ids);
    var first := start.(points := [w.points[0]]);
    assert start.points + [w.points[0]] == [w.points[0]];
    assert CutRoads(start, w.points, ids) == CutRoads(first, w.points[1..], ids);
    assert Leftover(start, w.points, ids) == Leftover(first, w.points[1..], ids);
    CutRoadsRebuild(first, w.points[1..], ids);
    assert [w.points[0]] + w.points[1..] == w.points;
  }

  lemma IndexedGrows(rs: seq<Road>, r: Road)
    ensures |rs| !in Indexed(rs)
    ensures Indexed(rs + [r]) == Indexed(rs)[|rs| := r]
  {
  }

  /**
   * The splitting loop over one way's points: every time the buffer of two
   * or more points reaches an intersection it is inserted under the next
   * road id and restarted at that intersection. Exactly one point remains.
   */
  method SplitWay(orig: Road, ids: map<Pt, nat>, roads: map<nat, Road>, ghost emitted: seq<Road>)
    returns (roads': map<nat, Road>, ghost emitted': seq<Road>)
    requires |orig.points| > 0 && orig.points[0] in ids && Last(orig.points) in ids
    requires roads == Indexed(emitted) && |roads| == |emitted|
    ensures emitted' == emitted + WaySegments(orig, ids)
    ensures roads' == Indexed(emitted') && |roads'| == |emitted'|
  {
    roads', emitted' := roads, emitted;
    var r := orig.(points := []);
    r := r.(i1 := ids[orig.points[0]]);
    ghost var start := r;
    LeftoverIsLastPoint(start, orig.points, ids);
    assert orig.points[0..] == orig.points;
    for j := 0 to |orig.points|
      invariant emitted' + CutRoads(r, orig.points[j..], ids) == emitted + CutRoads(start, orig.points, ids)
      invariant Leftover(r, orig.points[j..], ids) == Leftover(start, orig.points, ids)
      invariant roads' == Indexed(emitted') && |roads'| == |emitted'|
    {
      var pt := orig.points[j];
      CutStep(r, orig.points[j..], ids);
      assert orig.points[j..][1..] == orig.points[j + 1..];
      r := r.(points := r.points + [pt]);
      if |r.points| > 1 && pt in ids {
        var i2 := ids[pt];
        r := r.(i2 := i2);
        IndexedGrows(emitted', r);
        roads' := roads'[|roads'| := r];
        emitted' := emitted' + [r];
        r := r.(points := []);
        r := r.(i1 := i2);
        r := r.(points := r.points + [pt]);
        assert r.points == [pt];
      }
    }
    assert |r.points| == 1;
  }

  /** The splitting loop over all ways, inserting each segment under the next road id. */
  method SplitRoads(ways: seq<Road>, ids: map<Pt, nat>) returns (roads: map<nat, Road>)
    requires forall k :: 0 <= k < |ways| ==>
      |ways[k].points| > 0 && ways[k].points[0] in ids && Last(ways[k].points) in ids
    ensures roads == Indexed(AllSegments(ways, ids))
  {
    roads := map[];
    ghost var emitted: seq<Road> := [];
    for k := 0 to |ways|
      invariant emitted == AllSegments(ways[..k], ids)
      invariant roads == Indexed(emitted) && |roads| == |emitted|
    {
      roads, emitted := SplitWay(ways[k], ids, roads, emitted);
      assert ways[..k + 1][..k] == ways[..k];
    }
    assert ways[..|ways|] == ways;
  }

  // ---------------------------------------------------------------------
  // The whole conversion

  lemma {:induction false} WayEndsAreIntersections(ways: seq<Road>, k: int)
    requires 0 <= k < |ways| && |ways[k].points| > 0
    ensures ways[k].points[0] in IntersectionPoints(ways)
    ensures Last(ways[k].points) in IntersectionPoints(ways)
  {
    WayEndsIff(ways, ways[k].points[0]);
    WayEndsIff(ways, Last(ways[k].points));
  }

  /** The remapped ways of the input: roundabouts dropped, ends extended. */
  function RemappedWays(roads: seq<Road>, center: seq<Pt> -> Pt): (ways: seq<Road>)
    requires forall k :: 0 <= k < |roads| && !IsRoundabout(roads[k]) ==> |roads[k].points| > 0
    ensures NonEmptyWays(ways)
  {
    var kept := NonRoundabouts(roads);
    assert NonEmptyWays(kept) by {
      forall k | 0 <= k < |kept|
        ensures |kept[k].points| > 0
      {
        assert kept[k] in roads;
      }
    }
    Ways(Extensions(kept, RoundaboutRemap(roads, center)))
  }

  /** The ascending enumeration of the intersection points of the remapped ways. */
  function SortedIntersections(ways: seq<Road>): seq<Pt>
  {
    SortedSubset(AllPoints(ways), IntersectionPoints(ways))
  }

  /** The map a successful conversion produces. */
  function ExpectedMap<B, A>(
    roads: seq<Road>, buildings: seq<B>, areas: seq<A>,
    elevation: Pt -> real, center: seq<Pt> -> Pt): RawMap<B, A>
    requires forall k :: 0 <= k < |roads| && !IsRoundabout(roads[k]) ==> |roads[k].points| > 0
  {
    var ways := RemappedWays(roads, center);
    var ints := SortedIntersections(ways);
    var ids := IdsFrom(ints);
    assert StartsAtIntersections(ways, ids) by {
      forall k | 0 <= k < |ways|
        ensures ways[k].points[0] in ids
      {
        WayEndsAreIntersections(ways, k);
        IntersectionPointsOccur(ways, ways[k].points[0]);
        IntersectionNumbering(ints, elevation);
      }
    }
    RawMap(Indexed(AllSegments(ways, ids)), IntersectionsFrom(ints, elevation), buildings, areas)
  }

  /** The conversion aborts: some remapped way runs through a roundabout point mid-span. */
  ghost predicate SplitAborts(roads: seq<Road>, center: seq<Pt> -> Pt)
    requires forall k :: 0 <= k < |roads| && !IsRoundabout(roads[k]) ==> |roads[k].points| > 0
  {
    var kept := NonRoundabouts(roads);
    assert NonEmptyWays(kept) by {
      forall k | 0 <= k < |kept|
        ensures |kept[k].points| > 0
      {
        assert kept[k] in roads;
      }
    }
    var remap := RoundaboutRemap(roads, center);
    Aborts(Extensions(kept, remap), remap)
  }

  /** The conversion aborts with `err`, which names the first hit of a remapped way. */
  ghost predicate SplitAbortsWith(roads: seq<Road>, center: seq<Pt> -> Pt, err: SplitError)
    requires forall k :: 0 <= k < |roads| && !IsRoundabout(roads[k]) ==> |roads[k].points| > 0
  {
    var kept := NonRoundabouts(roads);
    assert NonEmptyWays(kept) by {
      forall k | 0 <= k < |kept|
        ensures |kept[k].points| > 0
      {
        assert kept[k] in roads;
      }
    }
    var remap := RoundaboutRemap(roads, center);
    AbortsWith(Extensions(kept, remap), remap, err)
  }

  /**
   * `split_up_roads`: converts raw ways into intersections and road
   * segments. `center` is `LonLat::center` and `elevation` the elevation
   * lookup; buildings and areas pass through.
   */
  method SplitUpRoads<B, A>(
    roads: seq<Road>, buildings: seq<B>, areas: seq<A>,
    elevation: Pt -> real, center: seq<Pt> -> Pt)
    returns (res: Result<RawMap<B, A>, SplitError>)
    requires forall k :: 0 <= k < |roads| && !IsRoundabout(roads[k]) ==> |roads[k].points| > 0
    ensures res.Failure? <==> SplitAborts(roads, center)
    ensures res.Failure? ==> SplitAbortsWith(roads, center, res.error)
    ensures res.Success? ==> res.value == ExpectedMap(roads, buildings, areas, elevation, center)
    ensures res.Success? ==> res.value.buildings == buildings && res.value.areas == areas
  {
    var kept, remap := CollapseRoundabouts(roads, center);
    assert NonEmptyWays(kept) by {
      forall k | 0 <= k < |kept|
        ensures |kept[k].points| > 0
      {
        assert kept[k] in roads;
      }
    }
    var tally := FindIntersections(kept, remap);
    if tally.Failure? {
      return Failure(tally.error);
    }
    var ways := tally.value.ways;
    assert ways == RemappedWays(roads, center);
    var ints := tally.value.intersections;
    forall p
      ensures p in ints <==> p in SortedIntersections(ways)
    {
      if p in IntersectionPoints(ways) {
        IntersectionPointsOccur(ways, p);
      }
    }
    SortedUnique(ints, SortedIntersections(ways));
    var inters, ids := NumberIntersections(ints, elevation);
    IntersectionNumbering(ints, elevation);
    forall k | 0 <= k < |ways|
      ensures ways[k].points[0] in ids && Last(ways[k].points) in ids
    {
      WayEndsAreIntersections(ways, k);
    }
    var split := SplitRoads(ways, ids);
    return Success(RawMap(split, inters, buildings, areas));
  }

  // ---------------------------------------------------------------------
  // What the finished map guarantees

  lemma {:induction false} AllSegmentsMembers(ways: seq<Road>, ids: map<Pt, nat>, s: Road)
    requires StartsAtIntersections(ways, ids)
    requires s in AllSegments(ways, ids)
    ensures exists k :: 0 <= k < |ways| && s in WaySegments(ways[k], ids)
  {
    var n := |ways| - 1;
    if s !in WaySegments(Last(ways), ids) {
      AllSegmentsMembers(ways[..n], ids, s);
      var k :| 0 <= k < n && s in WaySegments(ways[..n][k], ids);
      assert ways[..n][k] == ways[k];
    }
  }

  /** A segment cut at numbered points joins the intersections of those numbers. */
  lemma SegmentJoinsIntersections(ints: seq<Pt>, elevation: Pt -> real, s: Road)
    requires StrictlySorted(ints)
    requires SegmentOk(s, IdsFrom(ints))
    ensures var inters := IntersectionsFrom(ints, elevation);
      && s.i1 in inters && inters[s.i1].point == s.points[0]
      && s.i2 in inters && inters[s.i2].point == Last(s.points)
      && forall j :: 0 < j < |s.points| - 1 ==>
           forall i :: i in inters ==> inters[i].point != s.points[j]
  {
    var inters := IntersectionsFrom(ints, elevation);
    var ids := IdsFrom(ints);
    IntersectionNumbering(ints, elevation);
    var k1 :| 0 <= k1 < |ints| && ints[k1] == s.points[0];
    var k2 :| 0 <= k2 < |ints| && ints[k2] == Last(s.points);
    forall j, i | 0 < j < |s.points| - 1 && i in inters
      ensures inters[i].point != s.points[j]
    {
      assert inters[i].point == ints[i];
    }
  }

  /** No remapped way is a roundabout. */
  lemma RemappedWayIsNoRoundabout(roads: seq<Road>, center: seq<Pt> -> Pt, k: int)
    requires forall k :: 0 <= k < |roads| && !IsRoundabout(roads[k]) ==> |roads[k].points| > 0
    requires 0 <= k < |RemappedWays(roads, center)|
    ensures !IsRoundabout(RemappedWays(roads, center)[k])
  {
    var kept := NonRoundabouts(roads);
    assert kept[k] in kept;
    ExtendWayShape(kept[k], RoundaboutRemap(roads, center));
  }

  /**
   * Every road of a converted map has at least two points, starts at its
   * intersection `i1`, ends at its intersection `i2`, passes through no
   * other intersection, and comes from a way that is not a roundabout.
   */
  lemma RoadsConnectIntersections<B, A>(
    roads: seq<Road>, buildings: seq<B>, areas: seq<A>,
    elevation: Pt -> real, center: seq<Pt> -> Pt, id: nat)
    requires forall k :: 0 <= k < |roads| && !IsRoundabout(roads[k]) ==> |roads[k].points| > 0
    requires id in ExpectedMap(roads, buildings, areas, elevation, center).roads
    ensures var m := ExpectedMap(roads, buildings, areas, elevation, center);
      var s := m.roads[id];
      && |s.points| >= 2
      && s.i1 in m.intersections && m.intersections[s.i1].point == s.points[0]
      && s.i2 in m.intersections && m.intersections[s.i2].point == Last(s.points)
      && (forall j :: 0 < j < |s.points| - 1 ==>
            forall i :: i in m.intersections ==> m.intersections[i].point != s.points[j])
      && !IsRoundabout(s)
  {
    var m := ExpectedMap(roads, buildings, areas, elevation, center);
    var ways := RemappedWays(roads, center);
    var ints := SortedIntersections(ways);
    var ids := IdsFrom(ints);
    IntersectionNumbering(ints, elevation);
    forall k | 0 <= k < |ways|
      ensures ways[k].points[0] in ids && Last(ways[k].points) in ids
    {
      WayEndsAreIntersections(ways, k);
      IntersectionPointsOccur(ways, ways[k].points[0]);
      IntersectionPointsOccur(ways, Last(ways[k].points));
    }
    assert m.roads == Indexed(AllSegments(ways, ids));
    assert m.intersections == IntersectionsFrom(ints, elevation);
    var s := m.roads[id];
    assert s in AllSegments(ways, ids);
    AllSegmentsMembers(ways, ids, s);
    var k :| 0 <= k < |ways| && s in WaySegments(ways[k], ids);
    WaySplit(ways[k], ids);
    SegmentJoinsIntersections(ints, elevation, s);
    RemappedWayIsNoRoundabout(roads, center, k);
  }

  /**
   * Every remapped way of two or more points is cut into at least one road,
   * and its roads, glued back together, give exactly its points.
   */
  lemma WaysAreRebuilt(roads: seq<Road>, center: seq<Pt> -> Pt, k: int)
    requires forall k :: 0 <= k < |roads| && !IsRoundabout(roads[k]) ==> |roads[k].points| > 0
    requires 0 <= k < |RemappedWays(roads, center)|
    requires |RemappedWays(roads, center)[k].points| >= 2
    ensures var ways := RemappedWays(roads, center);
      var ids := IdsFrom(SortedIntersections(ways));
      ways[k].points[0] in ids
      && |WaySegments(ways[k], ids)| >= 1
      && Rejoin(WaySegments(ways[k], ids)) == ways[k].points
  {
    var ways := RemappedWays(roads, center);
    var ints := SortedIntersections(ways);
    WayEndsAreIntersections(ways, k);
    IntersectionPointsOccur(ways, ways[k].points[0]);
    IntersectionPointsOccur(ways, Last(ways[k].points));
    var elevation: Pt -> real := _ => 0.0;
    IntersectionNumbering(ints, elevation);
    WaySplit(ways[k], IdsFrom(ints));
  }

}
