/**
 * Points and point sequences, with exact equality.
 *
 * Only the parts of the geometry library whose behaviour the core relies on
 * exactly are defined here: the snapped point used as a map key, its derived
 * ordering, reversing a polyline, removing consecutive repeats and detecting
 * duplicates. Everything that computes new coordinates is a parameter of the
 * operations that use it.
 */
module Geom {

  /** A snapped 2D coordinate (`HashablePt2D`): equality is exact. */
  datatype Pt = Pt(x: real, y: real)

  /** The derived lexicographic ordering of snapped points (x first, then y). */
  predicate Below(a: Pt, b: Pt)
  {
    a.x < b.x || (a.x == b.x && a.y < b.y)
  }

  /** `Below` is a strict total order. */
  lemma BelowIsStrictTotalOrder(a: Pt, b: Pt, c: Pt)
    ensures !Below(a, a)
    ensures Below(a, b) ==> !Below(b, a)
    ensures Below(a, b) && Below(b, c) ==> Below(a, c)
    ensures a == b || Below(a, b) || Below(b, a)
  {
  }

  /** Strictly increasing under `Below`; what iterating a `BTreeSet` yields. */
  predicate StrictlySorted(s: seq<Pt>)
  {
    forall a, b :: 0 <= a < b < |s| ==> Below(s[a], s[b])
  }

  function Last<T>(s: seq<T>): T
    requires |s| > 0
  {
    s[|s| - 1]
  }

  /** The points in the opposite order (`PolyLine::reversed`, `Vec::reverse`). */
  function Reversed<T>(s: seq<T>): (r: seq<T>)
    ensures |r| == |s|
  {
    if s == [] then [] else Reversed(s[1..]) + [s[0]]
  }

  /** The `k`th point of the reversed polyline is the `k`th from the end of the original. */
  lemma {:induction false} ReversedIndex<T>(s: seq<T>)
    ensures forall k :: 0 <= k < |s| ==> Reversed(s)[k] == s[|s| - 1 - k]
  {
    if s != [] {
      ReversedIndex(s[1..]);
    }
  }

  /** Reversing twice gives back the original polyline. */
  lemma ReversedTwice<T>(s: seq<T>)
    ensures Reversed(Reversed(s)) == s
  {
    ReversedIndex(s);
    ReversedIndex(Reversed(s));
    assert forall k :: 0 <= k < |s| ==> Reversed(Reversed(s))[k] == s[k];
  }

  /** Some coordinate occurs twice (`abstutil::contains_duplicates` on hashed points). */
  predicate HasDuplicates<T(==)>(s: seq<T>)
  {
    exists a, b :: 0 <= a < b < |s| && s[a] == s[b]
  }

  /** `Vec::dedup`: drops every element equal to the one kept just before it. */
  function Dedup(s: seq<Pt>): (r: seq<Pt>)
    ensures |r| <= |s|
    ensures |s| > 0 ==> |r| > 0 && r[0] == s[0] && Last(r) == Last(s)
    ensures forall k :: 0 <= k < |r| - 1 ==> r[k] != r[k + 1]
    ensures forall x :: x in r <==> x in s
  {
    if |s| <= 1 then s
    else
      var rest := Dedup(s[1..]);
      if s[0] == rest[0] then rest else [s[0]] + rest
  }

  /**
   * The first element of every run of equal neighbours, in order: `s[k]`
   * is kept exactly when `k == 0` or `s[k] != s[k - 1]`.
   */
  function RunStarts(s: seq<Pt>): seq<Pt>
  {
    if s == [] then []
    else RunStarts(s[..|s| - 1]) + (if |s| == 1 || Last(s) != s[|s| - 2] then [Last(s)] else [])
  }

  /** Appending a point to a non-empty polyline keeps it unless it repeats the last point. */
  lemma {:induction false} DedupSnoc(s: seq<Pt>, y: Pt)
    requires |s| > 0
    ensures Dedup(s + [y]) == Dedup(s) + (if y == Last(s) then [] else [y])
    decreases |s|
  {
    if |s| == 1 {
      assert (s + [y])[1..] == [y];
    } else {
      DedupSnoc(s[1..], y);
      assert (s + [y])[1..] == s[1..] + [y];
    }
  }

  /**
   * `Dedup` removes exactly the points equal to their predecessor and keeps
   * the others in their original order.
   */
  lemma {:induction false} DedupIsRunStarts(s: seq<Pt>)
    ensures Dedup(s) == RunStarts(s)
    decreases |s|
  {
    if |s| > 1 {
      var init := s[..|s| - 1];
      DedupIsRunStarts(init);
      DedupSnoc(init, Last(s));
      assert init + [Last(s)] == s;
    }
  }
}
