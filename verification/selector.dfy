/**
 Weighted random colour selection (`randomColor`): running sums of the
 palette weights, one draw scaled by the total, a first-match scan with a
 strict `>`, and a uniform fallback pick when the scan finds nothing.
 */
module Selector {
  import opened Types

  /** The running weight of entry `i`: the weights of entries 0..i summed. */
  function Cumulative(s: ColorSet, i: nat): int
    requires i < |s|
  {
    (if i == 0 then 0 else Cumulative(s, i - 1)) + s[i].w
  }

  /** Sum of the weights of every entry of `s`. */
  function TotalWeight(s: ColorSet): int {
    if |s| == 0 then 0 else Cumulative(s, |s| - 1)
  }

  predicate NonNegativeWeights(s: ColorSet) {
    forall i :: 0 <= i < |s| ==> s[i].w >= 0
  }

  /** The array of running sums the selector builds before drawing, for the
      first `n` entries: each entry adds its weight to the previous sum, the
      first one to 0. */
  function RunningSums(s: ColorSet, n: nat): (sums: seq<int>)
    requires n <= |s|
    ensures |sums| == n
    ensures forall i :: 0 <= i < n ==> sums[i] == Cumulative(s, i)
  {
    if n == 0 then []
    else
      var front := RunningSums(s, n - 1);
      front + [(if n == 1 then 0 else front[n - 2]) + s[n - 1].w]
  }

  /** `u * t` for a draw `u` in [0, 1) is non-negative when t >= 0 and below
      `t` when t > 0. */
  lemma ScaledDrawBelow(u: real, t: real)
    requires 0.0 <= u < 1.0
    ensures t >= 0.0 ==> 0.0 <= u * t
    ensures t > 0.0 ==> u * t < t
  {
  }

  /** Scans `sums` from index `i` for the first entry strictly above `x`. */
  function FirstAbove(sums: seq<int>, x: real, i: nat): (r: Option<nat>)
    requires i <= |sums|
    decreases |sums| - i
    ensures r.Some? ==> i <= r.value < |sums| && sums[r.value] as real > x
    ensures r.Some? ==> forall j :: i <= j < r.value ==> sums[j] as real <= x
    ensures r.None? <==> forall j :: i <= j < |sums| ==> sums[j] as real <= x
  {
    if i == |sums| then None
    else if sums[i] as real > x then Some(i)
    else FirstAbove(sums, x, i + 1)
  }

  /** The draw `u` scaled by the total weight, the threshold the scan
      compares the running sums against. */
  function Threshold(palette: ColorSet, u: real): (x: real)
    requires 0.0 <= u < 1.0
    ensures TotalWeight(palette) >= 0 ==> 0.0 <= x
    ensures TotalWeight(palette) > 0 ==> x < TotalWeight(palette) as real
    ensures TotalWeight(palette) == 0 ==> x == 0.0
  {
    ScaledDrawBelow(u, TotalWeight(palette) as real);
    u * TotalWeight(palette) as real
  }

  /** `floor(u * n)`: the uniform fallback index (the source's `>> 0` is a
      floor on this non-negative value). */
  function FallbackIndex(u: real, n: nat): (idx: nat)
    requires 0.0 <= u < 1.0 && n > 0
    ensures idx < n
    ensures idx as real <= u * n as real < idx as real + 1.0
  {
    assert u * n as real < n as real;
    (u * n as real).Floor
  }

  /** Entry `i` is the first whose running sum strictly exceeds `x`. */
  predicate FirstMatch(palette: ColorSet, x: real, i: nat) {
    i < |palette|
    && Cumulative(palette, i) as real > x
    && forall j :: 0 <= j < i ==> Cumulative(palette, j) as real <= x
  }

  /** The scan for the scaled draw `x`: the index of the first running sum
      strictly above `x`, if any. */
  function Scan(palette: ColorSet, x: real): (r: Option<nat>)
    requires |palette| > 0
    ensures r.Some? ==> FirstMatch(palette, x, r.value)
    ensures r.None? <==> forall j :: 0 <= j < |palette| ==> Cumulative(palette, j) as real <= x
  {
    var sums := RunningSums(palette, |palette|);
    var r := FirstAbove(sums, x, 0);
    assert r.Some? ==> FirstMatch(palette, x, r.value) by {
      if r.Some? {
        forall j | 0 <= j < r.value
          ensures Cumulative(palette, j) as real <= x
        {
          assert sums[j] == Cumulative(palette, j);
        }
      }
    }
    assert r.None? <==> forall j :: 0 <= j < |palette| ==> Cumulative(palette, j) as real <= x by {
      if !r.None? {
        assert sums[r.value] == Cumulative(palette, r.value);
      } else {
        forall j | 0 <= j < |palette|
          ensures Cumulative(palette, j) as real <= x
        {
          assert sums[j] == Cumulative(palette, j);
        }
      }
    }
    r
  }

  /** One weighted pick from `palette`, starting at draw `k`: the draw is
      scaled by the total weight (the last running sum) and scanned. The scan
      consumes one draw; the fallback consumes a second one. */
  function RandomColor(palette: ColorSet, o: Oracle, k: nat): (r: Drawn<Color>)
    requires |palette| > 0 && Uniform(o)
    ensures r.value in palette
    ensures r.next == k + 1 || r.next == k + 2
  {
    match Scan(palette, Threshold(palette, o(k)))
    case Some(i) => Drawn(palette[i], k + 1)
    case None => Drawn(palette[FallbackIndex(o(k + 1), |palette|)], k + 2)
  }

  /** For a threshold in [0, total), the scan succeeds, and the entry it
      names has a positive weight. */
  lemma ScanSucceeds(palette: ColorSet, x: real)
    requires |palette| > 0 && 0.0 <= x < TotalWeight(palette) as real
    ensures Scan(palette, x).Some?
    ensures palette[Scan(palette, x).value].w > 0
  {
    assert Cumulative(palette, |palette| - 1) as real > x;
    var r := Scan(palette, x);
    FirstMatchPositive(palette, x, r.value);
  }

  /** When the total weight is positive the scan always succeeds, and the
      entry returned is the first one whose running sum strictly exceeds the
      scaled draw; exactly one draw is consumed. */
  lemma RandomColorFirstMatch(palette: ColorSet, o: Oracle, k: nat)
    requires |palette| > 0 && Uniform(o)
    requires TotalWeight(palette) > 0
    ensures RandomColor(palette, o, k).next == k + 1
    ensures exists i: nat :: FirstMatch(palette, Threshold(palette, o(k)), i) && RandomColor(palette, o, k).value == palette[i]
  {
    var x := Threshold(palette, o(k));
    ScanSucceeds(palette, x);
    var i := Scan(palette, x).value;
    assert RandomColor(palette, o, k) == Drawn(palette[i], k + 1);
    assert FirstMatch(palette, x, i);
  }

  /** With a positive total, the entry picked always has a positive weight:
      an entry of weight 0 can never be returned. */
  lemma RandomColorPositiveWeight(palette: ColorSet, o: Oracle, k: nat)
    requires |palette| > 0 && Uniform(o)
    requires TotalWeight(palette) > 0
    ensures RandomColor(palette, o, k).value.w > 0
  {
    var x := Threshold(palette, o(k));
    ScanSucceeds(palette, x);
    assert RandomColor(palette, o, k) == Drawn(palette[Scan(palette, x).value], k + 1);
  }

  /** The first entry whose running sum exceeds a non-negative threshold has
      a positive weight: its running sum exceeds the one before it. */
  lemma FirstMatchPositive(palette: ColorSet, x: real, i: nat)
    requires 0.0 <= x && FirstMatch(palette, x, i)
    ensures palette[i].w > 0
  {
    if i > 0 {
      assert Cumulative(palette, i - 1) as real <= x;
    }
  }

  /** With non-negative weights every running sum lies between 0 and the
      total. */
  lemma {:induction false} CumulativeBounded(s: ColorSet, i: nat)
    requires NonNegativeWeights(s)
    requires i < |s|
    ensures 0 <= Cumulative(s, i) <= TotalWeight(s)
  {
    CumulativeNonNegative(s, i);
    CumulativeAtMostTotal(s, i);
  }

  lemma {:induction false} CumulativeNonNegative(s: ColorSet, i: nat)
    requires NonNegativeWeights(s)
    requires i < |s|
    ensures 0 <= Cumulative(s, i)
  {
    if i > 0 {
      CumulativeNonNegative(s, i - 1);
    }
  }

  lemma {:induction false} CumulativeAtMostTotal(s: ColorSet, i: nat)
    requires NonNegativeWeights(s)
    requires i < |s|
    ensures Cumulative(s, i) <= TotalWeight(s)
    decreases |s| - i
  {
    if i < |s| - 1 {
      CumulativeAtMostTotal(s, i + 1);
      assert Cumulative(s, i + 1) == Cumulative(s, i) + s[i + 1].w;
    }
  }

  /** With non-negative weights the uniform fallback is taken exactly when the
      total weight is 0; it then returns the entry at `floor(u * |palette|)` for
      the second draw `u`, an index inside the palette. */
  lemma RandomColorFallback(palette: ColorSet, o: Oracle, k: nat)
    requires |palette| > 0 && Uniform(o)
    requires NonNegativeWeights(palette)
    ensures RandomColor(palette, o, k).next == k + 2 <==> TotalWeight(palette) == 0
    ensures TotalWeight(palette) == 0 ==>
              var idx := (o(k + 1) * |palette| as real).Floor;
              0 <= idx < |palette| && RandomColor(palette, o, k).value == palette[idx]
  {
    if TotalWeight(palette) == 0 {
      var sums := RunningSums(palette, |palette|);
      forall j | 0 <= j < |palette|
        ensures sums[j] as real <= o(k) * sums[|sums| - 1] as real
      {
        CumulativeBounded(palette, j);
      }
      assert Scan(palette, Threshold(palette, o(k))).None?;
    } else {
      CumulativeBounded(palette, |palette| - 1);
      RandomColorFirstMatch(palette, o, k);
    }
  }
}
