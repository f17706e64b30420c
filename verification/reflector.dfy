/**
 The symmetry reflector (`reflect`): a pure mirror transform that grows a
 half grid into the full tile along one or both axes. When `odd` holds the
 boundary row or column is shared by both halves instead of duplicated.
 */
module Reflector {
  import opened Types

  function Reverse<T>(s: seq<T>): (r: seq<T>)
    ensures |r| == |s|
    ensures forall i :: 0 <= i < |s| ==> r[i] == s[|s| - 1 - i]
  {
    if |s| == 0 then [] else Reverse(s[1..]) + [s[0]]
  }

  /** JavaScript's `slice(1)`: every element but the first; empty stays
      empty. */
  function DropFirst<T>(s: seq<T>): (r: seq<T>)
    ensures |r| == if |s| == 0 then 0 else |s| - 1
    ensures forall i :: 0 <= i < |r| ==> r[i] == s[i + 1]
  {
    if |s| == 0 then [] else s[1..]
  }

  /** The length of a side of `n` cells once mirrored: doubled, less the
      shared centre line when `odd`. */
  function MirroredLength(n: nat, odd: bool): nat {
    if odd && n > 0 then 2 * n - 1 else 2 * n
  }

  /** `s` reads the same from both ends. */
  predicate Palindrome<T(==)>(s: seq<T>) {
    forall c :: 0 <= c < |s| ==> s[c] == s[|s| - 1 - c]
  }

  /** One row with its mirror image put on its left. */
  function MirrorRow(v: seq<Color>, odd: bool): (r: seq<Color>)
    ensures |r| == MirroredLength(|v|, odd)
    ensures r[|r| - |v|..] == v
    ensures Palindrome(r)
  {
    (if odd then Reverse(DropFirst(v)) else Reverse(v)) + v
  }

  /** VERTICAL: every row mirrored; the number of rows is unchanged. */
  function ReflectVertical(p: Pattern, odd: bool): (r: Pattern)
    ensures |r| == |p|
    ensures forall i :: 0 <= i < |p| ==>
              |r[i]| == MirroredLength(|p[i]|, odd) && r[i][|r[i]| - |p[i]|..] == p[i]
    ensures forall i :: 0 <= i < |p| ==> Palindrome(r[i])
  {
    seq(|p|, i requires 0 <= i < |p| => MirrorRow(p[i], odd))
  }

  /** HORIZONTAL: the mirrored rows appended below; every row is kept as
      is. */
  function ReflectHorizontal(p: Pattern, odd: bool): (r: Pattern)
    ensures |r| == MirroredLength(|p|, odd)
    ensures r[..|p|] == p
    ensures Palindrome(r)
  {
    var r := if odd then p + DropFirst(Reverse(p)) else p + Reverse(p);
    assert Palindrome(r) by {
      forall c | 0 <= c < |r|
        ensures r[c] == r[|r| - 1 - c]
      {
        if c >= |p| {
          assert r[c] == p[|r| - 1 - c];
        } else if |r| - 1 - c >= |p| {
          assert r[|r| - 1 - c] == p[c];
        }
      }
    }
    r
  }

  /** QUAD is HORIZONTAL applied to the VERTICAL result, with the same
      `odd` flag for both. */
  function Reflect(symm: Symmetry, p: Pattern, odd: bool): (r: Pattern)
    ensures |r| == AxisLength(!symm.Vertical?, |p|, odd)
    ensures symm.Horizontal? ==> r[..|p|] == p
    ensures symm.Vertical? ==> forall i :: 0 <= i < |r| ==> Palindrome(r[i])
    ensures !symm.Vertical? ==> Palindrome(r)
  {
    match symm
    case Horizontal => ReflectHorizontal(p, odd)
    case Vertical => ReflectVertical(p, odd)
    case Quad => ReflectHorizontal(ReflectVertical(p, odd), odd)
  }

  /** The width of the full tile along a mirrored axis. */
  function AxisLength(mirrored: bool, n: nat, odd: bool): nat {
    if mirrored then MirroredLength(n, odd) else n
  }

  /** HORIZONTAL keeps every row's length. */
  lemma HorizontalShape(p: Pattern, h: nat, w: nat, odd: bool)
    requires Rectangular(p, h, w)
    ensures Rectangular(ReflectHorizontal(p, odd), MirroredLength(h, odd), w)
  {
    var r := ReflectHorizontal(p, odd);
    forall i | 0 <= i < |r|
      ensures |r[i]| == w
    {
      if i >= |p| {
        assert r[i] == p[|r| - 1 - i];
      }
    }
  }

  /** An h-by-w half grid becomes an H-by-W tile, where only the mirrored
      axes grow. */
  lemma ReflectShape(symm: Symmetry, p: Pattern, h: nat, w: nat, odd: bool)
    requires Rectangular(p, h, w)
    ensures Rectangular(Reflect(symm, p, odd), AxisLength(!symm.Vertical?, h, odd), AxisLength(!symm.Horizontal?, w, odd))
  {
    if symm.Horizontal? {
      HorizontalShape(p, h, w, odd);
    } else if symm.Quad? {
      var v := ReflectVertical(p, odd);
      assert Rectangular(v, h, MirroredLength(w, odd));
      HorizontalShape(v, h, MirroredLength(w, odd), odd);
    }
  }

  /** Left-right symmetry for VERTICAL and QUAD, top-bottom symmetry for
      HORIZONTAL and QUAD. */
  lemma ReflectSymmetric(symm: Symmetry, p: Pattern, odd: bool)
    ensures var r := Reflect(symm, p, odd);
            (!symm.Horizontal? ==> forall i :: 0 <= i < |r| ==> Palindrome(r[i])) &&
            (!symm.Vertical? ==> forall i :: 0 <= i < |r| ==> r[i] == r[|r| - 1 - i])
  {
    if symm.Quad? {
      var v := ReflectVertical(p, odd);
      var r := ReflectHorizontal(v, odd);
      forall i | 0 <= i < |r|
        ensures Palindrome(r[i])
      {
        if i >= |v| {
          assert r[i] == v[|r| - 1 - i];
        }
      }
    }
  }

  /** The last `w` cells of every row. */
  function Suffixes(t: Pattern, w: nat): (r: Pattern)
    requires forall i :: 0 <= i < |t| ==> w <= |t[i]|
    ensures |r| == |t|
    ensures forall i :: 0 <= i < |t| ==> r[i] == t[i][|t[i]| - w..]
  {
    seq(|t|, i requires 0 <= i < |t| => t[i][|t[i]| - w..])
  }

  /** Recovers the half grid from a tile: the first `h` rows for a
      top-bottom mirror, the last `w` cells of each row for a left-right
      mirror. */
  function Unreflect(symm: Symmetry, t: Pattern, h: nat, w: nat): Pattern
    requires h <= |t|
    requires forall i :: 0 <= i < |t| ==> w <= |t[i]|
  {
    var rows := if symm.Vertical? then t else t[..h];
    if symm.Horizontal? then rows else Suffixes(rows, w)
  }

  /** The original rows are the suffixes of the VERTICAL result. */
  lemma SuffixesOfVertical(p: Pattern, h: nat, w: nat, odd: bool)
    requires Rectangular(p, h, w)
    ensures var v := ReflectVertical(p, odd);
            (forall i :: 0 <= i < |v| ==> w <= |v[i]|) && Suffixes(v, w) == p
  {
    var v := ReflectVertical(p, odd);
    forall i | 0 <= i < |v|
      ensures w <= |v[i]| && v[i][|v[i]| - w..] == p[i]
    {
      assert |p[i]| == w;
    }
  }

  /** Reflecting loses nothing: the half grid is recovered from the tile. */
  lemma UnreflectReflect(symm: Symmetry, p: Pattern, h: nat, w: nat, odd: bool)
    requires Rectangular(p, h, w)
    ensures var t := Reflect(symm, p, odd);
            h <= |t| && (forall i :: 0 <= i < |t| ==> w <= |t[i]|) &&
            Unreflect(symm, t, h, w) == p
  {
    ReflectShape(symm, p, h, w, odd);
    match symm
    case Horizontal =>
      assert ReflectHorizontal(p, odd)[..h] == p;
    case Vertical =>
      SuffixesOfVertical(p, h, w, odd);
    case Quad =>
      var v := ReflectVertical(p, odd);
      SuffixesOfVertical(p, h, w, odd);
      assert ReflectHorizontal(v, odd)[..h] == v;
  }

  /** Every colour occurring in `p`. */
  function Cells(p: Pattern): set<Color> {
    set i, j | 0 <= i < |p| && 0 <= j < |p[i]| :: p[i][j]
  }

  /** Every cell of `p` is `c`. */
  predicate OneColor(p: Pattern, c: Color) {
    forall i, j :: 0 <= i < |p| && 0 <= j < |p[i]| ==> p[i][j] == c
  }

  /** A grid of one colour reflects to a grid of that colour. */
  lemma ReflectOneColor(symm: Symmetry, p: Pattern, odd: bool, c: Color)
    requires OneColor(p, c)
    ensures OneColor(Reflect(symm, p, odd), c)
  {
    ReflectKeepsCells(symm, p, odd);
    var r := Reflect(symm, p, odd);
    forall i, j | 0 <= i < |r| && 0 <= j < |r[i]|
      ensures r[i][j] == c
    {
      assert r[i][j] in Cells(r);
    }
  }

  /** Mirroring copies cells and never invents one. */
  lemma ReflectKeepsCells(symm: Symmetry, p: Pattern, odd: bool)
    ensures Cells(Reflect(symm, p, odd)) <= Cells(p)
  {
    match symm
    case Horizontal =>
      HorizontalKeepsCells(p, odd);
    case Vertical =>
      VerticalKeepsCells(p, odd);
    case Quad =>
      VerticalKeepsCells(p, odd);
      HorizontalKeepsCells(ReflectVertical(p, odd), odd);
  }

  lemma VerticalKeepsCells(p: Pattern, odd: bool)
    ensures Cells(ReflectVertical(p, odd)) <= Cells(p)
  {
    var v := ReflectVertical(p, odd);
    forall i, j | 0 <= i < |v| && 0 <= j < |v[i]|
      ensures v[i][j] in Cells(p)
    {
      var n := |p[i]|;
      var c := if j >= |v[i]| - n then j else |v[i]| - 1 - j;
      assert v[i][j] == v[i][c];
      assert v[i][c] == p[i][c - (|v[i]| - n)];
    }
  }

  lemma HorizontalKeepsCells(p: Pattern, odd: bool)
    ensures Cells(ReflectHorizontal(p, odd)) <= Cells(p)
  {
    var r := ReflectHorizontal(p, odd);
    forall i, j | 0 <= i < |r| && 0 <= j < |r[i]|
      ensures r[i][j] in Cells(p)
    {
      var a := if i < |p| then i else |r| - 1 - i;
      assert r[i] == r[a] == p[a];
    }
  }
}
