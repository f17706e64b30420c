/**
 The full tile (`createFinalPattern`): halve the mirrored axes, build the
 half grid over the halved bounds, and reflect it, sharing the centre line
 whenever a halved bound is not a whole number.
 */
module Tile {
  import opened Types
  import opened Builder
  import opened Reflector

  /** `x` is the whole number `n`. */
  predicate Whole(x: real, n: int) {
    n as real == x
  }

  /** `Number.isInteger` on a finite number: `x` is some whole number. */
  function IsInteger(x: real): (b: bool)
    ensures b <==> exists n: int :: Whole(x, n)
  {
    assert Whole(x, x.Floor) <== x.Floor as real == x;
    x.Floor as real == x
  }

  /** The half-grid bounds (width, height): the mirrored axes halved. The
      loops over them run ceil(s / 2) times along a mirrored axis of `s`
      cells and `s` times along the other, and a halved bound is a whole
      number exactly when its side is even. */
  function HalfSize(w: nat, h: nat, symm: Symmetry): (r: (real, real))
    ensures LoopCount(r.0) == HalfLength(!symm.Horizontal?, w)
    ensures LoopCount(r.1) == HalfLength(!symm.Vertical?, h)
    ensures IsInteger(r.0) <==> symm.Horizontal? || w % 2 == 0
    ensures IsInteger(r.1) <==> symm.Vertical? || h % 2 == 0
  {
    WholeBound(w);
    WholeBound(h);
    HalfBound(w);
    HalfBound(h);
    match symm
    case Horizontal => (w as real, h as real / 2.0)
    case Vertical => (w as real / 2.0, h as real)
    case Quad => (w as real / 2.0, h as real / 2.0)
  }

  /** The centre-line flag: set when some halved bound is not a whole
      number, that is when a mirrored side is odd. */
  function OddFlag(w: nat, h: nat, symm: Symmetry): (odd: bool)
    ensures odd <==> (!symm.Horizontal? && w % 2 == 1) || (!symm.Vertical? && h % 2 == 1)
  {
    !IsInteger(HalfSize(w, h, symm).0) || !IsInteger(HalfSize(w, h, symm).1)
  }

  /** The full tile for a requested `w` by `h`, starting at draw `k`. Every
      cell is one the builder may produce. */
  function FinalPattern(w: nat, h: nat, symm: Symmetry, palette: ColorSet, chance: real, color: Option<Color>, o: Oracle, k: nat): (r: Drawn<Pattern>)
    requires Uniform(o) && CanPick(palette, chance, color)
    ensures forall c :: c in Cells(r.value) ==> Produced(c, palette, color)
  {
    var (hw, hh) := HalfSize(w, h, symm);
    var half := CreatePattern(hw, hh, palette, chance, color, o, k);
    ReflectKeepsCells(symm, half.value, OddFlag(w, h, symm));
    Drawn(Reflect(symm, half.value, OddFlag(w, h, symm)), half.next)
  }

  /** A whole number is its own loop bound and is an integer. */
  lemma WholeBound(s: nat)
    ensures LoopCount(s as real) == s
    ensures IsInteger(s as real)
  {
  }

  /** Halving `s` gives a loop bound of ceil(s / 2), and the half is a whole
      number exactly when `s` is even. */
  lemma HalfBound(s: nat)
    ensures LoopCount(s as real / 2.0) == (s + 1) / 2
    ensures IsInteger(s as real / 2.0) <==> s % 2 == 0
  {
    var q, m := s / 2, s % 2;
    assert s == 2 * q + m;
    assert s as real / 2.0 == q as real + m as real / 2.0;
    assert (s as real / 2.0).Floor == q;
  }

  /** Mirroring ceil(s / 2) cells, sharing the centre exactly when `s` is
      odd, gives back `s` cells. */
  lemma MirrorHalfRestores(s: nat)
    ensures MirroredLength((s + 1) / 2, s % 2 == 1) == s
  {
  }

  /** Mirroring the half counts back restores both sides, provided QUAD is
      given sides of equal parity. */
  lemma MirrorRestoresSides(w: nat, h: nat, symm: Symmetry)
    requires symm.Quad? ==> w % 2 == h % 2
    ensures AxisLength(!symm.Vertical?, HalfLength(!symm.Vertical?, h), OddFlag(w, h, symm)) == h
    ensures AxisLength(!symm.Horizontal?, HalfLength(!symm.Horizontal?, w), OddFlag(w, h, symm)) == w
  {
    MirrorHalfRestores(w);
    MirrorHalfRestores(h);
  }

  /** The tile is `h` rows of `w` cells for VERTICAL and HORIZONTAL, and for
      QUAD when both sides have the same parity (as when `w == h`). */
  lemma FinalPatternSize(w: nat, h: nat, symm: Symmetry, palette: ColorSet, chance: real, color: Option<Color>, o: Oracle, k: nat)
    requires Uniform(o) && CanPick(palette, chance, color)
    requires symm.Quad? ==> w % 2 == h % 2
    ensures Rectangular(FinalPattern(w, h, symm, palette, chance, color, o, k).value, h, w)
  {
    var (hw, hh) := HalfSize(w, h, symm);
    var half := CreatePattern(hw, hh, palette, chance, color, o, k);
    MirrorRestoresSides(w, h, symm);
    ReflectShape(symm, half.value, LoopCount(hh), LoopCount(hw), OddFlag(w, h, symm));
  }

  /** With a fixed colour and a chance of 1 or more, every cell of the tile
      is the fixed colour. */
  lemma FinalPatternFull(w: nat, h: nat, symm: Symmetry, palette: ColorSet, chance: real, c: Color, o: Oracle, k: nat)
    requires Uniform(o) && chance >= 1.0
    ensures OneColor(FinalPattern(w, h, symm, palette, chance, Some(c), o, k).value, c)
  {
    var (hw, hh) := HalfSize(w, h, symm);
    var half := CreatePattern(hw, hh, palette, chance, Some(c), o, k).value;
    ChanceExtremes(hw, hh, palette, chance, Some(c), o, k);
    assert OneColor(half, c);
    ReflectOneColor(symm, half, OddFlag(w, h, symm), c);
  }

  /** The tile is left-right symmetric for VERTICAL and QUAD, and top-bottom
      symmetric for HORIZONTAL and QUAD. */
  lemma FinalPatternSymmetric(w: nat, h: nat, symm: Symmetry, palette: ColorSet, chance: real, color: Option<Color>, o: Oracle, k: nat)
    requires Uniform(o) && CanPick(palette, chance, color)
    ensures var r := FinalPattern(w, h, symm, palette, chance, color, o, k).value;
            (!symm.Horizontal? ==> forall i :: 0 <= i < |r| ==> Palindrome(r[i])) &&
            (!symm.Vertical? ==> forall i :: 0 <= i < |r| ==> r[i] == r[|r| - 1 - i])
  {
    var (hw, hh) := HalfSize(w, h, symm);
    var half := CreatePattern(hw, hh, palette, chance, color, o, k);
    ReflectSymmetric(symm, half.value, OddFlag(w, h, symm));
  }

  /** QUAD with an odd width and an even height: the single centre-line flag
      applies to both axes, so the tile comes out one row short. */
  lemma QuadMixedParityLosesRow(w: nat, h: nat, palette: ColorSet, chance: real, color: Option<Color>, o: Oracle, k: nat)
    requires Uniform(o) && CanPick(palette, chance, color)
    requires w % 2 == 1 && h % 2 == 0 && h > 0
    ensures |FinalPattern(w, h, Quad, palette, chance, color, o, k).value| == h - 1
  {
    var (hw, hh) := HalfSize(w, h, Quad);
    var half := CreatePattern(hw, hh, palette, chance, color, o, k).value;
    assert |half| == h / 2;
    assert FinalPattern(w, h, Quad, palette, chance, color, o, k).value == ReflectHorizontal(ReflectVertical(half, true), true);
  }

  /** QUAD with an even width and an odd height: the flag set by the odd
      height also folds the columns onto a centre line, so every row comes
      out one cell short while all `h` rows remain. */
  lemma QuadMixedParityLosesColumn(w: nat, h: nat, palette: ColorSet, chance: real, color: Option<Color>, o: Oracle, k: nat)
    requires Uniform(o) && CanPick(palette, chance, color)
    requires w % 2 == 0 && h % 2 == 1 && w > 0
    ensures Rectangular(FinalPattern(w, h, Quad, palette, chance, color, o, k).value, h, w - 1)
  {
    var (hw, hh) := HalfSize(w, h, Quad);
    var half := CreatePattern(hw, hh, palette, chance, color, o, k).value;
    assert OddFlag(w, h, Quad);
    ReflectShape(Quad, half, (h + 1) / 2, w / 2, true);
  }

  /** The number of half-grid cells along an axis of `s` cells: ceil(s / 2)
      when the axis is mirrored, `s` otherwise. */
  function HalfLength(mirrored: bool, s: nat): nat {
    if mirrored then (s + 1) / 2 else s
  }

  /** The tile determines the half grid it was grown from: cutting it back
      along the mirrored axes gives exactly the grid the builder produced. */
  lemma FinalPatternHalf(w: nat, h: nat, symm: Symmetry, palette: ColorSet, chance: real, color: Option<Color>, o: Oracle, k: nat)
    requires Uniform(o) && CanPick(palette, chance, color)
    ensures var t := FinalPattern(w, h, symm, palette, chance, color, o, k).value;
            var rows := HalfLength(!symm.Vertical?, h);
            var cols := HalfLength(!symm.Horizontal?, w);
            rows <= |t| && (forall i :: 0 <= i < |t| ==> cols <= |t[i]|) &&
            Unreflect(symm, t, rows, cols) == CreateRows(rows, cols, palette, chance, color, o, k).value
  {
    var (hw, hh) := HalfSize(w, h, symm);
    var half := CreatePattern(hw, hh, palette, chance, color, o, k);
    UnreflectReflect(symm, half.value, LoopCount(hh), LoopCount(hw), OddFlag(w, h, symm));
  }
}
