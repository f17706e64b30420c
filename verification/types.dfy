/**
 The data shapes shared by the tile generator: colours, palettes, patterns,
 symmetry modes, and the explicit random source that replaces the ambient
 `Math.random()`.
 */
module Types {

  datatype Option<+T> = None | Some(value: T)

  /** A colour is three channels plus a fourth number that is used only as a
      relative selection weight inside a palette. The source makes the fourth
      field optional; here it is always present, and a whole number. */
  datatype Color = Color(r: int, g: int, b: int, w: int)

  /** The marker for a cell that received no colour. */
  const Unset: Color := Color(-1, -1, -1, -1)

  /** A cell is left unpainted when any of its four numbers is -1. */
  predicate HasUnset(c: Color) {
    c.r == -1 || c.g == -1 || c.b == -1 || c.w == -1
  }

  /** A palette is an ordered sequence of weighted colours. */
  type ColorSet = seq<Color>

  /** A grid of colours, addressed [row][column]. */
  type Pattern = seq<seq<Color>>

  datatype Symmetry = Vertical | Horizontal | Quad

  /** `p` has exactly `height` rows of exactly `width` cells each. */
  predicate Rectangular(p: Pattern, height: nat, width: nat) {
    |p| == height && forall i :: 0 <= i < |p| ==> |p[i]| == width
  }

  /** The random source: draw number `n` is `o(n)`. */
  type Oracle = nat -> real

  /** Every draw lies in [0, 1), the range `Math.random()` promises. */
  ghost predicate Uniform(o: Oracle) {
    forall n: nat :: 0.0 <= o(n) < 1.0
  }

  /** A value computed from the random source, with the index of the first
      draw it did not consume. */
  datatype Drawn<+T> = Drawn(value: T, next: nat)
}
