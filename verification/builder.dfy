/**
 The half-grid builder (`createPattern`): one inclusion draw per cell, in
 row-major order; an included cell takes the fixed colour or a weighted
 palette pick, any other cell takes the `Unset` marker.
 */
module Builder {
  import opened Types
  import opened Selector

  /** The selector runs only when no colour is fixed, so a palette is needed
      unless a colour is fixed or no draw can ever fall below `chance`. */
  predicate CanPick(palette: ColorSet, chance: real, color: Option<Color>) {
    color.Some? || |palette| > 0 || chance <= 0.0
  }

  /** The colours an included cell may take: the fixed colour when one is
      given, otherwise any palette entry. */
  predicate Allowed(c: Color, palette: ColorSet, color: Option<Color>) {
    match color
    case Some(f) => c == f
    case None => c in palette
  }

  /** The number of iterations of a loop `for (i = 0; i < x; i++)`: the
      count of naturals below `x`, which is 4 for a bound of 3.5. */
  function LoopCount(x: real): (n: nat)
    ensures x <= n as real
    ensures n > 0 ==> (n - 1) as real < x
  {
    if x <= 0.0 then 0
    else if x.Floor as real == x then x.Floor
    else x.Floor + 1
  }

  /** One cell, starting at draw `k`: the inclusion draw, then (only when the
      cell is included and no colour is fixed) the selector's draws. */
  function CreateCell(palette: ColorSet, chance: real, color: Option<Color>, o: Oracle, k: nat): (r: Drawn<Color>)
    requires Uniform(o) && CanPick(palette, chance, color)
    ensures o(k) < chance ==> Allowed(r.value, palette, color)
    ensures o(k) >= chance ==> r.value == Unset && r.next == k + 1
    ensures color.Some? ==> r.next == k + 1
    ensures k + 1 <= r.next <= k + 3
  {
    if o(k) < chance then
      match color
      case Some(c) => Drawn(c, k + 1)
      case None => RandomColor(palette, o, k + 1)
    else Drawn(Unset, k + 1)
  }

  /** A cell the builder may produce: unset, or an allowed colour. */
  predicate Produced(c: Color, palette: ColorSet, color: Option<Color>) {
    c == Unset || Allowed(c, palette, color)
  }

  /** `n` cells built left to right from draw `k`. */
  function CreateRow(n: nat, palette: ColorSet, chance: real, color: Option<Color>, o: Oracle, k: nat): (r: Drawn<seq<Color>>)
    requires Uniform(o) && CanPick(palette, chance, color)
    ensures |r.value| == n
    ensures k + n <= r.next <= k + 3 * n
    ensures color.Some? ==> r.next == k + n
  {
    if n == 0 then Drawn([], k)
    else
      var front := CreateRow(n - 1, palette, chance, color, o, k);
      var cell := CreateCell(palette, chance, color, o, front.next);
      Drawn(front.value + [cell.value], cell.next)
  }

  /** `m` rows of `n` cells built top to bottom from draw `k`. */
  function CreateRows(m: nat, n: nat, palette: ColorSet, chance: real, color: Option<Color>, o: Oracle, k: nat): (r: Drawn<Pattern>)
    requires Uniform(o) && CanPick(palette, chance, color)
    ensures Rectangular(r.value, m, n)
    ensures k + m * n <= r.next
    ensures color.Some? ==> r.next == k + m * n
  {
    if m == 0 then Drawn([], k)
    else
      var front := CreateRows(m - 1, n, palette, chance, color, o, k);
      var row := CreateRow(n, palette, chance, color, o, front.next);
      assert (m - 1) * n + n == m * n;
      Drawn(front.value + [row.value], row.next)
  }

  /** The half grid for (possibly fractional) bounds `w` and `h`. */
  function CreatePattern(w: real, h: real, palette: ColorSet, chance: real, color: Option<Color>, o: Oracle, k: nat): (r: Drawn<Pattern>)
    requires Uniform(o) && CanPick(palette, chance, color)
    ensures Rectangular(r.value, LoopCount(h), LoopCount(w))
    ensures forall i, j :: 0 <= i < |r.value| && 0 <= j < |r.value[i]| ==> Produced(r.value[i][j], palette, color)
  {
    CreateRowsProduced(LoopCount(h), LoopCount(w), palette, chance, color, o, k);
    CreateRows(LoopCount(h), LoopCount(w), palette, chance, color, o, k)
  }

  /** Building more cells only appends: the first `j` cells of a row of `n`
      are the row of `j` built from the same draw. */
  lemma {:induction false} CreateRowPrefix(n: nat, j: nat, palette: ColorSet, chance: real, color: Option<Color>, o: Oracle, k: nat)
    requires Uniform(o) && CanPick(palette, chance, color)
    requires j <= n
    ensures CreateRow(n, palette, chance, color, o, k).value[..j] == CreateRow(j, palette, chance, color, o, k).value
  {
    if j < n {
      CreateRowPrefix(n - 1, j, palette, chance, color, o, k);
      var front := CreateRow(n - 1, palette, chance, color, o, k);
      var cell := CreateCell(palette, chance, color, o, front.next);
      var row := CreateRow(n, palette, chance, color, o, k).value;
      assert row == front.value + [cell.value];
      assert row[..j] == front.value[..j];
    }
  }

  /** Cell `j` of a row is the cell built from the draw that follows the
      draws of the `j` cells to its left. */
  lemma CreateRowCell(n: nat, j: nat, palette: ColorSet, chance: real, color: Option<Color>, o: Oracle, k: nat)
    requires Uniform(o) && CanPick(palette, chance, color)
    requires j < n
    ensures CreateRow(n, palette, chance, color, o, k).value[j]
              == CreateCell(palette, chance, color, o, CreateRow(j, palette, chance, color, o, k).next).value
  {
    CreateRowPrefix(n, j + 1, palette, chance, color, o, k);
    assert CreateRow(n, palette, chance, color, o, k).value[j] == CreateRow(j + 1, palette, chance, color, o, k).value[j];
  }

  /** Building more rows only appends: the first `i` rows of a grid of `m`
      are the grid of `i` rows built from the same draw. */
  lemma {:induction false} CreateRowsPrefix(m: nat, i: nat, n: nat, palette: ColorSet, chance: real, color: Option<Color>, o: Oracle, k: nat)
    requires Uniform(o) && CanPick(palette, chance, color)
    requires i <= m
    ensures CreateRows(m, n, palette, chance, color, o, k).value[..i] == CreateRows(i, n, palette, chance, color, o, k).value
  {
    if i < m {
      CreateRowsPrefix(m - 1, i, n, palette, chance, color, o, k);
      var front := CreateRows(m - 1, n, palette, chance, color, o, k);
      var row := CreateRow(n, palette, chance, color, o, front.next);
      var grid := CreateRows(m, n, palette, chance, color, o, k).value;
      assert grid == front.value + [row.value];
      assert grid[..i] == front.value[..i];
    }
  }

  /** The draw that decides cell (i, j) of a grid of rows of `n` cells built
      from draw `k`: it follows the draws of every row above and of every
      cell to its left. */
  function CellDraw(n: nat, palette: ColorSet, chance: real, color: Option<Color>, o: Oracle, k: nat, i: nat, j: nat): (d: nat)
    requires Uniform(o) && CanPick(palette, chance, color)
    ensures k + i * n + j <= d
    ensures color.Some? ==> d == k + i * n + j
  {
    CreateRow(j, palette, chance, color, o, CreateRows(i, n, palette, chance, color, o, k).next).next
  }

  /** Row `i` of a grid is the row built from the draw that follows the
      draws of the `i` rows above it. */
  lemma CreateRowsRow(m: nat, i: nat, n: nat, palette: ColorSet, chance: real, color: Option<Color>, o: Oracle, k: nat)
    requires Uniform(o) && CanPick(palette, chance, color)
    requires i < m
    ensures CreateRows(m, n, palette, chance, color, o, k).value[i]
              == CreateRow(n, palette, chance, color, o, CreateRows(i, n, palette, chance, color, o, k).next).value
  {
    CreateRowsPrefix(m, i + 1, n, palette, chance, color, o, k);
    assert CreateRows(m, n, palette, chance, color, o, k).value[i] == CreateRows(i + 1, n, palette, chance, color, o, k).value[i];
  }

  /** Cell (i, j) of the grid is the cell built from its own draw. */
  lemma CreateRowsCellDraw(m: nat, n: nat, palette: ColorSet, chance: real, color: Option<Color>, o: Oracle, k: nat, i: nat, j: nat)
    requires Uniform(o) && CanPick(palette, chance, color)
    requires i < m && j < n
    ensures CreateRows(m, n, palette, chance, color, o, k).value[i][j]
              == CreateCell(palette, chance, color, o, CellDraw(n, palette, chance, color, o, k, i, j)).value
  {
    var above := CreateRows(i, n, palette, chance, color, o, k);
    CreateRowsRow(m, i, n, palette, chance, color, o, k);
    CreateRowCell(n, j, palette, chance, color, o, above.next);
  }

  /** Cell (i, j) of the grid is decided by its own inclusion draw `d`: it is
      unset exactly when that draw is not below `chance`; otherwise it is the
      fixed colour, or the selector's pick starting at draw d + 1. */
  lemma CreateRowsCell(m: nat, n: nat, palette: ColorSet, chance: real, color: Option<Color>, o: Oracle, k: nat, i: nat, j: nat)
    requires Uniform(o) && CanPick(palette, chance, color)
    requires i < m && j < n
    ensures var d := CellDraw(n, palette, chance, color, o, k, i, j);
            var c := CreateRows(m, n, palette, chance, color, o, k).value[i][j];
            (o(d) >= chance ==> c == Unset) &&
            (o(d) < chance && color.Some? ==> c == color.value) &&
            (o(d) < chance && color.None? ==> |palette| > 0 && c == RandomColor(palette, o, d + 1).value)
  {
    CreateRowsCellDraw(m, n, palette, chance, color, o, k, i, j);
    var d := CellDraw(n, palette, chance, color, o, k, i, j);
    assert 0.0 <= o(d);
  }

  /** Every cell of the grid is one the builder may produce. */
  lemma CreateRowsProduced(m: nat, n: nat, palette: ColorSet, chance: real, color: Option<Color>, o: Oracle, k: nat)
    requires Uniform(o) && CanPick(palette, chance, color)
    ensures forall i, j :: 0 <= i < m && 0 <= j < n ==> Produced(CreateRows(m, n, palette, chance, color, o, k).value[i][j], palette, color)
  {
    forall i, j | 0 <= i < m && 0 <= j < n
      ensures Produced(CreateRows(m, n, palette, chance, color, o, k).value[i][j], palette, color)
    {
      CreateRowsCell(m, n, palette, chance, color, o, k, i, j);
    }
  }

  /** With a fixed colour, cell j of a row depends on draw k + j alone: it is
      the fixed colour when that draw is below `chance` and unset otherwise;
      no draw is spent on the selector. */
  lemma {:induction false} FixedColorRow(n: nat, palette: ColorSet, chance: real, c: Color, o: Oracle, k: nat)
    requires Uniform(o)
    ensures var r := CreateRow(n, palette, chance, Some(c), o, k);
            r.next == k + n &&
            forall j :: 0 <= j < n ==> r.value[j] == (if o(k + j) < chance then c else Unset)
  {
    if n > 0 {
      FixedColorRow(n - 1, palette, chance, c, o, k);
    }
  }

  /** With a fixed colour, cell (i, j) of an m-by-n grid depends on draw
      k + i * n + j alone, and exactly m * n draws are consumed. */
  lemma {:induction false} FixedColorRows(m: nat, n: nat, palette: ColorSet, chance: real, c: Color, o: Oracle, k: nat)
    requires Uniform(o)
    ensures var r := CreateRows(m, n, palette, chance, Some(c), o, k);
            r.next == k + m * n &&
            forall i, j :: 0 <= i < m && 0 <= j < n ==>
              r.value[i][j] == (if o(k + i * n + j) < chance then c else Unset)
  {
    if m > 0 {
      FixedColorRows(m - 1, n, palette, chance, c, o, k);
      var front := CreateRows(m - 1, n, palette, chance, Some(c), o, k);
      FixedColorRow(n, palette, chance, c, o, front.next);
      assert front.next == k + (m - 1) * n;
    }
  }

  /** Every draw lies below a chance of 1 or more, so every cell of a row is
      the fixed colour or a palette entry. */
  lemma {:induction false} FullChanceRow(n: nat, palette: ColorSet, chance: real, color: Option<Color>, o: Oracle, k: nat)
    requires Uniform(o) && CanPick(palette, chance, color)
    requires chance >= 1.0
    ensures forall j :: 0 <= j < n ==> Allowed(CreateRow(n, palette, chance, color, o, k).value[j], palette, color)
  {
    if n > 0 {
      FullChanceRow(n - 1, palette, chance, color, o, k);
      var front := CreateRow(n - 1, palette, chance, color, o, k);
      var cell := CreateCell(palette, chance, color, o, front.next);
      assert 0.0 <= o(front.next) < 1.0;
      assert Allowed(cell.value, palette, color);
      var row := CreateRow(n, palette, chance, color, o, k).value;
      assert row == front.value + [cell.value];
      forall j | 0 <= j < n
        ensures Allowed(row[j], palette, color)
      {
        if j < n - 1 {
          assert row[j] == front.value[j];
        }
      }
    }
  }

  /** No draw lies below a chance of 0 or less, so every cell of a row is
      unset. */
  lemma {:induction false} ZeroChanceRow(n: nat, palette: ColorSet, chance: real, color: Option<Color>, o: Oracle, k: nat)
    requires Uniform(o) && CanPick(palette, chance, color)
    requires chance <= 0.0
    ensures forall j :: 0 <= j < n ==> CreateRow(n, palette, chance, color, o, k).value[j] == Unset
  {
    if n > 0 {
      ZeroChanceRow(n - 1, palette, chance, color, o, k);
      var front := CreateRow(n - 1, palette, chance, color, o, k);
      var cell := CreateCell(palette, chance, color, o, front.next);
      assert 0.0 <= o(front.next) < 1.0;
      assert cell.value == Unset;
      var row := CreateRow(n, palette, chance, color, o, k).value;
      assert row == front.value + [cell.value];
      forall j | 0 <= j < n
        ensures row[j] == Unset
      {
        if j < n - 1 {
          assert row[j] == front.value[j];
        }
      }
    }
  }

  lemma {:induction false} FullChanceRows(m: nat, n: nat, palette: ColorSet, chance: real, color: Option<Color>, o: Oracle, k: nat)
    requires Uniform(o) && CanPick(palette, chance, color)
    requires chance >= 1.0
    ensures forall i, j :: 0 <= i < m && 0 <= j < n ==> Allowed(CreateRows(m, n, palette, chance, color, o, k).value[i][j], palette, color)
  {
    if m > 0 {
      FullChanceRows(m - 1, n, palette, chance, color, o, k);
      var front := CreateRows(m - 1, n, palette, chance, color, o, k);
      FullChanceRow(n, palette, chance, color, o, front.next);
    }
  }

  lemma {:induction false} ZeroChanceRows(m: nat, n: nat, palette: ColorSet, chance: real, color: Option<Color>, o: Oracle, k: nat)
    requires Uniform(o) && CanPick(palette, chance, color)
    requires chance <= 0.0
    ensures forall i, j :: 0 <= i < m && 0 <= j < n ==> CreateRows(m, n, palette, chance, color, o, k).value[i][j] == Unset
  {
    if m > 0 {
      ZeroChanceRows(m - 1, n, palette, chance, color, o, k);
      var front := CreateRows(m - 1, n, palette, chance, color, o, k);
      ZeroChanceRow(n, palette, chance, color, o, front.next);
    }
  }

  /** The half grid: with a chance of 1 or more every cell is the fixed colour
      or a palette entry; with a chance of 0 or less every cell is unset. */
  lemma ChanceExtremes(w: real, h: real, palette: ColorSet, chance: real, color: Option<Color>, o: Oracle, k: nat)
    requires Uniform(o) && CanPick(palette, chance, color)
    ensures var p := CreatePattern(w, h, palette, chance, color, o, k).value;
            (chance >= 1.0 ==> forall i, j :: 0 <= i < |p| && 0 <= j < |p[i]| ==> Allowed(p[i][j], palette, color)) &&
            (chance <= 0.0 ==> forall i, j :: 0 <= i < |p| && 0 <= j < |p[i]| ==> p[i][j] == Unset)
  {
    if chance >= 1.0 {
      FullChanceRows(LoopCount(h), LoopCount(w), palette, chance, color, o, k);
    }
    if chance <= 0.0 {
      ZeroChanceRows(LoopCount(h), LoopCount(w), palette, chance, color, o, k);
    }
  }
}
