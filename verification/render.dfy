/**
 One invocation of the generator that `randpix` returns: resolve the
 options, build the tile, then clear the canvas once and paint every cell
 that has no -1 component as a `scale`-by-`scale` square, in row-major
 order. The canvas itself is external; the model returns the list of
 drawing commands it would receive.
 */
module Render {
  import opened Types
  import opened Builder
  import opened Reflector
  import opened Tile

  /** The caller's options; an absent field takes its default. */
  datatype Options = Options(
    size: Option<nat>,
    scale: Option<nat>,
    colorSet: Option<ColorSet>,
    fillFactor: Option<real>,
    symmetry: Option<Symmetry>,
    color: Option<Color>)

  /** The options once every default is filled in. */
  datatype Config = Config(
    size: nat,
    scale: nat,
    colorSet: ColorSet,
    fillFactor: real,
    symmetry: Symmetry,
    color: Option<Color>)

  const DefaultSize: nat := 8
  const DefaultScale: nat := 1
  const DefaultFillFactor: real := 0.5

  function GetOr<T>(x: Option<T>, default: T): T {
    match x
    case Some(v) => v
    case None => default
  }

  /** Fills in the defaults: size 8, scale 1, VERTICAL, the neutral palette
      (an external table, passed in) and a fill factor of 0.5. A fixed colour
      has no default. */
  function Resolve(opts: Options, neutral: ColorSet): (c: Config)
    ensures c.size == (if opts.size.Some? then opts.size.value else 8)
    ensures c.scale == (if opts.scale.Some? then opts.scale.value else 1)
    ensures c.colorSet == (if opts.colorSet.Some? then opts.colorSet.value else neutral)
    ensures c.fillFactor == (if opts.fillFactor.Some? then opts.fillFactor.value else 0.5)
    ensures c.symmetry == (if opts.symmetry.Some? then opts.symmetry.value else Vertical)
    ensures c.color == opts.color
  {
    Config(
      GetOr(opts.size, DefaultSize),
      GetOr(opts.scale, DefaultScale),
      GetOr(opts.colorSet, neutral),
      GetOr(opts.fillFactor, DefaultFillFactor),
      GetOr(opts.symmetry, Vertical),
      opts.color)
  }

  /** The fill style `rgb(r, g, b)`, kept as its three channel numbers. */
  datatype Rgb = Rgb(r: int, g: int, b: int)

  datatype Command =
    | ClearRect(x: int, y: int, w: int, h: int)
    | FillRect(x: int, y: int, w: int, h: int, style: Rgb)

  /** `p` has at least `size` rows of at least `size` cells, so every read
      `p[i][j]` with i, j < size is in bounds. */
  predicate Covers(p: Pattern, size: nat) {
    |p| >= size && forall i :: 0 <= i < size ==> |p[i]| >= size
  }

  /** A grid position: row index, then column index. */
  datatype Cell = Cell(row: nat, col: nat)

  /** Cell `a` comes strictly before cell `b` in row-major order. */
  predicate Before(a: Cell, b: Cell) {
    a.row < b.row || (a.row == b.row && a.col < b.col)
  }

  /** The cells of row `i` among its first `n` that get painted, left to
      right. */
  function RowCells(p: Pattern, size: nat, i: nat, n: nat): (cells: seq<Cell>)
    requires Covers(p, size) && i < size && n <= size
  {
    if n == 0 then []
    else RowCells(p, size, i, n - 1) + (if HasUnset(p[i][n - 1]) then [] else [Cell(i, n - 1)])
  }

  /** The painted cells of the first `m` rows, in row-major order. */
  function GridCells(p: Pattern, size: nat, m: nat): (cells: seq<Cell>)
    requires Covers(p, size) && m <= size
  {
    if m == 0 then []
    else GridCells(p, size, m - 1) + RowCells(p, size, m - 1, size)
  }

  /** Every listed cell of row `i` lies in that row, left of column `n`. */
  lemma {:induction false} RowCellsPlace(p: Pattern, size: nat, i: nat, n: nat)
    requires Covers(p, size) && i < size && n <= size
    ensures forall t :: 0 <= t < |RowCells(p, size, i, n)| ==>
              RowCells(p, size, i, n)[t].row == i && RowCells(p, size, i, n)[t].col < n
  {
    if n > 0 {
      RowCellsPlace(p, size, i, n - 1);
    }
  }

  /** Every listed cell of the first `m` rows lies in those rows and in the
      window's columns. */
  lemma {:induction false} GridCellsPlace(p: Pattern, size: nat, m: nat)
    requires Covers(p, size) && m <= size
    ensures forall t :: 0 <= t < |GridCells(p, size, m)| ==>
              GridCells(p, size, m)[t].row < m && GridCells(p, size, m)[t].col < size
  {
    if m > 0 {
      GridCellsPlace(p, size, m - 1);
      RowCellsPlace(p, size, m - 1, size);
      var front := GridCells(p, size, m - 1);
      var row := RowCells(p, size, m - 1, size);
      var cells := GridCells(p, size, m);
      assert cells == front + row;
      forall t | 0 <= t < |cells|
        ensures cells[t].row < m && cells[t].col < size
      {
        if t < |front| {
          assert cells[t] == front[t];
        } else {
          assert cells[t] == row[t - |front|];
        }
      }
    }
  }

  /** `a * s + s <= b * s` when `a < b`: a square of side `s` at position
      `a` ends no later than the one at `b` begins. */
  lemma {:induction false} ScaledStep(a: nat, b: nat, s: nat)
    requires a < b
    ensures a * s + s <= b * s
  {
    if a + 1 < b {
      ScaledStep(a, b - 1, s);
    }
    assert b * s == (b - 1) * s + s;
  }

  /** The square painted for one cell: column to x, row to y. It is
      `scale` by `scale`, lies inside the `size * scale` canvas, and takes
      the cell's red, green and blue channels. */
  function Fill(p: Pattern, size: nat, cell: Cell, scale: nat): (r: Command)
    requires Covers(p, size) && cell.row < size && cell.col < size
    ensures r.FillRect? && r.w == scale && r.h == scale
    ensures 0 <= r.x && r.x + scale <= size * scale
    ensures 0 <= r.y && r.y + scale <= size * scale
    ensures r.style == Rgb(p[cell.row][cell.col].r, p[cell.row][cell.col].g, p[cell.row][cell.col].b)
  {
    ScaledStep(cell.col, size, scale);
    ScaledStep(cell.row, size, scale);
    var c := p[cell.row][cell.col];
    FillRect(cell.col * scale, cell.row * scale, scale, scale, Rgb(c.r, c.g, c.b))
  }

  /** The squares of two different cells do not overlap: one lies wholly to
      the left of, or wholly above, the other. */
  lemma FillDisjoint(p: Pattern, size: nat, a: Cell, b: Cell, scale: nat)
    requires Covers(p, size) && a.row < size && a.col < size && b.row < size && b.col < size
    requires a != b
    ensures var f, g := Fill(p, size, a, scale), Fill(p, size, b, scale);
            f.x + scale <= g.x || g.x + scale <= f.x || f.y + scale <= g.y || g.y + scale <= f.y
  {
    if a.col < b.col {
      ScaledStep(a.col, b.col, scale);
    } else if b.col < a.col {
      ScaledStep(b.col, a.col, scale);
    } else if a.row < b.row {
      ScaledStep(a.row, b.row, scale);
    } else {
      ScaledStep(b.row, a.row, scale);
    }
  }

  predicate InGrid(cells: seq<Cell>, size: nat) {
    forall t :: 0 <= t < |cells| ==> cells[t].row < size && cells[t].col < size
  }

  /** The squares for `cells`, one each, in order. */
  function Fills(p: Pattern, size: nat, cells: seq<Cell>, scale: nat): (r: seq<Command>)
    requires Covers(p, size) && InGrid(cells, size)
    ensures |r| == |cells|
    ensures forall t :: 0 <= t < |cells| ==> r[t] == Fill(p, size, cells[t], scale)
  {
    if |cells| == 0 then []
    else Fills(p, size, cells[..|cells| - 1], scale) + [Fill(p, size, cells[|cells| - 1], scale)]
  }

  /** The cells of the whole window that get painted, in row-major order. */
  function Painted(p: Pattern, size: nat): (cells: seq<Cell>)
    requires Covers(p, size)
    ensures InGrid(cells, size)
  {
    GridCellsPlace(p, size, size);
    GridCells(p, size, size)
  }

  /** The whole paint plan: one clear of the canvas, then one square per
      painted cell. */
  function Plan(p: Pattern, size: nat, scale: nat): (r: seq<Command>)
    requires Covers(p, size)
    ensures |r| >= 1 && r[0] == ClearRect(0, 0, size * scale, size * scale)
    ensures forall t :: 1 <= t < |r| ==> r[t].FillRect? && r[t].w == scale && r[t].h == scale
  {
    [ClearRect(0, 0, size * scale, size * scale)] + Fills(p, size, Painted(p, size), scale)
  }

  /** The cells the paint loop has visited and painted before cell (i, j). */
  function Visited(p: Pattern, size: nat, i: nat, j: nat): (cells: seq<Cell>)
    requires Covers(p, size) && i < size && j <= size
    ensures InGrid(cells, size)
  {
    GridCellsPlace(p, size, i);
    RowCellsPlace(p, size, i, j);
    GridCells(p, size, i) + RowCells(p, size, i, j)
  }

  /** The paint loop: clear, then visit every cell row by row and paint it
      unless it has a -1 component. */
  method Paint(p: Pattern, size: nat, scale: nat) returns (cmds: seq<Command>)
    requires Covers(p, size)
    ensures cmds == Plan(p, size, scale)
  {
    var fills := [];
    for i := 0 to size
      invariant fills == Squares(p, size, i, scale)
    {
      RowStart(p, size, scale, i);
      for j := 0 to size
        invariant fills == Fills(p, size, Visited(p, size, i, j), scale)
      {
        var color := p[i][j];
        PaintStep(p, size, scale, i, j);
        if !HasUnset(color) {
          fills := fills + [FillRect(j * scale, i * scale, scale, scale, Rgb(color.r, color.g, color.b))];
        }
      }
      RowEnd(p, size, scale, i);
    }
    cmds := [ClearRect(0, 0, size * scale, size * scale)] + fills;
    assert Squares(p, size, size, scale) == Fills(p, size, Painted(p, size), scale);
  }

  /** The squares painted for the first `m` rows. */
  function Squares(p: Pattern, size: nat, m: nat, scale: nat): seq<Command>
    requires Covers(p, size) && m <= size
  {
    GridCellsPlace(p, size, m);
    Fills(p, size, GridCells(p, size, m), scale)
  }

  /** Before row `i` the paint loop has painted the squares of the rows
      above it. */
  lemma RowStart(p: Pattern, size: nat, scale: nat, i: nat)
    requires Covers(p, size) && i < size
    ensures Squares(p, size, i, scale) == Fills(p, size, Visited(p, size, i, 0), scale)
  {
    assert Visited(p, size, i, 0) == GridCells(p, size, i);
  }

  /** After row `i` the paint loop has painted the squares of rows 0 to i. */
  lemma RowEnd(p: Pattern, size: nat, scale: nat, i: nat)
    requires Covers(p, size) && i < size
    ensures Fills(p, size, Visited(p, size, i, size), scale) == Squares(p, size, i + 1, scale)
  {
    assert Visited(p, size, i, size) == GridCells(p, size, i + 1);
  }

  /** One step of the paint loop adds the square of cell (i, j) exactly when
      that cell has no -1 component. */
  lemma PaintStep(p: Pattern, size: nat, scale: nat, i: nat, j: nat)
    requires Covers(p, size) && i < size && j < size
    ensures Fills(p, size, Visited(p, size, i, j + 1), scale)
              == Fills(p, size, Visited(p, size, i, j), scale) + (if HasUnset(p[i][j]) then [] else [Fill(p, size, Cell(i, j), scale)])
  {
    var before := Visited(p, size, i, j);
    var after := Visited(p, size, i, j + 1);
    if !HasUnset(p[i][j]) {
      assert after == before + [Cell(i, j)];
      assert after[..|after| - 1] == before;
    } else {
      assert after == before;
    }
  }

  /** A cell of row `i` among its first `n` with no -1 component is in that
      row's cell list. */
  lemma {:induction false} RowCellsComplete(p: Pattern, size: nat, i: nat, n: nat, j: nat)
    requires Covers(p, size) && i < size && j < n <= size
    requires !HasUnset(p[i][j])
    ensures Cell(i, j) in RowCells(p, size, i, n)
  {
    if j < n - 1 {
      RowCellsComplete(p, size, i, n - 1, j);
    } else {
      var cells := RowCells(p, size, i, n);
      assert cells[|cells| - 1] == Cell(i, j);
    }
  }

  /** A cell of the last of the first `m` rows is listed when that row's
      list has it. */
  lemma GridCellsLastRow(p: Pattern, size: nat, m: nat, cell: Cell)
    requires Covers(p, size) && 0 < m <= size
    requires cell in RowCells(p, size, m - 1, size)
    ensures cell in GridCells(p, size, m)
  {
    var front := GridCells(p, size, m - 1);
    var row := RowCells(p, size, m - 1, size);
    assert GridCells(p, size, m) == front + row;
    var t :| 0 <= t < |row| && row[t] == cell;
    assert (front + row)[|front| + t] == cell;
  }

  /** `a` begins `b` and `b` begins `c`, so `a` begins `c`. */
  lemma PrefixTrans<T>(a: seq<T>, b: seq<T>, c: seq<T>)
    requires a <= b && b <= c
    ensures a <= c
  {
    assert c[..|a|] == b[..|a|];
  }

  /** Adding a row only appends to the cell list. */
  lemma GridCellsStep(p: Pattern, size: nat, m: nat)
    requires Covers(p, size) && 0 < m <= size
    ensures GridCells(p, size, m - 1) <= GridCells(p, size, m)
  {
    var front := GridCells(p, size, m - 1);
    assert GridCells(p, size, m) == front + RowCells(p, size, m - 1, size);
  }

  /** The cell list of the first `a` rows begins the list of the first `b`
      rows, `a <= b`: later rows only append. */
  lemma {:induction false} GridCellsPrefix(p: Pattern, size: nat, a: nat, b: nat)
    requires Covers(p, size) && a <= b <= size
    ensures GridCells(p, size, a) <= GridCells(p, size, b)
    decreases b - a
  {
    if a < b {
      GridCellsPrefix(p, size, a, b - 1);
      GridCellsStep(p, size, b);
      PrefixTrans(GridCells(p, size, a), GridCells(p, size, b - 1), GridCells(p, size, b));
    }
  }

  /** A cell of the first `m` rows with no -1 component is in the grid's
      cell list. */
  lemma GridCellsComplete(p: Pattern, size: nat, m: nat, i: nat, j: nat)
    requires Covers(p, size) && i < m <= size && j < size
    requires !HasUnset(p[i][j])
    ensures Cell(i, j) in GridCells(p, size, m)
  {
    RowCellsComplete(p, size, i, size, j);
    GridCellsLastRow(p, size, i + 1, Cell(i, j));
    GridCellsPrefix(p, size, i + 1, m);
    var upto := GridCells(p, size, i + 1);
    var t :| 0 <= t < |upto| && upto[t] == Cell(i, j);
    assert GridCells(p, size, m)[t] == Cell(i, j);
  }

  /** Every cell listed in `cells` lies in `p` and has no -1 component. */
  predicate AllSet(p: Pattern, cells: seq<Cell>) {
    forall t :: 0 <= t < |cells| ==>
      cells[t].row < |p| && cells[t].col < |p[cells[t].row]| && !HasUnset(p[cells[t].row][cells[t].col])
  }

  /** Every cell of row `i` that gets painted has no -1 component. */
  lemma {:induction false} RowCellsSound(p: Pattern, size: nat, i: nat, n: nat)
    requires Covers(p, size) && i < size && n <= size
    ensures AllSet(p, RowCells(p, size, i, n))
  {
    if n > 0 {
      RowCellsSound(p, size, i, n - 1);
      var front := RowCells(p, size, i, n - 1);
      var cells := RowCells(p, size, i, n);
      forall t | 0 <= t < |cells|
        ensures !HasUnset(p[cells[t].row][cells[t].col])
      {
        if t < |front| {
          assert cells[t] == front[t];
        }
      }
    }
  }

  /** Every cell of the grid that gets painted has no -1 component. */
  lemma {:induction false} GridCellsSound(p: Pattern, size: nat, m: nat)
    requires Covers(p, size) && m <= size
    ensures AllSet(p, GridCells(p, size, m))
  {
    if m > 0 {
      GridCellsSound(p, size, m - 1);
      RowCellsSound(p, size, m - 1, size);
      var front := GridCells(p, size, m - 1);
      var row := RowCells(p, size, m - 1, size);
      var cells := GridCells(p, size, m);
      assert cells == front + row;
      forall t | 0 <= t < |cells|
        ensures !HasUnset(p[cells[t].row][cells[t].col])
      {
        if t < |front| {
          assert cells[t] == front[t];
        } else {
          assert cells[t] == row[t - |front|];
        }
      }
    }
  }

  /** Every cell of the grid with no -1 component gets painted. */
  lemma GridCellsEveryCell(p: Pattern, size: nat)
    requires Covers(p, size)
    ensures forall i, j :: 0 <= i < size && 0 <= j < size && !HasUnset(p[i][j]) ==> Cell(i, j) in Painted(p, size)
  {
    forall i, j | 0 <= i < size && 0 <= j < size && !HasUnset(p[i][j])
      ensures Cell(i, j) in Painted(p, size)
    {
      GridCellsComplete(p, size, size, i, j);
    }
  }

  /** The plan: a clear of the whole `size * scale` square first, then, in
      row-major order, exactly the squares of the cells with no -1
      component, one per cell. */
  lemma PlanPaintsExactlyTheSetCells(p: Pattern, size: nat, scale: nat)
    requires Covers(p, size)
    ensures |Plan(p, size, scale)| == |Painted(p, size)| + 1
    ensures forall t :: 0 <= t < |Painted(p, size)| ==>
              Plan(p, size, scale)[t + 1] == Fill(p, size, Painted(p, size)[t], scale)
    ensures AllSet(p, Painted(p, size))
    ensures forall i, j :: 0 <= i < size && 0 <= j < size && !HasUnset(p[i][j]) ==> Cell(i, j) in Painted(p, size)
    ensures RowMajor(Painted(p, size))
  {
    PlanSquares(p, size, scale);
    GridCellsEveryCell(p, size);
    GridCellsSound(p, size, size);
    GridCellsOrdered(p, size, size);
  }

  lemma PlanSquares(p: Pattern, size: nat, scale: nat)
    requires Covers(p, size)
    ensures |Plan(p, size, scale)| == |Painted(p, size)| + 1
    ensures forall t :: 0 <= t < |Painted(p, size)| ==>
              Plan(p, size, scale)[t + 1] == Fill(p, size, Painted(p, size)[t], scale)
  {
    var cells := Painted(p, size);
    var f := Fills(p, size, cells, scale);
    var r := Plan(p, size, scale);
    assert r == [ClearRect(0, 0, size * scale, size * scale)] + f;
    forall t | 0 <= t < |cells|
      ensures r[t + 1] == Fill(p, size, cells[t], scale)
    {
      assert r[t + 1] == f[t];
    }
  }

  /** `cells` lists positions strictly in row-major order, hence without
      repeats. */
  predicate RowMajor(cells: seq<Cell>) {
    forall t, u :: 0 <= t < u < |cells| ==> Before(cells[t], cells[u])
  }

  /** The painted cells of a row come strictly left to right. */
  lemma {:induction false} RowCellsOrdered(p: Pattern, size: nat, i: nat, n: nat)
    requires Covers(p, size) && i < size && n <= size
    ensures RowMajor(RowCells(p, size, i, n))
  {
    if n > 0 {
      RowCellsOrdered(p, size, i, n - 1);
      RowCellsPlace(p, size, i, n - 1);
      var front := RowCells(p, size, i, n - 1);
      var cells := RowCells(p, size, i, n);
      if !HasUnset(p[i][n - 1]) {
        assert cells == front + [Cell(i, n - 1)];
        forall t, u | 0 <= t < u < |cells|
          ensures Before(cells[t], cells[u])
        {
          assert cells[t] == front[t];
          if u < |front| {
            assert cells[u] == front[u];
          }
        }
      } else {
        assert cells == front;
      }
    }
  }

  /** The painted cells of the grid come strictly in row-major order, so no
      cell is painted twice. */
  lemma {:induction false} GridCellsOrdered(p: Pattern, size: nat, m: nat)
    requires Covers(p, size) && m <= size
    ensures RowMajor(GridCells(p, size, m))
  {
    if m > 0 {
      GridCellsOrdered(p, size, m - 1);
      RowCellsOrdered(p, size, m - 1, size);
      GridCellsPlace(p, size, m - 1);
      RowCellsPlace(p, size, m - 1, size);
      var front := GridCells(p, size, m - 1);
      var row := RowCells(p, size, m - 1, size);
      var cells := GridCells(p, size, m);
      assert cells == front + row;
      forall t, u | 0 <= t < u < |cells|
        ensures Before(cells[t], cells[u])
      {
        if u < |front| {
          assert cells[t] == front[t] && cells[u] == front[u];
        } else if t >= |front| {
          assert cells[t] == row[t - |front|] && cells[u] == row[u - |front|];
        } else {
          assert cells[t] == front[t] && cells[u] == row[u - |front|];
        }
      }
    }
  }

  /** When no cell of a row has a -1 component, all of its cells are
      painted. */
  lemma {:induction false} RowCellsAll(p: Pattern, size: nat, i: nat, n: nat)
    requires Covers(p, size) && i < size && n <= size
    requires forall j :: 0 <= j < n ==> !HasUnset(p[i][j])
    ensures |RowCells(p, size, i, n)| == n
  {
    if n > 0 {
      RowCellsAll(p, size, i, n - 1);
    }
  }

  /** When no cell of the window has a -1 component, all size * size of
      them are painted. */
  lemma {:induction false} GridCellsAll(p: Pattern, size: nat, m: nat)
    requires Covers(p, size) && m <= size
    requires forall i, j :: 0 <= i < m && 0 <= j < size ==> !HasUnset(p[i][j])
    ensures |GridCells(p, size, m)| == m * size
  {
    if m > 0 {
      GridCellsAll(p, size, m - 1);
      RowCellsAll(p, size, m - 1, size);
      assert GridCells(p, size, m) == GridCells(p, size, m - 1) + RowCells(p, size, m - 1, size);
      calc {
        |GridCells(p, size, m)|;
        (m - 1) * size + size;
        { assert (m - 1) * size + size == m * size; }
        m * size;
      }
    }
  }

  /** The tile one invocation builds. */
  function Generated(cfg: Config, o: Oracle, k: nat): (r: Drawn<Pattern>)
    requires Uniform(o) && CanPick(cfg.colorSet, cfg.fillFactor, cfg.color)
    ensures Rectangular(r.value, cfg.size, cfg.size)
  {
    FinalPatternSize(cfg.size, cfg.size, cfg.symmetry, cfg.colorSet, cfg.fillFactor, cfg.color, o, k);
    FinalPattern(cfg.size, cfg.size, cfg.symmetry, cfg.colorSet, cfg.fillFactor, cfg.color, o, k)
  }

  /** One call of the generator: build a size-by-size tile from draw `k`,
      then paint it. Reading `pattern[i][j]` for every i, j < size is in
      bounds because the tile is exactly size by size. */
  method Generate(opts: Options, neutral: ColorSet, o: Oracle, k: nat) returns (cmds: seq<Command>, next: nat)
    requires Uniform(o)
    requires CanPick(Resolve(opts, neutral).colorSet, Resolve(opts, neutral).fillFactor, opts.color)
    ensures var cfg := Resolve(opts, neutral);
            var tile := Generated(cfg, o, k);
            cmds == Plan(tile.value, cfg.size, cfg.scale) && next == tile.next
  {
    var cfg := Resolve(opts, neutral);
    var tile := Generated(cfg, o, k);
    cmds := Paint(tile.value, cfg.size, cfg.scale);
    next := tile.next;
  }

  /** With a fixed colour and a fill factor of 1 or more, the tile is that
      colour everywhere. */
  lemma FullFillTile(cfg: Config, c: Color, o: Oracle, k: nat)
    requires Uniform(o) && cfg.color == Some(c) && cfg.fillFactor >= 1.0
    ensures forall i, j :: 0 <= i < cfg.size && 0 <= j < cfg.size ==> Generated(cfg, o, k).value[i][j] == c
  {
    FinalPatternFull(cfg.size, cfg.size, cfg.symmetry, cfg.colorSet, cfg.fillFactor, c, o, k);
    assert OneColor(Generated(cfg, o, k).value, c);
  }

  /** With a fixed colour that has no -1 component and a fill factor of 1 or
      more, every one of the size * size cells is painted: the plan is the
      clear plus size * size squares. */
  lemma FullFillPaintsEveryCell(cfg: Config, c: Color, o: Oracle, k: nat)
    requires Uniform(o) && cfg.color == Some(c) && !HasUnset(c) && cfg.fillFactor >= 1.0
    ensures |Plan(Generated(cfg, o, k).value, cfg.size, cfg.scale)| == cfg.size * cfg.size + 1
  {
    var tile := Generated(cfg, o, k).value;
    FullFillTile(cfg, c, o, k);
    GridCellsAll(tile, cfg.size, cfg.size);
    PlanSquares(tile, cfg.size, cfg.scale);
  }
}
