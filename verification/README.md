# randpix tile generator, modelled in Dafny

`randpix` draws small symmetric pixel-art avatars. Calling `randpix(options)`
fixes `size` (default 8) and `scale` (default 1) and creates the canvas. Each
call of the generator it returns then does the following:

1. It reads symmetry, palette, fill factor and colour from the options object
   afresh, filling in the defaults for the first three.
2. It builds a *half grid*. Each cell takes part with probability `fillFactor`.
   A taking-part cell gets the fixed colour or a weighted pick from the
   palette. Every other cell gets the marker `[-1, -1, -1, -1]`.
3. It mirrors the half grid into a `size` × `size` tile:
   - VERTICAL mirrors left-right;
   - HORIZONTAL mirrors top-bottom;
   - QUAD mirrors both ways.

   When a halved side is fractional, the two halves share the centre line
   instead of duplicating it.
4. It clears the canvas, then paints every tile cell with no `-1` component as
   a `scale` × `scale` square.

The model covers that pipeline from `index.ts`: `randomColor`,
`createPattern`, `reflect`, `createFinalPattern`, and the defaults and paint
loop of `randpix`.

- **Random draws.** `Math.random()` becomes an explicit source
  `o: nat -> real` with a cursor `k`. Every drawing function returns the value
  it built together with the index of the first draw it did not use
  (`Drawn(value, next)`). The predicate `Uniform(o)` states that every draw lies
  in [0, 1).
- **The canvas.** The canvas is replaced by the list of drawing commands it
  would receive (`ClearRect`, `FillRect`).

Modules:

- `Types`: colours (`Color(r, g, b, w)`, where `w` is the whole-number selection weight),
  the `Unset` marker, palettes, patterns, symmetry modes, and the random source.
- `Selector`: `randomColor`. It computes running weight sums, scales one draw
  by the total, and returns the first entry whose running sum is strictly
  greater. If none is, it makes a uniform fallback pick with a second draw.
- `Builder`: `createPattern`. It makes one inclusion draw per cell in row-major
  order, and its loop bounds may be fractional.
- `Reflector`: `reflect`, as pure sequence transforms. This module also holds
  the inverse (`Unreflect`).
- `Tile`: `createFinalPattern`. It halves the mirrored sides, sets the
  centre-line flag with `Number.isInteger`, and reflects.
- `Render`: option defaults, the paint loop (`Paint`, a method with nested
  loops), and its functional specification (`Plan`).

Facts of `index.ts` the model keeps:

- **Randomness.** `randpix` takes no seed and adds no per-pixel colour
  variation. The only randomness is `Math.random()` in `randomColor` and
  `createPattern`.
- **Fractional half sizes.** The builder's loops `i < h` and `j < w` run
  ceil(h) and ceil(w) times when a halved side is fractional (`LoopCount`).
- **The centre-line flag.** It is `Number.isInteger` applied to the halved
  sides. For whole sizes this is the same as "a mirrored side is odd"
  (`OddFlag`, `HalfBound`).

## Model

| member | source | states |
|---|---|---|
| Selector.RunningSums | index.ts:8-9 | entry i of the running-sum array is the sum of the weights of entries 0..i |
| Selector.CumulativeBounded | index.ts:8-9 | with non-negative weights every running sum lies between 0 and the total weight |
| Selector.FirstAbove | index.ts:11-14 | the scan returns the least index whose running sum is strictly above the scaled draw, and finds none exactly when every sum is at or below it |
| Selector.Threshold | index.ts:10 | the draw scaled by the total weight lies in [0, total) when the total is positive, and is 0 when the total is 0 |
| Selector.Scan | index.ts:11-14 | the scan names the first entry whose running sum is strictly above the threshold, and fails exactly when every running sum is at or below it |
| Selector.ScanSucceeds | index.ts:11-14 | for a threshold in [0, total) the scan succeeds, and the entry it names has a positive weight |
| Selector.FirstMatchPositive | index.ts:11-14 | the first entry whose running sum exceeds a non-negative threshold has a positive weight |
| Selector.FallbackIndex | index.ts:15 | `(u * n) >> 0` for a draw u in [0, 1) is the floor of u * n and a valid index below n |
| Selector.RandomColor | index.ts:7-16 | the colour returned is an entry of the palette, and one or two draws are consumed |
| Selector.RandomColorFirstMatch | index.ts:8-14 | with a positive total the scan always succeeds, returns the entry with the least running sum strictly above draw × total, and consumes exactly one draw |
| Selector.RandomColorPositiveWeight | index.ts:8-14 | with a positive total an entry of weight 0 (or less) is never returned |
| Selector.RandomColorFallback | index.ts:9-15 | with non-negative weights the second draw is taken exactly when the total is 0, and then the entry at floor(draw × length) is returned, an index inside the palette |
| Builder.LoopCount | index.ts:32-34 | a loop `i < x` runs for the least natural count not below x, so a bound of 3.5 gives 4 iterations |
| Builder.CreateCell | index.ts:35-36 | a draw below `chance` yields the fixed colour or a palette entry; any other draw yields the marker and consumes nothing more; a fixed colour never consumes a selector draw |
| Builder.CreateRow | index.ts:34-37 | a row has exactly n cells and uses between n and 3n draws (exactly n with a fixed colour) |
| Builder.CreateRows | index.ts:32-38 | m rows of n cells each, using at least m × n draws and exactly m × n with a fixed colour |
| Builder.CreateRowPrefix | index.ts:34-37 | building more cells only appends: the first j cells of a row of n are the row of j built from the same draw |
| Builder.CreateRowCell | index.ts:34-36 | cell j of a row is the cell built from the draw that follows the draws of the j cells to its left |
| Builder.CreateRowsPrefix | index.ts:32-38 | building more rows only appends: the first i rows are the grid of i rows built from the same draw |
| Builder.CreateRowsRow | index.ts:32-38 | row i is the row built from the draw that follows the draws of the rows above it |
| Builder.CellDraw | index.ts:32-36 | the draw that decides cell (i, j) comes no earlier than k + i·n + j, and is exactly that draw with a fixed colour |
| Builder.CreateRowsCellDraw | index.ts:32-36 | cell (i, j) of the grid is the cell built from its own draw |
| Builder.CreateRowsCell | index.ts:35-36 | cell (i, j) is the marker exactly when its own inclusion draw d is not below `chance`; otherwise it is the fixed colour, or the weighted pick that starts at draw d + 1 |
| Builder.CreateRowsProduced | index.ts:32-38 | every cell of the grid is the marker, the fixed colour, or a palette entry |
| Builder.CreatePattern | index.ts:24-40 | the half grid has ceil(h) rows of ceil(w) cells, each the marker, the fixed colour, or a palette entry |
| Builder.FixedColorRow | index.ts:34-36 | with a fixed colour, cell j is that colour exactly when draw k + j is below `chance`, otherwise the marker |
| Builder.FixedColorRows | index.ts:31-39 | with a fixed colour, cell (i, j) is decided by draw k + i·n + j alone, and exactly m·n draws are used |
| Builder.FullChanceRow | index.ts:34-36 | with a chance of 1 or more every cell of a row is the fixed colour or a palette entry |
| Builder.ZeroChanceRow | index.ts:34-36 | a chance of 0 or less leaves every cell of a row as the marker |
| Builder.FullChanceRows | index.ts:32-38 | with a chance of 1 or more every cell of the grid is the fixed colour or a palette entry |
| Builder.ZeroChanceRows | index.ts:32-38 | a chance of 0 or less leaves every cell of the grid as the marker |
| Builder.ChanceExtremes | index.ts:31-39 | every cell of the half grid is the fixed colour or a palette entry when chance ≥ 1, and the marker when chance ≤ 0 |
| Reflector.Reverse | index.ts:46 | the reversed sequence has the same length, and element i is element n-1-i of the original |
| Reflector.DropFirst | index.ts:45 | `slice(1)` drops exactly the first element, and the empty sequence stays empty |
| Reflector.MirrorRow | index.ts:49-50 | a mirrored row has 2n cells, or 2n-1 when odd; the original row is its suffix; it reads the same from both ends |
| Reflector.ReflectVertical | index.ts:48-51 | VERTICAL keeps the row count; each row grows to 2n (or 2n-1) cells, keeps the original as its suffix, and is a palindrome |
| Reflector.ReflectHorizontal | index.ts:44-47 | HORIZONTAL gives 2n rows (2n-1 when odd); the original rows come first; row r equals row H-1-r |
| Reflector.HorizontalShape | index.ts:44-47 | HORIZONTAL keeps every row's width |
| Reflector.Reflect | index.ts:42-60 | HORIZONTAL and QUAD double the row count (less one when odd) and make the tile read the same from top and bottom; HORIZONTAL keeps the original rows first; VERTICAL keeps the row count and makes every row a palindrome |
| Reflector.ReflectShape | index.ts:42-60 | an h × w half grid becomes a tile in which only the mirrored sides grow, to 2n or 2n-1 |
| Reflector.ReflectSymmetric | index.ts:42-60 | VERTICAL and QUAD tiles are left-right symmetric; HORIZONTAL and QUAD tiles are top-bottom symmetric |
| Reflector.UnreflectReflect | index.ts:42-60 | the half grid is recovered from the tile, so reflecting loses nothing |
| Reflector.ReflectKeepsCells | index.ts:42-60 | every colour in the tile already occurs in the half grid |
| Reflector.HorizontalKeepsCells | index.ts:44-47 | appending mirrored rows adds no new colour |
| Reflector.VerticalKeepsCells | index.ts:48-51 | mirroring each row adds no new colour |
| Reflector.ReflectOneColor | index.ts:42-60 | a half grid of one colour reflects to a tile of that colour |
| Tile.IsInteger | index.ts:85 | `Number.isInteger(x)` holds exactly when x is some whole number |
| Tile.HalfSize | index.ts:70-81 | the halved bounds make the loops run ceil(s/2) times along a mirrored side of s cells and s times along the other; a halved bound is a whole number exactly when its side is even or not mirrored |
| Tile.OddFlag | index.ts:85 | the centre-line flag is set exactly when a mirrored side is odd |
| Tile.FinalPattern | index.ts:62-87 | every tile cell is the marker, the fixed colour, or a palette entry |
| Tile.WholeBound | index.ts:70-85 | an unhalved side s gives s loop iterations and is an integer |
| Tile.HalfBound | index.ts:70-85 | a halved side s gives ceil(s/2) loop iterations and is an integer exactly when s is even |
| Tile.MirrorHalfRestores | index.ts:82-86 | mirroring ceil(s/2) cells, sharing the centre when s is odd, gives back s cells |
| Tile.MirrorRestoresSides | index.ts:70-86 | with the centre-line flag as computed, mirroring the half counts restores both sides (QUAD needs sides of equal parity) |
| Tile.FinalPatternSize | index.ts:62-87 | the tile is exactly h rows of w cells for every mode, given equal parity for QUAD |
| Tile.FinalPatternFull | index.ts:62-87 | with a fixed colour and a chance of 1 or more, every tile cell is that colour |
| Tile.FinalPatternSymmetric | index.ts:82-86 | the tile is mirror-symmetric along each axis the mode mirrors |
| Tile.FinalPatternHalf | index.ts:82-86 | cutting the tile back along its mirrored sides gives exactly the half grid the builder drew |
| Tile.QuadMixedParityLosesRow | index.ts:78-85 | QUAD with an odd width and an even height yields h-1 rows, because the one flag is applied to both sides |
| Tile.QuadMixedParityLosesColumn | index.ts:78-85 | QUAD with an even width and an odd height yields h rows of w-1 cells, because the one flag is applied to both sides |
| Render.Resolve | index.ts:101-115 | missing options default to size 8, scale 1, the neutral palette, fill factor 0.5 and VERTICAL; a fixed colour has no default |
| Render.RowCellsPlace | index.ts:119-124 | every cell listed for row i lies in that row, left of column n |
| Render.GridCellsPlace | index.ts:118-126 | every cell listed for the first m rows lies in those rows and inside the window's columns |
| Render.Painted | index.ts:118-126 | the painted cells of the whole window lie inside the size × size window |
| Render.Fill | index.ts:122-123 | the square of a cell is scale × scale, lies inside the size·scale canvas, and takes the cell's red, green and blue channels |
| Render.FillDisjoint | index.ts:122-123 | the squares of two different cells do not overlap |
| Render.Fills | index.ts:120-123 | one square per listed cell, in the same order |
| Render.Plan | index.ts:117-126 | the first command clears the whole size·scale square, and every later command is a scale × scale fill |
| Render.Paint | index.ts:117-126 | the nested paint loop emits exactly the commands of the plan |
| Render.RowStart | index.ts:118-119 | before row i the loop has painted exactly the squares of the rows above it |
| Render.RowEnd | index.ts:118-125 | after row i the loop has painted exactly the squares of rows 0 to i |
| Render.PaintStep | index.ts:120-124 | visiting cell (i, j) adds its square exactly when the cell has no -1 component |
| Render.RowCellsComplete | index.ts:119-124 | a cell of a row with no -1 component is listed for painting |
| Render.GridCellsStep | index.ts:118 | painting one more row only appends to the cell list |
| Render.GridCellsPrefix | index.ts:118 | the cell list of the first a rows begins the list of the first b rows, a ≤ b |
| Render.GridCellsLastRow | index.ts:118-124 | a cell listed for the last of the first m rows is in the grid's list |
| Render.GridCellsComplete | index.ts:118-124 | a cell of the grid with no -1 component is listed for painting |
| Render.RowCellsSound | index.ts:119-121 | every listed cell of a row has no -1 component |
| Render.GridCellsSound | index.ts:118-121 | every listed cell of the grid has no -1 component |
| Render.GridCellsEveryCell | index.ts:118-124 | every cell of the window with no -1 component is listed |
| Render.RowCellsOrdered | index.ts:119 | cells within a row are painted strictly left to right |
| Render.GridCellsOrdered | index.ts:118-119 | cells are painted in strict row-major order, so no cell is painted twice |
| Render.PlanSquares | index.ts:117-126 | after the clear, command t+1 is the square of the t-th listed cell, at (col·scale, row·scale), sized scale × scale, with style rgb(r, g, b) |
| Render.PlanPaintsExactlyTheSetCells | index.ts:117-126 | the plan is one clear followed, in row-major order, by exactly one square per cell with no -1 component and none for the other cells |
| Render.RowCellsAll | index.ts:119-124 | when no cell of a row has a -1 component, all of the row is painted |
| Render.GridCellsAll | index.ts:118-126 | when no cell of the window has a -1 component, all size × size cells are painted |
| Render.Generated | index.ts:109-116 | each call builds a tile of exactly size × size, so every `pattern[i][j]` read by the paint loop is in bounds |
| Render.Generate | index.ts:108-127 | one call of the generator paints the plan of the tile built from the resolved options |
| Render.FullFillTile | index.ts:109-116 | with a fixed colour and a fill factor of 1 or more, every tile cell is that colour |
| Render.FullFillPaintsEveryCell | index.ts:108-127 | with a fixed colour that has no -1 component and a fill factor of 1 or more, one call emits the clear plus size² squares |

## Left out

- The `canvas` library is external, so it is not modelled: `createCanvas`,
  `getContext`, and the side effects of `clearRect`, `fillStyle` and `fillRect`
  (index.ts:104-107). The model returns the command list those calls would
  receive.
- The `fillStyle` string `rgb(r, g, b)` is kept as its three numbers (`Rgb`),
  not formatted as text.
- `Math.random()` is replaced by the explicit source `o` and cursor `k`. The
  order in which draws are consumed is modelled exactly:
  - one draw per cell;
  - one more for the palette pick when the cell takes part and no colour is
    fixed;
  - one more again when that pick falls back.
- Selector.RandomColor: requires a non-empty palette. In `index.ts`,
  `randomColor([])` scales the draw by `undefined`, so no running sum is above
  it, and returns `set[0]`, which is `undefined` (index.ts:10, 15).
- Builder.CreatePattern: requires `CanPick`, which rules out an empty palette
  with no fixed colour and a positive chance. In `index.ts` every included
  cell of that grid is `undefined`.
- Render.Generate: requires `CanPick` for the resolved options. With an empty
  palette, no fixed colour and a positive fill factor, the paint loop of
  `index.ts` throws a TypeError at `color.includes(-1)` on the first
  `undefined` cell it visits (index.ts:120-121). The model does not represent
  that crash.
- Render.Generate: takes one unchanging `Options` value and resolves all six
  fields on every call. `randpix` reads `size` and `scale` once, when it is
  called, and sizes the canvas then (index.ts:101-104). The generator reads
  symmetry, palette, fill factor and colour on every call (index.ts:112-115).
  So a caller that changes the options object between calls keeps the old
  size and scale but gets the new palette, fill factor, symmetry and colour.
  The model does not represent that mutation.
- Weights are whole numbers (`int`), while a JavaScript palette may carry
  fractional weights such as 0.5. For a palette of non-negative rational
  weights nothing is lost: multiplying every weight by the same positive
  number scales every running sum and the threshold `draw × total` alike, so
  the entry picked is the same, and no weight is or becomes -1, so the paint
  loop's `includes(-1)` test is unchanged. A palette with a negative
  fractional weight has no whole-weight counterpart in the model: scaling can
  turn a weight of -1 into another value or another value into -1 (-0.5 × 2),
  which changes which cells go unpainted.
- A palette entry without a weight is not modelled. In JavaScript its
  `undefined` makes every later running sum `NaN`, which forces the fallback.
  Here the weight is always a number. The paint loop's `includes(-1)` reads
  all four numbers, so a weight of -1 also leaves a cell unpainted. The model
  keeps that.
- The in-place `pattern.reverse()` in the HORIZONTAL branch (index.ts:45-46)
  changes the argument only after the result's first half has been copied. No
  caller reuses the argument, so the functional model has no mutation.
- Tile.FinalPatternSize: needs equal parity of the two sides for QUAD. The
  single centre-line flag is applied to both axes, so mixed parity loses a row
  (odd width, even height: `QuadMixedParityLosesRow`) or a column (even width,
  odd height: `QuadMixedParityLosesColumn`). `randpix` always passes `size, size`, so this
  never happens through the public entry point.
- Non-integer or negative `size` and `scale` are not modelled: options are
  natural numbers. `createPattern` itself does take fractional bounds
  (`LoopCount`).
- The NEUTRAL palette table lives in `./themes`, which is not part of this
  model. It is a parameter (`neutral`) of `Resolve` and `Generate`.
- Floating point is not modelled: draws, weights times draws, and halving use
  exact reals.
- `build.js` (bundling) and `types.ts` (declarations only) have no behaviour.
  The datatypes follow the shapes in `types.ts`.
- `createFinalPattern` also has default parameters (NEUTRAL and 0.5). They are
  never used, because `randpix` always passes both explicitly. The defaults
  are modelled in `Resolve`.
