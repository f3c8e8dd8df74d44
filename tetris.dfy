/**
 * The grid operations of the Tetris game loop: drawing the falling piece
 * over the settled cells, clearing full rows, and the per-tick update that
 * moves, rotates, locks and respawns the piece.
 *
 * A grid is ROWS x COLUMNS integer cells, 0 meaning empty. The collision
 * tests and the piece transformations (move down, rotate, identity test)
 * belong to classes whose bodies are not part of this model; they are the
 * function-valued fields of `PieceOps` and stay uninterpreted.
 */
module Tetris {

  /** The value of a grid: a sequence of rows. */
  type Grid = seq<seq<int>>

  /** A moving piece: its current shape and the grid position of the
      shape's top-left corner, which the game loop reads, and the rotations
      of its tetromino, the index of the current one and its colour index,
      which only the piece operations and the renderer use. */
  datatype Piece = Piece(
    shape: seq<seq<int>>, x: int, y: int,
    shapes: seq<seq<seq<int>>>, rotation: nat, color: nat)

  /** The outcome of input and timers for one tick:
      `pullReady` - the pull delay has elapsed, so the piece falls one row;
      `rotate`    - a rotation was requested and its key delay is not active;
      `xChange`   - the horizontal step requested (0 when there is none or
                    the horizontal key delay is still active). */
  datatype TickInput = TickInput(pullReady: bool, rotate: bool, xChange: int)

  /** The piece transformations and collision tests the loop calls. */
  datatype PieceOps = PieceOps(
    moveDown: Piece -> Piece,
    rotate: Piece -> Piece,
    isIdentical: (Piece, Piece) -> bool,
    collidesWithFloor: Piece -> bool,
    collidesWithWall: Piece -> bool,
    collidesWithGridData: (Piece, Grid) -> bool,
    checkHorizontalCollision: (Piece, Grid) -> bool,
    checkVerticalCollision: (Piece, Grid) -> bool,
    collidesWithCeil: Piece -> bool)

  ghost predicate IsGrid(g: Grid, rows: nat, cols: nat) {
    |g| == rows && forall r :: 0 <= r < rows ==> |g[r]| == cols
  }

  /** The value of a grid array. */
  function Cells(a: array2<int>): (g: Grid)
    reads a
    ensures IsGrid(g, a.Length0, a.Length1)
  {
    seq(a.Length0, r requires 0 <= r < a.Length0 reads a =>
      seq(a.Length1, c requires 0 <= c < a.Length1 reads a => a[r, c]))
  }

  /** Two grid values agree when every cell of the array agrees. */
  lemma CellsAre(a: array2<int>, g: Grid)
    requires IsGrid(g, a.Length0, a.Length1)
    requires forall r, c :: 0 <= r < a.Length0 && 0 <= c < a.Length1 ==> a[r, c] == g[r][c]
    ensures Cells(a) == g
  {
    forall r | 0 <= r < a.Length0 ensures Cells(a)[r] == g[r] { }
  }

  /** Cell (i, j) of a shape, 0 outside it (shape rows may differ in length). */
  function ShapeCell(shape: seq<seq<int>>, i: int, j: int): int {
    if 0 <= i < |shape| && 0 <= j < |shape[i]| then shape[i][j] else 0
  }

  /** Every non-zero cell of the piece lies inside a rows x cols grid. */
  ghost predicate Fits(p: Piece, rows: nat, cols: nat) {
    forall i, j :: 0 <= i < |p.shape| && 0 <= j < |p.shape[i]| && p.shape[i][j] != 0 ==>
      0 <= p.y + i < rows && 0 <= p.x + j < cols
  }

  /** The grid with the piece drawn over it: a covered cell takes the piece's
      non-zero value, every other cell keeps its value. */
  function Overlay(p: Piece, g: Grid): (o: Grid)
    ensures |o| == |g| && forall r :: 0 <= r < |g| ==> |o[r]| == |g[r]|
  {
    seq(|g|, r requires 0 <= r < |g| =>
      seq(|g[r]|, c requires 0 <= c < |g[r]| =>
        var v := ShapeCell(p.shape, r - p.y, c - p.x);
        if v != 0 then v else g[r][c]))
  }

  /** Zero shape cells never overwrite: a cell the piece does not cover is
      the grid's own. */
  lemma OverlayKeepsUncovered(p: Piece, g: Grid, r: nat, c: nat)
    requires r < |g| && c < |g[r]|
    requires ShapeCell(p.shape, r - p.y, c - p.x) == 0
    ensures Overlay(p, g)[r][c] == g[r][c]
  {
  }

  /** Every non-zero shape cell (i, j) appears at row y + i, column x + j. */
  lemma OverlayPlacesPiece(p: Piece, g: Grid, i: nat, j: nat)
    requires IsGrid(g, |g|, if |g| == 0 then 0 else |g[0]|)
    requires Fits(p, |g|, if |g| == 0 then 0 else |g[0]|)
    requires i < |p.shape| && j < |p.shape[i]| && p.shape[i][j] != 0
    ensures Overlay(p, g)[p.y + i][p.x + j] == p.shape[i][j]
  {
    assert ShapeCell(p.shape, (p.y + i) - p.y, (p.x + j) - p.x) == p.shape[i][j];
  }

  /** Arrays.copyOf of row i of `src` into row k of `dst`. */
  method CopyRow(src: array2<int>, i: nat, dst: array2<int>, k: nat)
    requires i < src.Length0 && k < dst.Length0 && src.Length1 == dst.Length1 && src != dst
    modifies dst
    ensures forall r, c :: 0 <= r < dst.Length0 && 0 <= c < dst.Length1 ==>
      dst[r, c] == if r == k then src[i, c] else old(dst[r, c])
  {
    for c := 0 to dst.Length1
      invariant forall r, c' :: 0 <= r < dst.Length0 && 0 <= c' < dst.Length1 ==>
        dst[r, c'] == if r == k && c' < c then src[i, c'] else old(dst[r, c'])
    {
      dst[k, c] := src[i, c];
    }
  }

  /** addMovingPieceToData: a fresh grid holding a copy of `data` with the
      piece's non-zero cells written over it; `data` itself is not touched. */
  method AddMovingPieceToData(piece: Piece, data: array2<int>) returns (combined: array2<int>)
    requires Fits(piece, data.Length0, data.Length1)
    ensures fresh(combined)
    ensures combined.Length0 == data.Length0 && combined.Length1 == data.Length1
    ensures Cells(combined) == Overlay(piece, Cells(data))
  {
    var rows, cols := data.Length0, data.Length1;
    combined := new int[rows, cols]((r, c) => 0);
    for r := 0 to rows
      invariant forall r', c :: 0 <= r' < r && 0 <= c < cols ==> combined[r', c] == data[r', c]
    {
      CopyRow(data, r, combined, r);
    }
    var shape := piece.shape;
    for i := 0 to |shape|
      invariant forall r, c :: 0 <= r < rows && 0 <= c < cols ==>
        combined[r, c] == (if r - piece.y < i && ShapeCell(shape, r - piece.y, c - piece.x) != 0
                           then ShapeCell(shape, r - piece.y, c - piece.x) else data[r, c])
    {
      for j := 0 to |shape[i]|
        invariant forall r, c :: 0 <= r < rows && 0 <= c < cols ==>
          combined[r, c] == (if (r - piece.y < i || (r - piece.y == i && c - piece.x < j))
                                && ShapeCell(shape, r - piece.y, c - piece.x) != 0
                             then ShapeCell(shape, r - piece.y, c - piece.x) else data[r, c])
      {
        if shape[i][j] != 0 {
          combined[piece.y + i, piece.x + j] := shape[i][j];
        }
      }
    }
    forall r, c | 0 <= r < rows && 0 <= c < cols
      ensures combined[r, c] == Overlay(piece, Cells(data))[r][c]
    {
      var v := ShapeCell(shape, r - piece.y, c - piece.x);
      assert v != 0 ==> r - piece.y < |shape|;
      assert Overlay(piece, Cells(data))[r][c] == if v != 0 then v else Cells(data)[r][c];
      assert Cells(data)[r][c] == data[r, c];
    }
    CellsAre(combined, Overlay(piece, Cells(data)));
  }

  // ---------------------------------------------------------------------
  // Clearing full rows

  /** A row with no empty cell. */
  predicate FullRow(row: seq<int>) {
    forall j :: 0 <= j < |row| ==> row[j] != 0
  }

  /** The rows that are not full, in their top-to-bottom order. */
  function KeptRows(g: Grid): (k: Grid)
    ensures |k| <= |g|
  {
    if g == [] then [] else (if FullRow(g[0]) then [] else [g[0]]) + KeptRows(g[1..])
  }

  /** One step of the bottom-up scan: the rows kept from row i on are row i,
      unless it is full, followed by those kept from row i + 1 on. */
  lemma KeptRowsStep(g: Grid, i: nat)
    requires i < |g|
    ensures KeptRows(g[i..]) == (if FullRow(g[i]) then [] else [g[i]]) + KeptRows(g[i + 1..])
  {
    assert g[i..][1..] == g[i + 1..];
  }

  /** Kept rows have the grid's width. */
  lemma {:induction false} KeptRowsWidth(g: Grid, cols: nat)
    requires forall r :: 0 <= r < |g| ==> |g[r]| == cols
    ensures forall t :: 0 <= t < |KeptRows(g)| ==> |KeptRows(g)[t]| == cols
  {
    if g != [] {
      KeptRowsWidth(g[1..], cols);
    }
  }

  /** No kept row is full. */
  lemma {:induction false} KeptRowsNotFull(g: Grid)
    ensures forall t :: 0 <= t < |KeptRows(g)| ==> !FullRow(KeptRows(g)[t])
  {
    if g != [] {
      KeptRowsNotFull(g[1..]);
    }
  }

  /** The number of full rows. */
  function FullRowCount(g: Grid): nat {
    if g == [] then 0 else (if FullRow(g[0]) then 1 else 0) + FullRowCount(g[1..])
  }

  function ZeroRows(n: nat, cols: nat): (z: Grid)
    ensures IsGrid(z, n, cols)
  {
    seq(n, _ => seq(cols, _ => 0))
  }

  /** removeFullRows as a value: the non-full rows packed against the bottom,
      all-zero rows above them. */
  function Compact(g: Grid, cols: nat): (c: Grid)
    ensures |c| == |g|
    ensures c[|g| - |KeptRows(g)|..] == KeptRows(g)
    ensures forall r :: 0 <= r < |g| - |KeptRows(g)| ==> c[r] == seq(cols, _ => 0)
  {
    ZeroRows(|g| - |KeptRows(g)|, cols) + KeptRows(g)
  }

  /** Each full row is dropped and each other row kept: the counts add up. */
  lemma {:induction false} KeptPlusFull(g: Grid)
    ensures |KeptRows(g)| + FullRowCount(g) == |g|
  {
    if g != [] {
      KeptPlusFull(g[1..]);
    }
  }

  /** Filtering distributes over concatenation: the relative order of the
      kept rows is the original one. */
  lemma {:induction false} KeptRowsAppend(a: Grid, b: Grid)
    ensures KeptRows(a + b) == KeptRows(a) + KeptRows(b)
  {
    if a == [] {
      assert a + b == b;
    } else {
      assert (a + b)[0] == a[0];
      assert (a + b)[1..] == a[1..] + b;
      KeptRowsAppend(a[1..], b);
    }
  }

  /** A grid without full rows is kept whole. */
  lemma {:induction false} KeptRowsOfNoFull(g: Grid)
    requires forall r :: 0 <= r < |g| ==> !FullRow(g[r])
    ensures KeptRows(g) == g
  {
    if g != [] {
      KeptRowsOfNoFull(g[1..]);
    }
  }

  /** The result still has ROWS rows of COLUMNS cells; its top rows, as many
      as there were full rows, are all zero, and below them come the kept rows. */
  lemma CompactShape(g: Grid, rows: nat, cols: nat)
    requires IsGrid(g, rows, cols)
    ensures IsGrid(Compact(g, cols), rows, cols)
    ensures FullRowCount(g) == |g| - |KeptRows(g)|
    ensures forall r, c :: 0 <= r < FullRowCount(g) && 0 <= c < cols ==> Compact(g, cols)[r][c] == 0
    ensures Compact(g, cols)[FullRowCount(g)..] == KeptRows(g)
  {
    KeptPlusFull(g);
    KeptRowsWidth(g, cols);
  }

  /** With at least one column the result has no full row. */
  lemma CompactHasNoFullRow(g: Grid, rows: nat, cols: nat)
    requires IsGrid(g, rows, cols) && cols >= 1
    ensures forall r :: 0 <= r < rows ==> !FullRow(Compact(g, cols)[r])
  {
    CompactShape(g, rows, cols);
    var n := |g| - |KeptRows(g)|;
    forall r | 0 <= r < rows ensures !FullRow(Compact(g, cols)[r]) {
      if r < n {
        assert Compact(g, cols)[r][0] == 0;
      } else {
        assert Compact(g, cols)[r] == KeptRows(g)[r - n];
        KeptRowsNotFull(g);
      }
    }
  }

  /** Clearing full rows twice is clearing them once. */
  lemma CompactIdempotent(g: Grid, rows: nat, cols: nat)
    requires IsGrid(g, rows, cols)
    ensures Compact(Compact(g, cols), cols) == Compact(g, cols)
  {
    var h := Compact(g, cols);
    CompactShape(g, rows, cols);
    if cols >= 1 {
      CompactHasNoFullRow(g, rows, cols);
      KeptRowsOfNoFull(h);
      assert |h| - |KeptRows(h)| == 0;
      assert ZeroRows(0, cols) + h == h;
    } else {
      // every row is empty, hence full: both sides are `rows` empty rows
      forall r | 0 <= r < rows ensures h[r] == [] { }
      KeptPlusFull(h);
      ZeroRowsOfFull(h);
      assert Compact(h, cols) == ZeroRows(rows, 0);
      assert h == ZeroRows(rows, 0);
    }
  }

  /** A grid of empty rows has no kept rows. */
  lemma {:induction false} ZeroRowsOfFull(g: Grid)
    requires forall r :: 0 <= r < |g| ==> g[r] == []
    ensures KeptRows(g) == []
  {
    if g != [] {
      ZeroRowsOfFull(g[1..]);
    }
  }

  // ---------------------------------------------------------------------
  // The grid state the loop mutates

  /** The game's grid state: the settled cells, the cells as rendered (with
      the moving piece), the moving piece, and the dirty and game-over flags. */
  class GridData {
    const rows: nat
    const cols: nat
    var data: array2<int>
    var combinedData: array2<int>
    var currentPiece: Piece
    var dirty: bool
    var gameOver: bool

    ghost predicate Valid()
      reads this
    {
      data.Length0 == rows && data.Length1 == cols &&
      combinedData.Length0 == rows && combinedData.Length1 == cols &&
      Fits(currentPiece, rows, cols)
    }

    /** A fresh empty grid holding the first piece (`new GridData()` followed
        by initNewGridData). */
    constructor (rows: nat, cols: nat, first: Piece)
      requires Fits(first, rows, cols)
      ensures Valid() && this.rows == rows && this.cols == cols
      ensures Cells(data) == ZeroRows(rows, cols) && Cells(combinedData) == ZeroRows(rows, cols)
      ensures currentPiece == first && !dirty && !gameOver
      ensures fresh(data) && fresh(combinedData)
    {
      this.rows, this.cols := rows, cols;
      data := new int[rows, cols]((r, c) => 0);
      combinedData := new int[rows, cols]((r, c) => 0);
      currentPiece := first;
      dirty, gameOver := false, false;
      new;
      CellsAre(data, ZeroRows(rows, cols));
      CellsAre(combinedData, ZeroRows(rows, cols));
    }
  }

  /** initNewGridData: an empty grid, flags cleared, a new piece installed. */
  method InitNewGridData(gridData: GridData, newPiece: Piece)
    requires gridData.Valid() && Fits(newPiece, gridData.rows, gridData.cols)
    modifies gridData
    ensures gridData.Valid()
    ensures fresh(gridData.data) && Cells(gridData.data) == ZeroRows(gridData.rows, gridData.cols)
    ensures fresh(gridData.combinedData) && Cells(gridData.combinedData) == ZeroRows(gridData.rows, gridData.cols)
    ensures gridData.currentPiece == newPiece && !gridData.dirty && !gridData.gameOver
  {
    var rows, cols := gridData.rows, gridData.cols;
    gridData.data := new int[rows, cols]((r, c) => 0);
    gridData.combinedData := new int[rows, cols]((r, c) => 0);
    gridData.dirty, gridData.gameOver := false, false;
    gridData.currentPiece := newPiece;
    CellsAre(gridData.data, ZeroRows(rows, cols));
    CellsAre(gridData.combinedData, ZeroRows(rows, cols));
  }

  /** The full-row scan of removeFullRows: from the last column down,
      stopping at the first empty cell. */
  method IsFullRow(data: array2<int>, i: nat) returns (full: bool)
    requires i < data.Length0
    ensures full <==> forall c :: 0 <= c < data.Length1 ==> data[i, c] != 0
  {
    full := true;
    var j: int := data.Length1 - 1;
    while j >= 0
      invariant -1 <= j < data.Length1
      invariant full
      invariant forall c :: j < c < data.Length1 ==> data[i, c] != 0
    {
      if data[i, j] == 0 {
        full := false;
        break;
      }
      j := j - 1;
    }
  }

  /** removeFullRows: the settled cells are replaced by a fresh grid holding
      the non-full rows packed against the bottom. */
  method RemoveFullRows(gridData: GridData)
    requires gridData.Valid()
    modifies gridData
    ensures gridData.Valid() && fresh(gridData.data)
    ensures Cells(gridData.data) == Compact(old(Cells(gridData.data)), gridData.cols)
    ensures gridData.combinedData == old(gridData.combinedData)
    ensures gridData.currentPiece == old(gridData.currentPiece)
    ensures gridData.dirty == old(gridData.dirty) && gridData.gameOver == old(gridData.gameOver)
  {
    var cleanData := CompactRows(gridData.data);
    gridData.data := cleanData;
  }

  /** The rows below row k of `a` hold `kept`, in order. */
  ghost predicate PackedBelow(a: array2<int>, k: int, kept: Grid)
    reads a
  {
    && (forall t :: 0 <= t < |kept| ==> 0 <= k + 1 + t < a.Length0 && |kept[t]| == a.Length1)
    && (forall t, c :: 0 <= t < |kept| && 0 <= c < a.Length1 ==>
          0 <= k + 1 + t < a.Length0 && c < |kept[t]| && a[k + 1 + t, c] == kept[t][c])
  }

  /** One step of the loop of removeFullRows: row i of `data` becomes the
      lowest free row k of `dst`, on top of the rows already kept. */
  method PlaceRow(data: array2<int>, i: nat, ghost row: seq<int>, dst: array2<int>, k: int, ghost kept: Grid)
    requires i < data.Length0 && 0 <= k < dst.Length0 && data.Length1 == dst.Length1 && data != dst
    requires |row| == data.Length1 && forall c :: 0 <= c < |row| ==> row[c] == data[i, c]
    requires k == dst.Length0 - 1 - |kept| && PackedBelow(dst, k, kept)
    requires forall r, c :: 0 <= r <= k && 0 <= c < dst.Length1 ==> dst[r, c] == 0
    modifies dst
    ensures PackedBelow(dst, k - 1, [row] + kept)
    ensures forall r, c :: 0 <= r <= k - 1 && 0 <= c < dst.Length1 ==> dst[r, c] == 0
  {
    CopyRow(data, i, dst, k);
    var kept' := [row] + kept;
    assert forall t :: 0 <= t < |kept'| ==> 0 <= (k - 1) + 1 + t < dst.Length0 && |kept'[t]| == dst.Length1;
    forall t, c | 0 <= t < |kept'| && 0 <= c < dst.Length1
      ensures dst[(k - 1) + 1 + t, c] == kept'[t][c]
    {
      if t == 0 {
        assert kept'[0] == row;
      } else {
        assert kept'[t] == kept[t - 1];
        assert old(dst[k + 1 + (t - 1), c]) == kept[t - 1][c];
      }
    }
  }

  /** One iteration of the loop of removeFullRows, on row i: a non-full row
      is placed at row k, which then moves up by one. */
  method CompactStep(data: array2<int>, i: nat, ghost g: Grid, cleanData: array2<int>, k: int, ghost kept: Grid)
    returns (k': int, ghost kept': Grid)
    requires data != cleanData && data.Length0 == cleanData.Length0 && data.Length1 == cleanData.Length1
    requires g == Cells(data) && i < |g|
    requires kept == KeptRows(g[i + 1..]) && k == cleanData.Length0 - 1 - |kept|
    requires PackedBelow(cleanData, k, kept)
    requires forall r, c :: 0 <= r <= k && 0 <= c < cleanData.Length1 ==> cleanData[r, c] == 0
    modifies cleanData
    ensures kept' == KeptRows(g[i..]) && k' == cleanData.Length0 - 1 - |kept'|
    ensures PackedBelow(cleanData, k', kept')
    ensures forall r, c :: 0 <= r <= k' && 0 <= c < cleanData.Length1 ==> cleanData[r, c] == 0
  {
    KeptRowsStep(g, i);
    var fullRow := IsFullRow(data, i);
    assert fullRow == FullRow(g[i]) by {
      assert forall c :: 0 <= c < data.Length1 ==> g[i][c] == data[i, c];
    }
    k', kept' := k, kept;
    if !fullRow {
      assert |KeptRows(g[i..])| <= |g| - i;
      PlaceRow(data, i, g[i], cleanData, k, kept);
      k', kept' := k - 1, [g[i]] + kept;
    }
  }

  /** The state the loop of removeFullRows ends in is the compacted grid. */
  lemma PackedIsCompact(cleanData: array2<int>, g: Grid, kept: Grid, k: int)
    requires IsGrid(g, cleanData.Length0, cleanData.Length1)
    requires kept == KeptRows(g)
    requires k == cleanData.Length0 - 1 - |kept|
    requires PackedBelow(cleanData, k, kept)
    requires forall r, c :: 0 <= r <= k && 0 <= c < cleanData.Length1 ==> cleanData[r, c] == 0
    ensures Cells(cleanData) == Compact(g, cleanData.Length1)
  {
    var rows, cols := cleanData.Length0, cleanData.Length1;
    var result := ZeroRows(k + 1, cols) + kept;
    assert Compact(g, cols) == result;
    forall r, c | 0 <= r < rows && 0 <= c < cols
      ensures cleanData[r, c] == result[r][c]
    {
      if r > k {
        assert result[r] == kept[r - k - 1];
        assert cleanData[k + 1 + (r - k - 1), c] == kept[r - k - 1][c];
      } else {
        assert result[r] == ZeroRows(k + 1, cols)[r];
      }
    }
    CellsAre(cleanData, result);
  }

  /** The loop of removeFullRows: rows are scanned bottom-up and each
      non-full row is copied to the lowest free row of a fresh zero grid. */
  method CompactRows(data: array2<int>) returns (cleanData: array2<int>)
    ensures fresh(cleanData)
    ensures cleanData.Length0 == data.Length0 && cleanData.Length1 == data.Length1
    ensures Cells(cleanData) == Compact(Cells(data), data.Length1)
  {
    var rows, cols := data.Length0, data.Length1;
    ghost var g := Cells(data);
    cleanData := new int[rows, cols]((r, c) => 0);
    var k: int := rows - 1;
    var i: nat := rows;
    ghost var kept: Grid := [];
    while i > 0
      invariant i <= rows
      invariant kept == KeptRows(g[i..])
      invariant k == rows - 1 - |kept|
      invariant PackedBelow(cleanData, k, kept)
      invariant forall r, c :: 0 <= r <= k && 0 <= c < cols ==> cleanData[r, c] == 0
    {
      i := i - 1;
      k, kept := CompactStep(data, i, g, cleanData, k, kept);
    }
    assert g[0..] == g;
    PackedIsCompact(cleanData, g, kept, k);
  }

  // ---------------------------------------------------------------------
  // One tick of the game

  /** The piece after the fall of this tick, if the pull delay has elapsed. */
  function Fallen(cur: Piece, input: TickInput, ops: PieceOps): Piece {
    if input.pullReady then ops.moveDown(cur) else cur
  }

  /** The rotation test: the rotated piece hits the floor, a wall or the
      settled cells. */
  predicate RotationCollides(p: Piece, ops: PieceOps, g: Grid) {
    ops.collidesWithFloor(p) || ops.collidesWithWall(p) || ops.collidesWithGridData(p, g)
  }

  /** The piece after the fall and the rotation of this tick: a rotation that
      hits the floor, a wall or the settled cells reverts to a copy of the
      current piece, which also discards the tick's fall. */
  function Candidate(cur: Piece, input: TickInput, ops: PieceOps, g: Grid): (c: Piece)
    ensures !input.pullReady && !input.rotate ==> c == cur
    ensures input.pullReady && !input.rotate ==> c == ops.moveDown(cur)
    ensures input.rotate ==>
      var r := ops.rotate(if input.pullReady then ops.moveDown(cur) else cur);
      && ((ops.collidesWithFloor(r) || ops.collidesWithWall(r) || ops.collidesWithGridData(r, g)) ==> c == cur)
      && (!(ops.collidesWithFloor(r) || ops.collidesWithWall(r) || ops.collidesWithGridData(r, g)) ==> c == r)
  {
    var moved := Fallen(cur, input, ops);
    if input.rotate then
      var rotated := ops.rotate(moved);
      if RotationCollides(rotated, ops, g) then cur else rotated
    else moved
  }

  /** The candidate after the horizontal step, when one is requested. */
  function Shifted(p: Piece, input: TickInput): Piece {
    if input.xChange != 0 then p.(x := p.x + input.xChange) else p
  }

  /** The assumption on the collision oracle the loop relies on: a piece that
      does not collide vertically lies inside the grid. */
  ghost predicate VerticalCheckBounds(ops: PieceOps, rows: nat, cols: nat) {
    forall p, g :: !ops.checkVerticalCollision(p, g) ==> Fits(p, rows, cols)
  }

  /** The piece the tick proposes: fall, rotation and horizontal step. */
  function Proposed(cur: Piece, input: TickInput, ops: PieceOps, g: Grid): Piece {
    Shifted(Candidate(cur, input, ops, g), input)
  }

  /** The horizontal step collides: the tick is abandoned. */
  predicate Blocked(cur: Piece, input: TickInput, ops: PieceOps, g: Grid) {
    input.xChange != 0 && ops.checkHorizontalCollision(Proposed(cur, input, ops, g), g)
  }

  /** The proposed piece is the current one, away from the top row. */
  predicate Idle(cur: Piece, input: TickInput, ops: PieceOps, g: Grid) {
    cur.y != 0 && ops.isIdentical(cur, Proposed(cur, input, ops, g))
  }

  /** A rotation that hits the floor, a wall or the settled cells undoes
      the whole tick's fall and rotation: only the horizontal step is left,
      applied to the current piece, and the step alone decides whether the
      tick is blocked. */
  lemma TickRotationReverts(cur: Piece, input: TickInput, ops: PieceOps, g: Grid)
    requires input.rotate && RotationCollides(ops.rotate(Fallen(cur, input, ops)), ops, g)
    ensures Proposed(cur, input, ops, g) == cur.(x := cur.x + input.xChange)
    ensures Blocked(cur, input, ops, g) <==>
      input.xChange != 0 && ops.checkHorizontalCollision(cur.(x := cur.x + input.xChange), g)
    ensures input.xChange == 0 && cur.y != 0 && ops.isIdentical(cur, cur) ==> Idle(cur, input, ops, g)
  {
  }

  /** A rotation that clears the floor, the walls and the settled cells is
      kept, after the fall, and the step moves the rotated piece. */
  lemma TickRotationKept(cur: Piece, input: TickInput, ops: PieceOps, g: Grid)
    requires input.rotate && !RotationCollides(ops.rotate(Fallen(cur, input, ops)), ops, g)
    ensures var r := ops.rotate(Fallen(cur, input, ops));
      && Proposed(cur, input, ops, g).shape == r.shape && Proposed(cur, input, ops, g).y == r.y
      && Proposed(cur, input, ops, g).x == r.x + input.xChange
  {
  }

  /** Without a rotation the tick is the fall followed by the step: only x
      changes by the step and y and the shape are those after the fall; a
      tick with neither fall nor step proposes the current piece, is never
      blocked, and is idle off row 0 when the identity test is reflexive. */
  lemma TickWithoutRotation(cur: Piece, input: TickInput, ops: PieceOps, g: Grid)
    requires !input.rotate
    ensures var f := Fallen(cur, input, ops);
      && Proposed(cur, input, ops, g).shape == f.shape && Proposed(cur, input, ops, g).y == f.y
      && Proposed(cur, input, ops, g).x == f.x + input.xChange
    ensures !input.pullReady && input.xChange == 0 ==>
      && Proposed(cur, input, ops, g) == cur && !Blocked(cur, input, ops, g)
      && (Idle(cur, input, ops, g) <==> cur.y != 0 && ops.isIdentical(cur, cur))
  {
  }

  /** The fall, rotation and horizontal step of one tick, up to the
      horizontal collision test (the first half of updateGridData together
      with checkHorizontalMovement). */
  method ProposeMove(cur: Piece, input: TickInput, ops: PieceOps, g: Grid)
    returns (piece: Piece, collidesHorizontally: bool)
    ensures piece == Proposed(cur, input, ops, g)
    ensures collidesHorizontally == Blocked(cur, input, ops, g)
    ensures input.xChange == 0 ==> !collidesHorizontally
    ensures input.rotate && RotationCollides(ops.rotate(Fallen(cur, input, ops)), ops, g) ==>
      piece == cur.(x := cur.x + input.xChange)
    ensures input.rotate && !RotationCollides(ops.rotate(Fallen(cur, input, ops)), ops, g) ==>
      var r := ops.rotate(Fallen(cur, input, ops)); piece == r.(x := r.x + input.xChange)
    ensures !input.rotate ==> var f := Fallen(cur, input, ops); piece == f.(x := f.x + input.xChange)
  {
    piece := cur;
    if input.pullReady {
      piece := ops.moveDown(piece);
    }
    if input.rotate {
      piece := ops.rotate(piece);
      var rotationCollides := ops.collidesWithFloor(piece) || ops.collidesWithWall(piece)
        || ops.collidesWithGridData(piece, g);
      if rotationCollides {
        piece := cur;
      }
    }
    collidesHorizontally := false;
    if input.xChange != 0 {
      piece := piece.(x := piece.x + input.xChange);
      collidesHorizontally := ops.checkHorizontalCollision(piece, g);
    }
  }

  /** The move at the end of a tick: p becomes the current piece and is
      rendered over the settled cells. */
  method ShowMovedPiece(gridData: GridData, p: Piece)
    requires gridData.Valid() && Fits(p, gridData.rows, gridData.cols)
    modifies gridData
    ensures gridData.Valid()
    ensures gridData.currentPiece == p && gridData.data == old(gridData.data)
    ensures fresh(gridData.combinedData) && Cells(gridData.combinedData) == Overlay(p, Cells(gridData.data))
    ensures gridData.dirty == old(gridData.dirty) && gridData.gameOver == old(gridData.gameOver)
  {
    gridData.currentPiece := p;
    var combinedData := AddMovingPieceToData(p, gridData.data);
    gridData.combinedData := combinedData;
  }

  /** The lock at the end of a tick: the current piece is rendered over the
      settled cells, the rendering becomes the settled cells, and the new
      piece is installed. */
  method LockPiece(gridData: GridData, newPiece: Piece)
    requires gridData.Valid() && Fits(newPiece, gridData.rows, gridData.cols)
    modifies gridData
    ensures gridData.Valid()
    ensures gridData.currentPiece == newPiece && gridData.data == gridData.combinedData
    ensures fresh(gridData.combinedData)
    ensures Cells(gridData.combinedData) == Overlay(old(gridData.currentPiece), old(Cells(gridData.data)))
    ensures gridData.dirty == old(gridData.dirty) && gridData.gameOver == old(gridData.gameOver)
  {
    var combinedData := AddMovingPieceToData(gridData.currentPiece, gridData.data);
    gridData.combinedData := combinedData;
    gridData.currentPiece := newPiece;
    gridData.data := combinedData;
  }

  /** updateGridData: one tick. Writing cur for the old current piece, G for
      the old settled cells and p for the proposed piece:
      - a horizontal collision ends the tick with nothing changed;
      - otherwise a vertical collision at the ceiling sets game over;
      - if cur is unchanged (and not on row 0) the tick only clears dirty;
      - without a vertical collision p becomes the current piece and the
        rendered cells are p over G;
      - with one, cur is locked in: the rendered cells, cur over G, become the
        settled cells and the new piece is installed. */
  method UpdateGridData(gridData: GridData, input: TickInput, ops: PieceOps, newPiece: Piece)
    requires gridData.Valid()
    requires VerticalCheckBounds(ops, gridData.rows, gridData.cols)
    requires Fits(newPiece, gridData.rows, gridData.cols)
    modifies gridData
    ensures gridData.Valid()
    ensures Blocked(old(gridData.currentPiece), input, ops, old(Cells(gridData.data))) ==>
      && gridData.data == old(gridData.data) && gridData.combinedData == old(gridData.combinedData)
      && gridData.currentPiece == old(gridData.currentPiece)
      && gridData.dirty == old(gridData.dirty) && gridData.gameOver == old(gridData.gameOver)
    ensures !Blocked(old(gridData.currentPiece), input, ops, old(Cells(gridData.data))) ==>
      var p := Proposed(old(gridData.currentPiece), input, ops, old(Cells(gridData.data)));
      var vertical := ops.checkVerticalCollision(p, old(Cells(gridData.data)));
      gridData.gameOver == (old(gridData.gameOver) || (vertical && ops.collidesWithCeil(p)))
    ensures
      && !Blocked(old(gridData.currentPiece), input, ops, old(Cells(gridData.data)))
      && Idle(old(gridData.currentPiece), input, ops, old(Cells(gridData.data))) ==>
      && !gridData.dirty
      && gridData.data == old(gridData.data) && gridData.combinedData == old(gridData.combinedData)
      && gridData.currentPiece == old(gridData.currentPiece)
    ensures
      && !Blocked(old(gridData.currentPiece), input, ops, old(Cells(gridData.data)))
      && !Idle(old(gridData.currentPiece), input, ops, old(Cells(gridData.data))) ==>
      var p := Proposed(old(gridData.currentPiece), input, ops, old(Cells(gridData.data)));
      var vertical := ops.checkVerticalCollision(p, old(Cells(gridData.data)));
      && gridData.dirty && fresh(gridData.combinedData)
      && (!vertical ==>
            && gridData.currentPiece == p && gridData.data == old(gridData.data)
            && Cells(gridData.combinedData) == Overlay(p, old(Cells(gridData.data))))
      && (vertical ==>
            && gridData.currentPiece == newPiece && gridData.data == gridData.combinedData
            && Cells(gridData.combinedData) == Overlay(old(gridData.currentPiece), old(Cells(gridData.data))))
  {
    var data := gridData.data;
    var g := Cells(data);
    var currentPiece := gridData.currentPiece;
    var piece, collidesHorizontally := ProposeMove(currentPiece, input, ops, g);
    if collidesHorizontally {
      return;
    }

    // checkVerticalMovement
    var collidesVertically := ops.checkVerticalCollision(piece, g);
    if collidesVertically && ops.collidesWithCeil(piece) {
      gridData.gameOver := true;
    }

    gridData.dirty := true;
    if currentPiece.y != 0 && ops.isIdentical(currentPiece, piece) {
      gridData.dirty := false;
      return;
    }

    if !collidesVertically {
      ShowMovedPiece(gridData, piece);
    } else {
      LockPiece(gridData, newPiece);
      return;
    }
    gridData.data := data;
  }
}
