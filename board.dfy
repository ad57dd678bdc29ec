/**
 * The board renderer of src/board.rs: the background is copied onto a
 * transparent image the size of the background, the spare width and height
 * of the content rectangle are divided into per-tile padding, and the tiles
 * are pasted row by row (rows are `chunks(cols)` of the tile sequence) at a
 * cursor that advances by one tile and one padding after each paste.
 *
 * The cursor's `x` is never reset at a row break; `Render` models that as
 * written and `RenderWithRowReset` the evidently intended placement.
 *
 * Every tile is drawn by the tile renderer with `board.tile_size` as its size
 * and the default render options.
 */
module Boards {
  import opened Pixels
  import opened Canvas
  import opened Tiles

  /** `(x1, y1, x2, y2)`: where on the background the tile grid is drawn. */
  datatype ContentRect = ContentRect(x1: U32, y1: U32, x2: U32, y2: U32)

  datatype Board = Board(
    rows: USize,
    cols: USize,
    contentRect: ContentRect,
    tileSize: U32,
    background: Dims,
    tiles: seq<Tile>)

  /** What was drawn onto the board's output image. */
  datatype BoardLayer =
    | Blank
    | BackgroundLayer
    /**
     * The image `TileRenderer::render` returned for tile `index`: a `size`
     * square holding `base` (the themed template) with `layers` drawn onto it.
     */
    | TileImage(index: nat, size: U32, base: TileLayer, layers: seq<Placement<TileLayer>>)

  function ContentWidth(b: Board): int {
    b.contentRect.x2 - b.contentRect.x1
  }

  function ContentHeight(b: Board): int {
    b.contentRect.y2 - b.contentRect.y1
  }

  /**
   * The boards for which the padding arithmetic does not underflow,
   * overflow or divide by zero: `cols as u32` and `rows as u32` are positive,
   * the rectangle is not inverted, and the grid of tiles fits in it.
   */
  predicate PaddingDefined(b: Board) {
    && b.contentRect.x1 <= b.contentRect.x2
    && b.contentRect.y1 <= b.contentRect.y2
    && AsU32(b.cols) > 0 && AsU32(b.rows) > 0
    && AsU32(b.cols) * b.tileSize <= ContentWidth(b)
    && AsU32(b.rows) * b.tileSize <= ContentHeight(b)
  }

  /** The spare part of `span` once `count` items of `size` are laid in it, shared out per item, remainder dropped. */
  function Pad(span: nat, count: nat, size: nat): nat
    requires count > 0 && count * size <= span
  {
    (span - count * size) / count
  }

  /** `x_pad`: the spare width shared out per column. */
  function XPad(b: Board): nat
    requires PaddingDefined(b)
  {
    Pad(ContentWidth(b), AsU32(b.cols), b.tileSize)
  }

  /** `y_pad`: the spare height shared out per row. */
  function YPad(b: Board): nat
    requires PaddingDefined(b)
  {
    Pad(ContentHeight(b), AsU32(b.rows), b.tileSize)
  }

  /** The padding is the largest that fits once per column and row; the remainder is left unused. */
  lemma {:induction false} PaddingRemainder(b: Board)
    requires PaddingDefined(b)
    ensures AsU32(b.cols) * XPad(b) <= ContentWidth(b) - AsU32(b.cols) * b.tileSize < AsU32(b.cols) * (XPad(b) + 1)
    ensures AsU32(b.rows) * YPad(b) <= ContentHeight(b) - AsU32(b.rows) * b.tileSize < AsU32(b.rows) * (YPad(b) + 1)
  {
    DivBracket(ContentWidth(b) - AsU32(b.cols) * b.tileSize, AsU32(b.cols));
    DivBracket(ContentHeight(b) - AsU32(b.rows) * b.tileSize, AsU32(b.rows));
  }

  /** How far the cursor moves after each tile, and after each row. */
  function XStep(b: Board): nat
    requires PaddingDefined(b)
  {
    b.tileSize + XPad(b)
  }

  function YStep(b: Board): nat
    requires PaddingDefined(b)
  {
    b.tileSize + YPad(b)
  }

  /** The number of chunks `chunks(size)` cuts `n` items into: `n / size` rounded up. */
  function ChunkCount(n: nat, size: nat): (c: nat)
    requires size > 0
  {
    (n + size - 1) / size
  }

  /** Every chunk but the last is full, and the last is not empty. */
  lemma {:induction false} ChunkCountBounds(n: nat, size: nat)
    requires size > 0
    ensures n == 0 ==> ChunkCount(n, size) == 0
    ensures n > 0 ==> (ChunkCount(n, size) - 1) * size < n <= ChunkCount(n, size) * size
  {
    DivBracket(n + size - 1, size);
  }

  /** The chunk of `chunks(size)` that item `k` falls in. */
  function ChunkIndex(k: nat, size: nat): nat
    requires size > 0
  {
    k / size
  }

  /** The quotient is the one multiple of `d` that brackets `a`. */
  lemma DivUnique(a: nat, d: nat, q: nat)
    requires d > 0 && q * d <= a < q * d + d
    ensures a / d == q
  {
    var r := a / d;
    if r < q {
      MulLe(r + 1, q, d);
    } else if r > q {
      MulLe(q + 1, r, d);
    }
  }

  /** Tile `k` lies in chunk `k / size`, at position `k % size` within it. */
  lemma ChunkOf(c: nat, j: nat, size: nat)
    requires j < size
    ensures ChunkIndex(c * size + j, size) == c && (c * size + j) % size == j
  {
    DivUnique(c * size + j, size, c);
  }

  /** Where `render` pastes tile `k`: `x` advances with every tile, `y` with every chunk. */
  function TileX(b: Board, k: nat): int
    requires PaddingDefined(b)
  {
    b.contentRect.x1 + k * XStep(b)
  }

  function RowY(b: Board, c: nat): int
    requires PaddingDefined(b)
  {
    b.contentRect.y1 + c * YStep(b)
  }

  function TileY(b: Board, k: nat): int
    requires PaddingDefined(b)
  {
    RowY(b, ChunkIndex(k, b.cols))
  }

  /**
   * The `u32` cursor never overflows: its last value, after every tile and
   * every chunk, is still a `u32`.
   */
  predicate CursorFits(b: Board)
    requires PaddingDefined(b)
  {
    TileX(b, |b.tiles|) < U32_LIMIT && RowY(b, ChunkCount(|b.tiles|, b.cols)) < U32_LIMIT
  }

  lemma XAdvance(b: Board, i: nat)
    requires PaddingDefined(b) && CursorFits(b) && i < |b.tiles|
    ensures TileX(b, i + 1) == TileX(b, i) + XStep(b) < U32_LIMIT
  {
    MulLe(i + 1, |b.tiles|, XStep(b));
  }

  lemma YAdvance(b: Board, c: nat)
    requires PaddingDefined(b) && CursorFits(b) && c < ChunkCount(|b.tiles|, b.cols)
    ensures RowY(b, c + 1) == RowY(b, c) + YStep(b) < U32_LIMIT
  {
    MulLe(c + 1, ChunkCount(|b.tiles|, b.cols), YStep(b));
  }

  /**
   * The tile image the board pastes for tile `k`: the tile renderer's output
   * at the board's tile size with the default options, as `Tiles.Render`
   * states it.
   */
  function TileImageOf(b: Board, k: nat, colours: DefaultColours, measure: string -> Dims): BoardLayer
    requires k < |b.tiles| && TileRenderable(b.tiles[k], b.tileSize, DefaultOptions(colours), measure)
  {
    var tile := b.tiles[k];
    var l := Layout(tile, b.tileSize, DefaultOptions(colours), NumberLabelSize(tile, measure), NameLabelSize(tile, measure));
    TileImage(k, b.tileSize, TemplateLayer(l.template), Pastes(tile, l))
  }

  predicate TilesRenderable(b: Board, colours: DefaultColours, measure: string -> Dims) {
    forall k | 0 <= k < |b.tiles| :: TileRenderable(b.tiles[k], b.tileSize, DefaultOptions(colours), measure)
  }

  /** Where and what `render` pastes for tile `k`. */
  function Placed(b: Board, k: nat, colours: DefaultColours, measure: string -> Dims): Placement<BoardLayer>
    requires PaddingDefined(b) && k < |b.tiles|
    requires TileRenderable(b.tiles[k], b.tileSize, DefaultOptions(colours), measure)
  {
    Placement(TileX(b, k), TileY(b, k), b.tileSize, b.tileSize, TileImageOf(b, k, colours, measure))
  }

  lemma DivMonotone(a: nat, b: nat, d: nat)
    requires d > 0 && a <= b
    ensures a / d <= b / d
  {
    DivBracket(a, d);
    DivBracket(b, d);
    if a / d > b / d {
      MulLe(b / d + 1, a / d, d);
    }
  }

  /** A count that ends in the chunk after the first `q` full ones gives `q + 1` chunks. */
  lemma ChunkCountInChunk(q: nat, size: nat, m: nat)
    requires size > 0 && q * size < m <= q * size + size
    ensures ChunkCount(m, size) == q + 1
  {
    assert (q + 1) * size == q * size + size;
    DivUnique(m + size - 1, size, q + 1);
  }

  /**
   * After chunk `c` (which starts at tile `c * size` and ends at the next
   * chunk boundary or at `n`), `c + 1` chunks are done and none is past the last.
   */
  lemma {:induction false} ChunkAdvance(c: nat, size: nat, n: nat, start: nat, next: nat)
    requires size > 0 && start == c * size && start < n
    requires next == if start + size < n then start + size else n
    ensures next < n ==> next == (c + 1) * size
    ensures ChunkCount(next, size) == c + 1
    ensures c + 1 <= ChunkCount(n, size)
  {
    assert (c + 1) * size == start + size;
    ChunkCountInChunk(c, size, next);
    DivMonotone(next + size - 1, n + size - 1, size);
  }

  /** `TileRenderer::render` on tile `k`, as the board calls it. */
  method RenderTile(board: Board, k: nat, tile: Tile, colours: DefaultColours, measure: string -> Dims) returns (layer: BoardLayer)
    requires k < |board.tiles| && tile == board.tiles[k]
    requires TileRenderable(tile, board.tileSize, DefaultOptions(colours), measure)
    ensures layer == TileImageOf(board, k, colours, measure)
  {
    var o := DefaultOptions(colours);
    var tileImage := Tiles.Render(tile, board.tileSize, o, measure);
    layer := TileImage(k, tileImage.width, tileImage.base, tileImage.layers);
  }

  /** Where one pass of the inner loop pastes tile `i` of the chunk `start ..`, whose first tile is at column position `first`. */
  function ChunkPlacement(b: Board, chunk: nat, start: nat, first: nat, i: nat, colours: DefaultColours, measure: string -> Dims)
    : Placement<BoardLayer>
    requires PaddingDefined(b) && start <= i < |b.tiles|
    requires TileRenderable(b.tiles[i], b.tileSize, DefaultOptions(colours), measure)
  {
    Placement(TileX(b, first + (i - start)), RowY(b, chunk), b.tileSize, b.tileSize, TileImageOf(b, i, colours, measure))
  }

  /**
   * One pass of `render`'s inner loop: the tiles of the chunk `start .. next`
   * pasted one after another at the cursor, whose `x` starts at column
   * `first`'s position and moves on by a tile and a padding after each paste.
   */
  method PasteChunk(image: Composition<BoardLayer>, board: Board, colours: DefaultColours, measure: string -> Dims,
                    ghost chunk: nat, start: nat, next: nat, ghost first: nat, x0: U32, y: U32) returns (x: U32)
    requires PaddingDefined(board) && CursorFits(board)
    requires start <= next <= |board.tiles| && first + (next - start) <= |board.tiles|
    requires forall i | start <= i < next :: TileRenderable(board.tiles[i], board.tileSize, DefaultOptions(colours), measure)
    requires x0 == TileX(board, first) && y == RowY(board, chunk)
    requires |image.layers| == start + 1
    modifies image
    ensures x == TileX(board, first + (next - start))
    ensures |image.layers| == next + 1
    ensures forall i | 0 <= i <= start :: image.layers[i] == old(image.layers[i])
    ensures forall i | start <= i < next :: image.layers[i + 1] == ChunkPlacement(board, chunk, start, first, i, colours, measure)
  {
    x := x0;
    var k := start;
    while k < next
      invariant start <= k <= next
      invariant x == TileX(board, first + (k - start))
      invariant |image.layers| == k + 1
      invariant forall i | 0 <= i <= start :: image.layers[i] == old(image.layers[i])
      invariant forall i | start <= i < k :: image.layers[i + 1] == ChunkPlacement(board, chunk, start, first, i, colours, measure)
    {
      var tileImage := RenderTile(board, k, board.tiles[k], colours, measure);
      var pasted := Placement(x, y, board.tileSize, board.tileSize, tileImage);
      ghost var before := image.layers;
      image.Draw(pasted);
      ChunkGrows(board, colours, measure, chunk, start, first, k, before, pasted);
      XAdvance(board, first + (k - start));
      x := x + (board.tileSize + XPad(board));
      k := k + 1;
    }
  }

  /** Appending tile `k`'s paste extends the pastes of the chunk's tiles before it by one. */
  lemma ChunkGrows(board: Board, colours: DefaultColours, measure: string -> Dims, chunk: nat, start: nat, first: nat, k: nat,
                   before: seq<Placement<BoardLayer>>, pasted: Placement<BoardLayer>)
    requires PaddingDefined(board) && start <= k < |board.tiles| && |before| == k + 1
    requires forall i | start <= i <= k :: TileRenderable(board.tiles[i], board.tileSize, DefaultOptions(colours), measure)
    requires forall i | start <= i < k :: before[i + 1] == ChunkPlacement(board, chunk, start, first, i, colours, measure)
    requires pasted == ChunkPlacement(board, chunk, start, first, k, colours, measure)
    ensures forall i | start <= i <= k :: (before + [pasted])[i + 1] == ChunkPlacement(board, chunk, start, first, i, colours, measure)
  {
    forall i | start <= i <= k
      ensures (before + [pasted])[i + 1] == ChunkPlacement(board, chunk, start, first, i, colours, measure)
    {
      if i < k {
        assert (before + [pasted])[i + 1] == before[i + 1];
      }
    }
  }

  /** Where the renderer with the row reset pastes tile `k`: at its column's position in its row. */
  function PlacedWithRowReset(b: Board, k: nat, colours: DefaultColours, measure: string -> Dims): Placement<BoardLayer>
    requires PaddingDefined(b) && k < |b.tiles|
    requires TileRenderable(b.tiles[k], b.tileSize, DefaultOptions(colours), measure)
  {
    Placement(TileX(b, k % b.cols), TileY(b, k), b.tileSize, b.tileSize, TileImageOf(b, k, colours, measure))
  }

  /**
   * Tile `i` of the chunk that starts at tile `chunk * cols` is in row `chunk`
   * and column `i - chunk * cols`: a pass whose cursor starts at that tile's
   * own position pastes it where `Placed` says, and one whose cursor starts at
   * the left edge where `PlacedWithRowReset` says.
   */
  lemma ChunkPlacementInGrid(b: Board, chunk: nat, start: nat, i: nat, colours: DefaultColours, measure: string -> Dims)
    requires PaddingDefined(b) && start == chunk * b.cols && start <= i < start + b.cols && i < |b.tiles|
    requires TileRenderable(b.tiles[i], b.tileSize, DefaultOptions(colours), measure)
    ensures ChunkPlacement(b, chunk, start, start, i, colours, measure) == Placed(b, i, colours, measure)
    ensures ChunkPlacement(b, chunk, start, 0, i, colours, measure) == PlacedWithRowReset(b, i, colours, measure)
  {
    ChunkOf(chunk, i - start, b.cols);
  }

  /**
   * `BoardRenderer::render`: an image exactly the background's size holding
   * the background, then every tile in sequence order at `TileX`, `TileY`.
   */
  method Render(board: Board, colours: DefaultColours, measure: string -> Dims) returns (image: Composition<BoardLayer>)
    requires PaddingDefined(board) && CursorFits(board)
    requires TilesRenderable(board, colours, measure)
    ensures fresh(image)
    ensures image.width == board.background.width && image.height == board.background.height
    ensures image.base == Blank
    ensures |image.layers| == |board.tiles| + 1
    ensures image.layers[0] == Placement(0, 0, board.background.width, board.background.height, BackgroundLayer)
    ensures forall k | 0 <= k < |board.tiles| :: image.layers[k + 1] == Placed(board, k, colours, measure)
  {
    image := new Composition(board.background.width, board.background.height, Blank);
    var background := Placement(0, 0, board.background.width, board.background.height, BackgroundLayer);
    image.Draw(background);
    var n := |board.tiles|;
    var x: U32 := board.contentRect.x1;
    var y: U32 := board.contentRect.y1;
    var k := 0;                // tiles pasted so far
    ghost var chunk := 0;      // chunks finished so far
    ChunkCountBounds(0, board.cols);
    while k < n
      invariant k <= n
      invariant k < n ==> k == chunk * board.cols
      invariant chunk == ChunkCount(k, board.cols)
      invariant x == TileX(board, k) && y == RowY(board, chunk)
      invariant |image.layers| == k + 1 && image.layers[0] == background
      invariant forall i | 0 <= i < k :: image.layers[i + 1] == Placed(board, i, colours, measure)
    {
      var next := if k + board.cols < n then k + board.cols else n;
      ChunkAdvance(chunk, board.cols, n, k, next);
      ghost var before := image.layers;
      x := PasteChunk(image, board, colours, measure, chunk, k, next, k, x, y);
      forall i | 0 <= i < next
        ensures image.layers[i + 1] == Placed(board, i, colours, measure)
      {
        if i < k {
          assert image.layers[i + 1] == before[i + 1];
        } else {
          ChunkPlacementInGrid(board, chunk, k, i, colours, measure);
        }
      }
      assert image.layers[0] == before[0];
      YAdvance(board, chunk);
      y := y + (board.tileSize + YPad(board));
      k := next;
      chunk := chunk + 1;
    }
  }

  /**
   * `render` with the cursor's `x` set back to the content rectangle's left
   * edge at the start of every chunk: tile `k` goes to column `k % cols` of
   * row `k / cols`.
   */
  method RenderWithRowReset(board: Board, colours: DefaultColours, measure: string -> Dims) returns (image: Composition<BoardLayer>)
    requires PaddingDefined(board) && CursorFits(board)
    requires TilesRenderable(board, colours, measure)
    ensures fresh(image)
    ensures image.width == board.background.width && image.height == board.background.height
    ensures image.base == Blank
    ensures |image.layers| == |board.tiles| + 1
    ensures image.layers[0] == Placement(0, 0, board.background.width, board.background.height, BackgroundLayer)
    ensures forall k | 0 <= k < |board.tiles| :: image.layers[k + 1] == PlacedWithRowReset(board, k, colours, measure)
  {
    image := new Composition(board.background.width, board.background.height, Blank);
    var background := Placement(0, 0, board.background.width, board.background.height, BackgroundLayer);
    image.Draw(background);
    var n := |board.tiles|;
    var y: U32 := board.contentRect.y1;
    var k := 0;
    ghost var chunk := 0;
    ChunkCountBounds(0, board.cols);
    while k < n
      invariant k <= n
      invariant k < n ==> k == chunk * board.cols
      invariant chunk == ChunkCount(k, board.cols)
      invariant y == RowY(board, chunk)
      invariant |image.layers| == k + 1 && image.layers[0] == background
      invariant forall i | 0 <= i < k :: image.layers[i + 1] == PlacedWithRowReset(board, i, colours, measure)
    {
      var next := if k + board.cols < n then k + board.cols else n;
      ChunkAdvance(chunk, board.cols, n, k, next);
      ghost var before := image.layers;
      var x: U32 := board.contentRect.x1;
      x := PasteChunk(image, board, colours, measure, chunk, k, next, 0, x, y);
      forall i | 0 <= i < next
        ensures image.layers[i + 1] == PlacedWithRowReset(board, i, colours, measure)
      {
        if i < k {
          assert image.layers[i + 1] == before[i + 1];
        } else {
          ChunkPlacementInGrid(board, chunk, k, i, colours, measure);
        }
      }
      assert image.layers[0] == before[0];
      YAdvance(board, chunk);
      y := y + (board.tileSize + YPad(board));
      k := next;
      chunk := chunk + 1;
    }
  }

  function ContentArea(b: Board): Rect {
    Rect(b.contentRect.x1, b.contentRect.y1, b.contentRect.x2, b.contentRect.y2)
  }

  /** The square tile `k` covers when pasted by `render`, and by the renderer with the row reset. */
  function TileBox(b: Board, k: nat): Box
    requires PaddingDefined(b)
  {
    Box(TileX(b, k), TileY(b, k), b.tileSize, b.tileSize)
  }

  function TileBoxWithRowReset(b: Board, k: nat): Box
    requires PaddingDefined(b)
  {
    Box(TileX(b, k % b.cols), TileY(b, k), b.tileSize, b.tileSize)
  }

  /** Item `i` of `count` equal steps of `size + pad` ends within `count * (size + pad)`. */
  lemma {:induction false} GridFits(i: nat, count: nat, size: nat, pad: nat, span: int)
    requires i < count && count * size + count * pad <= span
    ensures i * (size + pad) + size <= span
  {
    MulLe(i + 1, count, size + pad);
    assert (i + 1) * (size + pad) == i * (size + pad) + size + pad;
    assert count * (size + pad) == count * size + count * pad;
  }

  /** The tiles and their paddings together fit the content rectangle on both axes. */
  lemma PaddingFits(b: Board)
    requires PaddingDefined(b)
    ensures AsU32(b.cols) * b.tileSize + AsU32(b.cols) * XPad(b) <= ContentWidth(b)
    ensures AsU32(b.rows) * b.tileSize + AsU32(b.rows) * YPad(b) <= ContentHeight(b)
  {
    PaddingRemainder(b);
  }

  /** Every one of the `cols as u32` columns lies within the content rectangle's width. */
  lemma {:induction false} ColumnsFit(b: Board, c: nat)
    requires PaddingDefined(b) && c < AsU32(b.cols)
    ensures b.contentRect.x1 <= TileX(b, c) && TileX(b, c) + b.tileSize <= b.contentRect.x2
  {
    var n, pad := AsU32(b.cols), XPad(b);
    PaddingFits(b);
    GridFits(c, n, b.tileSize, pad, ContentWidth(b));
    assert TileX(b, c) == b.contentRect.x1 + c * (b.tileSize + pad);
  }

  /** Every one of the `rows as u32` rows lies within the content rectangle's height. */
  lemma {:induction false} RowsFit(b: Board, r: nat)
    requires PaddingDefined(b) && r < AsU32(b.rows)
    ensures b.contentRect.y1 <= RowY(b, r) && RowY(b, r) + b.tileSize <= b.contentRect.y2
  {
    var n, pad := AsU32(b.rows), YPad(b);
    PaddingFits(b);
    GridFits(r, n, b.tileSize, pad, ContentHeight(b));
    assert RowY(b, r) == b.contentRect.y1 + r * (b.tileSize + pad);
  }

  /**
   * With the row reset, every tile of a board of at most `rows * cols` tiles
   * (both below 2^32) is drawn inside the content rectangle.
   */
  lemma {:induction false} RowResetTilesInsideContent(b: Board, k: nat)
    requires PaddingDefined(b) && b.rows < U32_LIMIT && b.cols < U32_LIMIT
    requires k < |b.tiles| <= b.rows * b.cols
    ensures Inside(TileBoxWithRowReset(b, k), ContentArea(b))
  {
    ColumnsFit(b, k % b.cols);
    var r := ChunkIndex(k, b.cols);
    if r >= b.rows {
      DivBracket(k, b.cols);
      MulLe(b.rows, r, b.cols);
    }
    RowsFit(b, r);
  }

  /** Item `i` of a run of equal steps of `size + pad` ends before item `j > i` starts. */
  lemma StepsApart(i: nat, j: nat, size: nat, pad: nat)
    requires i < j
    ensures i * (size + pad) + size <= j * (size + pad)
  {
    MulLe(i + 1, j, size + pad);
  }

  /**
   * As written, tiles never overlap either: each is pasted strictly to the
   * right of every tile before it, since `x` only ever grows by at least a
   * tile's width.
   */
  lemma {:induction false} TilesDisjoint(b: Board, k1: nat, k2: nat)
    requires PaddingDefined(b) && k1 < k2
    ensures var p, q := TileBox(b, k1), TileBox(b, k2);
      p.x + p.width <= q.x
  {
    StepsApart(k1, k2, b.tileSize, XPad(b));
  }

  /** With the row reset, two different tiles never overlap: they are in different columns or different rows. */
  lemma {:induction false} RowResetTilesDisjoint(b: Board, k1: nat, k2: nat)
    requires PaddingDefined(b) && k1 < k2
    ensures var p, q := TileBoxWithRowReset(b, k1), TileBoxWithRowReset(b, k2);
      || p.x + p.width <= q.x
      || p.y + p.height <= q.y
  {
    var c := b.cols;
    var r1, r2 := ChunkIndex(k1, c), ChunkIndex(k2, c);
    DivMonotone(k1, k2, c);
    if r1 == r2 {
      assert k1 % c < k2 % c;
      StepsApart(k1 % c, k2 % c, b.tileSize, XPad(b));
    } else {
      StepsApart(r1, r2, b.tileSize, YPad(b));
    }
  }

  /**
   * As written, the cursor's `x` carries on past the last column: the first
   * tile of the second chunk starts fewer than `cols` pixels before the
   * content rectangle's right edge, and so lies beyond it for any tile at
   * least `cols` pixels wide.
   */
  lemma {:induction false} SecondRowStartsAtRightEdge(b: Board)
    requires PaddingDefined(b) && b.cols < U32_LIMIT
    ensures b.contentRect.x2 - b.cols < TileX(b, b.cols) <= b.contentRect.x2
  {
    PaddingRemainder(b);
    assert b.cols * XStep(b) == b.cols * b.tileSize + b.cols * XPad(b);
  }

  /**
   * A 2 by 2 board of 50-pixel tiles in a 200-pixel content square: `render`
   * pastes its third tile at (200, 100), wholly right of the content; with
   * the row reset it goes to (0, 100).
   */
  lemma ExampleThirdTileMisplaced(b: Board)
    requires b.rows == 2 && b.cols == 2 && b.tileSize == 50 && b.contentRect == ContentRect(0, 0, 200, 200)
    ensures PaddingDefined(b) && XPad(b) == 50 && YPad(b) == 50
    ensures TileBox(b, 2) == Box(200, 100, 50, 50)
    ensures !Inside(TileBox(b, 2), ContentArea(b))
    ensures TileBoxWithRowReset(b, 2) == Box(0, 100, 50, 50)
    ensures Inside(TileBoxWithRowReset(b, 2), ContentArea(b))
  {
    assert AsU32(2) == 2;
    assert Pad(200, 2, 50) == 50;
    assert XStep(b) == 100 && YStep(b) == 100;
    ChunkOf(1, 0, 2);
  }
}
