/**
 * The board builder of src/builder.rs: a board description is checked (tile
 * count, consecutive tile numbers, content rectangle against the background
 * image) and turned into a `Boards.Board` whose images are loaded through a
 * loader given as a parameter.
 *
 * The products `rows * cols` (`usize`) and `tile_size * cols as u32`
 * (`u32`) panic on overflow in a debug build; the model reports that panic as
 * the outcome `Overflow`.
 */
module Builder {
  import opened Wrappers
  import opened Pixels
  import opened Errors
  import opened Tiles
  import opened Boards

  datatype BuilderError =
    | Wrapped(cause: AppError)
    | WrongNumberOfTiles(expected: USize, actual: nat)
    | MissingTiles(missing: set<U8>)
    | UnexpectedTiles(unexpected: set<U8>)
    | InvalidDimensions(width: U32, height: U32, contentRect: ContentRect)
    /** Not a variant of `BoardBuilderError`: the panic of an overflowing `*`. */
    | Overflow

  /** `TileBuilder`: a tile as described, its icon still to be loaded from `image`. */
  datatype TileSpec = TileSpec(number: U8, name: string, image: string, unlocked: bool)

  /** `BoardBuilder`, less the render options no board carries. */
  datatype BoardSpec = BoardSpec(
    rows: USize,
    cols: USize,
    contentRect: ContentRect,
    tileSize: U32,
    image: string,
    tiles: seq<TileSpec>)

  /** Loads an image from a location, giving its dimensions or the error. */
  type Loader = string -> Result<Dims, AppError>

  // ---------------------------------------------------------------- tile count

  /** `validate_tile_count`: the board holds exactly `rows * cols` tiles. */
  function ValidateTileCount(rows: USize, cols: USize, tiles: seq<TileSpec>): (r: Outcome<BuilderError>)
    ensures rows * cols >= USIZE_LIMIT ==> r == Fail(Overflow)
    ensures rows * cols < USIZE_LIMIT ==> (r == Pass <==> |tiles| == rows * cols)
    ensures rows * cols < USIZE_LIMIT && |tiles| != rows * cols ==> r == Fail(WrongNumberOfTiles(rows * cols, |tiles|))
  {
    if rows * cols >= USIZE_LIMIT then
      Fail(Overflow)
    else
      var expected: USize := rows * cols;
      if expected != |tiles| then Fail(WrongNumberOfTiles(expected, |tiles|)) else Pass
  }

  // -------------------------------------------------------------- tile numbers

  function Numbers(tiles: seq<TileSpec>): (ns: seq<U8>)
    ensures |ns| == |tiles| && forall i | 0 <= i < |tiles| :: ns[i] == tiles[i].number
  {
    seq(|tiles|, i requires 0 <= i < |tiles| => tiles[i].number)
  }

  /** `(1..=n).map(|x| x as u8)`: the numbers 1 to `n`, each cut to its low byte. */
  function Initial(n: nat): set<U8> {
    set x: nat | 1 <= x <= n :: (x % 256) as U8
  }

  function Values(ns: seq<U8>): set<U8> {
    set v | v in ns
  }

  /**
   * The numbers `validate_tile_numbers` reports as unexpected: those outside
   * the expected ones, and those that occur more than once.
   */
  function Unexpected(ns: seq<U8>): set<U8> {
    set v | v in ns && (v !in Initial(|ns|) || multiset(ns)[v] >= 2)
  }

  /** The expected numbers that no tile carries. */
  function Missing(ns: seq<U8>): set<U8> {
    set v | v in Initial(|ns|) && v !in ns
  }

  predicate Distinct(ns: seq<U8>) {
    forall i, j | 0 <= i < j < |ns| :: ns[i] != ns[j]
  }

  /** The expected numbers still in `missing` after the first `i` tiles. */
  function MissingAfter(ns: seq<U8>, i: nat): set<U8>
    requires i <= |ns|
  {
    set v | v in Initial(|ns|) && v !in ns[..i]
  }

  /** The numbers in `unexpected` after the first `i` tiles. */
  function UnexpectedAfter(ns: seq<U8>, i: nat): set<U8>
    requires i <= |ns|
  {
    set v | v in ns[..i] && (v !in Initial(|ns|) || multiset(ns[..i])[v] >= 2)
  }

  /** One tile's number is either taken out of `missing` or added to `unexpected`. */
  lemma {:induction false} ScanStep(ns: seq<U8>, i: nat)
    requires i < |ns|
    ensures ns[i] in MissingAfter(ns, i) ==>
      MissingAfter(ns, i + 1) == MissingAfter(ns, i) - {ns[i]} && UnexpectedAfter(ns, i + 1) == UnexpectedAfter(ns, i)
    ensures ns[i] !in MissingAfter(ns, i) ==>
      MissingAfter(ns, i + 1) == MissingAfter(ns, i) && UnexpectedAfter(ns, i + 1) == UnexpectedAfter(ns, i) + {ns[i]}
  {
    assert ns[..i + 1] == ns[..i] + [ns[i]];
  }

  /**
   * `validate_tile_numbers`: every tile's number is taken out of the set of
   * expected numbers; one that is not there (out of range, or taken already)
   * goes into the unexpected set. Unexpected numbers are reported first.
   */
  method ValidateTileNumbers(tiles: seq<TileSpec>) returns (r: Outcome<BuilderError>)
    ensures Unexpected(Numbers(tiles)) != {} ==> r == Fail(UnexpectedTiles(Unexpected(Numbers(tiles))))
    ensures Unexpected(Numbers(tiles)) == {} && Missing(Numbers(tiles)) != {} ==> r == Fail(MissingTiles(Missing(Numbers(tiles))))
    ensures r == Pass <==> Unexpected(Numbers(tiles)) == {} && Missing(Numbers(tiles)) == {}
  {
    ghost var ns := Numbers(tiles);
    var n := |tiles|;
    var missing := Initial(n);
    var unexpected: set<U8> := {};
    var i := 0;
    assert ns[..0] == [];
    while i < n
      invariant i <= n
      invariant missing == MissingAfter(ns, i) && unexpected == UnexpectedAfter(ns, i)
    {
      var number := tiles[i].number;
      ScanStep(ns, i);
      if number in missing {
        missing := missing - {number};
      } else {
        unexpected := unexpected + {number};
      }
      i := i + 1;
    }
    assert ns[..n] == ns;
    if unexpected != {} {
      return Fail(UnexpectedTiles(unexpected));
    }
    if missing != {} {
      return Fail(MissingTiles(missing));
    }
    return Pass;
  }

  // ------------------------------------------------------- counting the numbers

  lemma {:induction false} InitialStep(n: nat)
    requires n > 0
    ensures Initial(n) == Initial(n - 1) + {(n % 256) as U8}
  {
    forall v | v in Initial(n)
      ensures v in Initial(n - 1) + {(n % 256) as U8}
    {
      var x: nat :| 1 <= x <= n && (x % 256) as U8 == v;
      if x < n {
        assert v in Initial(n - 1);
      }
    }
  }

  /** There are at most `n` expected numbers: the cut to a byte may merge some. */
  lemma {:induction false} InitialCard(n: nat)
    ensures |Initial(n)| <= n
  {
    if n == 0 {
      assert Initial(0) == {};
    } else {
      InitialStep(n);
      InitialCard(n - 1);
    }
  }

  /** Every byte is reached by one of the numbers 1 to 256, so no byte set is larger than `Initial(256)`. */
  lemma {:induction false} InitialWithin256(n: nat)
    ensures Initial(n) <= Initial(256)
  {
    forall v | v in Initial(n)
      ensures v in Initial(256)
    {
      ByteInitial(v);
    }
  }

  lemma ByteInitial(v: U8)
    ensures v in Initial(256)
  {
    if v == 0 {
      assert (256 % 256) as U8 == v;
    } else {
      assert (v % 256) as U8 == v;
    }
  }

  /** For `n <= 255` no number is cut: the expected numbers are exactly 1 to `n`. */
  lemma {:induction false} InitialSmall(n: nat, v: U8)
    requires n <= 255
    ensures v in Initial(n) <==> 1 <= v <= n
  {
    if 1 <= v <= n {
      assert (v % 256) as U8 == v;
    }
  }

  lemma {:induction false} SubsetCard(a: set<U8>, b: set<U8>)
    requires a <= b
    ensures |a| <= |b|
    ensures |a| == |b| ==> a == b
  {
    assert b == a + (b - a);
    assert a * (b - a) == {};
    if |a| == |b| {
      assert |b - a| == 0;
    }
  }

  /** A number occurring once in the sequence occurs once in its multiset, and conversely for every number. */
  lemma {:induction false} DistinctCounts(ns: seq<U8>)
    ensures Distinct(ns) <==> forall v :: multiset(ns)[v] <= 1
  {
    if ns == [] {
    } else {
      var t := ns[1..];
      assert ns == [ns[0]] + t;
      DistinctCounts(t);
      if Distinct(ns) {
        forall j | 0 <= j < |t| ensures t[j] != ns[0] {
          assert t[j] == ns[j + 1];
        }
        assert Distinct(t) by {
          forall i, j | 0 <= i < j < |t| ensures t[i] != t[j] {
            assert t[i] == ns[i + 1] && t[j] == ns[j + 1];
          }
        }
      } else {
        var i, j :| 0 <= i < j < |ns| && ns[i] == ns[j];
        if i == 0 {
          assert ns[j] == t[j - 1];
          assert multiset(ns)[ns[0]] >= 2;
        } else {
          assert t[i - 1] == ns[i] && t[j - 1] == ns[j];
          assert !Distinct(t);
          var v :| multiset(t)[v] > 1;
          assert multiset(ns)[v] >= multiset(t)[v];
        }
      }
    }
  }

  /** A sequence without repeats has as many values as elements. */
  lemma {:induction false} DistinctCard(ns: seq<U8>)
    requires Distinct(ns)
    ensures |Values(ns)| == |ns|
  {
    if ns == [] {
      assert Values(ns) == {};
    } else {
      var t := ns[1..];
      assert Distinct(t) by {
        forall i, j | 0 <= i < j < |t| ensures t[i] != t[j] {
          assert t[i] == ns[i + 1] && t[j] == ns[j + 1];
        }
      }
      DistinctCard(t);
      assert Values(ns) == Values(t) + {ns[0]};
      forall j | 0 <= j < |t| ensures t[j] != ns[0] {
        assert t[j] == ns[j + 1];
      }
    }
  }

  /** With no unexpected number, every number is expected and none repeats. */
  lemma {:induction false} NoneUnexpected(ns: seq<U8>)
    requires Unexpected(ns) == {}
    ensures Distinct(ns) && Values(ns) <= Initial(|ns|)
  {
    forall v ensures multiset(ns)[v] <= 1 {
      assert v !in Unexpected(ns);
    }
    DistinctCounts(ns);
    forall v | v in Values(ns) ensures v in Initial(|ns|) {
      assert v !in Unexpected(ns);
    }
  }

  /**
   * The `MissingTiles` error is never reported: once no number is
   * unexpected, the `n` distinct numbers fill the at most `n` expected ones.
   */
  lemma {:induction false} MissingNeverReported(ns: seq<U8>)
    requires Unexpected(ns) == {}
    ensures Missing(ns) == {}
  {
    NoneUnexpected(ns);
    DistinctCard(ns);
    InitialCard(|ns|);
    SubsetCard(Values(ns), Initial(|ns|));
    forall v ensures v !in Missing(ns) {
      assert v in Initial(|ns|) ==> v in Values(ns);
    }
  }

  /** Numbers that pass are distinct bytes, so there are at most 256 of them. */
  lemma {:induction false} PassingCountAtMost256(ns: seq<U8>)
    requires Unexpected(ns) == {}
    ensures |ns| <= 256
  {
    NoneUnexpected(ns);
    DistinctCard(ns);
    InitialWithin256(|ns|);
    InitialCard(256);
    SubsetCard(Values(ns), Initial(256));
  }

  /** For at most 255 tiles the numbers pass exactly when they are 1 to `n`, each once. */
  lemma {:induction false} NumbersPassIff(ns: seq<U8>)
    requires |ns| <= 255
    ensures Unexpected(ns) == {} && Missing(ns) == {} <==>
      Distinct(ns) && forall i | 0 <= i < |ns| :: 1 <= ns[i] <= |ns|
  {
    if Unexpected(ns) == {} {
      NoneUnexpected(ns);
      forall i | 0 <= i < |ns| ensures 1 <= ns[i] <= |ns| {
        assert ns[i] in Values(ns);
        InitialSmall(|ns|, ns[i]);
      }
    }
    if Distinct(ns) && forall i | 0 <= i < |ns| :: 1 <= ns[i] <= |ns| {
      DistinctCounts(ns);
      forall v ensures v !in Unexpected(ns) {
        InitialSmall(|ns|, v);
      }
      MissingNeverReported(ns);
    }
  }

  /**
   * At 256 tiles the cut to a byte makes 0 an expected number: the 256 tiles
   * numbered 0 to 255 pass.
   */
  lemma {:induction false} AllBytesPass(ns: seq<U8>)
    requires |ns| == 256 && forall i | 0 <= i < 256 :: ns[i] == i
    ensures Unexpected(ns) == {} && Missing(ns) == {}
  {
    assert Distinct(ns);
    DistinctCounts(ns);
    forall v: U8 ensures v !in Unexpected(ns) {
      ByteInitial(v);
    }
    MissingNeverReported(ns);
  }

  // -------------------------------------------------------------------- sorting

  predicate SortedByNumber(tiles: seq<TileSpec>) {
    forall i, j | 0 <= i < j < |tiles| :: tiles[i].number <= tiles[j].number
  }

  /**
   * `tiles.sort_by(|a, b| a.number.cmp(&b.number))`, as an insertion sort:
   * each tile is moved left past the tiles with a larger number.
   */
  method SortByNumber(a: array<TileSpec>)
    modifies a
    ensures SortedByNumber(a[..])
    ensures multiset(a[..]) == multiset(old(a[..]))
  {
    var i := 0;
    while i < a.Length
      invariant i <= a.Length
      invariant SortedByNumber(a[..i])
      invariant multiset(a[..]) == multiset(old(a[..]))
    {
      InsertLast(a, i);
      i := i + 1;
    }
  }

  /**
   * `s[..i + 1]` is sorted but for the tile at `j`, which has a smaller
   * number than every tile after it.
   */
  predicate Inserting(s: seq<TileSpec>, i: nat, j: nat)
    requires j <= i < |s|
  {
    && (forall p, q | 0 <= p < q <= i && p != j && q != j :: s[p].number <= s[q].number)
    && (forall q | j < q <= i :: s[j].number < s[q].number)
  }

  /** One swap of the inserted tile with its larger left neighbour. */
  method SwapDown(a: array<TileSpec>, i: nat, j: nat)
    requires 0 < j <= i < a.Length && Inserting(a[..], i, j) && a[j - 1].number > a[j].number
    modifies a
    ensures Inserting(a[..], i, j - 1)
    ensures multiset(a[..]) == multiset(old(a[..]))
  {
    a[j - 1], a[j] := a[j], a[j - 1];
  }

  /** Moves `a[i]` left into the sorted prefix `a[..i]`. */
  method InsertLast(a: array<TileSpec>, i: nat)
    requires i < a.Length && SortedByNumber(a[..i])
    modifies a
    ensures SortedByNumber(a[..i + 1])
    ensures multiset(a[..]) == multiset(old(a[..]))
  {
    var j := i;
    while j > 0 && a[j - 1].number > a[j].number
      invariant 0 <= j <= i
      invariant Inserting(a[..], i, j)
      invariant multiset(a[..]) == multiset(old(a[..]))
    {
      SwapDown(a, i, j);
      j := j - 1;
    }
  }

  /** Sorted numbers without repeats, all between 1 and `n`, are 1 to `n` in order. */
  lemma {:induction false} SortedNumbersConsecutive(ns: seq<U8>)
    requires Distinct(ns) && forall i | 0 <= i < |ns| :: 1 <= ns[i] <= |ns|
    requires forall i, j | 0 <= i < j < |ns| :: ns[i] <= ns[j]
    ensures forall i | 0 <= i < |ns| :: ns[i] == i + 1
  {
    forall i | 0 <= i < |ns|
      ensures ns[i] == i + 1
    {
      IncreasingGap(ns, 0, i);
      IncreasingGap(ns, i, |ns| - 1);
    }
  }

  lemma {:induction false} IncreasingGap(ns: seq<U8>, i: nat, j: nat)
    requires Distinct(ns) && forall p, q | 0 <= p < q < |ns| :: ns[p] <= ns[q]
    requires i <= j < |ns|
    ensures ns[j] - ns[i] >= j - i
    decreases j - i
  {
    if i < j {
      IncreasingGap(ns, i + 1, j);
    }
  }

  /**
   * After the sort, tiles whose numbers pass the check are numbered 1 to `n`
   * in sequence order, so the board's row-major order is the numbering.
   */
  lemma {:induction false} SortedPassIsNumbering(tiles: seq<TileSpec>)
    requires SortedByNumber(tiles) && |tiles| <= 255
    requires Unexpected(Numbers(tiles)) == {}
    ensures forall i | 0 <= i < |tiles| :: tiles[i].number == i + 1
  {
    var ns := Numbers(tiles);
    MissingNeverReported(ns);
    NumbersPassIff(ns);
    SortedNumbersConsecutive(ns);
  }

  // ---------------------------------------------------------- content rectangle

  /**
   * `validate_content_rect`: the rectangle is not empty or inverted, is no
   * wider or taller than the background image, and holds the grid of tiles.
   */
  function ValidateContentRect(dims: Dims, rect: ContentRect, tileSize: U32, rows: USize, cols: USize): (r: Outcome<BuilderError>)
    ensures r.Fail? ==> r.error == InvalidDimensions(dims.width, dims.height, rect) || r.error == Overflow
    ensures r == Fail(Overflow) ==> tileSize * AsU32(cols) >= U32_LIMIT || tileSize * AsU32(rows) >= U32_LIMIT
    ensures r == Pass <==>
      && rect.x1 < rect.x2 && rect.y1 < rect.y2
      && rect.x2 - rect.x1 <= dims.width && rect.y2 - rect.y1 <= dims.height
      && AsU32(cols) * tileSize <= rect.x2 - rect.x1 && AsU32(rows) * tileSize <= rect.y2 - rect.y1
  {
    var invalid := Fail(InvalidDimensions(dims.width, dims.height, rect));
    if rect.x1 >= rect.x2 || rect.y1 >= rect.y2 then
      invalid
    else
      var rectWidth, rectHeight := rect.x2 - rect.x1, rect.y2 - rect.y1;
      if rectWidth > dims.width || rectHeight > dims.height then
        invalid
      else if tileSize * AsU32(cols) >= U32_LIMIT || tileSize * AsU32(rows) >= U32_LIMIT then
        Fail(Overflow)
      else
        var tileWidth, tileHeight := tileSize * AsU32(cols), tileSize * AsU32(rows);
        if tileWidth > rectWidth || tileHeight > rectHeight then invalid else Pass
  }

  /**
   * A rectangle that passes, on a board whose `cols as u32` and `rows as u32`
   * are positive, keeps the padding arithmetic of src/board.rs from
   * underflowing, overflowing or dividing by zero.
   */
  lemma {:induction false} ContentRectPassDefinesPadding(b: Board)
    requires ValidateContentRect(b.background, b.contentRect, b.tileSize, b.rows, b.cols) == Pass
    requires AsU32(b.cols) > 0 && AsU32(b.rows) > 0
    ensures PaddingDefined(b) && ContentWidth(b) <= b.background.width && ContentHeight(b) <= b.background.height
  {
  }

  /**
   * A board with no tiles and no rows passes every check of `build`, yet
   * src/board.rs divides the spare height by `rows as u32 == 0`.
   */
  lemma EmptyBoardPassesValidation(b: Board)
    requires b.rows == 0 && b.cols == 2 && b.tiles == []
    requires b.contentRect == ContentRect(0, 0, 10, 10) && b.tileSize == 5 && b.background == Dims(10, 10)
    ensures ValidateTileCount(b.rows, b.cols, []) == Pass
    ensures Unexpected([]) == {} && Missing([]) == {}
    ensures ValidateContentRect(b.background, b.contentRect, b.tileSize, b.rows, b.cols) == Pass
    ensures !PaddingDefined(b)
  {
    assert Initial(0) == {};
  }

  /**
   * A rectangle no larger than the image but lying partly outside it, from
   * (50, 0) to (100, 10) on a 60 by 10 image, passes the check.
   */
  lemma RectBeyondImagePasses()
    ensures ValidateContentRect(Dims(60, 10), ContentRect(50, 0, 100, 10), 10, 1, 1) == Pass
    ensures ContentRect(50, 0, 100, 10).x2 > Dims(60, 10).width
  {
  }

  /**
   * `validate_content_rect` with the two checks it lacks: a grid of no rows
   * or no columns is rejected, and so is a rectangle that does not lie
   * within the image.
   */
  function ValidateContentRectCorrected(dims: Dims, rect: ContentRect, tileSize: U32, rows: USize, cols: USize): (r: Outcome<BuilderError>)
    ensures r.Fail? ==> r.error == InvalidDimensions(dims.width, dims.height, rect) || r.error == Overflow
    ensures r == Pass <==>
      && ValidateContentRect(dims, rect, tileSize, rows, cols) == Pass
      && AsU32(rows) > 0 && AsU32(cols) > 0
      && rect.x2 <= dims.width && rect.y2 <= dims.height
  {
    if AsU32(rows) == 0 || AsU32(cols) == 0 || rect.x2 > dims.width || rect.y2 > dims.height then
      Fail(InvalidDimensions(dims.width, dims.height, rect))
    else
      ValidateContentRect(dims, rect, tileSize, rows, cols)
  }

  /**
   * The corrected check alone guarantees the padding arithmetic of
   * src/board.rs, and a content rectangle inside the background image.
   */
  lemma {:induction false} CorrectedPassDefinesPadding(b: Board)
    requires ValidateContentRectCorrected(b.background, b.contentRect, b.tileSize, b.rows, b.cols) == Pass
    ensures PaddingDefined(b)
    ensures b.contentRect.x2 <= b.background.width && b.contentRect.y2 <= b.background.height
  {
    ContentRectPassDefinesPadding(b);
  }

  // ------------------------------------------------------------------- building

  /** A tile whose icon has been loaded. */
  function TileFrom(spec: TileSpec, icon: Dims): (t: Tile)
    ensures t.number == spec.number && t.name == spec.name && t.icon == icon && t.unlocked == spec.unlocked
  {
    Tile(spec.number, spec.name, icon, spec.unlocked)
  }

  /**
   * `build_tiles`: the tiles in order, each with its icon loaded; the first
   * load that fails ends the loop with its error.
   */
  method BuildTiles(specs: seq<TileSpec>, load: Loader) returns (r: Result<seq<Tile>, AppError>)
    ensures r.Ok? <==> forall i | 0 <= i < |specs| :: load(specs[i].image).Ok?
    ensures r.Ok? ==> |r.value| == |specs|
    ensures r.Ok? ==> forall i | 0 <= i < |specs| :: r.value[i] == TileFrom(specs[i], load(specs[i].image).value)
    ensures r.Err? ==> exists i | 0 <= i < |specs| ::
      load(specs[i].image) == Err(r.error) && forall j | 0 <= j < i :: load(specs[j].image).Ok?
  {
    var result: seq<Tile> := [];
    var i := 0;
    while i < |specs|
      invariant i <= |specs| && |result| == i
      invariant forall j | 0 <= j < i :: load(specs[j].image).Ok? && result[j] == TileFrom(specs[j], load(specs[j].image).value)
    {
      var image := load(specs[i].image);
      if image.Err? {
        return Err(image.error);
      }
      result := result + [TileFrom(specs[i], image.value)];
      i := i + 1;
    }
    return Ok(result);
  }

  lemma {:induction false} RemoveOne(t: seq<TileSpec>, j: nat)
    requires j < |t|
    ensures multiset(t[..j] + t[j + 1..]) == multiset(t) - multiset{t[j]}
  {
    assert t == t[..j] + [t[j]] + t[j + 1..];
    assert multiset(t) == multiset(t[..j]) + multiset{t[j]} + multiset(t[j + 1..]);
  }

  lemma NumbersConcat(a: seq<TileSpec>, b: seq<TileSpec>)
    ensures Numbers(a + b) == Numbers(a) + Numbers(b)
  {
    assert forall i | 0 <= i < |a + b| :: Numbers(a + b)[i] == (Numbers(a) + Numbers(b))[i];
  }

  /** Reordering the tiles reorders their numbers. */
  lemma {:induction false} NumbersPermutation(s: seq<TileSpec>, t: seq<TileSpec>)
    requires multiset(s) == multiset(t)
    ensures multiset(Numbers(s)) == multiset(Numbers(t))
    decreases |s|
  {
    if s == [] {
      assert |t| == |multiset(t)| == 0;
    } else {
      var x := s[|s| - 1];
      assert x in multiset(t);
      var j :| 0 <= j < |t| && t[j] == x;
      var s', before, after := s[..|s| - 1], t[..j], t[j + 1..];
      assert s == s' + [x];
      assert t == before + ([x] + after);
      RemoveOne(t, j);
      NumbersPermutation(s', before + after);
      NumbersConcat(s', [x]);
      NumbersConcat(before, [x] + after);
      NumbersConcat([x], after);
      NumbersConcat(before, after);
    }
  }

  /** The number checks see only which numbers occur and how often, not their order. */
  lemma {:induction false} ChecksIgnoreOrder(ns: seq<U8>, ms: seq<U8>)
    requires multiset(ns) == multiset(ms)
    ensures Unexpected(ns) == Unexpected(ms) && Missing(ns) == Missing(ms)
  {
    assert |ns| == |multiset(ns)| == |ms|;
    forall v ensures v in ns <==> v in ms {
      assert v in ns <==> v in multiset(ns);
      assert v in ms <==> v in multiset(ms);
    }
  }

  /** What a successful `build` returns. */
  predicate BuiltFrom(spec: BoardSpec, load: Loader, b: Board) {
    && b.rows == spec.rows && b.cols == spec.cols && b.contentRect == spec.contentRect && b.tileSize == spec.tileSize
    && load(spec.image) == Ok(b.background)
    && |b.tiles| == |spec.tiles| == spec.rows * spec.cols
    && ValidateContentRect(b.background, b.contentRect, b.tileSize, b.rows, b.cols) == Pass
    // every tile is one of the described tiles, with its icon loaded
    && (forall i | 0 <= i < |b.tiles| :: exists j | 0 <= j < |spec.tiles| ::
          load(spec.tiles[j].image).Ok? && b.tiles[i] == TileFrom(spec.tiles[j], load(spec.tiles[j].image).value))
    // the tiles are in number order, and numbered 1 to n when there are fewer than 256
    && (forall i, j | 0 <= i < j < |b.tiles| :: b.tiles[i].number < b.tiles[j].number)
    && (|b.tiles| <= 255 ==> forall i | 0 <= i < |b.tiles| :: b.tiles[i].number == i + 1)
    // the padding arithmetic of the board renderer is safe unless the board has no tiles
    // (`EmptyBoardPassesValidation` shows a tileless board whose padding is undefined)
    && (|b.tiles| > 0 ==> PaddingDefined(b))
  }

  /** Every check of `build` before the tile icons are loaded passes. */
  predicate ChecksPass(spec: BoardSpec, load: Loader) {
    && |spec.tiles| == spec.rows * spec.cols < USIZE_LIMIT
    && Unexpected(Numbers(spec.tiles)) == {}
    && load(spec.image).Ok?
    && ValidateContentRect(load(spec.image).value, spec.contentRect, spec.tileSize, spec.rows, spec.cols) == Pass
  }

  /** Whether every icon loads does not depend on the order of the tiles. */
  lemma {:induction false} LoadsIgnoreOrder(s: seq<TileSpec>, t: seq<TileSpec>, load: Loader)
    requires multiset(s) == multiset(t)
    ensures (forall i | 0 <= i < |s| :: load(s[i].image).Ok?) ==> (forall j | 0 <= j < |t| :: load(t[j].image).Ok?)
  {
    if forall i | 0 <= i < |s| :: load(s[i].image).Ok? {
      forall j | 0 <= j < |t| ensures load(t[j].image).Ok? {
        assert t[j] in multiset(s);
        var i :| 0 <= i < |s| && s[i] == t[j];
      }
    }
  }

  /** An icon that fails to load in one order of the tiles fails in any other. */
  lemma {:induction false} FailingLoadIgnoresOrder(s: seq<TileSpec>, t: seq<TileSpec>, load: Loader, i: nat)
    requires multiset(s) == multiset(t) && i < |s| && load(s[i].image).Err?
    ensures exists j | 0 <= j < |t| :: load(t[j].image) == load(s[i].image)
  {
    assert s[i] in multiset(t);
    var j :| 0 <= j < |t| && t[j] == s[i];
  }

  /**
   * `BoardBuilder::build`: sorts the tiles by number, checks their count and
   * numbering, loads the background, checks the content rectangle against
   * it and loads every tile's icon, failing at the first check or load that
   * fails. Once every check passes, it succeeds exactly when every icon
   * loads.
   */
  method Build(spec: BoardSpec, load: Loader) returns (r: Result<Board, BuilderError>)
    ensures spec.rows * spec.cols >= USIZE_LIMIT ==> r == Err(Overflow)
    ensures spec.rows * spec.cols < USIZE_LIMIT && |spec.tiles| != spec.rows * spec.cols ==>
      r == Err(WrongNumberOfTiles(spec.rows * spec.cols, |spec.tiles|))
    ensures |spec.tiles| == spec.rows * spec.cols < USIZE_LIMIT && Unexpected(Numbers(spec.tiles)) != {} ==>
      r == Err(UnexpectedTiles(Unexpected(Numbers(spec.tiles))))
    ensures (|spec.tiles| == spec.rows * spec.cols < USIZE_LIMIT && Unexpected(Numbers(spec.tiles)) == {} &&
             load(spec.image).Err?) ==> r == Err(Wrapped(load(spec.image).error))
    ensures (|spec.tiles| == spec.rows * spec.cols < USIZE_LIMIT && Unexpected(Numbers(spec.tiles)) == {} &&
             load(spec.image).Ok? &&
             ValidateContentRect(load(spec.image).value, spec.contentRect, spec.tileSize, spec.rows, spec.cols).Fail?) ==>
      r == Err(ValidateContentRect(load(spec.image).value, spec.contentRect, spec.tileSize, spec.rows, spec.cols).error)
    ensures ChecksPass(spec, load) ==> (r.Ok? <==> forall i | 0 <= i < |spec.tiles| :: load(spec.tiles[i].image).Ok?)
    ensures ChecksPass(spec, load) && r.Err? ==>
      exists i | 0 <= i < |spec.tiles| :: load(spec.tiles[i].image).Err? && r == Err(Wrapped(load(spec.tiles[i].image).error))
    ensures !(r.Err? && r.error.MissingTiles?)
    ensures r.Ok? ==> BuiltFrom(spec, load, r.value)
  {
    var tiles := new TileSpec[|spec.tiles|](i requires 0 <= i < |spec.tiles| => spec.tiles[i]);
    assert tiles[..] == spec.tiles;
    SortByNumber(tiles);
    var sorted := tiles[..];
    NumbersPermutation(sorted, spec.tiles);
    ChecksIgnoreOrder(Numbers(sorted), Numbers(spec.tiles));
    var count := ValidateTileCount(spec.rows, spec.cols, sorted);
    if count.Fail? {
      return Err(count.error);
    }
    var numbers := ValidateTileNumbers(sorted);
    if numbers.Fail? {
      if Unexpected(Numbers(sorted)) == {} {
        MissingNeverReported(Numbers(sorted));
      }
      return Err(numbers.error);
    }
    var background := load(spec.image);
    if background.Err? {
      return Err(Wrapped(background.error));
    }
    var rect := ValidateContentRect(background.value, spec.contentRect, spec.tileSize, spec.rows, spec.cols);
    if rect.Fail? {
      return Err(rect.error);
    }
    var built := BuildTiles(sorted, load);
    LoadsIgnoreOrder(spec.tiles, sorted, load);
    if built.Err? {
      ghost var i :| 0 <= i < |sorted| && load(sorted[i].image) == Err(built.error);
      FailingLoadIgnoresOrder(sorted, spec.tiles, load, i);
      return Err(Wrapped(built.error));
    }
    LoadsIgnoreOrder(sorted, spec.tiles, load);
    var board := Board(spec.rows, spec.cols, spec.contentRect, spec.tileSize, background.value, built.value);
    BuildSucceeds(spec, load, sorted, board);
    return Ok(board);
  }

  /** The properties of a board `build` returns, from the checks it passed. */
  lemma {:induction false} BuildSucceeds(spec: BoardSpec, load: Loader, sorted: seq<TileSpec>, b: Board)
    requires multiset(sorted) == multiset(spec.tiles) && SortedByNumber(sorted)
    requires |sorted| == spec.rows * spec.cols < USIZE_LIMIT
    requires Unexpected(Numbers(sorted)) == {}
    requires b.rows == spec.rows && b.cols == spec.cols && b.contentRect == spec.contentRect && b.tileSize == spec.tileSize
    requires load(spec.image) == Ok(b.background)
    requires ValidateContentRect(b.background, b.contentRect, b.tileSize, b.rows, b.cols) == Pass
    requires |b.tiles| == |sorted| && forall i | 0 <= i < |sorted| ::
      load(sorted[i].image).Ok? && b.tiles[i] == TileFrom(sorted[i], load(sorted[i].image).value)
    ensures BuiltFrom(spec, load, b)
  {
    assert |spec.tiles| == |multiset(spec.tiles)| == |sorted|;
    forall i | 0 <= i < |b.tiles|
      ensures exists j | 0 <= j < |spec.tiles| ::
        load(spec.tiles[j].image).Ok? && b.tiles[i] == TileFrom(spec.tiles[j], load(spec.tiles[j].image).value)
    {
      assert sorted[i] in multiset(spec.tiles);
      var j :| 0 <= j < |spec.tiles| && spec.tiles[j] == sorted[i];
    }
    NoneUnexpected(Numbers(sorted));
    forall i, j | 0 <= i < j < |b.tiles|
      ensures b.tiles[i].number < b.tiles[j].number
    {
      assert Numbers(sorted)[i] != Numbers(sorted)[j];
    }
    if |b.tiles| <= 255 {
      SortedPassIsNumbering(sorted);
    }
    if |b.tiles| > 0 {
      PassingCountAtMost256(Numbers(sorted));
      SmallGridPadding(b);
    }
  }

  /**
   * A passing rectangle keeps the padding arithmetic defined for any
   * non-empty grid of at most 256 tiles, the most a passing numbering allows:
   * both of its sides then fit in `u32`.
   */
  lemma {:induction false} SmallGridPadding(b: Board)
    requires ValidateContentRect(b.background, b.contentRect, b.tileSize, b.rows, b.cols) == Pass
    requires 0 < b.rows * b.cols <= 256
    ensures PaddingDefined(b)
  {
    assert b.rows >= 1 && b.cols >= 1;
    MulLe(1, b.cols, b.rows);
    MulLe(1, b.rows, b.cols);
    ContentRectPassDefinesPadding(b);
  }
}
