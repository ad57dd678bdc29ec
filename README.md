# boardbuilder in Dafny

A model of the core of boardbuilder, a Rust program that draws bingo-style
achievement boards. A board is a background image with a content rectangle in
which a grid of `rows × cols` tiles is drawn; each tile shows its number, its
name and an icon, in a green theme when unlocked and an orange, greyed-out one
when locked.

The model covers five parts of the program, one module each:

- `Text` (src/text.rs): a label is rasterised in black, thresholded to binary
  alpha, pasted at (1, 1) as a shadow, recoloured and pasted at (0, 0). The
  pixels are modelled (`array2` images, in-place maps, a merge paste), and the
  result is proved pixel by pixel.
- `Tiles` (src/tile.rs): the themed template, the content bounds, the placement
  of the number label (top left) and the name label (centred, flush with the
  bottom), the icon window between them, the resize decision and scaled size,
  and the centring of the icon.
- `Boards` (src/board.rs): the spare width and height divided into per-tile
  padding, and the row-by-row walk that pastes every tile at a moving cursor.
- `Builder` (src/builder.rs): the validation and assembly of a board from its
  description. This covers sorting by number, the tile count, the
  consecutive-numbering check, the content-rectangle check and loading the
  images.
- `Images` (src/images.rs): the cache path a web image is stored under, the
  encoding an extension selects, and whether `load` treats a location as a URL
  or as a file path.

Supporting modules: `Wrappers` (Option, Result, and Outcome, a pass/fail result
without a value), `Pixels` (machine integer ranges, RGBA pixels, the colours of
src/palette.rs, the binary-alpha merge), `Canvas` (image primitives and the
`Composition` draw log), and `Errors` (the `AppError` enum of src/error.rs).

Tile and board images are not modelled pixel by pixel. A `Composition` records
each image pasted onto them, where it was pasted and in what order. Label and
icon sizes are inputs. `measure` gives the glyph-layout size the font gives a
string, and an icon is represented by its dimensions.

The model follows the code as written, `BoardBuilder::build` included. Where
the code evidently does something its authors did not intend, the model has
both the behaviour as written and a corrected definition, side by side (see
Findings):
- The board cursor's `x` is never reset to the left edge at a new row.
- A grid with no rows or no columns passes validation, and the renderer then
  divides by zero.
- The content rectangle's position on the background is never checked.

## Model

| member | source | states |
|---|---|---|
| Pixels.AsU32 | src/board.rs:41-42 | `n as u32` keeps the low 32 bits: below 2^32 it is `n`, and it is never larger than `n` |
| Pixels.Merge | src/text.rs:63-68 | the merge overlay of a 0-or-255-alpha source pixel: an opaque source replaces the destination, a transparent one leaves it |
| Canvas.NewImage | src/text.rs:55-56 | `Image::new(w, h, fill)` is a fresh `w × h` image with every pixel `fill` |
| Canvas.MapInPlace | src/text.rs:71-78 | `map_in_place` replaces every pixel by the closure's value on its coordinates and old value, and changes nothing else |
| Canvas.Paste | src/text.rs:63-68 | a merge paste at an offset changes exactly the covered pixels (clipped to the destination), each to the merge of old and source |
| Canvas.Composition.constructor | src/board.rs:29 | an output image starts with its size, its starting image and nothing drawn on it |
| Canvas.Composition.Draw | src/board.rs:57-62 | `image.draw(&Paste {..})` appends one paste, in drawing order |
| Text.Threshold | src/text.rs:93-101 | a thresholded pixel has binary alpha, keeps its colour, and is transparent exactly when its alpha is at most the cutoff |
| Text.ThresholdIdempotent | src/text.rs:93-101 | thresholding twice is the same as thresholding once |
| Text.AlphaThreshold | src/text.rs:93-101 | `alpha_threshold` thresholds every pixel of the image in place, leaving it all binary-alpha |
| Text.Recolour | src/text.rs:71-78 | the recolouring closure keeps alpha, leaves transparent pixels alone and gives every other pixel the requested RGB |
| Text.LabelSize | src/text.rs:49-52 | a label is one pixel wider and taller than its glyph layout, to hold the shadow |
| Text.LabelPixelForegroundOverShadow | src/text.rs:58-84 | a label pixel is the requested colour where the glyph is opaque after thresholding; otherwise the opaque shadow of the glyph one pixel up and left; otherwise transparent |
| Text.Render | src/text.rs:42-87 | `TextRenderer::render` returns a fresh image of `LabelSize` whose every pixel is the shadow-then-foreground composition |
| Tiles.DefaultOptions | src/tile.rs:27-47 | the default options use orange text when locked and green when unlocked, and put the content 6 + 4 + 4 = 14 pixels in |
| Tiles.ContentBounds | src/tile.rs:176-181 | the content bounds are the tile square inset by border + inset + padding on every side, the same on both axes, with width `size - 2 × offset` when that is non-negative |
| Tiles.DefaultContentBounds | src/tile.rs:176-181 | with the default options, a 100-pixel tile has content bounds (14, 14, 86, 86) |
| Tiles.RenderTemplate | src/tile.rs:183-204 | the template is the background square with an outer border on its edge and an inner border `border_size` inside it |
| Tiles.ContentInsideTemplate | src/tile.rs:176-204 | the content bounds lie `inset_size + padding` inside the inner border's rectangle |
| Tiles.Centre | src/tile.rs:164-165 | the centring lead-in leaves the odd pixel, if any, after the item |
| Tiles.WidthBindingFits | src/tile.rs:139-149 | when the icon is relatively wider than the window, the window is narrower than the icon and the scaled height fits both |
| Tiles.HeightBindingFits | src/tile.rs:139-149 | when the icon is not relatively wider, the window is no taller than the icon and the scaled width fits both |
| Tiles.ScaledSize | src/tile.rs:136-158 | the resized icon fits the window and is no larger than the icon (the two `debug_assert`s); the binding side takes the window's length |
| Tiles.ScaledSizeKeepsAspect | src/tile.rs:137-149 | the side that does not bind is the icon's side scaled by the same factor, floored: the aspect ratio is kept to within one pixel |
| Tiles.NameLabelBox | src/tile.rs:116-128 | the name label is flush with the content's bottom edge, and centred when narrower than the content, otherwise at its left edge |
| Tiles.IconWindow | src/tile.rs:129-133 | the icon window lies between the number label and the name label, each padded off |
| Tiles.FittedIcon | src/tile.rs:134-159 | the pasted icon fits the window, is never larger than the icon, and is the icon itself when that fits |
| Tiles.IconBox | src/tile.rs:164-171 | the icon is pasted inside the window, centred on both axes, with any odd pixel going right and below |
| Tiles.Layout | src/tile.rs:67-172 | the layout uses the theme and template the tile's lock state selects, desaturates exactly the locked tiles, and gets an icon window of non-negative `u32` width and height |
| Tiles.LockDoesNotMoveAnything | src/tile.rs:70-90 | locking a tile changes only its theme and desaturation, never where anything is placed |
| Tiles.ExactIconFillsWindow | src/tile.rs:136-171 | an icon exactly the window's size is not resized and fills the window |
| Tiles.DecimalString | src/tile.rs:95 | `number.to_string()` is a non-empty string of decimal digits |
| Tiles.DecimalRoundTrip | src/tile.rs:95 | the number label reads back as the tile's number |
| Tiles.PasteNameLabel | src/tile.rs:116-128 | the name-label step appends exactly the paste at `NameLabelBox` |
| Tiles.PasteIcon | src/tile.rs:134-171 | the icon step appends exactly the paste at `IconBox` |
| Tiles.Render | src/tile.rs:67-173 | `TileRenderer::render` returns the tile-size template with the number label, name label and icon pasted in that order where `Layout` puts them |
| Boards.PaddingRemainder | src/board.rs:39-47 | the padding is the largest that fits once per column (row); less than one pixel per column (row) is left over |
| Boards.ChunkCountBounds | src/board.rs:51 | `chunks(cols)` cuts `n` tiles into full chunks and one last non-empty chunk |
| Boards.ChunkOf | src/board.rs:51-52 | tile `c × cols + j` lies in chunk `c` at position `j` |
| Boards.ChunkAdvance | src/board.rs:51 | after chunk `c`, `c + 1` chunks are done and the next one starts at `(c + 1) × cols` |
| Boards.XAdvance | src/board.rs:63 | the cursor's `x += tile_size + x_pad` moves to the next tile's position without leaving `u32` |
| Boards.YAdvance | src/board.rs:65 | the cursor's `y += tile_size + y_pad` moves to the next row's position without leaving `u32` |
| Boards.RenderTile | src/board.rs:54-56 | the layer pasted for a tile is the image the tile renderer returns (its template and its pastes) at the board's tile size with the default options |
| Boards.ChunkPlacementInGrid | src/board.rs:51-64 | a chunk's tile goes to its own sequence position when the cursor carries on, and to its column when the cursor restarts at the row's left edge |
| Boards.PasteChunk | src/board.rs:52-64 | the inner loop appends one paste per tile of the chunk, each at the cursor, and moves the cursor on by one step per tile |
| Boards.Render | src/board.rs:28-68 | `BoardRenderer::render` returns a background-sized image holding the background, then tile `k` at (`x1 + k × x_step`, `y1 + (k / cols) × y_step`) for every `k`, in sequence order |
| Boards.RenderWithRowReset | src/board.rs:28-68 | with the row reset, tile `k` is pasted at column `k % cols` of row `k / cols` |
| Boards.ColumnsFit | src/board.rs:39-46 | each of the `cols` column positions lies within the content rectangle's width |
| Boards.RowsFit | src/board.rs:40-47 | each of the `rows` row positions lies within the content rectangle's height |
| Boards.RowResetTilesInsideContent | src/board.rs:38-66 | with the row reset, every tile of a `rows × cols` board lies inside the content rectangle |
| Boards.TilesDisjoint | src/board.rs:49-66 | as written, no two tiles overlap: each is pasted wholly to the right of every earlier one |
| Boards.RowResetTilesDisjoint | src/board.rs:49-66 | with the row reset, no two tiles overlap |
| Boards.SecondRowStartsAtRightEdge | src/board.rs:49-66 | as written, the second row's first tile starts within `cols` pixels of the content's right edge |
| Boards.ExampleThirdTileMisplaced | src/board.rs:49-66 | on a 2 × 2 board the third tile is pasted wholly outside the content rectangle; with the row reset it lands at the left edge |
| Builder.ValidateTileCount | src/builder.rs:170-181 | the count check passes exactly when there are `rows × cols` tiles, and otherwise reports the expected and actual counts; an overflowing product fails |
| Builder.ScanStep | src/builder.rs:186-190 | each tile's number is either removed from `missing` or added to `unexpected`, never both |
| Builder.ValidateTileNumbers | src/builder.rs:183-198 | the numbering check reports the numbers out of range or repeated, first; otherwise the expected numbers no tile carries; it passes exactly when neither set has members |
| Builder.InitialCard | src/builder.rs:184 | `(1..=n)` cut to bytes has at most `n` members |
| Builder.InitialSmall | src/builder.rs:184 | for `n ≤ 255`, the expected numbers are exactly 1 to `n` |
| Builder.ByteInitial | src/builder.rs:184 | at 256 tiles every byte, 0 included, is an expected number |
| Builder.NoneUnexpected | src/builder.rs:186-193 | when nothing is unexpected, the numbers are distinct and all expected |
| Builder.MissingNeverReported | src/builder.rs:194-196 | the `MissingTiles` error can never be returned: once nothing is unexpected, nothing is missing |
| Builder.PassingCountAtMost256 | src/builder.rs:183-193 | numbers that pass are distinct bytes, so at most 256 tiles pass |
| Builder.NumbersPassIff | src/builder.rs:183-198 | for at most 255 tiles, the numbers pass exactly when they are 1 to `n`, each once |
| Builder.AllBytesPass | src/builder.rs:184 | 256 tiles numbered 0 to 255 pass, because `256 as u8` is 0 |
| Builder.SwapDown | src/builder.rs:76 | one step of the sort swaps a tile with its left neighbour |
| Builder.InsertLast | src/builder.rs:76 | inserting the next tile keeps the sorted prefix sorted and the tiles a permutation |
| Builder.SortByNumber | src/builder.rs:76 | `sort_by` on the numbers leaves the tiles sorted by number, and a permutation of the input |
| Builder.NumbersPermutation | src/builder.rs:76 | reordering the tiles reorders their numbers |
| Builder.ChecksIgnoreOrder | src/builder.rs:76-78 | the numbering check's sets do not depend on the tiles' order, so sorting first changes nothing |
| Builder.SortedPassIsNumbering | src/builder.rs:76-78 | sorted tiles whose numbers pass are numbered 1 to `n` in sequence order, so the grid is filled in number order |
| Builder.ValidateContentRect | src/builder.rs:133-168 | the rectangle check passes exactly when the rectangle is not empty or inverted, is no wider or taller than the image, and holds `cols × rows` tiles; failures are `InvalidDimensions` or an overflowing product |
| Builder.ContentRectPassDefinesPadding | src/builder.rs:133-168 | a passing rectangle with at least one row and one column keeps the board renderer's padding arithmetic defined |
| Builder.EmptyBoardPassesValidation | src/builder.rs:133-168 | a board with no rows and no tiles passes every check of `build`, yet its padding is undefined |
| Builder.RectBeyondImagePasses | src/builder.rs:149-157 | a rectangle lying partly outside the image passes |
| Builder.ValidateContentRectCorrected | src/builder.rs:133-168 | the corrected check passes exactly what the original passes that also has at least one row and column and lies within the image; it fails with the same errors |
| Builder.CorrectedPassDefinesPadding | src/builder.rs:133-168 | a rectangle passing the corrected check keeps the padding arithmetic defined and lies on the image |
| Builder.TileFrom | src/builder.rs:117-128 | a built tile keeps its description's number, name and lock state, and carries the loaded icon |
| Builder.BuildTiles | src/builder.rs:115-131 | `build_tiles` succeeds exactly when every icon loads, and keeps the tiles' order. Otherwise it returns the error of the first load that fails |
| Builder.LoadsIgnoreOrder | src/builder.rs:76-92 | whether every icon loads does not depend on the order the tiles were sorted into |
| Builder.FailingLoadIgnoresOrder | src/builder.rs:76-92 | an icon load that fails among the sorted tiles fails for one of the described tiles |
| Builder.Build | src/builder.rs:63-113 | `build` fails at the first failing step: count, then numbering, then background load, then the size-only rectangle check. Once those pass, it succeeds exactly when every tile's icon loads, and otherwise fails with a failing icon load's error. It never returns `MissingTiles`, and what it returns satisfies `BuiltFrom` |
| Builder.SmallGridPadding | src/builder.rs:133-168 | a passing rectangle keeps the padding arithmetic defined for a non-empty grid of at most 256 tiles |
| Builder.BuildSucceeds | src/builder.rs:63-113 | a board assembled after all checks pass has the described fields and exactly the described tiles, in strictly increasing number order (1 to `n` when `n ≤ 255`), and defined padding unless it has no tiles |
| Images.Split | src/images.rs:139 | `split(c)` gives at least one piece, none containing `c` |
| Images.JoinSplit | src/images.rs:139-141 | splitting and joining with the same character gives back the string |
| Images.SplitJoin | src/images.rs:139-146 | splitting a join of pieces free of the separator gives back the pieces |
| Images.SplitJoinWith | src/images.rs:139-141 | splitting at `.` and joining with `/` replaces every dot by a slash |
| Images.SplitKeepsOut | src/images.rs:139-146 | a character absent from the string is absent from each piece |
| Images.Components | src/images.rs:130 | a path's normal components are non-empty, never `.`, and contain no `/` |
| Images.FileName | src/images.rs:167-169 | a file name is a non-empty component other than `.` and `..` |
| Images.LastIndexOf | src/images.rs:167-169 | the last occurrence of a character, with none after it, or none at all |
| Images.ExtensionOfSplitsName | src/images.rs:131 | a name has extension `e` exactly when it is a non-empty stem, a dot and a dot-free `e`; with no extension there is no dot past the first character |
| Images.LowerChar | src/images.rs:170 | `to_ascii_lowercase` maps `A`–`Z` to `a`–`z` and keeps every other character |
| Images.AsciiLower | src/images.rs:170 | lower-casing keeps the length and lower-cases each character |
| Images.AsciiLowerIdempotent | src/images.rs:170 | lower-casing twice is the same as once |
| Images.GetEncodingFromExtension | src/images.rs:166-177 | the encoding is PNG exactly when the lower-cased extension is `png`, and JPEG exactly when it is `jpg` or `jpeg` |
| Images.EncodingIgnoresCase | src/images.rs:166-177 | extensions that differ only in letter case select the same encoding |
| Images.UpperCaseExtension | src/images.rs:166-177 | `images/Helm.PNG` is a PNG |
| Images.LastDotExtension | src/images.rs:166-177 | `b.tar.JpEg` is a JPEG: only the text after the last dot counts |
| Images.HiddenFileHasNoExtension | src/images.rs:166-177 | `.png` has no extension, so its encoding is unknown |
| Images.Rejection | src/images.rs:110-136 | the web-URL checks run in order: it must parse, have an http(s) scheme, have a host, and have a path naming a file; it is rejected with the first check's error |
| Images.OtherSchemeRejected | src/images.rs:115-120 | a URL of any scheme other than http and https, whatever its host and path, is rejected as not http or https |
| Images.PushAll | src/images.rs:139-146 | pushing fragments one by one appends them all, in order |
| Images.ParseWebUrlAndCachePath | src/images.rs:110-149 | fails with the first failing check's error; otherwise returns the URL upgraded to https and the cache path made of the host's labels followed by the path's segments |
| Images.CachePathSpellsUrl | src/images.rs:138-148 | every cache-path fragment is a single component, and joined with `/` they spell the host with dots turned to slashes, followed by the URL path |
| Images.ItParses | src/images.rs:183-201 | the wiki helmet URL passes the checks and is cached under `oldschool/runescape/wiki/images/Serpentine_helm_detail.png` |
| Images.LoadRoute | src/images.rs:63-71 | a location goes either to the URL loader or to the file loader, unchanged |
| Images.RouteMatchesWebChecks | src/images.rs:63-71 | `load` uses the URL loader exactly when the URL loader gets past parsing and the scheme check; only the host and file-path checks can still reject it |

## Left out

- Network, filesystem and caching are left out: `ImageLoader::new` (the current-directory check, directory creation, the HTTP client), and in `load_from_url` the cache lookup, download and save. `load_from_file`, `ril_image_from_bytes` and `save` are left out too. Loading is a function `Loader` from a location to the image's dimensions or an `AppError`.
- `Url::parse` belongs to the `url` crate. The model receives its result as an `Option<Url>`. The crate's guarantees that are relied on are stated as `Images.WellFormedUrl`. They apply to http and https URLs with a host: the host contains no `/` and the path is rooted. Nothing is assumed of URLs with other schemes.
- Cache paths are sequences of pushed fragments. The cache-directory prefix is not modelled. Nor is the way `PathBuf::push` treats an empty fragment: from `//` in a URL path it becomes a trailing separator.
- `Path::components` is modelled for relative and `/`-rooted paths: empty pieces and `.` are dropped. Windows prefixes are not modelled.
- `desaturate` is floating-point luma arithmetic. A locked tile's icon paste only records that it is desaturated.
- Aspect-ratio choice and scale factors use exact rational arithmetic, by cross-multiplication and floor division, in place of `f32`. The `f32` rounding is not modelled. A zero-height window with a zero-height icon gives width 0, as the NaN-to-`u32` cast does.
- The imaging library's internals are left out: font loading (`TextRenderer::default`, `from_font`, `from_font_bytes`), glyph layout and rasterisation, border rectangles and bicubic resize. These are inputs: `measure` gives the layout size of a string, and `glyphs` gives the rasterised pixels. The merge overlay is modelled only for sources whose alpha is 0 or 255, which is all that `Text.Render` pastes.
- Tile and board images record their pastes (`Canvas.Composition`) rather than pixels. A tile pasted onto the board (`Boards.BoardLayer`) carries the template and the pastes of the tile image that was drawn.
- src/palette.rs does not define the default border, inset and background colours that `TileRenderOptions::default` names. They are the parameter `Tiles.DefaultColours`.
- The call sites do not match their callees in the source:
  - src/board.rs:56 calls `render(tile, options)` without a tile size. The model passes `board.tile_size`.
  - src/tile.rs:94-109 passes a `TextRenderOptions` where `render(text, color)` is defined. The model passes the theme's text colour.
- `BoardBuilder::tile_render_options` is copied into the board but never read by the board renderer, which uses the defaults. It is not modelled. Deserialisation (serde) and src/main.rs are not modelled either.
- The `AppError` variants that wrap foreign errors keep no payload.
- Builder.ValidateTileCount: an overflowing `rows * cols` panics in a debug build. It is modelled as the outcome `Overflow`; release-build wrap-around is not modelled.
- Builder.ValidateContentRect: an overflowing `tile_size * cols as u32` (or `rows`) panics in a debug build. It is modelled as the outcome `Overflow`.
- Builder.SortByNumber: the sort is not proved stable. Stability matters only for tiles with equal numbers, and those never pass the numbering check.
- Builder.Build: the contract says a failing tile-icon load's error is returned, but not which one (the first in number order). `Builder.BuildTiles` states that for the sorted tiles.
- Boards.Render: requires the `u32` cursor not to overflow (`CursorFits`). A debug build would panic there.
- Tiles.Render: requires the `u32` label and window arithmetic not to underflow or overflow (`TileRenderable`). A debug build would panic there.
- Text.Render: requires the layout's width and height to be below `2^32 - 1`, so that the `+ 1` does not overflow.

## Findings

| source | as written | input that shows it | evidently intended | confidence | as-written member | corrected member |
|---|---|---|---|---|---|---|
| src/board.rs:49-66 | the cursor's `x` advances after every tile and is never reset at a row break | a 2 × 2 board of 50-pixel tiles in content (0, 0, 200, 200): the third tile is pasted at (200, 100), outside the content | `x` back to `x1` at every row, so tile `k` sits at column `k % cols` | high, not executed | Boards.ExampleThirdTileMisplaced | Boards.RowResetTilesInsideContent |
| src/builder.rs:133-168 | a grid of 0 rows (or 0 columns) passes, and src/board.rs:46-47 then divides by `rows as u32 == 0` | rows 0, cols 2, no tiles, content (0, 0, 10, 10), tile size 5, a 10 × 10 image | reject an empty grid before rendering | high, not executed | Builder.EmptyBoardPassesValidation | Builder.CorrectedPassDefinesPadding |
| src/builder.rs:149-157 | only the rectangle's width and height are compared with the image's, not its position | content (50, 0, 100, 10) on a 60 × 10 image with one 10-pixel tile | the rectangle lies within the image | medium, not executed | Builder.RectBeyondImagePasses | Builder.ValidateContentRectCorrected |

`Builder.Build` and `Boards.Render` keep the behaviour as written. The corrected content-rectangle check is `Builder.ValidateContentRectCorrected`, and the corrected board renderer is `Boards.RenderWithRowReset`.
