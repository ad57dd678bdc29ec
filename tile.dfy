/**
 * The tile renderer of src/tile.rs: the themed template with its two nested
 * borders, the content bounds, the placement of the number and name labels,
 * the shrinking of the icon window, the resize decision and the centring of
 * the icon.
 *
 * Pixels are not modelled here: a tile is a `Composition` that starts from
 * its template and records the three pastes `render` makes. Label sizes come
 * from the text renderer (`Text.LabelSize`) applied to the glyph layout size
 * the font gives a string, which the model receives as `measure`.
 */
module Tiles {
  import opened Pixels
  import opened Canvas
  import Text

  datatype Tile = Tile(number: U8, name: string, icon: Dims, unlocked: bool)

  datatype Theme = Theme(borderColor: Rgba, insetColor: Rgba, backgroundColor: Rgba, textColor: Rgba)

  datatype RenderOptions = RenderOptions(
    padding: U32,
    borderSize: U32,
    insetSize: U32,
    textSize: U32,
    lockedTheme: Theme,
    unlockedTheme: Theme)

  /**
   * The four colours the default options name (border, inset and the two
   * backgrounds); src/palette.rs does not define them, so they are given.
   */
  datatype DefaultColours = DefaultColours(border: Rgba, inset: Rgba, lockedBackground: Rgba, unlockedBackground: Rgba)

  /** `TileRenderOptions::default()`. */
  function DefaultOptions(c: DefaultColours): (o: RenderOptions)
    ensures o.lockedTheme.textColor == ORANGE && o.unlockedTheme.textColor == GREEN
    ensures Offset(o) == 14
  {
    RenderOptions(
      6, 4, 4, 20,
      Theme(c.border, c.inset, c.lockedBackground, ORANGE),
      Theme(c.border, c.inset, c.unlockedBackground, GREEN))
  }

  /** A rectangle by its corners, `(x1, y1)` inclusive and `(x2, y2)` exclusive. */
  datatype Rect = Rect(x1: int, y1: int, x2: int, y2: int)

  /** An image placed with its top-left corner at `(x, y)`. */
  datatype Box = Box(x: int, y: int, width: int, height: int)

  function Square(size: nat): Rect {
    Rect(0, 0, size, size)
  }

  /** `r` moved inwards by `d` on all four sides. */
  function Shrink(r: Rect, d: int): Rect {
    Rect(r.x1 + d, r.y1 + d, r.x2 - d, r.y2 - d)
  }

  predicate Inside(b: Box, r: Rect) {
    r.x1 <= b.x && b.x + b.width <= r.x2 && r.y1 <= b.y && b.y + b.height <= r.y2
  }

  /** Distance from the tile's edge to its content: border, inset and padding. */
  function Offset(o: RenderOptions): nat {
    o.borderSize + o.insetSize + o.padding
  }

  /** `compute_content_bounds`: the square inset by `Offset(o)` on every side. */
  function ContentBounds(tileSize: U32, o: RenderOptions): (r: Rect)
    requires Offset(o) < U32_LIMIT && Offset(o) <= tileSize
    ensures r == Shrink(Square(tileSize), Offset(o))
    ensures r.x1 == r.y1 && r.x2 == r.y2
    ensures tileSize >= 2 * Offset(o) ==> r.x2 - r.x1 == tileSize - 2 * Offset(o)
  {
    var offset := o.borderSize + o.insetSize + o.padding;
    var x2 := tileSize - offset;
    var y2 := tileSize - offset;
    Rect(offset, offset, x2, y2)
  }

  /** With the default options a 100-pixel tile has content bounds (14, 14, 86, 86). */
  lemma DefaultContentBounds(c: DefaultColours)
    ensures ContentBounds(100, DefaultOptions(c)) == Rect(14, 14, 86, 86)
  {
  }

  /** A border drawn inside `rect`, `thickness` pixels wide. */
  datatype Border = Border(rect: Rect, color: Rgba, thickness: nat)

  /** A square of one background colour with two nested inset borders. */
  datatype Template = Template(size: nat, background: Rgba, outer: Border, inner: Border)

  /**
   * `render_tile_template`: the outer border covers the whole square, the
   * inner one starts `borderSize` pixels inside it on every side.
   */
  function RenderTemplate(size: U32, borderSize: U32, insetSize: U32,
                          backgroundColor: Rgba, borderColor: Rgba, insetColor: Rgba): (t: Template)
    requires borderSize <= size
    ensures t.size == size && t.background == backgroundColor
    ensures t.outer == Border(Square(size), borderColor, borderSize)
    ensures t.inner == Border(Shrink(t.outer.rect, borderSize), insetColor, insetSize)
  {
    var border := Border(Rect(0, 0, size, size), borderColor, borderSize);
    var inset := Border(Rect(borderSize, borderSize, size - borderSize, size - borderSize), insetColor, insetSize);
    Template(size, backgroundColor, border, inset)
  }

  /** The theme `render` draws a tile in. */
  function ThemeFor(tile: Tile, o: RenderOptions): Theme {
    if tile.unlocked then o.unlockedTheme else o.lockedTheme
  }

  /** The template `render` starts a tile from. */
  function TemplateFor(tile: Tile, tileSize: U32, o: RenderOptions): Template
    requires o.borderSize <= tileSize
  {
    var theme := ThemeFor(tile, o);
    RenderTemplate(tileSize, o.borderSize, o.insetSize, theme.backgroundColor, theme.borderColor, theme.insetColor)
  }

  /**
   * The content bounds start `insetSize + padding` pixels inside the inner
   * border's rectangle: padding separates the content from the inset border.
   */
  lemma {:induction false} ContentInsideTemplate(tile: Tile, tileSize: U32, o: RenderOptions)
    requires Offset(o) < U32_LIMIT && Offset(o) <= tileSize
    ensures ContentBounds(tileSize, o) == Shrink(TemplateFor(tile, tileSize, o).inner.rect, o.insetSize + o.padding)
  {
  }

  /**
   * The inputs for which `render` does no `u32` arithmetic that underflows
   * or overflows: both labels and their padding fit between the content
   * bounds' top and bottom edges.
   */
  predicate Renderable(tileSize: U32, o: RenderOptions, numberLabel: Dims, nameLabel: Dims) {
    && Offset(o) < U32_LIMIT
    && Offset(o) + numberLabel.height + o.padding + nameLabel.height + o.padding <= tileSize - Offset(o)
  }

  /** The lead-in that centres `size` within `span`; odd remainders go after. */
  function Centre(span: nat, size: nat): (lead: nat)
    requires size <= span
    ensures lead <= span - size - lead <= lead + 1
  {
    (span - size) / 2
  }

  /** Whether the icon is wider or taller than the window. */
  predicate NeedsResize(icon: Dims, width: nat, height: nat) {
    icon.width > width || icon.height > height
  }

  /**
   * Whether the icon is relatively wider than the window, so that its width
   * is the binding side; `iw / ih > cw / ch` by cross-multiplication.
   */
  predicate WidthBinds(icon: Dims, width: nat, height: nat) {
    icon.width * height > width * icon.height
  }

  lemma DivAtMost(a: nat, b: nat, c: nat)
    requires b > 0 && a <= b * c
    ensures a / b <= c
  {
  }

  lemma DivBracket(a: nat, b: nat)
    requires b > 0
    ensures (a / b) * b <= a < (a / b + 1) * b
  {
  }

  lemma MulLe(a: nat, b: nat, c: nat)
    requires a <= b
    ensures a * c <= b * c
  {
  }

  /**
   * `(a * num / den) as u32` in exact arithmetic: `a` scaled by the factor
   * `num / den` and floored.
   */
  function Scale(a: nat, num: nat, den: nat): nat
    requires den > 0
  {
    a * num / den
  }

  /** When the width binds, the window is narrower than the icon and the scaled height fits. */
  lemma WidthBindingFits(iw: nat, ih: nat, w: nat, h: nat)
    requires iw > w || ih > h
    requires iw * h > w * ih
    ensures 0 < iw && w < iw
    ensures Scale(ih, w, iw) <= h && Scale(ih, w, iw) <= ih
    ensures Scale(ih, w, iw) * iw <= w * ih < (Scale(ih, w, iw) + 1) * iw
  {
    assert iw > 0;
    if iw <= w {
      MulLe(iw, w, h);
      MulLe(h, ih, w);
    }
    DivAtMost(ih * w, iw, h);
    MulLe(w, iw, ih);
    DivAtMost(ih * w, iw, ih);
    DivBracket(ih * w, iw);
  }

  /** When the height binds, the window is no taller than the icon and the scaled width fits. */
  lemma HeightBindingFits(iw: nat, ih: nat, w: nat, h: nat)
    requires iw > w || ih > h
    requires iw * h <= w * ih
    ensures h <= ih
    ensures ih > 0 ==> Scale(iw, h, ih) <= w && Scale(iw, h, ih) <= iw
    ensures ih > 0 ==> Scale(iw, h, ih) * ih <= h * iw < (Scale(iw, h, ih) + 1) * ih
  {
    if ih < h {
      MulLe(ih, h, iw);
      MulLe(w, iw, ih);
    }
    if ih > 0 {
      DivAtMost(iw * h, ih, w);
      MulLe(h, ih, iw);
      DivAtMost(iw * h, ih, iw);
      DivBracket(iw * h, ih);
    }
  }

  /**
   * The size the icon is resized to when it does not fit the window: the
   * binding side becomes the window's, the other is scaled by the same factor
   * and floored. The result fits the window and is never larger than the
   * icon (the two `debug_assert`s after the resize).
   */
  function ScaledSize(icon: Dims, width: U32, height: U32): (d: Dims)
    requires NeedsResize(icon, width, height)
    ensures d.width <= width && d.height <= height
    ensures d.width <= icon.width && d.height <= icon.height
    ensures WidthBinds(icon, width, height) ==> d.width == width
    ensures !WidthBinds(icon, width, height) ==> d.height == height
  {
    if WidthBinds(icon, width, height) then
      // the scale factor is width / icon.width
      WidthBindingFits(icon.width, icon.height, width, height);
      Dims(width, Scale(icon.height, width, icon.width))
    else
      // the scale factor is height / icon.height
      HeightBindingFits(icon.width, icon.height, width, height);
      if icon.height == 0 then
        // the window is 0 pixels high: the factor 0 / 0 casts to 0
        Dims(0, height)
      else
        Dims(Scale(icon.width, height, icon.height), height)
  }

  /**
   * The resized icon keeps the icon's aspect ratio to within one pixel: the
   * side that does not bind is the exact scaled length, floored.
   */
  lemma {:induction false} ScaledSizeKeepsAspect(icon: Dims, width: U32, height: U32)
    requires NeedsResize(icon, width, height)
    ensures var d := ScaledSize(icon, width, height);
      WidthBinds(icon, width, height) ==>
        d.height * icon.width <= width * icon.height < (d.height + 1) * icon.width
    ensures var d := ScaledSize(icon, width, height);
      !WidthBinds(icon, width, height) && icon.height > 0 ==>
        d.width * icon.height <= height * icon.width < (d.width + 1) * icon.height
  {
    if WidthBinds(icon, width, height) {
      WidthBindingFits(icon.width, icon.height, width, height);
    } else {
      HeightBindingFits(icon.width, icon.height, width, height);
    }
  }

  /** Where `render` pastes each part of a tile. */
  datatype TileLayout = TileLayout(
    theme: Theme,
    template: Template,
    numberLabel: Box,
    nameLabel: Box,
    window: Rect,
    resized: bool,
    desaturated: bool,
    icon: Box)

  /** Width and height of a rectangle. */
  function Width(r: Rect): int {
    r.x2 - r.x1
  }

  function Height(r: Rect): int {
    r.y2 - r.y1
  }

  /**
   * Where the name label goes in the content rectangle `c`: flush with its
   * bottom edge, centred when narrower than it (any odd pixel going right),
   * otherwise at its left edge.
   */
  function NameLabelBox(c: Rect, nameLabel: Dims): (b: Box)
    requires c.x1 <= c.x2
    ensures b.width == nameLabel.width && b.height == nameLabel.height && b.y + b.height == c.y2
    ensures nameLabel.width < Width(c) ==>
      && c.x1 <= b.x && b.x + b.width <= c.x2
      && b.x - c.x1 <= c.x2 - (b.x + b.width) <= b.x - c.x1 + 1
    ensures nameLabel.width >= Width(c) ==> b.x == c.x1
  {
    var x := if nameLabel.width < Width(c) then c.x1 + Centre(Width(c), nameLabel.width) else c.x1;
    Box(x, c.y2 - nameLabel.height, nameLabel.width, nameLabel.height)
  }

  /** The part of the content rectangle left for the icon: below the number label and above the name label, each padded off. */
  function IconWindow(c: Rect, padding: nat, numberLabel: Dims, nameLabel: Dims): (w: Rect)
    ensures w.x1 == c.x1 && w.x2 == c.x2
    ensures w.y1 == c.y1 + numberLabel.height + padding && w.y2 == c.y2 - (nameLabel.height + padding)
  {
    Rect(c.x1, c.y1 + (numberLabel.height + padding), c.x2, c.y2 - (nameLabel.height + padding))
  }

  /** A window whose width and height are `u32`s. */
  predicate ProperWindow(w: Rect) {
    0 <= Width(w) < U32_LIMIT && 0 <= Height(w) < U32_LIMIT
  }

  /** The icon as pasted into window `w`: shrunk to fit when it does not, otherwise as it is. */
  function FittedIcon(icon: Dims, w: Rect): (d: Dims)
    requires ProperWindow(w)
    ensures d.width <= Width(w) && d.height <= Height(w)
    ensures d.width <= icon.width && d.height <= icon.height
    ensures !NeedsResize(icon, Width(w), Height(w)) ==> d == icon
  {
    if NeedsResize(icon, Width(w), Height(w)) then ScaledSize(icon, Width(w), Height(w)) else icon
  }

  /** Where the icon goes in window `w`: centred on both axes, any odd pixel going right and below. */
  function IconBox(icon: Dims, w: Rect): (b: Box)
    requires ProperWindow(w)
    ensures b.width == FittedIcon(icon, w).width && b.height == FittedIcon(icon, w).height
    ensures Inside(b, w)
    ensures b.x - w.x1 <= w.x2 - (b.x + b.width) <= b.x - w.x1 + 1
    ensures b.y - w.y1 <= w.y2 - (b.y + b.height) <= b.y - w.y1 + 1
  {
    var item := FittedIcon(icon, w);
    Box(w.x1 + Centre(Width(w), item.width), w.y1 + Centre(Height(w), item.height), item.width, item.height)
  }

  /**
   * The layout arithmetic of `TileRenderer::render`, for a tile whose number
   * and name labels have the given sizes: the number label at the content's
   * top-left corner, the name label as `NameLabelBox` puts it, and the icon
   * as `IconBox` puts it in the window between them.
   */
  function Layout(tile: Tile, tileSize: U32, o: RenderOptions, numberLabel: Dims, nameLabel: Dims): (l: TileLayout)
    requires Renderable(tileSize, o, numberLabel, nameLabel)
    ensures l.theme == ThemeFor(tile, o) && l.template == TemplateFor(tile, tileSize, o)
    ensures l.desaturated <==> !tile.unlocked
    ensures ProperWindow(l.window) && l.window.y1 <= l.window.y2
  {
    var c := ContentBounds(tileSize, o);
    var window := IconWindow(c, o.padding, numberLabel, nameLabel);
    TileLayout(
      ThemeFor(tile, o),
      TemplateFor(tile, tileSize, o),
      Box(c.x1, c.y1, numberLabel.width, numberLabel.height),
      NameLabelBox(c, nameLabel),
      window,
      NeedsResize(tile.icon, Width(window), Height(window)),
      !tile.unlocked,
      IconBox(tile.icon, window))
  }

  /**
   * A locked and an unlocked tile that are otherwise the same are laid out
   * identically; only the theme and the desaturation differ.
   */
  lemma {:induction false} LockDoesNotMoveAnything(tile: Tile, tileSize: U32, o: RenderOptions, numberLabel: Dims, nameLabel: Dims)
    requires Renderable(tileSize, o, numberLabel, nameLabel)
    ensures var a := Layout(tile.(unlocked := true), tileSize, o, numberLabel, nameLabel);
            var b := Layout(tile.(unlocked := false), tileSize, o, numberLabel, nameLabel);
      && a.numberLabel == b.numberLabel && a.nameLabel == b.nameLabel
      && a.window == b.window && a.icon == b.icon && a.resized == b.resized
      && a.theme == o.unlockedTheme && b.theme == o.lockedTheme
      && !a.desaturated && b.desaturated
  {
  }

  /** An icon exactly the size of the window is pasted as it is, filling the window. */
  lemma {:induction false} ExactIconFillsWindow(tile: Tile, tileSize: U32, o: RenderOptions, numberLabel: Dims, nameLabel: Dims)
    requires Renderable(tileSize, o, numberLabel, nameLabel)
    requires var w := Layout(tile, tileSize, o, numberLabel, nameLabel).window;
      tile.icon == Dims(w.x2 - w.x1, w.y2 - w.y1)
    ensures var l := Layout(tile, tileSize, o, numberLabel, nameLabel);
      !l.resized && l.icon == Box(l.window.x1, l.window.y1, l.window.x2 - l.window.x1, l.window.y2 - l.window.y1)
  {
  }

  /** The decimal digits of `n`, as `to_string` writes an unsigned integer. */
  function DecimalString(n: nat): (s: string)
    ensures |s| >= 1
    ensures forall i :: 0 <= i < |s| ==> '0' <= s[i] <= '9'
    decreases n
  {
    if n < 10 then [Digit(n)] else DecimalString(n / 10) + [Digit(n % 10)]
  }

  /** The character of decimal digit `d`. */
  function Digit(d: nat): (c: char)
    requires d < 10
    ensures '0' <= c <= '9' && c as int - '0' as int == d
  {
    ['0', '1', '2', '3', '4', '5', '6', '7', '8', '9'][d]
  }

  /** The number a string of decimal digits denotes. */
  function DecimalValue(s: string): nat
    requires forall i :: 0 <= i < |s| ==> '0' <= s[i] <= '9'
  {
    if s == [] then 0 else 10 * DecimalValue(s[..|s| - 1]) + (s[|s| - 1] as int - '0' as int)
  }

  /** The label of a tile's number reads back as that number. */
  lemma {:induction false} DecimalRoundTrip(n: nat)
    ensures DecimalValue(DecimalString(n)) == n
    decreases n
  {
    var s := DecimalString(n);
    if n < 10 {
      assert s[..|s| - 1] == [];
    } else {
      DecimalRoundTrip(n / 10);
      assert s[..|s| - 1] == DecimalString(n / 10);
      assert s[|s| - 1] == Digit(n % 10);
    }
  }

  /** The label sizes `render` sees for a tile. */
  function NumberLabelSize(tile: Tile, measure: string -> Dims): Dims
    requires LabelsMeasurable(tile, measure)
  {
    Text.LabelSize(measure(DecimalString(tile.number)))
  }

  function NameLabelSize(tile: Tile, measure: string -> Dims): Dims
    requires LabelsMeasurable(tile, measure)
  {
    Text.LabelSize(measure(tile.name))
  }

  /** The text renderer's `+1` does not overflow for either label. */
  predicate LabelsMeasurable(tile: Tile, measure: string -> Dims) {
    && measure(DecimalString(tile.number)).width < U32_LIMIT - 1
    && measure(DecimalString(tile.number)).height < U32_LIMIT - 1
    && measure(tile.name).width < U32_LIMIT - 1
    && measure(tile.name).height < U32_LIMIT - 1
  }

  /** Whether `render` can draw the tile at this size without a `u32` fault. */
  predicate TileRenderable(tile: Tile, tileSize: U32, o: RenderOptions, measure: string -> Dims) {
    LabelsMeasurable(tile, measure) && Renderable(tileSize, o, NumberLabelSize(tile, measure), NameLabelSize(tile, measure))
  }

  /** What was pasted onto a tile's template. */
  datatype TileLayer =
    | TemplateLayer(template: Template)
    | NumberLabel(text: string, color: Rgba)
    | NameLabel(text: string, color: Rgba)
    | IconLayer(source: Dims, desaturated: bool)

  /** The three pastes of `render`, in order, for a tile laid out as `l`. */
  function Pastes(tile: Tile, l: TileLayout): seq<Placement<TileLayer>> {
    [ Placement(l.numberLabel.x, l.numberLabel.y, l.numberLabel.width, l.numberLabel.height,
                NumberLabel(DecimalString(tile.number), l.theme.textColor)),
      Placement(l.nameLabel.x, l.nameLabel.y, l.nameLabel.width, l.nameLabel.height,
                NameLabel(tile.name, l.theme.textColor)),
      Placement(l.icon.x, l.icon.y, l.icon.width, l.icon.height,
                IconLayer(tile.icon, l.desaturated)) ]
  }

  /**
   * The name-label step of `TileRenderer::render`: the label pasted flush
   * with the bottom of the content rectangle, centred when narrower.
   */
  method PasteNameLabel(image: Composition<TileLayer>, content: Rect, nameText: Dims, name: string, color: Rgba)
    requires content.x1 <= content.x2
    modifies image
    ensures var b := NameLabelBox(content, nameText);
      image.layers == old(image.layers) + [Placement(b.x, b.y, b.width, b.height, NameLabel(name, color))]
  {
    var contentWidth := content.x2 - content.x1;
    var xOffset := if nameText.width < contentWidth then (contentWidth - nameText.width) / 2 else 0;
    image.Draw(Placement(content.x1 + xOffset, content.y2 - nameText.height, nameText.width, nameText.height, NameLabel(name, color)));
  }

  /**
   * The icon step of `TileRenderer::render`: the icon, shrunk when it does
   * not fit the window, pasted centred in it.
   */
  method PasteIcon(image: Composition<TileLayer>, icon: Dims, window: Rect, desaturated: bool)
    requires ProperWindow(window)
    modifies image
    ensures var b := IconBox(icon, window);
      image.layers == old(image.layers) + [Placement(b.x, b.y, b.width, b.height, IconLayer(icon, desaturated))]
  {
    var contentWidth := window.x2 - window.x1;
    var contentHeight := window.y2 - window.y1;
    var item := icon;
    if item.width > contentWidth || item.height > contentHeight {
      item := ScaledSize(item, contentWidth, contentHeight);
    }
    var xPad := (contentWidth - item.width) / 2;
    var yPad := (contentHeight - item.height) / 2;
    assert item == FittedIcon(icon, window);
    image.Draw(Placement(window.x1 + xPad, window.y1 + yPad, item.width, item.height, IconLayer(icon, desaturated)));
  }

  /**
   * `TileRenderer::render`: the tile is its themed template with the number
   * label, the name label and the (resized, and for a locked tile
   * desaturated) icon pasted where `Layout` puts them.
   */
  method Render(tile: Tile, tileSize: U32, o: RenderOptions, measure: string -> Dims) returns (image: Composition<TileLayer>)
    requires TileRenderable(tile, tileSize, o, measure)
    ensures fresh(image)
    ensures image.width == tileSize && image.height == tileSize
    ensures var l := Layout(tile, tileSize, o, NumberLabelSize(tile, measure), NameLabelSize(tile, measure));
      image.base == TemplateLayer(l.template) && image.layers == Pastes(tile, l)
  {
    var textColor;
    var template;
    if tile.unlocked {
      textColor := o.unlockedTheme.textColor;
      template := RenderTemplate(tileSize, o.borderSize, o.insetSize,
        o.unlockedTheme.backgroundColor, o.unlockedTheme.borderColor, o.unlockedTheme.insetColor);
    } else {
      textColor := o.lockedTheme.textColor;
      template := RenderTemplate(tileSize, o.borderSize, o.insetSize,
        o.lockedTheme.backgroundColor, o.lockedTheme.borderColor, o.lockedTheme.insetColor);
    }
    image := new Composition(tileSize, tileSize, TemplateLayer(template));
    ghost var laidOut := Layout(tile, tileSize, o, NumberLabelSize(tile, measure), NameLabelSize(tile, measure));
    var bounds := ContentBounds(tileSize, o);
    var x1, y1, x2, y2 := bounds.x1, bounds.y1, bounds.x2, bounds.y2;
    var numberText := Text.LabelSize(measure(DecimalString(tile.number)));
    var nameText := Text.LabelSize(measure(tile.name));
    var numberPaste := Placement(x1, y1, numberText.width, numberText.height, NumberLabel(DecimalString(tile.number), textColor));
    image.Draw(numberPaste);
    PasteNameLabel(image, bounds, nameText, tile.name, textColor);
    // move the window's edges so that the icon does not overlap the labels
    y1 := y1 + (numberText.height + o.padding);
    y2 := y2 - (nameText.height + o.padding);
    var window := Rect(x1, y1, x2, y2);
    // locked tiles are greyed out
    var desaturated := !tile.unlocked;
    PasteIcon(image, tile.icon, window, desaturated);
    // the same boxes as the layout's
    assert numberText == NumberLabelSize(tile, measure) && nameText == NameLabelSize(tile, measure);
    assert laidOut.window == window;
  }
}
