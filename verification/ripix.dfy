/** The image renderers of `seaplayer/others/ripix.py`, a cut of rich-pixels.

    An image is what `getpixel` sees after the conversion to `"RGBA"` and the
    resize, both of which belong to Pillow: the renderers here take that
    image, and the size computations that choose the resize are modelled on
    their own. `Style.parse` belongs to Rich, so a parsed style is kept as its
    definition text. */
module Ripix {
  import opened Common
  import Functions

  type Channel = x: int | 0 <= x < 256

  /** An RGBA pixel. */
  datatype Pixel = Pixel(r: Channel, g: Channel, b: Channel, a: Channel)

  /** An RGBA image: `rows[y][x]` is `getpixel((x, y))`. */
  datatype Image = Image(width: nat, height: nat, rows: seq<seq<Pixel>>)

  predicate WellFormed(img: Image) {
    |img.rows| == img.height && forall y :: 0 <= y < |img.rows| ==> |img.rows[y]| == img.width
  }

  /** A Rich style: `Style.parse(definition)` or `Style.null()`. */
  datatype Style = Parsed(definition: string) | NullStyle

  /** A Rich segment: a text and an optional style. */
  datatype Segment = Segment(text: string, style: Option<Style>)

  /** Python truthiness of an optional text. */
  predicate Truthy(s: Option<string>) {
    s.Some? && s.value != ""
  }

  // ------------------------------------------------------------- colours

  /** The colour text `rgb(r,g,b)` of a pixel. */
  function RgbText(p: Pixel): (s: string)
    ensures |s| >= 10 && s[..4] == "rgb(" && s[|s| - 1] == ')'
  {
    "rgb(" + (Decimal(p.r) + ("," + (Decimal(p.g) + ("," + (Decimal(p.b) + ")")))))
  }

  /** `_get_color`: the pixel's colour when it is not fully transparent, the
      default colour when it is. */
  function GetColor(p: Pixel, defaultColor: Option<string>): (r: Option<string>)
    ensures p.a > 0 ==> r == Some(RgbText(p))
    ensures p.a == 0 ==> r == defaultColor
    ensures Truthy(r) <==> p.a > 0 || Truthy(defaultColor)
  {
    if p.a > 0 then Some(RgbText(p)) else defaultColor
  }

  /** Digits stop at the first comma, so a comma-separated list of decimals
      splits in one way only. */
  lemma {:induction false} SplitAtComma(a: string, x: string, c: string, y: string)
    requires AllDigits(a) && AllDigits(c)
    requires a + ("," + x) == c + ("," + y)
    ensures a == c && x == y
    decreases |a|
  {
    if |a| == 0 && |c| == 0 {
      assert x == (a + ("," + x))[1..];
      assert y == (c + ("," + y))[1..];
    } else if |a| > 0 && |c| > 0 {
      assert a[0] == (a + ("," + x))[0] == (c + ("," + y))[0] == c[0];
      assert a[1..] + ("," + x) == (a + ("," + x))[1..];
      assert c[1..] + ("," + y) == (c + ("," + y))[1..];
      SplitAtComma(a[1..], x, c[1..], y);
      assert a == [a[0]] + a[1..];
      assert c == [c[0]] + c[1..];
    }
  }

  /** Pixels with different colour channels have different colour texts. */
  lemma {:induction false} RgbTextInjective(p: Pixel, q: Pixel)
    requires RgbText(p) == RgbText(q)
    ensures p.r == q.r && p.g == q.g && p.b == q.b
  {
    var rp, gp, bp := Decimal(p.r), Decimal(p.g), Decimal(p.b);
    var rq, gq, bq := Decimal(q.r), Decimal(q.g), Decimal(q.b);
    assert RgbText(p)[4..] == rp + ("," + (gp + ("," + (bp + ")"))));
    assert RgbText(q)[4..] == rq + ("," + (gq + ("," + (bq + ")"))));
    SplitAtComma(rp, gp + ("," + (bp + ")")), rq, gq + ("," + (bq + ")")));
    SplitAtComma(gp, bp + ")", gq, bq + ")");
    assert bp == (bp + ")")[..|bp|];
    assert bq == (bq + ")")[..|bq|];
    DecimalInjective(p.r, q.r);
    DecimalInjective(p.g, q.g);
    DecimalInjective(p.b, q.b);
  }

  /** `Renderer.null_style`: no style without a default colour, otherwise the
      default colour as background. */
  function NullStyleOf(defaultColor: Option<string>): (s: Option<Style>)
    ensures s.None? <==> defaultColor.None?
    ensures defaultColor.Some? ==> s == Some(Parsed("on " + defaultColor.value))
  {
    if defaultColor.None? then None else Some(Parsed("on " + defaultColor.value))
  }

  /** The segment closing every rendered row. */
  function Newline(defaultColor: Option<string>): Segment {
    Segment("\n", NullStyleOf(defaultColor))
  }

  // ------------------------------------------------------------ halfcell

  /** The lower half block, U+2584. */
  const LOWER_HALF_BLOCK: string := "\U{2584}"

  /** The glyph literal as the source file spells it: the UTF-8 bytes of
      U+2584 read back as Windows-1252, three characters. */
  const LOWER_HALF_BLOCK_AS_WRITTEN: string := "\U{00E2}\U{2013}\U{201E}"

  /** The colour texts `_render_halfcell` joins: the lower pixel's colour (or
      the empty text) first, then the upper pixel's when it is truthy. */
  function HalfcellColors(upper: Pixel, lower: Pixel, defaultColor: Option<string>): (colors: seq<string>)
    ensures 1 <= |colors| <= 2
    ensures var lc := GetColor(lower, defaultColor);
      colors[0] == (if Truthy(lc) then lc.value else "")
    ensures var uc := GetColor(upper, defaultColor);
      && (|colors| == 2 <==> Truthy(uc))
      && (|colors| == 2 ==> colors[1] == uc.value)
  {
    var lowerColor := GetColor(lower, defaultColor);
    var upperColor := GetColor(upper, defaultColor);
    var colors := [if Truthy(lowerColor) then lowerColor.value else ""];
    if Truthy(upperColor) then colors + [upperColor.value] else colors
  }

  /** `_render_halfcell` with the glyph it prints for a visible lower pixel
      as a parameter. */
  function HalfcellCellWith(glyph: string, upper: Pixel, lower: Pixel, defaultColor: Option<string>): Segment {
    var colors := HalfcellColors(upper, lower, defaultColor);
    var style := if |colors| > 0 then Some(Parsed(Functions.Join(colors, " on "))) else NullStyleOf(defaultColor);
    Segment(if Truthy(GetColor(lower, defaultColor)) then glyph else " ", style)
  }

  /** `_render_halfcell` as written: a visible lower pixel prints three
      characters instead of one. */
  function HalfcellCellAsWritten(upper: Pixel, lower: Pixel, defaultColor: Option<string>): (s: Segment)
    ensures lower.a > 0 ==> s.text == LOWER_HALF_BLOCK_AS_WRITTEN && |s.text| == 3
    ensures lower.a > 0 ==> s.text != HalfcellCell(upper, lower, defaultColor).text
  {
    HalfcellCellWith(LOWER_HALF_BLOCK_AS_WRITTEN, upper, lower, defaultColor)
  }

  /** `_render_halfcell` with the lower half block: one cell shows the lower
      pixel as the glyph's foreground and the upper pixel as its background. */
  function HalfcellCell(upper: Pixel, lower: Pixel, defaultColor: Option<string>): (s: Segment)
    ensures |s.text| == 1
    ensures s.text == LOWER_HALF_BLOCK <==> lower.a > 0 || Truthy(defaultColor)
    ensures s.text == " " <==> !(lower.a > 0 || Truthy(defaultColor))
    ensures s.style.Some? && s.style.value.Parsed?
    ensures lower.a > 0 && upper.a > 0 ==> s.style == Some(Parsed(RgbText(lower) + " on " + RgbText(upper)))
    ensures lower.a > 0 && upper.a == 0 && !Truthy(defaultColor) ==> s.style == Some(Parsed(RgbText(lower)))
    ensures lower.a == 0 && upper.a > 0 && !Truthy(defaultColor) ==> s.style == Some(Parsed(" on " + RgbText(upper)))
    ensures lower.a == 0 && upper.a == 0 && !Truthy(defaultColor) ==> s == Segment(" ", Some(Parsed("")))
    ensures lower.a > 0 && upper.a == 0 && Truthy(defaultColor) ==>
      s.style == Some(Parsed(RgbText(lower) + " on " + defaultColor.value))
    ensures lower.a == 0 && upper.a > 0 && Truthy(defaultColor) ==>
      s.style == Some(Parsed(defaultColor.value + " on " + RgbText(upper)))
    ensures lower.a == 0 && upper.a == 0 && Truthy(defaultColor) ==>
      s == Segment(LOWER_HALF_BLOCK, Some(Parsed(defaultColor.value + " on " + defaultColor.value)))
    ensures s.style == Some(Parsed(Functions.Join(HalfcellColors(upper, lower, defaultColor), " on ")))
  {
    var colors := HalfcellColors(upper, lower, defaultColor);
    Functions.JoinPair(colors[0], if |colors| == 2 then colors[1] else "", " on ");
    assert |colors| == 1 ==> colors == [colors[0]];
    assert |colors| == 2 ==> colors == [colors[0], colors[1]];
    assert "" + " on " == " on ";
    HalfcellCellWith(LOWER_HALF_BLOCK, upper, lower, defaultColor)
  }

  /** The misspelt glyph differs from the block it stands for. */
  lemma {:induction false} GlyphAsWritten()
    ensures |LOWER_HALF_BLOCK| == 1 && |LOWER_HALF_BLOCK_AS_WRITTEN| == 3
    ensures HalfcellCellAsWritten(Pixel(0, 0, 0, 255), Pixel(0, 0, 0, 255), None).text
         == LOWER_HALF_BLOCK_AS_WRITTEN
    ensures HalfcellCell(Pixel(0, 0, 0, 255), Pixel(0, 0, 0, 255), None).text == LOWER_HALF_BLOCK
  {
  }

  // ----------------------------------------------------- lines and rows

  /** The two renderers: the subclass a `render` call dispatches to. */
  datatype Kind = Halfcell | Fullcell

  /** `HalfcellRenderer._get_range`: every second row, from 0. */
  function HalfcellRange(height: nat): (ys: seq<nat>)
    ensures |ys| == (height + 1) / 2
    ensures height <= 2 * |ys| <= height + 1
    ensures forall k :: 0 <= k < |ys| ==> ys[k] == 2 * k && ys[k] < height
  {
    seq((height + 1) / 2, k requires 0 <= k < (height + 1) / 2 => 2 * k)
  }

  /** `FullcellRenderer._get_range`: every row. */
  function FullcellRange(height: nat): (ys: seq<nat>)
    ensures |ys| == height
    ensures forall k :: 0 <= k < |ys| ==> ys[k] == k
  {
    seq(height, k requires 0 <= k < height => k)
  }

  function Range(kind: Kind, height: nat): (ys: seq<nat>)
    ensures forall k :: 0 <= k < |ys| ==> ys[k] < height
  {
    match kind
    case Halfcell => HalfcellRange(height)
    case Fullcell => FullcellRange(height)
  }

  /** `HalfcellRenderer._render_line` for row `y`: one cell per column, cell
      `x` showing pixel `(x, y)` over pixel `(x, y + 1)`. */
  function HalfcellLine(img: Image, y: nat, defaultColor: Option<string>): (line: seq<Segment>)
    requires WellFormed(img) && y < img.height
    requires img.width > 0 ==> y + 1 < img.height
    ensures |line| == img.width
    ensures forall x :: 0 <= x < |line| ==>
      line[x] == HalfcellCell(img.rows[y][x], img.rows[y + 1][x], defaultColor) && |line[x].text| == 1
  {
    seq(img.width, x requires 0 <= x < img.width =>
      HalfcellCell(img.rows[y][x], img.rows[y + 1][x], defaultColor))
  }

  /** `FullcellRenderer._render_fullcell`: two spaces with the pixel's colour
      as background, or the null style when the pixel is transparent. */
  function FullcellCell(p: Pixel, defaultColor: Option<string>): (s: Segment)
    ensures s.text == "  "
    ensures p.a > 0 ==> s.style == Some(Parsed("on " + RgbText(p)))
    ensures p.a == 0 ==> s.style == NullStyleOf(defaultColor)
  {
    var style := if p.a > 0 then Some(Parsed("on " + GetColor(p, defaultColor).value)) else NullStyleOf(defaultColor);
    Segment("  ", style)
  }

  /** `FullcellRenderer._render_line` for row `y`: one two-column cell per
      column, cell `x` showing pixel `(x, y)`. */
  function FullcellLine(img: Image, y: nat, defaultColor: Option<string>): (line: seq<Segment>)
    requires WellFormed(img) && y < img.height
    ensures |line| == img.width
    ensures forall x :: 0 <= x < |line| ==> line[x] == FullcellCell(img.rows[y][x], defaultColor) && line[x].text == "  "
  {
    seq(img.width, x requires 0 <= x < img.width => FullcellCell(img.rows[y][x], defaultColor))
  }

  /** `_render_line` for row `y`; `None` is the `IndexError` of a half-cell
      line reading the row below the last one. */
  function LineAt(kind: Kind, img: Image, y: nat, defaultColor: Option<string>): (r: Option<seq<Segment>>)
    requires WellFormed(img) && y < img.height
    ensures r.Some? ==> |r.value| == img.width
  {
    match kind
    case Halfcell =>
      if img.width > 0 && y + 1 >= img.height then None else Some(HalfcellLine(img, y, defaultColor))
    case Fullcell => Some(FullcellLine(img, y, defaultColor))
  }

  /** The lines `render` produces, one per row of the range, or `None` when
      one of them fails. */
  function Lines(kind: Kind, img: Image, defaultColor: Option<string>): Option<seq<seq<Segment>>>
    requires WellFormed(img)
  {
    var ys := Range(kind, img.height);
    if exists k :: 0 <= k < |ys| && LineAt(kind, img, ys[k], defaultColor).None? then None
    else Some(seq(|ys|, k requires 0 <= k < |ys| => LineAt(kind, img, ys[k], defaultColor).value))
  }

  /** Rendering fails exactly for a half-cell render of a non-empty image of
      odd height; otherwise there is one line per rendered row, each one cell
      per pixel column. */
  lemma {:induction false} LinesDefined(kind: Kind, img: Image, defaultColor: Option<string>)
    requires WellFormed(img)
    ensures Lines(kind, img, defaultColor).None? <==> kind == Halfcell && img.width > 0 && img.height % 2 == 1
    ensures Lines(kind, img, defaultColor).Some? ==>
      |Lines(kind, img, defaultColor).value| == |Range(kind, img.height)|
      && forall k :: 0 <= k < |Lines(kind, img, defaultColor).value| ==>
           |Lines(kind, img, defaultColor).value[k]| == img.width
  {
    var ys := Range(kind, img.height);
    if kind == Halfcell && img.width > 0 && img.height % 2 == 1 {
      var k := |ys| - 1;
      assert ys[k] + 1 >= img.height;
      assert LineAt(kind, img, ys[k], defaultColor).None?;
    }
  }

  /** A Python style compared with `""`: neither a `Style` nor `None` equals a
      text, so this is never true. */
  predicate StyleIsEmptyText(s: Option<Style>) {
    false
  }

  /** The test `render` drops a row by: every cell's style compares equal to `""`. */
  predicate Blank(line: seq<Segment>) {
    forall i :: 0 <= i < |line| ==> StyleIsEmptyText(line[i].style)
  }

  /** The row `render` keeps: the line and a newline, unless it is blank. */
  function RowSegments(line: seq<Segment>, nl: Segment): seq<Segment> {
    if Blank(line) then [] else line + [nl]
  }

  /** Since no style equals `""`, exactly the empty lines are dropped. */
  lemma {:induction false} RowKeptIffNonEmpty(line: seq<Segment>, nl: Segment)
    ensures Blank(line) <==> |line| == 0
    ensures |line| == 0 ==> RowSegments(line, nl) == []
    ensures |line| > 0 ==> RowSegments(line, nl) == line + [nl]
  {
    if |line| > 0 {
      assert !StyleIsEmptyText(line[0].style);
    }
  }

  function Rows(lines: seq<seq<Segment>>, nl: Segment): seq<seq<Segment>> {
    seq(|lines|, k requires 0 <= k < |lines| => RowSegments(lines[k], nl))
  }

  /** All rows kept, in order: the reference for the `render` loop. */
  function Emit(lines: seq<seq<Segment>>, nl: Segment): seq<Segment> {
    Functions.Concat(Rows(lines, nl))
  }

  lemma {:induction false} EmitSnoc(lines: seq<seq<Segment>>, line: seq<Segment>, nl: Segment)
    ensures Emit(lines + [line], nl) == Emit(lines, nl) + RowSegments(line, nl)
  {
    assert Rows(lines + [line], nl) == Rows(lines, nl) + [RowSegments(line, nl)];
    Functions.ConcatSnoc(Rows(lines, nl), RowSegments(line, nl));
  }

  lemma {:induction false} RowsUniform(lines: seq<seq<Segment>>, nl: Segment, w: nat)
    requires w > 0
    requires forall k :: 0 <= k < |lines| ==> |lines[k]| == w
    ensures |Rows(lines, nl)| == |lines|
    ensures forall k :: 0 <= k < |lines| ==> Rows(lines, nl)[k] == lines[k] + [nl]
  {
    forall k | 0 <= k < |lines|
      ensures Rows(lines, nl)[k] == lines[k] + [nl]
    {
      RowKeptIffNonEmpty(lines[k], nl);
    }
  }

  /** When every line has `w > 0` cells, the output has `w + 1` segments per
      line. */
  lemma {:induction false} EmitLength(lines: seq<seq<Segment>>, nl: Segment, w: nat)
    requires w > 0
    requires forall k :: 0 <= k < |lines| ==> |lines[k]| == w
    ensures |Emit(lines, nl)| == |lines| * (w + 1)
  {
    RowsUniform(lines, nl, w);
    Functions.ConcatUniformLength(Rows(lines, nl), w + 1);
  }

  /** Where cell `col` of text row `row` lands when every row holds `width`
      cells followed by a newline. */
  function Offset(row: nat, width: nat, col: nat): nat {
    row * (width + 1) + col
  }

  /** When every line has `w > 0` cells, cell `j` of line `k` sits at
      `k * (w + 1) + j` of the output and the line's newline right after its
      last cell. */
  lemma {:induction false} EmitAt(lines: seq<seq<Segment>>, nl: Segment, w: nat, k: nat, j: nat)
    requires w > 0
    requires forall i :: 0 <= i < |lines| ==> |lines[i]| == w
    requires k < |lines| && j <= w
    ensures Offset(k, w, j) < |Emit(lines, nl)|
    ensures Emit(lines, nl)[Offset(k, w, j)] == if j < w then lines[k][j] else nl
  {
    RowsUniform(lines, nl, w);
    Functions.ConcatUniformAt(Rows(lines, nl), w + 1, k, j);
  }

  /** Lines without cells leave nothing at all, not even newlines. */
  lemma {:induction false} EmitEmptyLines(lines: seq<seq<Segment>>, nl: Segment)
    requires forall k :: 0 <= k < |lines| ==> |lines[k]| == 0
    ensures Emit(lines, nl) == []
  {
    var rows := Rows(lines, nl);
    forall k | 0 <= k < |rows|
      ensures |rows[k]| == 0
    {
      RowKeptIffNonEmpty(lines[k], nl);
    }
    Functions.ConcatUniformLength(rows, 0);
  }

  /** What `render` returns: every kept row of the lines, or nothing when a
      line fails. */
  function Rendered(kind: Kind, img: Image, defaultColor: Option<string>): Option<seq<Segment>>
    requires WellFormed(img)
  {
    match Lines(kind, img, defaultColor)
    case None => None
    case Some(lines) => Some(Emit(lines, Newline(defaultColor)))
  }

  /** `Renderer.render` (and the copy in `FullcellRenderer.render`) on the
      converted and resized image: walks the range, renders each line,
      appends the newline and keeps the row unless it is blank. */
  method Render(kind: Kind, img: Image, defaultColor: Option<string>) returns (r: Option<seq<Segment>>)
    requires WellFormed(img)
    ensures r == Rendered(kind, img, defaultColor)
  {
    var nl := Newline(defaultColor);
    var ys := Range(kind, img.height);
    var segments: seq<Segment> := [];
    ghost var lines: seq<seq<Segment>> := [];
    var failed := false;
    var i := 0;
    while i < |ys| && !failed
      invariant 0 <= i <= |ys|
      invariant |lines| == i
      invariant forall k :: 0 <= k < i ==> LineAt(kind, img, ys[k], defaultColor) == Some(lines[k])
      invariant segments == Emit(lines, nl)
      invariant failed ==> i < |ys| && LineAt(kind, img, ys[i], defaultColor).None?
      decreases |ys| - i, !failed
    {
      var line := LineAt(kind, img, ys[i], defaultColor);
      if line.None? {
        failed := true;
      } else {
        var thisRow := line.value + [nl];
        RenderStep(kind, img, defaultColor, lines, line.value, segments);
        assert thisRow[..|thisRow| - 1] == line.value;
        if !Blank(thisRow[..|thisRow| - 1]) {
          segments := segments + thisRow;
        }
        lines := lines + [line.value];
        i := i + 1;
      }
    }
    if failed {
      LinesFail(kind, img, defaultColor, i);
    } else {
      LinesSucceed(kind, img, defaultColor, lines);
    }
    r := if failed then None else Some(segments);
  }

  /** One turn of the `render` loop: the next line joins the prefix of lines
      already rendered, and its row (unless blank) the output. */
  lemma {:induction false} RenderStep(kind: Kind, img: Image, defaultColor: Option<string>,
                   lines: seq<seq<Segment>>, line: seq<Segment>, segments: seq<Segment>)
    requires WellFormed(img) && |lines| < |Range(kind, img.height)|
    requires forall k :: 0 <= k < |lines| ==>
      LineAt(kind, img, Range(kind, img.height)[k], defaultColor) == Some(lines[k])
    requires LineAt(kind, img, Range(kind, img.height)[|lines|], defaultColor) == Some(line)
    requires segments == Emit(lines, Newline(defaultColor))
    ensures forall k :: 0 <= k < |lines| + 1 ==>
      LineAt(kind, img, Range(kind, img.height)[k], defaultColor) == Some((lines + [line])[k])
    ensures (if Blank(line) then segments else segments + (line + [Newline(defaultColor)]))
         == Emit(lines + [line], Newline(defaultColor))
  {
    EmitSnoc(lines, line, Newline(defaultColor));
  }

  lemma {:induction false} LinesFail(kind: Kind, img: Image, defaultColor: Option<string>, i: nat)
    requires WellFormed(img) && i < |Range(kind, img.height)|
    requires LineAt(kind, img, Range(kind, img.height)[i], defaultColor).None?
    ensures Lines(kind, img, defaultColor).None?
  {
    var ys := Range(kind, img.height);
    assert 0 <= i < |ys| && LineAt(kind, img, ys[i], defaultColor).None?;
    assert exists k :: 0 <= k < |ys| && LineAt(kind, img, ys[k], defaultColor).None?;
  }

  lemma {:induction false} LinesSucceed(kind: Kind, img: Image, defaultColor: Option<string>, lines: seq<seq<Segment>>)
    requires WellFormed(img) && |lines| == |Range(kind, img.height)|
    requires forall k :: 0 <= k < |lines| ==>
      LineAt(kind, img, Range(kind, img.height)[k], defaultColor) == Some(lines[k])
    ensures Lines(kind, img, defaultColor) == Some(lines)
  {
    var ys := Range(kind, img.height);
    assert forall k :: 0 <= k < |ys| ==> LineAt(kind, img, ys[k], defaultColor).Some?;
    var s := seq(|ys|, k requires 0 <= k < |ys| => LineAt(kind, img, ys[k], defaultColor).value);
    assert s == lines;
  }

  /** Line `k` of a render that succeeds is `_render_line` of row `k` of the range. */
  lemma {:induction false} LineOf(kind: Kind, img: Image, defaultColor: Option<string>, k: nat)
    requires WellFormed(img) && Lines(kind, img, defaultColor).Some?
    requires k < |Range(kind, img.height)|
    ensures k < |Lines(kind, img, defaultColor).value|
    ensures LineAt(kind, img, Range(kind, img.height)[k], defaultColor) == Some(Lines(kind, img, defaultColor).value[k])
  {
  }

  /** A half-cell render of an image of even height has `width + 1` segments
      per text row: cell `x` of text row `k` shows pixel `(x, 2k)` over pixel
      `(x, 2k + 1)`, and the newline closes the row. */
  lemma {:induction false} HalfcellAt(img: Image, defaultColor: Option<string>, k: nat, x: nat)
    requires WellFormed(img) && img.width > 0 && img.height % 2 == 0
    requires k < img.height / 2 && x <= img.width
    ensures Lines(Halfcell, img, defaultColor).Some?
    ensures var out := Emit(Lines(Halfcell, img, defaultColor).value, Newline(defaultColor));
      |out| == (img.height / 2) * (img.width + 1)
      && Offset(k, img.width, x) < |out|
      && out[Offset(k, img.width, x)]
         == if x < img.width then HalfcellCell(img.rows[2 * k][x], img.rows[2 * k + 1][x], defaultColor)
            else Newline(defaultColor)
  {
    HalfcellLines(img, defaultColor);
    var lines := Lines(Halfcell, img, defaultColor).value;
    var nl := Newline(defaultColor);
    EmitLength(lines, nl, img.width);
    EmitAt(lines, nl, img.width, k, x);
    assert x < img.width ==> lines[k][x] == HalfcellCell(img.rows[2 * k][x], img.rows[2 * k + 1][x], defaultColor);
  }

  /** The lines of a half-cell render of an image of even height: line `k`
      pairs pixel rows `2k` and `2k + 1`. */
  lemma {:induction false} HalfcellLines(img: Image, defaultColor: Option<string>)
    requires WellFormed(img) && img.height % 2 == 0
    ensures Lines(Halfcell, img, defaultColor).Some?
    ensures |Lines(Halfcell, img, defaultColor).value| == img.height / 2
    ensures forall k :: 0 <= k < img.height / 2 ==>
      2 * k + 1 < img.height && Lines(Halfcell, img, defaultColor).value[k] == HalfcellLine(img, 2 * k, defaultColor)
    ensures forall k :: 0 <= k < img.height / 2 ==> |Lines(Halfcell, img, defaultColor).value[k]| == img.width
  {
    LinesDefined(Halfcell, img, defaultColor);
    forall k | 0 <= k < img.height / 2
      ensures 2 * k + 1 < img.height && Lines(Halfcell, img, defaultColor).value[k] == HalfcellLine(img, 2 * k, defaultColor)
    {
      LineOf(Halfcell, img, defaultColor, k);
    }
  }

  /** A full-cell render has `width + 1` segments per row: cell `x` of row
      `y` shows pixel `(x, y)`, and the newline closes the row. */
  lemma {:induction false} FullcellAt(img: Image, defaultColor: Option<string>, y: nat, x: nat)
    requires WellFormed(img) && img.width > 0
    requires y < img.height && x <= img.width
    ensures Lines(Fullcell, img, defaultColor).Some?
    ensures var out := Emit(Lines(Fullcell, img, defaultColor).value, Newline(defaultColor));
      |out| == img.height * (img.width + 1)
      && Offset(y, img.width, x) < |out|
      && out[Offset(y, img.width, x)]
         == if x < img.width then FullcellCell(img.rows[y][x], defaultColor) else Newline(defaultColor)
  {
    LinesDefined(Fullcell, img, defaultColor);
    var lines := Lines(Fullcell, img, defaultColor).value;
    LineOf(Fullcell, img, defaultColor, y);
    EmitLength(lines, Newline(defaultColor), img.width);
    EmitAt(lines, Newline(defaultColor), img.width, y, x);
  }

  /** An image without columns renders to nothing, whatever its height. */
  lemma {:induction false} ZeroWidthRendersNothing(kind: Kind, img: Image, defaultColor: Option<string>)
    requires WellFormed(img) && img.width == 0
    ensures Lines(kind, img, defaultColor).Some?
    ensures Emit(Lines(kind, img, defaultColor).value, Newline(defaultColor)) == []
  {
    LinesDefined(kind, img, defaultColor);
    EmitEmptyLines(Lines(kind, img, defaultColor).value, Newline(defaultColor));
  }

  // ------------------------------------------------------------ resizing

  /** The size Pillow's resize produces: the requested one, or the image's own
      when there is no resize. */
  function FinalSize(imageSize: (nat, nat), resize: Option<(nat, nat)>): (nat, nat) {
    if resize.Some? then resize.value else imageSize
  }

  /** The height `HalfcellRenderer.render` aims at: twice the requested (or
      the image's) height; the round-up to even never applies. */
  function HalfcellTarget(resize: Option<(nat, nat)>, imageHeight: nat): (t: nat)
    ensures t % 2 == 0
    ensures t == 2 * (if resize.Some? then resize.value.1 else imageHeight)
  {
    var target := if resize.Some? then resize.value.1 * 2 else imageHeight * 2;
    if target % 2 != 0 then target + 1 else target
  }

  /** The resize `HalfcellRenderer.render` passes on, as written: the caller's
      resize survives untouched when the image is already of target height. */
  function HalfcellResizeAsWritten(resize: Option<(nat, nat)>, imageSize: (nat, nat)): (r: Option<(nat, nat)>)
    ensures imageSize.1 != HalfcellTarget(resize, imageSize.1) ==>
      r.Some? && r.value.1 == HalfcellTarget(resize, imageSize.1)
    ensures imageSize.1 == HalfcellTarget(resize, imageSize.1) ==> r == resize
  {
    var target := HalfcellTarget(resize, imageSize.1);
    if imageSize.1 != target then
      Some(if resize.Some? then (resize.value.0, target) else (imageSize.0, target))
    else resize
  }

  /** Image 4x6 with `resize=(4, 3)`: the target 6 is the image's height, so
      the image is resized to height 3 and the half-cell render of any such
      image fails on its last line. */
  lemma {:induction false} HalfcellResizeAsWrittenFails(img: Image, defaultColor: Option<string>)
    requires WellFormed(img) && img.width == 4 && img.height == 3
    ensures HalfcellResizeAsWritten(Some((4, 3)), (4, 6)) == Some((4, 3))
    ensures FinalSize((4, 6), HalfcellResizeAsWritten(Some((4, 3)), (4, 6))) == (img.width, img.height)
    ensures Lines(Halfcell, img, defaultColor).None?
  {
    LinesDefined(Halfcell, img, defaultColor);
  }

  /** The resize `HalfcellRenderer.render` is meant to pass on: the requested
      width (or the image's) at the target height. */
  function HalfcellResize(resize: Option<(nat, nat)>, imageSize: (nat, nat)): (r: Option<(nat, nat)>)
    ensures FinalSize(imageSize, r).1 == HalfcellTarget(resize, imageSize.1)
    ensures FinalSize(imageSize, r).0 == (if resize.Some? then resize.value.0 else imageSize.0)
    ensures resize.None? && imageSize.1 == HalfcellTarget(resize, imageSize.1) ==> r.None?
  {
    var target := HalfcellTarget(resize, imageSize.1);
    if resize.Some? then Some((resize.value.0, target))
    else if imageSize.1 != target then Some((imageSize.0, target))
    else None
  }

  /** With the intended resize the half-cell render never fails, and it has
      one text row per requested row. */
  lemma {:induction false} HalfcellResizeRenders(imageSize: (nat, nat), resize: Option<(nat, nat)>, img: Image,
                              defaultColor: Option<string>)
    requires WellFormed(img)
    requires (img.width, img.height) == FinalSize(imageSize, HalfcellResize(resize, imageSize))
    ensures Lines(Halfcell, img, defaultColor).Some?
    ensures |Lines(Halfcell, img, defaultColor).value| == (if resize.Some? then resize.value.1 else imageSize.1)
  {
    LinesDefined(Halfcell, img, defaultColor);
  }

  /** The resize `FullcellRenderer.render` applies: half the requested width,
      rounded down, since each pixel takes two characters. */
  function FullcellResize(resize: Option<(nat, nat)>): (r: Option<(nat, nat)>)
    ensures r.None? <==> resize.None?
    ensures r.Some? ==> 2 * r.value.0 <= resize.value.0 < 2 * r.value.0 + 2 && r.value.1 == resize.value.1
  {
    if resize.Some? then Some((resize.value.0 / 2, resize.value.1)) else None
  }

  // ----------------------------------------------------------- RichPixels

  /** One pixel of `_segments_from_image`: a space with the pixel's colour as
      background, or the null style when it is transparent. */
  function PixelSegment(p: Pixel): (s: Segment)
    ensures s.text == " "
    ensures p.a > 0 ==> s.style == Some(Parsed("on " + RgbText(p)))
    ensures p.a == 0 ==> s.style == Some(NullStyle)
  {
    Segment(" ", if p.a > 0 then Some(Parsed("on " + RgbText(p))) else Some(NullStyle))
  }

  const IMAGE_NEWLINE: Segment := Segment("\n", Some(NullStyle))

  function ImageRow(img: Image, y: nat): seq<Segment>
    requires WellFormed(img) && y < img.height
  {
    seq(img.width, x requires 0 <= x < img.width => PixelSegment(img.rows[y][x])) + [IMAGE_NEWLINE]
  }

  /** Every row of pixels followed by a newline: the reference for
      `_segments_from_image`. */
  function ImageSegments(img: Image): seq<Segment>
    requires WellFormed(img)
  {
    Functions.Concat(ImageRows(img))
  }

  /** `RichPixels._segments_from_image` on the converted and resized image.
      The source names the image's width `height` and its height `width`;
      the two loops swap them back, so the walk is row by row. */
  method SegmentsFromImage(img: Image) returns (segments: seq<Segment>)
    requires WellFormed(img)
    ensures segments == ImageSegments(img)
  {
    var height, width := img.width, img.height;
    ghost var rows := ImageRows(img);
    segments := [];
    var y := 0;
    while y < width
      invariant 0 <= y <= width
      invariant segments == Functions.Concat(rows[..y])
    {
      var thisRow: seq<Segment> := [];
      var x := 0;
      while x < height
        invariant 0 <= x <= height
        invariant thisRow == seq(x, i requires 0 <= i < x => PixelSegment(img.rows[y][i]))
      {
        var p := img.rows[y][x];
        var style := if p.a > 0 then Some(Parsed("on " + RgbText(p))) else Some(NullStyle);
        thisRow := thisRow + [Segment(" ", style)];
        x := x + 1;
      }
      thisRow := thisRow + [IMAGE_NEWLINE];
      assert thisRow == rows[y];
      assert rows[..y + 1] == rows[..y] + [rows[y]];
      Functions.ConcatSnoc(rows[..y], rows[y]);
      segments := segments + thisRow;
      y := y + 1;
    }
    assert rows[..y] == rows;
  }

  function ImageRows(img: Image): (rows: seq<seq<Segment>>)
    requires WellFormed(img)
    ensures |rows| == img.height
    ensures forall y :: 0 <= y < img.height ==> |rows[y]| == img.width + 1
  {
    seq(img.height, y requires 0 <= y < img.height => ImageRow(img, y))
  }

  /** `_segments_from_image` yields `width + 1` segments per row, even for an
      image without columns: each pixel at `y * (width + 1) + x`, then the
      newline. */
  lemma {:induction false} ImageSegmentsAt(img: Image, y: nat, x: nat)
    requires WellFormed(img) && y < img.height && x <= img.width
    ensures |ImageSegments(img)| == img.height * (img.width + 1)
    ensures Offset(y, img.width, x) < |ImageSegments(img)|
    ensures ImageSegments(img)[Offset(y, img.width, x)]
         == if x < img.width then PixelSegment(img.rows[y][x]) else IMAGE_NEWLINE
  {
    Functions.ConcatUniformLength(ImageRows(img), img.width + 1);
    Functions.ConcatUniformAt(ImageRows(img), img.width + 1, y, x);
  }

  /** The segment `from_ascii` makes of one character: its mapping, or the
      character itself without a style. */
  function AsciiSegment(mapping: map<char, Segment>, c: char): Segment {
    if c in mapping then mapping[c] else Segment([c], None)
  }

  /** `RichPixels.from_ascii`: one segment per character of the grid,
      newlines included. */
  method FromAscii(grid: string, mapping: Option<map<char, Segment>>) returns (segments: seq<Segment>)
    ensures |segments| == |grid|
    ensures forall i :: 0 <= i < |grid| && mapping.Some? && grid[i] in mapping.value ==>
      segments[i] == mapping.value[grid[i]]
    ensures forall i :: 0 <= i < |grid| && (mapping.None? || grid[i] !in mapping.value) ==>
      segments[i] == Segment([grid[i]], None)
    ensures mapping.None? ==> Functions.Concat(seq(|segments|, i requires 0 <= i < |segments| => segments[i].text)) == grid
  {
    var m: map<char, Segment> := if mapping.None? then map[] else mapping.value;
    if |grid| == 0 {
      return [];
    }
    segments := [];
    var i := 0;
    while i < |grid|
      invariant 0 <= i <= |grid|
      invariant segments == seq(i, j requires 0 <= j < i => AsciiSegment(m, grid[j]))
    {
      segments := segments + [AsciiSegment(m, grid[i])];
      i := i + 1;
    }
    if mapping.None? {
      assert seq(|segments|, j requires 0 <= j < |segments| => segments[j].text)
          == seq(|grid|, j requires 0 <= j < |grid| => [grid[j]]);
      ConcatSingletons(grid);
    }
  }

  /** Splitting a text into its characters and concatenating them again gives
      the text back. */
  lemma {:induction false} ConcatSingletons(s: string)
    ensures Functions.Concat(seq(|s|, j requires 0 <= j < |s| => [s[j]])) == s
    decreases |s|
  {
    if |s| > 0 {
      var parts := seq(|s|, j requires 0 <= j < |s| => [s[j]]);
      assert parts[1..] == seq(|s[1..]|, j requires 0 <= j < |s[1..]| => [s[1..][j]]);
      ConcatSingletons(s[1..]);
      assert s == [s[0]] + s[1..];
    }
  }
}
