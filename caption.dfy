/**
 * What `RedditImage.add_title` draws, as a record instead of pixels: the
 * option flags it reads, the colours, the canvas size, where the original
 * image is pasted, and every text it draws with its position.
 */
module Caption {
  import opened Results
  import opened ResolutionTag
  import opened TitleLayout
  import opened Upscaling

  /** The three custom arguments `add_title` understands. */
  datatype Options = Options(center: bool, dark: bool, tagAuthor: bool)

  /** The flags set by `customargs`: each is on exactly when its word is one of the arguments. */
  function OptionsOf(customargs: Option<seq<string>>): Options
  {
    match customargs
    case None => Options(false, false, false)
    case Some(args) => Options("center" in args, "dark" in args, "tagauth" in args)
  }

  /** The flag loop of `add_title`. */
  method ReadOptions(customargs: Option<seq<string>>) returns (o: Options)
    ensures o == OptionsOf(customargs)
  {
    o := Options(false, false, false);
    if customargs.Some? {
      var args := customargs.value;
      var k := 0;
      while k < |args|
        invariant 0 <= k <= |args|
        invariant o == Options("center" in args[..k], "dark" in args[..k], "tagauth" in args[..k])
      {
        assert args[..k + 1] == args[..k] + [args[k]];
        if args[k] == "center" {
          o := o.(center := true);
        }
        if args[k] == "dark" {
          o := o.(dark := true);
        }
        if args[k] == "tagauth" {
          o := o.(tagAuthor := true);
        }
        k := k + 1;
      }
      assert args[..k] == args;
    }
  }

  /** PIL colour strings used by dark mode. */
  const Black: string := "#000"
  const White: string := "#fff"

  /** `tagauthheight` */
  const AuthorBandHeight: nat := 50

  /** A `draw.text` call: where its top-left corner is and what it writes. */
  datatype TextOp = TextOp(x: real, y: nat, text: string)

  /**
   * The new image of `add_title`: its size, the vertical offset the original
   * is pasted at (horizontally it is always 0), the background colour, the
   * text colour, and the texts drawn on it in order.
   */
  datatype Caption = Caption(canvas: Size, pasteY: nat, background: string, foreground: string, ops: seq<TextOp>)

  /** `draw.text(..., author, ...)` with `author=None` raises inside PIL. */
  datatype CaptionError = MissingAuthor

  /** `line_height`: the height of the whole stripped title plus the margin. */
  function LineHeight(m: Metric, size: nat, stripped: string): nat
  {
    m(size, stripped).h + Margin
  }

  /** `whitespace_height`: one line height per line plus the margin. */
  function BandHeight(lineHeight: nat, lineCount: nat): nat
  {
    lineHeight * lineCount + Margin
  }

  /** `left_margin` for one line: centred in the image width, or the margin. */
  function LeftMargin(m: Metric, size: nat, width: nat, center: bool, line: string): real
  {
    if center then ((width as real) - (m(size, line).w as real)) / 2.0 else Margin as real
  }

  /** The draw call for line `i`. */
  function LineOp(m: Metric, size: nat, width: nat, center: bool, lineHeight: nat, lines: seq<string>, i: nat): TextOp
    requires i < |lines|
  {
    TextOp(LeftMargin(m, size, width, center, lines[i]), i * lineHeight + Margin, lines[i])
  }

  /** The draw calls of the title lines, in order. */
  function LineOps(m: Metric, size: nat, width: nat, center: bool, lineHeight: nat, lines: seq<string>): (ops: seq<TextOp>)
    ensures |ops| == |lines|
    ensures forall i :: 0 <= i < |lines| ==> ops[i] == LineOp(m, size, width, center, lineHeight, lines, i)
  {
    seq(|lines|, i requires 0 <= i < |lines| => LineOp(m, size, width, center, lineHeight, lines, i))
  }

  /** The `left_margin` the line loop leaves behind: that of the last line, or its initial 10. */
  function FinalLeftMargin(m: Metric, size: nat, width: nat, center: bool, lines: seq<string>): real
  {
    if lines == [] then Margin as real else LeftMargin(m, size, width, center, lines[|lines| - 1])
  }

  /** The line loop of `add_title`, which draws every line and leaves `left_margin` set. */
  method DrawLines(m: Metric, size: nat, width: nat, center: bool, lineHeight: nat, lines: seq<string>)
    returns (ops: seq<TextOp>, leftMargin: real)
    ensures ops == LineOps(m, size, width, center, lineHeight, lines)
    ensures leftMargin == FinalLeftMargin(m, size, width, center, lines)
  {
    ops := [];
    leftMargin := Margin as real;
    var i := 0;
    while i < |lines|
      invariant 0 <= i <= |lines|
      invariant ops == LineOps(m, size, width, center, lineHeight, lines[..i])
      invariant leftMargin == FinalLeftMargin(m, size, width, center, lines[..i])
    {
      var w := m(size, lines[i]).w;
      leftMargin := if center then ((width as real) - (w as real)) / 2.0 else Margin as real;
      assert lines[..i + 1][i] == lines[i];
      ops := ops + [TextOp(leftMargin, i * lineHeight + Margin, lines[i])];
      i := i + 1;
    }
    assert lines[..i] == lines;
  }

  /** `bg_color` and `text_color` after the dark-mode switch. */
  function Colours(dark: bool, background: string, foreground: string): (string, string)
  {
    if dark then (Black, White) else (background, foreground)
  }

  /**
   * The caption `add_title` composes for an image of `width` by `height`
   * whose (stripped) title has been laid out into `lines`.
   */
  function Compose(m: Metric, size: nat, width: nat, height: nat, stripped: string, lines: seq<string>,
                   o: Options, background: string, foreground: string, author: Option<string>): Result<Caption, CaptionError>
  {
    if o.tagAuthor && author.None? then Failure(MissingAuthor)
    else
      var lineHeight := LineHeight(m, size, stripped);
      var band := BandHeight(lineHeight, |lines|);
      var authorBand := if o.tagAuthor then AuthorBandHeight else 0;
      var colours := Colours(o.dark, background, foreground);
      var authorOps :=
        if o.tagAuthor then [TextOp(FinalLeftMargin(m, size, width, o.center, lines), height + band + Margin, author.value)]
        else [];
      Success(Caption(Size(width, height + band + authorBand), band, colours.0, colours.1,
                      LineOps(m, size, width, o.center, lineHeight, lines) + authorOps))
  }

  /**
   * The drawing part of `add_title`, once the title is stripped and laid
   * out: the dark-mode switch, the band heights, the line loop and the
   * author tag.
   */
  method ComposeCaption(m: Metric, size: nat, width: nat, height: nat, stripped: string, lines: seq<string>,
                        o: Options, background: string, foreground: string, author: Option<string>)
    returns (r: Result<Caption, CaptionError>)
    ensures r == Compose(m, size, width, height, stripped, lines, o, background, foreground, author)
  {
    var bg, fg := background, foreground;
    if o.dark {
      bg, fg := Black, White;
    }
    var lineHeight := m(size, stripped).h + Margin;
    var band := lineHeight * |lines| + Margin;
    var authorBand := if o.tagAuthor then AuthorBandHeight else 0;
    var ops, leftMargin := DrawLines(m, size, width, o.center, lineHeight, lines);
    if o.tagAuthor {
      if author.None? {
        return Failure(MissingAuthor);
      }
      ops := ops + [TextOp(leftMargin, height + band + Margin, author.value)];
    }
    assert (bg, fg) == Colours(o.dark, background, foreground);
    assert ops == LineOps(m, size, width, o.center, lineHeight, lines)
      + (if o.tagAuthor then [TextOp(FinalLeftMargin(m, size, width, o.center, lines), height + band + Margin, author.value)] else []);
    assert lineHeight == LineHeight(m, size, stripped) && band == BandHeight(lineHeight, |lines|);
    r := Success(Caption(Size(width, height + band + authorBand), band, bg, fg, ops));
  }

  /** The lines of the title: split at delimiters for `boottoobig`, wrapped otherwise. */
  function TitleLines(m: Metric, size: nat, width: nat, stripped: string, boot: bool): seq<string>
  {
    if boot then Split(m, size, width, stripped) else Wrap(m, size, width, stripped)
  }

  /** `add_title` from the raw title: the resolution tag is removed before measuring and laying out. */
  function TitleCaption(m: Metric, size: nat, width: nat, height: nat, title: string, boot: bool,
                        background: string, foreground: string,
                        customargs: Option<seq<string>>, author: Option<string>): Result<Caption, CaptionError>
  {
    var stripped := StripTags(title);
    Compose(m, size, width, height, stripped, TitleLines(m, size, width, stripped, boot),
            OptionsOf(customargs), background, foreground, author)
  }

  // ---------------------------------------------------------------------
  // Properties of the caption

  /** `add_title` fails exactly when the author is to be tagged and there is none. */
  lemma ComposeFails(m: Metric, size: nat, width: nat, height: nat, stripped: string, lines: seq<string>,
                     o: Options, background: string, foreground: string, author: Option<string>)
    ensures Compose(m, size, width, height, stripped, lines, o, background, foreground, author).Failure?
      <==> o.tagAuthor && author.None?
  {
  }

  /** `i * h + h <= n * h` for `i < n`. */
  lemma RowFits(i: nat, n: nat, h: nat)
    requires i < n
    ensures i * h + h <= n * h
  {
    var k: nat := n - (i + 1);
    assert i * h + h == (i + 1) * h;
    assert n * h == (i + 1) * h + k * h;
  }

  /**
   * The caption layout: the canvas keeps the image width and adds the text
   * band above the image and the author band below it; the original is pasted
   * directly under the text band; line `i` is drawn in order, `i` line
   * heights below the top margin, and each line's row lies inside the text
   * band; the author, when tagged, is drawn below the pasted image and inside
   * the canvas.
   */
  lemma ComposeLayout(m: Metric, size: nat, width: nat, height: nat, stripped: string, lines: seq<string>,
                      o: Options, background: string, foreground: string, author: Option<string>)
    requires !(o.tagAuthor && author.None?)
    ensures var c := Compose(m, size, width, height, stripped, lines, o, background, foreground, author).value;
      var lineHeight := m(size, stripped).h + Margin;
      c.canvas.width == width
      && c.pasteY == lineHeight * |lines| + Margin
      && c.canvas.height == c.pasteY + height + (if o.tagAuthor then AuthorBandHeight else 0)
      && |c.ops| == |lines| + (if o.tagAuthor then 1 else 0)
      && (forall i :: 0 <= i < |lines| ==> c.ops[i].text == lines[i] && c.ops[i].y == i * lineHeight + Margin)
      && (forall i :: 0 <= i < |lines| ==> Margin <= c.ops[i].y && c.ops[i].y + lineHeight <= c.pasteY)
      && (o.tagAuthor ==> var a := c.ops[|lines|];
            a.text == author.value && a.y >= c.pasteY + height && a.y < c.canvas.height)
  {
    var c := Compose(m, size, width, height, stripped, lines, o, background, foreground, author).value;
    var lineHeight := m(size, stripped).h + Margin;
    ComposeRows(m, size, width, o.center, lineHeight, lines, c.ops);
  }

  /** Line `i` is drawn `i` line heights below the top margin, and its row ends inside the text band. */
  lemma ComposeRows(m: Metric, size: nat, width: nat, center: bool, lineHeight: nat, lines: seq<string>, ops: seq<TextOp>)
    requires |ops| >= |lines| && ops[..|lines|] == LineOps(m, size, width, center, lineHeight, lines)
    ensures forall i :: 0 <= i < |lines| ==> ops[i].text == lines[i] && ops[i].y == i * lineHeight + Margin
    ensures forall i :: 0 <= i < |lines| ==> Margin <= ops[i].y && ops[i].y + lineHeight <= lineHeight * |lines| + Margin
  {
    forall i | 0 <= i < |lines|
      ensures ops[i].text == lines[i] && ops[i].y == i * lineHeight + Margin
      ensures ops[i].y + lineHeight <= lineHeight * |lines| + Margin
    {
      assert ops[i] == ops[..|lines|][i];
      RowFits(i, |lines|, lineHeight);
    }
  }

  /**
   * Horizontal placement: without centring every line starts at the margin;
   * with it, every line's midpoint is the image's midpoint. The author is
   * placed like the last line, or at the margin when there are no lines.
   */
  lemma ComposeAlignment(m: Metric, size: nat, width: nat, height: nat, stripped: string, lines: seq<string>,
                         o: Options, background: string, foreground: string, author: Option<string>)
    requires !(o.tagAuthor && author.None?)
    ensures var c := Compose(m, size, width, height, stripped, lines, o, background, foreground, author).value;
      (forall i :: 0 <= i < |lines| ==>
         if o.center then c.ops[i].x + (m(size, lines[i]).w as real) / 2.0 == (width as real) / 2.0
         else c.ops[i].x == Margin as real)
      && (o.tagAuthor ==> c.ops[|lines|].x == if lines == [] then Margin as real else c.ops[|lines| - 1].x)
  {
  }

  /** Dark mode changes the two colours and nothing else. */
  lemma DarkOnlyColours(m: Metric, size: nat, width: nat, height: nat, stripped: string, lines: seq<string>,
                        o: Options, background: string, foreground: string, author: Option<string>)
    ensures var light := Compose(m, size, width, height, stripped, lines, o.(dark := false), background, foreground, author);
      var dark := Compose(m, size, width, height, stripped, lines, o.(dark := true), background, foreground, author);
      light.Failure? == dark.Failure?
      && (light.Success? ==> dark.value == light.value.(background := Black, foreground := White))
      && (light.Success? ==> light.value.background == background && light.value.foreground == foreground)
  {
  }

  /** The `customargs` flags depend only on which words occur, not on their order or repetition. */
  lemma OptionsBySet(a: seq<string>, b: seq<string>)
    requires forall x :: x in a <==> x in b
    ensures OptionsOf(Some(a)) == OptionsOf(Some(b))
  {
  }

  /** The caption depends on the title only through the title without its resolution tags. */
  lemma CaptionOfStripped(m: Metric, size: nat, width: nat, height: nat, title: string, plain: string, boot: bool,
                          background: string, foreground: string, customargs: Option<seq<string>>, author: Option<string>)
    requires StripTags(title) == StripTags(plain)
    ensures TitleCaption(m, size, width, height, title, boot, background, foreground, customargs, author)
      == TitleCaption(m, size, width, height, plain, boot, background, foreground, customargs, author)
  {
  }

  /** The caption is measured and laid out from the title without its resolution tag. */
  lemma CaptionOfTaggedTitle(m: Metric, size: nat, width: nat, height: nat, title: string, plain: string, boot: bool,
                             background: string, foreground: string)
    requires title == "Cute Cat [1920x1080]" && plain == "Cute Cat"
    ensures TitleCaption(m, size, width, height, title, boot, background, foreground, None, None)
      == TitleCaption(m, size, width, height, plain, boot, background, foreground, None, None)
  {
    assert StripTags(title) == StripTags(plain) by {
      StripExample(title, plain);
      assert '[' !in plain;
      StripNoBracket(plain);
    }
    CaptionOfStripped(m, size, width, height, title, plain, boot, background, foreground, None, None);
  }
}
