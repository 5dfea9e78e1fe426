/**
 * The `RedditImage` class: an image, whether it was upscaled, its title, its
 * size and the pixel size of its title font. Its two layout loops are
 * proved equal to the layout functions of `TitleLayout`, and `add_title` is
 * proved to build the caption of `Caption.TitleCaption`.
 */
module Images {
  import opened Results
  import opened Text
  import opened ResolutionTag
  import opened TitleLayout
  import opened Upscaling
  import opened Caption

  /**
   * A PIL image, by how it was made: pixels are not modelled, only sizes and
   * the caption drawn onto a new canvas.
   */
  datatype Picture =
    | Decoded(size: Size)
    | Resized(original: Picture, size: Size)
    | Captioned(original: Picture, caption: Caption)

  /** `image.size` */
  function SizeOf(p: Picture): Size
  {
    match p
    case Decoded(s) => s
    case Resized(_, s) => s
    case Captioned(_, c) => c.canvas
  }

  /** The picture the constructor keeps, given the outcome of its resize step. */
  function PreparedPicture(p: Picture, prepared: Prepared): (r: Picture)
    ensures SizeOf(r) == prepared.size || !prepared.upscaled
  {
    if prepared.upscaled then Resized(p, prepared.size) else p
  }

  class RedditImage {
    /** The measure of `roboto-emoji.ttf` at every size. */
    const metric: Metric
    var image: Picture
    var upscaled: bool
    var title: string
    /** `_width`, `_height` */
    var width: nat
    var height: nat
    /** The size `_font_title` was loaded at. */
    var fontSize: nat

    /** The recorded size is the image's size, and the font was sized from that width. */
    ghost predicate Valid()
      reads this
    {
      Size(width, height) == SizeOf(image) && fontSize == FontSize(width)
    }

    /** `RedditImage(image)`, for the images on which it does not raise ZeroDivisionError. */
    constructor(metric: Metric, picture: Picture)
      requires Preparable(SizeOf(picture))
      ensures Valid()
      ensures this.metric == metric && title == ""
      ensures var prepared := Upscale(SizeOf(picture)).value;
        image == PreparedPicture(picture, prepared) && upscaled == prepared.upscaled
        && Size(width, height) == prepared.size
    {
      var s := SizeOf(picture);
      var p := picture;
      var up := false;
      if s.width < MinSize || (s.width == MinSize && s.height < MinSize) {
        var base := if s.width < s.height then s.width else s.height;
        p := Resized(picture, Size(CeilDiv(s.width * MinSize, base), CeilDiv(s.height * MinSize, base)));
        up := true;
      }
      this.metric := metric;
      image := p;
      upscaled := up;
      title := "";
      width := SizeOf(p).width;
      height := SizeOf(p).height;
      fontSize := SizeOf(p).width / FontScaleFactor;
    }

    /** `_wrap_title(title)` */
    method WrapTitle(t: string) returns (lines: seq<string>)
      ensures lines == Wrap(metric, fontSize, width, t)
    {
      var result := [""];
      var lineWords: seq<string> := [];
      var words := Words(t);
      var k := 0;
      assert JoinEach([[]]) == [Join([])];
      while k < |words|
        invariant 0 <= k <= |words|
        invariant lineWords == WrapWords(metric, fontSize, width, words[..k]).current
        invariant result == JoinEach(WrapWords(metric, fontSize, width, words[..k]).done + [lineWords])
      {
        var word := words[k];
        WrapLoopStep(metric, fontSize, width, t, k, lineWords, result);
        ghost var next := WrapWords(metric, fontSize, width, words[..k + 1]);
        lineWords := lineWords + [word];
        result := result[..|result| - 1] + [Join(lineWords)];
        if metric(fontSize, result[|result| - 1]).w + Margin > width {
          var last := result[|result| - 1];
          result := result[..|result| - 1] + [Trim(last[..|last| - |word|])] + [word];
          lineWords := [word];
        }
        assert lineWords == next.current && result == JoinEach(next.done + [lineWords]);
        k := k + 1;
      }
      assert words[..k] == words;
      lines := NonEmpty(result);
    }

    /** `_split_title(title)` */
    method SplitTitle(t: string) returns (lines: seq<string>)
      ensures lines == Split(metric, fontSize, width, t)
    {
      var result := [""];
      var delimiter: Option<char> := None;
      var k := 0;
      assert t[..0] == [];
      while k < |t|
        invariant 0 <= k <= |t|
        invariant result == DelimitedLines(t[..k]) && delimiter == FirstDelimiter(t[..k])
      {
        var c := t[k];
        SplitLoopStep(t, k, result, delimiter);
        if !(c == ' ' && result[|result| - 1] == "") {
          result := result[..|result| - 1] + [result[|result| - 1] + [c]];
          if delimiter.None? && IsDelimiter(c) {
            delimiter := Some(c);
          }
          if delimiter == Some(c) {
            result := result + [""];
          }
        }
        k := k + 1;
      }
      assert t[..k] == t;
      var i := 0;
      while i < |result|
        invariant 0 <= i <= |result|
        invariant forall j :: 0 <= j < i ==> !TooWide(metric, fontSize, width, result[j])
      {
        if metric(fontSize, result[i]).w + Margin > width {
          lines := WrapTitle(t);
          return;
        }
        i := i + 1;
      }
      lines := NonEmpty(result);
    }

    /**
     * `add_title(title, boot, bg_color, text_color, customargs, author)`:
     * records the raw title, then replaces the image with a canvas holding
     * the caption above it. Without an author to tag, nothing but the title
     * changes.
     */
    method AddTitle(t: string, boot: bool, background: string, foreground: string,
                    customargs: Option<seq<string>>, author: Option<string>) returns (r: Result<Picture, CaptionError>)
      requires Valid()
      modifies this
      ensures Valid()
      ensures title == t && upscaled == old(upscaled) && fontSize == old(fontSize)
      ensures var c := TitleCaption(metric, old(fontSize), old(width), old(height), t, boot,
                                    background, foreground, customargs, author);
        if c.Success? then
          r == Success(image) && image == Captioned(old(image), c.value)
          && Size(width, height) == c.value.canvas
        else
          r == Failure(c.error) && image == old(image) && width == old(width) && height == old(height)
    {
      ghost var expected := TitleCaption(metric, fontSize, width, height, t, boot,
                                         background, foreground, customargs, author);
      title := t;
      var o := ReadOptions(customargs);
      var stripped := StripTags(t);
      var lines;
      if boot {
        lines := SplitTitle(stripped);
      } else {
        lines := WrapTitle(stripped);
      }
      var c := ComposeCaption(metric, fontSize, width, height, stripped, lines, o, background, foreground, author);
      assert c == expected;
      if c.Failure? {
        return Failure(c.error);
      }
      image := Captioned(image, c.value);
      width, height := c.value.canvas.width, c.value.canvas.height;
      r := Success(image);
    }
  }
}
