/**
 * The animated-GIF path of the bot: the decoder's frame cursor,
 * `find_frame_durations`, and the frame loop of `process_gif`, which
 * captions every frame separately.
 */
module Animation {
  import opened Results
  import opened Upscaling
  import opened Caption
  import opened Images

  /** One frame of the source animation: its image and `info['duration']` in milliseconds. */
  datatype Frame = Frame(picture: Picture, duration: nat)

  /** The durations of the frames, in frame order. */
  function Durations(frames: seq<Frame>): (ds: seq<nat>)
    ensures |ds| == |frames|
    ensures forall i :: 0 <= i < |frames| ==> ds[i] == frames[i].duration
  {
    seq(|frames|, i requires 0 <= i < |frames| => frames[i].duration)
  }

  /** A decoded animation with PIL's frame cursor (`seek`, `tell`, `info`). */
  class AnimatedImage {
    const frames: seq<Frame>
    var position: nat

    ghost predicate Valid()
      reads this
    {
      position < |frames|
    }

    /** A decoded image has at least one frame and starts on the first. */
    constructor(frames: seq<Frame>)
      requires |frames| > 0
      ensures Valid() && this.frames == frames && position == 0
    {
      this.frames := frames;
      position := 0;
    }

    /** `img.tell()` */
    function Tell(): nat
      reads this
    {
      position
    }

    /** `img.info['duration']` of the current frame. */
    function Duration(): nat
      reads this
      requires Valid()
    {
      frames[position].duration
    }

    /** `img.seek(k)`: moves to frame `k`, or raises EOFError past the last frame and stays put. */
    method Seek(k: nat) returns (eof: bool)
      requires Valid()
      modifies this
      ensures Valid()
      ensures eof <==> k >= |frames|
      ensures position == if eof then old(position) else k
    {
      if k < |frames| {
        position := k;
        eof := false;
      } else {
        eof := true;
      }
    }
  }

  /** `find_frame_durations(img)`: rewinds and reads every frame's duration until seeking fails. */
  method FindFrameDurations(img: AnimatedImage) returns (durations: seq<nat>)
    requires img.Valid()
    modifies img
    ensures img.Valid() && img.position == |img.frames| - 1
    ensures durations == Durations(img.frames)
  {
    var _ := img.Seek(0);
    durations := [];
    while true
      invariant img.Valid()
      invariant durations == Durations(img.frames[..img.position])
      decreases |img.frames| - img.position
    {
      durations := durations + [img.Duration()];
      assert img.frames[..img.position + 1] == img.frames[..img.position] + [img.frames[img.position]];
      var eof := img.Seek(img.Tell() + 1);
      if eof {
        assert img.frames[..img.position + 1] == img.frames;
        return;
      }
    }
  }

  /** The title text of a frame: default colours, no custom arguments, no author, never split. */
  function FrameCaption(p: Picture, m: TitleLayout.Metric, title: string): (c: Caption)
    requires Preparable(SizeOf(p))
  {
    var s := Upscale(SizeOf(p)).value.size;
    TitleCaption(m, FontSize(s.width), s.width, s.height, title, false, "#fff", "#000", None, None).value
  }

  /** What one iteration of the frame loop appends: the frame, prepared as the constructor does, under its caption. */
  function CaptionedFrame(p: Picture, m: TitleLayout.Metric, title: string): Picture
    requires Preparable(SizeOf(p))
  {
    Captioned(PreparedPicture(p, Upscale(SizeOf(p)).value), FrameCaption(p, m, title))
  }

  /** Every frame can be made into a `RedditImage`. */
  predicate AllPreparable(frames: seq<Frame>)
  {
    forall i :: 0 <= i < |frames| ==> Preparable(SizeOf(frames[i].picture))
  }

  /** The body of the frame loop: `RedditImage(frame)`, then `add_title(title, False)`, keeping the new image. */
  method CaptionFrame(m: TitleLayout.Metric, p: Picture, title: string) returns (q: Picture)
    requires Preparable(SizeOf(p))
    ensures q == CaptionedFrame(p, m, title)
  {
    var frame := new RedditImage(m, p);
    var s := Upscale(SizeOf(p)).value.size;
    assert frame.width == s.width && frame.height == s.height && frame.fontSize == FontSize(s.width);
    var _ := frame.AddTitle(title, false, "#fff", "#000", None, None);
    q := frame.image;
  }

  /**
   * The frame loop of `process_gif`: one `RedditImage` per source frame,
   * titled with `boot=False`. A frame on which the constructor raises ends
   * the whole call without a result.
   */
  method CaptionFrames(m: TitleLayout.Metric, source: seq<Frame>, title: string) returns (r: Option<seq<Picture>>)
    ensures r.None? <==> !AllPreparable(source)
    ensures r.Some? ==> (|r.value| == |source|
      && forall i :: 0 <= i < |source| ==> r.value[i] == CaptionedFrame(source[i].picture, m, title))
  {
    var frames: seq<Picture> := [];
    var k := 0;
    while k < |source|
      invariant 0 <= k <= |source|
      invariant forall i :: 0 <= i < k ==> Preparable(SizeOf(source[i].picture))
      invariant |frames| == k
      invariant forall i :: 0 <= i < k ==> frames[i] == CaptionedFrame(source[i].picture, m, title)
    {
      var p := source[k].picture;
      if !Preparable(SizeOf(p)) {
        return None;
      }
      var q := CaptionFrame(m, p, title);
      frames := frames + [q];
      k := k + 1;
    }
    r := Some(frames);
  }

  /**
   * `process_gif` up to saving: the durations are read first, then every
   * frame is captioned; frames and durations pair up one to one, in order.
   */
  method ProcessGifFrames(m: TitleLayout.Metric, img: AnimatedImage, title: string)
    returns (r: Option<(seq<Picture>, seq<nat>)>)
    requires img.Valid()
    modifies img
    ensures r.None? <==> !AllPreparable(img.frames)
    ensures r.Some? ==> var (frames, durations) := r.value;
      |frames| == |durations| == |img.frames|
      && forall i :: 0 <= i < |frames| ==>
           frames[i] == CaptionedFrame(img.frames[i].picture, m, title) && durations[i] == img.frames[i].duration
  {
    var durations := FindFrameDurations(img);
    var frames := CaptionFrames(m, img.frames, title);
    if frames.None? {
      return None;
    }
    r := Some((frames.value, durations));
  }
}
