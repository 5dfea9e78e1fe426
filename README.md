# Caption layout of the TitleToImage bot, in Dafny

The bot draws a Reddit post's title onto the post's image (`bot.py`,
class `RedditImage`). This project models that layout engine and the
frame bookkeeping of animated GIFs, and proves the layout's properties.

- **Upscaling.** Small images are upscaled. An image is upscaled when its
  size, compared as a Python tuple, is below `(500, 500)`. The title font
  size is the width divided by 16 (`Upscaling`, `Images.RedditImage.constructor`).
- **Resolution tag.** A resolution tag such as `" [1920x1080]"` is removed
  from the title. This is `re.sub` with a fixed pattern (`ResolutionTag`).
- **Layout.** The title is laid out in one of two ways:
  - the greedy word wrap of `_wrap_title`;
  - for the `boottoobig` subreddit, the delimiter split of `_split_title`,
    which falls back to the word wrap when a line is too wide.

  `TitleLayout` gives each layout as a function, with its properties as
  lemmas. The loops themselves are the methods
  `Images.RedditImage.WrapTitle` and `Images.RedditImage.SplitTitle`, each
  proved equal to its function.
- **Caption.** `add_title` builds a caption. It is modelled as a record, not
  pixels (`Caption`): the canvas size, where the original is pasted, the two
  colours, and every `draw.text` call with its position. The
  `customargs` flags `center`, `dark` and `tagauth` are read in a loop.
  `Images.RedditImage.AddTitle` updates the object in place.
- **Animated GIFs.** Frame durations are read through the decoder's seek
  cursor. Every frame is captioned separately (`Animation`).
- **Requests.** Two request helpers: which `customargs` a summoning comment
  asks for, and the key that stops a request from being served twice
  (`Requests`).

Font measurement (`ImageFont.getsize`) is a foreign call. It is the
parameter `TitleLayout.Metric`, a function from (pixel size, text) to a
width and height. Every property holds for every such function.

Behaviours of the code that are easy to get wrong:

- The upscale test compares `(width, height)` with `(500, 500)` as Python
  tuples, element by element. An 800×300 image is therefore not upscaled,
  although its height is below 500 (`Upscaling.WideShortNotUpscaled`).
- A blank title gives no lines at all, so the text band is only the 10-pixel
  margin: the filter `[l for l in lines if l]` removes the single empty line
  the wrap loop starts with (`TitleLayout.WrapBlank`).
- `"a, b, c"` splits into `["a,", "b,", "c"]`: the space after each comma
  falls at the start of a new, empty line, and the split loop skips it there
  (`TitleLayout.DelimitedExample`).
- Tag stripping is a single pass of `re.sub`, so it is not idempotent:
  `"[1[2x3]x4]"` becomes `"[1x4]"`, and stripping that again gives `""`
  (`ResolutionTag.StripNotIdempotent`).

A key property of the request helpers is proved: the dedupe key does not
separate its parts. Two requests on one submission share a key exactly when
their title and arguments, run together, spell the same text
(`Requests.DedupeKeySameSubmission`). So a request titled "dark" and a request
for dark mode on the same submission get the same key
(`Requests.DedupeKeyCollision`).

## Model

| member | source | states |
|---|---|---|
| Text.Words | bot.py:1111 | `title.split()` yields only non-empty, whitespace-free words |
| Text.WordsNone | bot.py:1111 | `title.split()` yields no word exactly when the title is empty or all whitespace |
| Text.WordsAppend | bot.py:1111 | for every text, including the empty one and one ending in whitespace, splitting the text, a space and one more word gives the text's words followed by that word |
| Text.WordsOfJoin | bot.py:1111-1114 | splitting words joined by single spaces gives back the same words |
| Text.NonEmpty | bot.py:1120 | the final filter's result holds only non-empty lines, holds a line exactly when the input holds it non-empty, and is never longer than the input |
| Text.NonEmptySingle | bot.py:1120 | the filter keeps a single line exactly when it is non-empty |
| Text.NonEmptyAppend | bot.py:1120 | the filter of two lists one after the other is the filter of the first followed by the filter of the second, so it keeps order and every non-empty copy |
| Text.TrimDropsLastWord | bot.py:1116 | cutting the last word off the joined line and stripping the rest gives the line as it was before the word was added |
| ResolutionTag.TagLength | bot.py:1027 | the regular expression `\s?\[[0-9]+\s?[xX*×]\s?[0-9]+\]` matched at the start of a text: the length of the match, 0 when there is none, never past the text's end |
| ResolutionTag.StripTags | bot.py:1158 | `regex_resolution.sub('', title)`: scanning left to right, a match found at the position is dropped and the scan resumes after it, otherwise one character is kept; the result is never longer than the title |
| ResolutionTag.TagLengthExact | bot.py:1027 | the match the engine takes at a position is a match of the tag pattern, and the only one starting there |
| ResolutionTag.StripSkipsTag | bot.py:1158 | where a tag starts, the substitution removes it and continues after it |
| ResolutionTag.StripKeepsNonTag | bot.py:1158 | where no tag starts, the character is kept and the substitution continues with the next |
| ResolutionTag.StripIsSubsequence | bot.py:1158 | the stripped title is a subsequence of the title and never longer |
| ResolutionTag.StripNoBracket | bot.py:1158 | a title without `[` is unchanged |
| ResolutionTag.StripPrefix | bot.py:1158 | text without `[` whose last character is not whitespace passes through unchanged in front of whatever follows |
| ResolutionTag.StripExample | bot.py:1157-1158 | `"Cute Cat [1920x1080]"` becomes `"Cute Cat"` |
| ResolutionTag.StripNotIdempotent | bot.py:1027 | stripping twice differs from stripping once: `"[1[2x3]x4]"` gives `"[1x4]"`, which gives `""` |
| TitleLayout.WrapStep | bot.py:1113-1118 | one word of `_wrap_title`'s loop on the finished line groups and the open group: the word joins the open group, or, when the joined line is too wide, the open group is closed and the word alone opens the next (a closed empty group is the empty first line, filtered out later) |
| TitleLayout.WrapWords | bot.py:1112-1118 | the wrap loop over the title's words, one `WrapStep` per word from an empty open group |
| TitleLayout.Wrap | bot.py:1100-1120 | `_wrap_title`: every group of the wrap loop joined with single spaces, then the empty lines filtered out |
| TitleLayout.WrapWordsInvariant | bot.py:1112-1118 | through the wrap loop the line groups tile the words in order, and every group of two or more words fits the width |
| TitleLayout.WrapLoopStep | bot.py:1113-1118 | one word of the loop on its list of lines: the open line grows by the word; on overflow it is cut back to its old text and the word opens a new line |
| TitleLayout.WrapGroups | bot.py:1109-1120 | the wrapped lines are the joins of non-empty word groups that tile the title's words, each group of two or more fitting the width |
| TitleLayout.WrapKeepsWords | bot.py:1109-1120 | the wrapped lines joined with single spaces equal the title's words joined with single spaces |
| TitleLayout.WrapFits | bot.py:1115-1118 | every wrapped line fits the width or is a single word of the title |
| TitleLayout.WrapLinesTrimmed | bot.py:1116-1120 | no wrapped line is empty or begins or ends with whitespace |
| TitleLayout.WrapBlank | bot.py:1109-1120 | a blank or all-whitespace title wraps to no lines |
| TitleLayout.WrapOneWord | bot.py:1112-1120 | a one-word title wraps to that word alone, however wide it is |
| TitleLayout.DelimitedLines | bot.py:1077-1092 | the lines the split loop builds: the title cut after every occurrence of its first delimiter, each piece without its leading spaces; at least one line |
| TitleLayout.Split | bot.py:1067-1098 | `_split_title`: the word wrap when any delimited line is too wide, otherwise the delimited lines without the empty ones |
| TitleLayout.FirstDelimiterIsFirst | bot.py:1078-1089 | the adopted delimiter is the delimiter character of least index, and none is adopted exactly when the title holds none of `,` `;` `.` |
| TitleLayout.SplitLoopStep | bot.py:1080-1092 | one character of the split loop on its list of lines and its adopted delimiter: the delimiter is the first of `,;.` seen so far, and the lines change as `DelimitedAppend` states |
| TitleLayout.DelimitedAppend | bot.py:1080-1092 | one character of the split loop: a space on an empty line is skipped; any other character extends the last line; the adopted delimiter then opens a new line |
| TitleLayout.PiecesConcat | bot.py:1085-1092 | the pieces cut after each delimiter, concatenated, give the title back |
| TitleLayout.DropLeadingBlanksSuffix | bot.py:1082-1083 | a line loses only the spaces at its start: it is a suffix of its piece, and everything cut off is a space |
| TitleLayout.PiecesShape | bot.py:1085-1092 | every piece but the last ends with the delimiter and holds it nowhere else; the last piece does not hold it |
| TitleLayout.DelimitedShape | bot.py:1077-1098 | without fallback, no line is empty or starts with a space; with a delimiter, every line but the last ends with it and holds it nowhere else; without one there is at most one line |
| TitleLayout.SplitFallback | bot.py:1093-1098 | if any line before filtering is too wide, the result is exactly the word wrap; otherwise it is the filtered lines, all of which fit |
| TitleLayout.DelimitedExample | bot.py:1077-1092 | a title shaped like `"a, b, c"` splits into `["a,", "b,", "c"]` |
| Upscaling.NeedsUpscale | bot.py:1044 | `image.size < (min_size, min_size)`: the width is below 500, or it is exactly 500 and the height is below 500 |
| Upscaling.FontSize | bot.py:1054-1057 | `width // font_scale_factor`: the greatest `n` with `16 * n` not above the width |
| Upscaling.CeilDiv | bot.py:1049-1050 | the integer ceiling of `a / b`: the least `q` with `q * b` not below `a` |
| Upscaling.Upscale | bot.py:1042-1053 | the image is upscaled iff its size is lexicographically below `(500, 500)`, and fails with ZeroDivisionError iff it is also zero in a dimension; otherwise it is unchanged; when upscaled, the base side becomes exactly 500, both sides are at least 500, and neither shrinks |
| Upscaling.UpscaledFont | bot.py:1053-1057 | an upscaled image gets a title font of at least `500 // 16` pixels |
| Upscaling.WideShortNotUpscaled | bot.py:1044 | an 800×300 image is not upscaled |
| Upscaling.AlmostSquareUpscaled | bot.py:1044-1052 | a 500×499 image is upscaled to 502×500 |
| Caption.OptionsOf | bot.py:1140-1151 | the three flags of `customargs`: each is on exactly when its word is one of the arguments, and all are off without arguments |
| Caption.ReadOptions | bot.py:1140-1151 | the flag loop sets `center`, `dark` and `tagauth` exactly when that word is among the custom arguments |
| Caption.OptionsBySet | bot.py:1144-1151 | the flags depend only on which arguments occur, not on their order or repetition |
| Caption.DrawLines | bot.py:1165-1173 | the line loop draws line `i` at `(x_i, i*line_height + 10)` and leaves `left_margin` at the last line's x, or at 10 when there are no lines |
| Caption.Compose | bot.py:1153-1177 | the caption record `add_title` draws for a stripped title and its lines: dark mode colours, the band of `line_height * len(lines) + 10`, the 50-pixel author band, one draw per line and the author draw, or the missing-author error |
| Caption.TitleCaption | bot.py:1139-1177 | the whole of `add_title` after the title is recorded: flags from `customargs`, the tag stripped, the lines split or wrapped as `boot` says, then `Compose` |
| Caption.ComposeCaption | bot.py:1153-1177 | the drawing part of `add_title` builds the caption of `Compose`: colours, band heights, line draws, author draw, or the missing-author error |
| Caption.ComposeFails | bot.py:1175-1177 | the caption fails exactly when the author is to be tagged and there is none |
| Caption.ComposeLayout | bot.py:1159-1177 | the canvas keeps the width and is the text band plus the image plus 50 pixels when tagging the author; the original is pasted right under the band; lines are drawn in order, each row inside the band; the author is drawn below the image, inside the canvas |
| Caption.ComposeAlignment | bot.py:1165-1177 | without centring every line starts at x = 10; with it every line's midpoint is the image's midpoint; the author takes the last line's x, or 10 when there are no lines |
| Caption.DarkOnlyColours | bot.py:1153-1155 | dark mode sets the colours to `#000` and `#fff` and changes nothing else; without it the given colours are used |
| Caption.CaptionOfTaggedTitle | bot.py:1157-1160 | the caption of `"Cute Cat [1920x1080]"` is the caption of `"Cute Cat"` |
| Images.RedditImage.constructor | bot.py:1029-1057 | the object holds the resized image when the size is below `(500, 500)`, else the original; `upscaled` says which; the recorded size is the image's size; the font size is the width divided by 16 |
| Images.RedditImage.WrapTitle | bot.py:1100-1120 | the wrap loop returns exactly `TitleLayout.Wrap` of the title at the object's font size and width |
| Images.RedditImage.SplitTitle | bot.py:1067-1098 | the split loop, its width check and its fallback return exactly `TitleLayout.Split` of the title |
| Images.RedditImage.AddTitle | bot.py:1122-1180 | records the raw title; on success the image becomes the caption canvas over the old image and the size becomes the canvas size; the font stays consistent with the width; on failure only the title changes |
| Animation.AnimatedImage.Duration | bot.py:801 | `img.info['duration']`: the duration of the frame under the cursor |
| Animation.AnimatedImage.Seek | bot.py:797-804 | `img.seek(k)`: moves the cursor to frame `k`, or raises EOFError exactly when `k` is past the last frame and leaves the cursor where it was |
| Animation.FindFrameDurations | bot.py:795-806 | returns the duration of every frame, in frame order, one per frame, and leaves the cursor on the last frame |
| Animation.CaptionFrame | bot.py:755-758 | a frame becomes its prepared image under the caption of the title with default colours and no custom arguments |
| Animation.CaptionedFrame | bot.py:755-758 | a frame after `RedditImage(frame)` and `add_title(title, False)`: the prepared image under the caption of the title with default colours and no custom arguments |
| Animation.CaptionFrames | bot.py:749-773 | one captioned frame per source frame, in order; no result at all if any frame makes the constructor raise |
| Animation.ProcessGifFrames | bot.py:748-777 | captioned frames and durations have the same length as the source and pair up index by index |
| Requests.TriggerArgs | bot.py:374-384 | the arguments a lowercased comment asks for: `dark`, `center` and `tagauth`, each present exactly when one of its triggers occurs in the comment, in that order |
| Requests.RequestArgs | bot.py:370-386 | `customargs` of a request: the trigger arguments outside the automatic subreddits when there is a body, and none otherwise |
| Requests.OccursAt | bot.py:379-384 | the left-to-right scan for `x in body` succeeds exactly when some slice of the body equals `x` |
| Requests.RequestOptions | bot.py:370-386 | outside the automatic subreddits and with a body, a comment's arguments turn on exactly the flags whose trigger lists occur in it; otherwise none |
| Requests.ShortDarkTrigger | bot.py:374-380 | any comment starting with `!d`, such as `!delete`, asks for dark mode |
| Requests.DedupeKey | bot.py:592-600 | `submission.id + custom_title + ''.join(customargs)`, an absent title or argument list adding nothing |
| Requests.DedupeKeyParts | bot.py:592-600 | the key begins with the submission id, then spells the custom title and ends with the joined arguments |
| Requests.DedupeKeySameSubmission | bot.py:592-600 | two requests on one submission get the same key exactly when their custom title followed by their arguments run together spell the same text |
| Requests.DedupeKeyCollision | bot.py:993-1001 | a custom title `dark` and the argument `dark` give the same key for the same submission |

## Left out

- Pixels are not modelled: `resize(LANCZOS)`, `paste`, glyph drawing,
  and GIF encoding and decoding through `BytesIO` are foreign library calls.
  Only their geometry and arguments are modelled (`Images.Picture`,
  `Caption.Caption`).
- `ImageFont.truetype(...).getsize` is the uninterpreted parameter
  `TitleLayout.Metric`. Loading the font file is not modelled; the object
  keeps the font's pixel size.
- Floating point is not modelled. `500 / width`, `ceil`, and the centring
  `(width - w) / 2` are computed exactly, with integer ceiling division and
  `real`.
- Upscaling.Upscale: the base side is exactly 500 only in exact arithmetic.
  The code computes `ceil(base * (500 / base))` in IEEE doubles, and for some
  bases the product rounds above 500: `15 * (500 / 15)` is
  `500.00000000000006`, so a 15-pixel base becomes 501. By double arithmetic,
  81 of the bases 1 to 499 end at 501 in the code. The other side's
  `ceil` can be off by one in the same way.
- Images.RedditImage.constructor: requires an image on which `__init__`
  does not raise ZeroDivisionError (a zero dimension in the upscale branch).
  That error path is `Upscaling.Upscale`'s `Failure` and
  `Animation.CaptionFrames`'s `None`, because a Dafny constructor cannot fail.
- Images.RedditImage.AddTitle: with `tagauth` and no author, PIL raises
  while drawing `None`. This is modelled as `Failure(MissingAuthor)`. The
  exception type and the pixels already drawn on the discarded canvas are
  not modelled.
- Animation.AnimatedImage: PIL's decoder is reduced to a frame list with a
  cursor. The frame iterator of `process_gif` walks that list. A frame
  without a `duration` key (a KeyError) is not modelled.
- Saving `temp.gif`, uploading to Gfycat or Imgur, every other Reddit,
  HTTP and database call, the configuration, the curses interface and the
  streaming thread are I/O or concurrency. They are not part of this model.
- The custom-title regular expression of `process_message` is not part of
  this model.
- Whitespace is Python's `str.isspace` set, written out as code points
  (`Text.IsSpace`). It is the same set as `\s` in `re` for str patterns.
