/**
 * What `RedditImage._wrap_title` and `RedditImage._split_title` compute,
 * stated as functions of the title, the font and the image width, with the
 * properties the layout promises proved as lemmas. The loops themselves are
 * the methods of `Images.RedditImage`, proved equal to these functions.
 */
module TitleLayout {
  import opened Results
  import opened Text

  /** Pixel extent of a rendered text, the pair that `getsize` returns. */
  datatype Extent = Extent(w: nat, h: nat)

  /**
   * `ImageFont.truetype(font_file, size).getsize(text)`: the font file is fixed,
   * so a measure is a function of the pixel size and the text. It is a foreign
   * call and stays uninterpreted: every property below holds for any measure.
   */
  type Metric = (nat, string) -> Extent

  /** `RedditImage.margin` */
  const Margin: nat := 10

  /** The overflow test of both layouts: `getsize(line)[0] + margin > width`. */
  predicate TooWide(m: Metric, size: nat, width: nat, line: string)
  {
    m(size, line).w + Margin > width
  }

  // ---------------------------------------------------------------------
  // Greedy word wrap

  /** Lines finished so far (as word groups, possibly empty) and the words of the open line. */
  datatype WrapState = WrapState(done: seq<seq<string>>, current: seq<string>)

  /** One word of the wrap loop: add it to the open line, or close that line and open a new one with it. */
  function WrapStep(m: Metric, size: nat, width: nat, st: WrapState, word: string): WrapState
  {
    var candidate := st.current + [word];
    if TooWide(m, size, width, Join(candidate)) then WrapState(st.done + [st.current], [word])
    else WrapState(st.done, candidate)
  }

  /** The wrap loop run over a sequence of words. */
  function WrapWords(m: Metric, size: nat, width: nat, ws: seq<string>): WrapState
  {
    if ws == [] then WrapState([], [])
    else WrapStep(m, size, width, WrapWords(m, size, width, ws[..|ws| - 1]), ws[|ws| - 1])
  }

  /** `[' '.join(g) for g in gs]` */
  function JoinEach(gs: seq<seq<string>>): (r: seq<string>)
    ensures |r| == |gs|
    ensures forall i :: 0 <= i < |gs| ==> r[i] == Join(gs[i])
  {
    seq(|gs|, i requires 0 <= i < |gs| => Join(gs[i]))
  }

  /** The groups concatenated: the words in order. */
  function Flatten(gs: seq<seq<string>>): seq<string>
  {
    if gs == [] then [] else Flatten(gs[..|gs| - 1]) + gs[|gs| - 1]
  }

  /** `_wrap_title(title)` */
  function Wrap(m: Metric, size: nat, width: nat, title: string): seq<string>
  {
    var st := WrapWords(m, size, width, Words(title));
    NonEmpty(JoinEach(st.done + [st.current]))
  }

  /** What the wrap loop keeps true: the groups tile the words, and a group of two or more words fits. */
  ghost predicate WrapInvariant(m: Metric, size: nat, width: nat, ws: seq<string>, st: WrapState)
  {
    var gs := st.done + [st.current];
    Flatten(gs) == ws
    && (forall i :: 0 <= i < |gs| ==> |gs[i]| >= 2 ==> !TooWide(m, size, width, Join(gs[i])))
  }

  lemma {:induction false} WrapWordsInvariant(m: Metric, size: nat, width: nat, ws: seq<string>)
    ensures WrapInvariant(m, size, width, ws, WrapWords(m, size, width, ws))
  {
    if ws != [] {
      var init, w := ws[..|ws| - 1], ws[|ws| - 1];
      assert ws == init + [w];
      WrapWordsInvariant(m, size, width, init);
      WrapWordsSnoc(m, size, width, init, w);
      WrapStepInvariant(m, size, width, init, WrapWords(m, size, width, init), w);
    }
  }

  /** One step of the wrap loop keeps its invariant. */
  lemma WrapStepInvariant(m: Metric, size: nat, width: nat, ws: seq<string>, st: WrapState, w: string)
    requires WrapInvariant(m, size, width, ws, st)
    ensures WrapInvariant(m, size, width, ws + [w], WrapStep(m, size, width, st, w))
  {
    FlattenSnoc(st.done, st.current);
    if TooWide(m, size, width, Join(st.current + [w])) {
      WrapCloseInvariant(m, size, width, ws, st, w);
    } else {
      WrapGrowInvariant(m, size, width, ws, st, w);
    }
  }

  /** The overflowing word closes the open line and opens a one-word line. */
  lemma WrapCloseInvariant(m: Metric, size: nat, width: nat, ws: seq<string>, st: WrapState, w: string)
    requires WrapInvariant(m, size, width, ws, st) && Flatten(st.done + [st.current]) == Flatten(st.done) + st.current
    ensures WrapInvariant(m, size, width, ws + [w], WrapState(st.done + [st.current], [w]))
  {
    var gs := st.done + [st.current];
    var gs' := gs + [[w]];
    FlattenSnoc(gs, [w]);
    forall i | 0 <= i < |gs'| && |gs'[i]| >= 2 ensures !TooWide(m, size, width, Join(gs'[i])) {
      assert gs'[i] == gs[i];
    }
  }

  /** A word that fits joins the open line. */
  lemma WrapGrowInvariant(m: Metric, size: nat, width: nat, ws: seq<string>, st: WrapState, w: string)
    requires WrapInvariant(m, size, width, ws, st) && Flatten(st.done + [st.current]) == Flatten(st.done) + st.current
    requires !TooWide(m, size, width, Join(st.current + [w]))
    ensures WrapInvariant(m, size, width, ws + [w], WrapState(st.done, st.current + [w]))
  {
    var gs := st.done + [st.current];
    var gs' := st.done + [st.current + [w]];
    FlattenSnoc(st.done, st.current + [w]);
    forall i | 0 <= i < |gs'| && |gs'[i]| >= 2 ensures !TooWide(m, size, width, Join(gs'[i])) {
      if i < |st.done| { assert gs'[i] == gs[i]; }
    }
  }

  lemma FlattenSnoc(gs: seq<seq<string>>, g: seq<string>)
    ensures Flatten(gs + [g]) == Flatten(gs) + g
  {
    assert (gs + [g])[..|gs|] == gs;
  }

  /** The words of the open line are words of the title. */
  lemma {:induction false} WrapCurrentWords(m: Metric, size: nat, width: nat, ws: seq<string>)
    requires AllWords(ws)
    ensures AllWords(WrapWords(m, size, width, ws).current)
  {
    if ws != [] {
      WrapCurrentWords(m, size, width, ws[..|ws| - 1]);
      assert IsWord(ws[|ws| - 1]);
    }
  }

  /**
   * One word of the wrap loop on its list of lines: the joined open line is
   * replaced by the candidate, and on overflow the candidate is cut back to
   * the old open line (`lines[-1][:-len(word)].strip()`) and the word opens
   * a new line.
   */
  lemma WrapLoopStep(m: Metric, size: nat, width: nat, title: string, k: nat, lineWords: seq<string>, lines: seq<string>)
    requires k < |Words(title)|
    requires lineWords == WrapWords(m, size, width, Words(title)[..k]).current
    requires lines == JoinEach(WrapWords(m, size, width, Words(title)[..k]).done + [lineWords])
    ensures var word := Words(title)[k];
      var next := WrapWords(m, size, width, Words(title)[..k + 1]);
      var candidate := Join(lineWords + [word]);
      var grown := lines[..|lines| - 1] + [candidate];
      |lines| > 0 && |word| <= |candidate|
      && if TooWide(m, size, width, candidate) then
           next.current == [word]
           && JoinEach(next.done + [next.current]) == grown[..|grown| - 1] + [Trim(candidate[..|candidate| - |word|])] + [word]
         else
           next.current == lineWords + [word] && JoinEach(next.done + [next.current]) == grown
  {
    var words := Words(title);
    var ws, word := words[..k], words[k];
    assert words[..k + 1] == ws + [word];
    assert AllWords(WrapWords(m, size, width, ws).current) && IsWord(word) by {
      assert AllWords(ws) by {
        forall i | 0 <= i < k ensures IsWord(ws[i]) { assert ws[i] == words[i]; }
      }
      WrapCurrentWords(m, size, width, ws);
    }
    WrapStepLines(m, size, width, ws, word);
  }

  /** `WrapLoopStep` for any words. */
  lemma WrapStepLines(m: Metric, size: nat, width: nat, ws: seq<string>, word: string)
    requires AllWords(WrapWords(m, size, width, ws).current) && IsWord(word)
    ensures var st := WrapWords(m, size, width, ws);
      var st' := WrapWords(m, size, width, ws + [word]);
      var lines := JoinEach(st.done + [st.current]);
      var candidate := Join(st.current + [word]);
      var grown := lines[..|lines| - 1] + [candidate];
      |word| <= |candidate|
      && if TooWide(m, size, width, candidate) then
           st'.current == [word]
           && JoinEach(st'.done + [st'.current]) == grown[..|grown| - 1] + [Trim(candidate[..|candidate| - |word|])] + [word]
         else
           st'.current == st.current + [word] && JoinEach(st'.done + [st'.current]) == grown
  {
    var st := WrapWords(m, size, width, ws);
    WrapWordsSnoc(m, size, width, ws, word);
    var candidate := Join(st.current + [word]);
    JoinEachSnoc(st.done, st.current);
    JoinEachSnoc(st.done, st.current + [word]);
    var lines := JoinEach(st.done + [st.current]);
    assert lines[..|lines| - 1] == JoinEach(st.done);
    var grown := lines[..|lines| - 1] + [candidate];
    assert grown[..|grown| - 1] == JoinEach(st.done);
    TrimDropsLastWord(st.current, word);
    if TooWide(m, size, width, candidate) {
      JoinEachSnoc(st.done + [st.current], [word]);
      assert Join([word]) == word;
    }
  }

  lemma WrapWordsSnoc(m: Metric, size: nat, width: nat, ws: seq<string>, word: string)
    ensures WrapWords(m, size, width, ws + [word]) == WrapStep(m, size, width, WrapWords(m, size, width, ws), word)
  {
    assert (ws + [word])[..|ws|] == ws;
  }

  lemma JoinEachSnoc(gs: seq<seq<string>>, g: seq<string>)
    ensures JoinEach(gs + [g]) == JoinEach(gs) + [Join(g)]
  {
  }

  /** `[g for g in gs if g]` */
  function NonEmptyGroups(gs: seq<seq<string>>): (r: seq<seq<string>>)
    ensures forall i :: 0 <= i < |r| ==> r[i] != []
    ensures forall g :: g in r ==> g in gs
  {
    if gs == [] then []
    else if gs[|gs| - 1] == [] then NonEmptyGroups(gs[..|gs| - 1])
    else NonEmptyGroups(gs[..|gs| - 1]) + [gs[|gs| - 1]]
  }

  ghost predicate GroupsOfWords(gs: seq<seq<string>>)
  {
    forall i :: 0 <= i < |gs| ==> AllWords(gs[i])
  }

  lemma {:induction false} NonEmptyJoinEach(gs: seq<seq<string>>)
    requires GroupsOfWords(gs)
    ensures NonEmpty(JoinEach(gs)) == JoinEach(NonEmptyGroups(gs))
    ensures Flatten(NonEmptyGroups(gs)) == Flatten(gs)
  {
    if gs != [] {
      var init := gs[..|gs| - 1];
      var g := gs[|gs| - 1];
      NonEmptyJoinEach(init);
      assert JoinEach(gs)[..|gs| - 1] == JoinEach(init);
      JoinEmpty(g);
      if g != [] {
        var ng := NonEmptyGroups(init);
        assert NonEmptyGroups(gs) == ng + [g];
        assert JoinEach(ng + [g]) == JoinEach(ng) + [Join(g)];
        assert (ng + [g])[..|ng|] == ng;
      } else {
        assert Flatten(gs) == Flatten(init) + [];
      }
    }
  }

  lemma {:induction false} JoinAppend(a: seq<string>, b: seq<string>)
    requires a != [] && b != []
    ensures Join(a + b) == Join(a) + " " + Join(b)
    decreases |b|
  {
    var ab := a + b;
    var init, last := b[..|b| - 1], b[|b| - 1];
    assert ab[..|ab| - 1] == a + init && ab[|ab| - 1] == last;
    if |b| > 1 {
      JoinAppend(a, init);
      SpaceGroup(Join(a), Join(init), last);
    } else {
      assert a + init == a;
    }
  }

  /** Regrouping `x + " " + y + " " + z`. */
  lemma SpaceGroup(x: string, y: string, z: string)
    ensures x + " " + y + " " + z == x + " " + (y + " " + z)
  {
  }

  /** Joining the lines with single spaces is joining all their words with single spaces. */
  lemma {:induction false} JoinJoinEach(gs: seq<seq<string>>)
    requires forall i :: 0 <= i < |gs| ==> gs[i] != []
    ensures Join(JoinEach(gs)) == Join(Flatten(gs))
  {
    if |gs| > 1 {
      var init := gs[..|gs| - 1];
      var g := gs[|gs| - 1];
      JoinJoinEach(init);
      assert JoinEach(gs)[..|gs| - 1] == JoinEach(init);
      FlattenNonEmpty(init);
      JoinAppend(Flatten(init), g);
    } else if |gs| == 1 {
      assert gs[..0] == [];
      assert Flatten(gs) == gs[0];
      assert JoinEach(gs) == [Join(gs[0])];
    }
  }

  lemma {:induction false} FlattenNonEmpty(gs: seq<seq<string>>)
    requires gs != [] && forall i :: 0 <= i < |gs| ==> gs[i] != []
    ensures Flatten(gs) != []
  {
  }

  lemma {:induction false} FlattenWords(gs: seq<seq<string>>, ws: seq<string>)
    requires Flatten(gs) == ws && AllWords(ws)
    ensures GroupsOfWords(gs)
  {
    if gs != [] {
      var init := gs[..|gs| - 1];
      var g := gs[|gs| - 1];
      assert ws == Flatten(init) + g;
      assert AllWords(Flatten(init)) by {
        forall k | 0 <= k < |Flatten(init)| ensures IsWord(Flatten(init)[k]) { assert Flatten(init)[k] == ws[k]; }
      }
      FlattenWords(init, Flatten(init));
      forall k | 0 <= k < |g| ensures IsWord(g[k]) { assert g[k] == ws[|Flatten(init)| + k]; }
      forall i | 0 <= i < |gs| ensures AllWords(gs[i]) {
        if i < |gs| - 1 { assert gs[i] == init[i]; }
      }
    }
  }

  /** A word of the title is on the open line or on some closed line. */
  lemma {:induction false} FlattenMember(gs: seq<seq<string>>, i: nat, k: nat)
    requires i < |gs| && k < |gs[i]|
    ensures gs[i][k] in Flatten(gs)
  {
    var init := gs[..|gs| - 1];
    if i == |gs| - 1 {
      assert Flatten(gs) == Flatten(init) + gs[i];
      assert Flatten(gs)[|Flatten(init)| + k] == gs[i][k];
    } else {
      assert gs[i] == init[i];
      FlattenMember(init, i, k);
    }
  }

  /** The wrapped lines, groups of two or more words fit. */
  lemma WrapGroups(m: Metric, size: nat, width: nat, title: string)
    returns (gs: seq<seq<string>>)
    ensures Wrap(m, size, width, title) == JoinEach(gs)
    ensures Flatten(gs) == Words(title)
    ensures GroupsOfWords(gs)
    ensures forall i :: 0 <= i < |gs| ==> gs[i] != []
    ensures forall i :: 0 <= i < |gs| ==> |gs[i]| >= 2 ==> !TooWide(m, size, width, Join(gs[i]))
  {
    var ws := Words(title);
    var st := WrapWords(m, size, width, ws);
    WrapWordsInvariant(m, size, width, ws);
    var all := st.done + [st.current];
    FlattenWords(all, ws);
    NonEmptyJoinEach(all);
    gs := NonEmptyGroups(all);
    forall i | 0 <= i < |gs| ensures AllWords(gs[i]) && (|gs[i]| >= 2 ==> !TooWide(m, size, width, Join(gs[i]))) {
      assert gs[i] in all;
    }
  }

  /** `_wrap_title` loses no word and adds none: its lines joined with spaces are the title's words joined with spaces. */
  lemma WrapKeepsWords(m: Metric, size: nat, width: nat, title: string)
    ensures Join(Wrap(m, size, width, title)) == Join(Words(title))
  {
    var gs := WrapGroups(m, size, width, title);
    JoinJoinEach(gs);
  }

  /**
   * Every wrapped line fits the image width with its margin, unless it is a
   * single word of the title too wide to fit on any line.
   */
  lemma WrapFits(m: Metric, size: nat, width: nat, title: string)
    ensures forall line :: line in Wrap(m, size, width, title) ==>
      !TooWide(m, size, width, line) || line in Words(title)
  {
    var gs := WrapGroups(m, size, width, title);
    forall line | line in Wrap(m, size, width, title)
      ensures !TooWide(m, size, width, line) || line in Words(title)
    {
      var i :| 0 <= i < |gs| && line == Join(gs[i]);
      if |gs[i]| == 1 {
        FlattenMember(gs, i, 0);
      }
    }
  }

  /** No wrapped line is empty or starts or ends with whitespace. */
  lemma WrapLinesTrimmed(m: Metric, size: nat, width: nat, title: string)
    ensures forall line :: line in Wrap(m, size, width, title) ==>
      line != "" && !IsSpace(line[0]) && !IsSpace(line[|line| - 1])
  {
    var gs := WrapGroups(m, size, width, title);
    forall line | line in Wrap(m, size, width, title)
      ensures line != "" && !IsSpace(line[0]) && !IsSpace(line[|line| - 1])
    {
      var i :| 0 <= i < |gs| && line == Join(gs[i]);
      JoinEnds(gs[i]);
    }
  }

  /** A blank title wraps to no lines at all. */
  lemma WrapBlank(m: Metric, size: nat, width: nat, title: string)
    requires AllSpace(title)
    ensures Wrap(m, size, width, title) == []
  {
    WordsNone(title);
    assert JoinEach([[]]) == [""];
  }

  /** A one-word title is one line holding that word, however wide it is. */
  lemma WrapOneWord(m: Metric, size: nat, width: nat, title: string)
    requires |Words(title)| == 1
    ensures Wrap(m, size, width, title) == Words(title)
  {
    var ws := Words(title);
    assert ws[..0] == [];
    var w := ws[0];
    assert IsWord(w);
    assert Join([w]) == w;
    assert ws == [w];
    if TooWide(m, size, width, w) {
      assert WrapWords(m, size, width, ws) == WrapState([[]], [w]);
      assert [[]] + [[w]] == [[], [w]];
      assert JoinEach([[], [w]]) == ["", w];
      assert ["", w][..1] == [""];
      assert NonEmpty(["", w]) == NonEmpty([""]) + [w];
    } else {
      assert WrapWords(m, size, width, ws) == WrapState([], [w]);
      assert [] + [[w]] == [[w]];
      assert JoinEach([[w]]) == [w];
      assert [w][..0] == [];
      assert NonEmpty([w]) == NonEmpty([]) + [w];
    }
  }

  // ---------------------------------------------------------------------
  // Delimiter split

  /** `all_delimiters` */
  predicate IsDelimiter(c: char) { c == ',' || c == ';' || c == '.' }

  /** The first of `,` `;` `.` to occur in `s`: the split loop adopts it as its only delimiter. */
  function FirstDelimiter(s: string): (r: Option<char>)
    ensures r.Some? ==> IsDelimiter(r.value)
  {
    if s == [] then None
    else
      var f := FirstDelimiter(s[..|s| - 1]);
      if f.Some? then f
      else if IsDelimiter(s[|s| - 1]) then Some(s[|s| - 1])
      else None
  }

  /** `s` cut after every occurrence of `d`, each delimiter kept at the end of its piece. */
  function Pieces(s: string, d: Option<char>): (ps: seq<string>)
    ensures |ps| > 0
  {
    if s == [] then [""]
    else
      var ps := Pieces(s[..|s| - 1], d);
      var c := s[|s| - 1];
      var extended := ps[..|ps| - 1] + [ps[|ps| - 1] + [c]];
      if d == Some(c) then extended + [""] else extended
  }

  /** The line without the spaces at its start, which the split loop never writes. */
  function DropLeadingBlanks(s: string): (r: string)
    ensures r == [] || r[0] != ' '
    ensures |r| <= |s|
  {
    if s != [] && s[0] == ' ' then DropLeadingBlanks(s[1..]) else s
  }

  /** What is dropped is a run of spaces: the result is a suffix of the line and everything before it is blank. */
  lemma {:induction false} DropLeadingBlanksSuffix(s: string)
    ensures var r := DropLeadingBlanks(s);
      r == s[|s| - |r|..] && forall j :: 0 <= j < |s| - |r| ==> s[j] == ' '
  {
    if s != [] && s[0] == ' ' {
      DropLeadingBlanksSuffix(s[1..]);
      var r := DropLeadingBlanks(s);
      assert s[1..][|s| - 1 - |r|..] == s[|s| - |r|..];
      assert forall j :: 1 <= j < |s| - |r| ==> s[j] == s[1..][j - 1];
    }
  }

  function DropEachLeadingBlanks(ps: seq<string>): (r: seq<string>)
    ensures |r| == |ps|
    ensures forall i :: 0 <= i < |ps| ==> r[i] == DropLeadingBlanks(ps[i])
  {
    seq(|ps|, i requires 0 <= i < |ps| => DropLeadingBlanks(ps[i]))
  }

  /**
   * The lines the split loop builds, before the final filter: the title cut
   * after each occurrence of its first delimiter, each piece without its
   * leading spaces.
   */
  function DelimitedLines(title: string): (lines: seq<string>)
    ensures |lines| > 0
  {
    DropEachLeadingBlanks(Pieces(title, FirstDelimiter(title)))
  }

  /** `_split_title(title)`: the delimited lines, or the wrapped title if any of them is too wide. */
  function Split(m: Metric, size: nat, width: nat, title: string): seq<string>
  {
    var lines := DelimitedLines(title);
    if AnyTooWide(m, size, width, lines) then Wrap(m, size, width, title)
    else NonEmpty(lines)
  }

  /** Some line overflows the image width. */
  predicate AnyTooWide(m: Metric, size: nat, width: nat, lines: seq<string>)
  {
    exists i :: 0 <= i < |lines| && TooWide(m, size, width, lines[i])
  }

  /** `d` does not occur in `p`. */
  predicate Free(p: string, d: char)
  {
    forall j :: 0 <= j < |p| ==> p[j] != d
  }

  /** `p` ends with `d` and holds it nowhere else. */
  predicate Closed(p: string, d: char)
  {
    |p| > 0 && p[|p| - 1] == d && Free(p[..|p| - 1], d)
  }

  /** The first delimiter is the delimiter character of least index, and there is none exactly when no delimiter occurs. */
  lemma {:induction false} FirstDelimiterIsFirst(s: string)
    ensures FirstDelimiter(s).None? <==> forall i :: 0 <= i < |s| ==> !IsDelimiter(s[i])
    ensures FirstDelimiter(s).Some? ==>
      (exists k :: 0 <= k < |s| && s[k] == FirstDelimiter(s).value
        && IsDelimiter(s[k]) && forall j :: 0 <= j < k ==> !IsDelimiter(s[j]))
  {
    if s != [] {
      var init := s[..|s| - 1];
      FirstDelimiterIsFirst(init);
      if FirstDelimiter(init).Some? {
        var k :| 0 <= k < |init| && init[k] == FirstDelimiter(init).value
          && IsDelimiter(init[k]) && forall j :: 0 <= j < k ==> !IsDelimiter(init[j]);
        assert s[k] == init[k];
        assert forall j :: 0 <= j < k ==> s[j] == init[j];
      } else {
        assert forall j :: 0 <= j < |s| - 1 ==> s[j] == init[j];
      }
    }
  }

  /** Appending one character to the title, as the scanning loop does. */
  lemma FirstDelimiterAppend(s: string, c: char)
    ensures FirstDelimiter(s + [c]) ==
      if FirstDelimiter(s).Some? then FirstDelimiter(s) else if IsDelimiter(c) then Some(c) else None
  {
    assert (s + [c])[..|s|] == s;
  }

  lemma PiecesAppend(s: string, c: char, d: Option<char>)
    ensures Pieces(s + [c], d) ==
      var ps := Pieces(s, d);
      var extended := ps[..|ps| - 1] + [ps[|ps| - 1] + [c]];
      if d == Some(c) then extended + [""] else extended
  {
    assert (s + [c])[..|s|] == s;
  }

  /** Without its delimiter in it, the text is one piece. */
  lemma {:induction false} PiecesWithoutDelimiter(s: string, d: Option<char>)
    requires forall i :: 0 <= i < |s| ==> d != Some(s[i])
    ensures Pieces(s, d) == [s]
  {
    if s != [] {
      var init := s[..|s| - 1];
      assert forall i :: 0 <= i < |init| ==> init[i] == s[i];
      PiecesWithoutDelimiter(init, d);
      assert init + [s[|s| - 1]] == s;
    }
  }

  lemma {:induction false} DropLeadingBlanksAppend(s: string, c: char)
    ensures DropLeadingBlanks(s + [c]) ==
      if DropLeadingBlanks(s) == [] && c == ' ' then [] else DropLeadingBlanks(s) + [c]
  {
    if s != [] && s[0] == ' ' {
      assert (s + [c])[1..] == s[1..] + [c];
      DropLeadingBlanksAppend(s[1..], c);
    } else if s == [] {
      if c == ' ' { assert [c][1..] == []; }
    }
  }

  /** The delimiter the title adopts does not change how the text before the new character is cut. */
  lemma PiecesBeforeAppend(s: string, c: char)
    ensures Pieces(s, FirstDelimiter(s + [c])) == Pieces(s, FirstDelimiter(s))
  {
    FirstDelimiterAppend(s, c);
    if FirstDelimiter(s).None? {
      FirstDelimiterIsFirst(s);
      PiecesWithoutDelimiter(s, FirstDelimiter(s));
      PiecesWithoutDelimiter(s, FirstDelimiter(s + [c]));
    }
  }

  lemma DropEachAppend(ps: seq<string>, c: char, d: Option<char>)
    requires |ps| > 0 && d != Some(' ')
    ensures
      var ls := DropEachLeadingBlanks(ps);
      var extended := ps[..|ps| - 1] + [ps[|ps| - 1] + [c]];
      DropEachLeadingBlanks(if d == Some(c) then extended + [""] else extended) ==
        if c == ' ' && ls[|ls| - 1] == "" then ls
        else
          var grown := ls[..|ls| - 1] + [ls[|ls| - 1] + [c]];
          if d == Some(c) then grown + [""] else grown
  {
    DropLeadingBlanksAppend(ps[|ps| - 1], c);
  }

  /**
   * One character of the split loop: a space at the start of a line is
   * skipped, any other character extends the last line, and the title's
   * first delimiter then opens a new, empty line.
   */
  lemma DelimitedAppend(s: string, c: char)
    ensures DelimitedLines(s + [c]) ==
      var ls := DelimitedLines(s);
      if c == ' ' && ls[|ls| - 1] == "" then ls
      else
        var extended := ls[..|ls| - 1] + [ls[|ls| - 1] + [c]];
        if FirstDelimiter(s + [c]) == Some(c) then extended + [""] else extended
  {
    var f' := FirstDelimiter(s + [c]);
    var ps := Pieces(s, f');
    assert DelimitedLines(s) == DropEachLeadingBlanks(ps) by { PiecesBeforeAppend(s, c); }
    var extended := ps[..|ps| - 1] + [ps[|ps| - 1] + [c]];
    assert DelimitedLines(s + [c]) == DropEachLeadingBlanks(if f' == Some(c) then extended + [""] else extended) by {
      PiecesAppend(s, c, f');
    }
    DropEachAppend(ps, c, f');
  }

  /** `DelimitedAppend` on the split loop's own variables, at position `k` of the title. */
  lemma SplitLoopStep(title: string, k: nat, lines: seq<string>, delimiter: Option<char>)
    requires k < |title|
    requires lines == DelimitedLines(title[..k]) && delimiter == FirstDelimiter(title[..k])
    ensures var c := title[k];
      var d := if delimiter.None? && IsDelimiter(c) then Some(c) else delimiter;
      |lines| > 0 && d == FirstDelimiter(title[..k + 1])
      && DelimitedLines(title[..k + 1]) ==
        if c == ' ' && lines[|lines| - 1] == "" then lines
        else
          var extended := lines[..|lines| - 1] + [lines[|lines| - 1] + [c]];
          if d == Some(c) then extended + [""] else extended
  {
    var c := title[k];
    var s := title[..k];
    var s' := title[..k + 1];
    assert s' == s + [c];
    var d := if delimiter.None? && IsDelimiter(c) then Some(c) else delimiter;
    assert d == FirstDelimiter(s') by { FirstDelimiterAppend(s, c); }
    assert DelimitedLines(s') ==
      if c == ' ' && lines[|lines| - 1] == "" then lines
      else
        var extended := lines[..|lines| - 1] + [lines[|lines| - 1] + [c]];
        if d == Some(c) then extended + [""] else extended
    by {
      DelimitedAppend(s, c);
    }
  }

  /** The pieces tile the text: concatenated, they give it back. */
  lemma {:induction false} PiecesConcat(s: string, d: Option<char>)
    ensures Concat(Pieces(s, d)) == s
  {
    if s != [] {
      var init := s[..|s| - 1];
      var c := s[|s| - 1];
      var ps := Pieces(init, d);
      PiecesConcat(init, d);
      var extended := ps[..|ps| - 1] + [ps[|ps| - 1] + [c]];
      assert extended[..|extended| - 1] == ps[..|ps| - 1];
      assert Concat(extended) == Concat(ps[..|ps| - 1]) + ps[|ps| - 1] + [c];
      assert Concat(ps) == Concat(ps[..|ps| - 1]) + ps[|ps| - 1];
      if d == Some(c) {
        assert (extended + [""])[..|extended|] == extended;
      }
      assert init + [c] == s;
    }
  }

  /** Every piece but the last ends with the delimiter and holds it nowhere else; the last does not hold it. */
  lemma {:induction false} PiecesShape(s: string, d: char)
    ensures var ps := Pieces(s, Some(d));
      (forall i :: 0 <= i < |ps| - 1 ==> Closed(ps[i], d)) && Free(ps[|ps| - 1], d)
  {
    if s != [] {
      var init := s[..|s| - 1];
      var c := s[|s| - 1];
      PiecesShape(init, d);
      var ps := Pieces(init, Some(d));
      var last := ps[|ps| - 1];
      var extended := ps[..|ps| - 1] + [last + [c]];
      assert forall i :: 0 <= i < |ps| - 1 ==> extended[i] == ps[i];
      if c == d {
        assert (last + [c])[..|last|] == last;
        assert Closed(last + [c], d);
        var r := extended + [""];
        assert forall i :: 0 <= i < |r| - 1 ==> r[i] == extended[i];
      } else {
        assert Free(last + [c], d);
      }
    }
  }

  lemma DropLeadingBlanksFree(s: string, d: char)
    requires Free(s, d)
    ensures Free(DropLeadingBlanks(s), d)
  {
    DropLeadingBlanksSuffix(s);
  }

  lemma DropLeadingBlanksClosed(s: string, d: char)
    requires Closed(s, d) && d != ' '
    ensures Closed(DropLeadingBlanks(s), d)
  {
    DropLeadingBlanksSuffix(s);
    var r := DropLeadingBlanks(s);
    var k := |s| - |r|;
    assert r != [];
    assert r[..|r| - 1] == s[..|s| - 1][k..];
  }

  lemma {:induction false} NonEmptyAllNonEmpty(xs: seq<string>)
    requires forall i :: 0 <= i < |xs| ==> xs[i] != ""
    ensures NonEmpty(xs) == xs
  {
    if xs != [] {
      NonEmptyAllNonEmpty(xs[..|xs| - 1]);
      assert xs[..|xs| - 1] + [xs[|xs| - 1]] == xs;
    }
  }

  /** Without a delimiter in the title, the layout is at most one line. */
  lemma DelimitedWithoutDelimiter(title: string)
    requires FirstDelimiter(title).None?
    ensures DelimitedLines(title) == [DropLeadingBlanks(title)]
  {
    FirstDelimiterIsFirst(title);
    PiecesWithoutDelimiter(title, None);
  }

  /** With delimiter `d`, every delimited line but the last is closed by `d`, and the last does not hold it. */
  lemma DelimitedWithDelimiter(title: string, d: char)
    requires FirstDelimiter(title) == Some(d)
    ensures var lines := DelimitedLines(title);
      (forall i :: 0 <= i < |lines| - 1 ==> Closed(lines[i], d)) && Free(lines[|lines| - 1], d)
  {
    FirstDelimiterIsFirst(title);
    var ps := Pieces(title, Some(d));
    PiecesShape(title, d);
    forall i | 0 <= i < |ps| - 1 ensures Closed(DropLeadingBlanks(ps[i]), d) {
      DropLeadingBlanksClosed(ps[i], d);
    }
    DropLeadingBlanksFree(ps[|ps| - 1], d);
  }

  /** Filtering empty lines when only the last can be empty. */
  lemma NonEmptyLastOnly(lines: seq<string>)
    requires |lines| > 0 && forall i :: 0 <= i < |lines| - 1 ==> lines[i] != ""
    ensures NonEmpty(lines) == lines[..|lines| - 1] + (if lines[|lines| - 1] == "" then [] else [lines[|lines| - 1]])
  {
    NonEmptyAllNonEmpty(lines[..|lines| - 1]);
  }

  /**
   * The delimiter layout, when no line is too wide: no line is empty or starts
   * with a space; without a delimiter there is at most one line; with one,
   * every line but the last ends with it and holds it nowhere else, and the
   * last line holds it at most at its end.
   */
  lemma DelimitedShape(title: string)
    ensures var r := NonEmpty(DelimitedLines(title));
      (forall i :: 0 <= i < |r| ==> r[i] != "" && r[i][0] != ' ')
      && (FirstDelimiter(title).None? ==> |r| <= 1)
      && (FirstDelimiter(title).Some? ==>
            (forall i :: 0 <= i < |r| - 1 ==> Closed(r[i], FirstDelimiter(title).value))
            && (|r| > 0 ==> Closed(r[|r| - 1], FirstDelimiter(title).value) || Free(r[|r| - 1], FirstDelimiter(title).value)))
  {
    var lines := DelimitedLines(title);
    assert forall i :: 0 <= i < |lines| ==> lines[i] == "" || lines[i][0] != ' ';
    if FirstDelimiter(title).None? {
      DelimitedWithoutDelimiter(title);
      NonEmptyLastOnly(lines);
    } else {
      var d := FirstDelimiter(title).value;
      DelimitedWithDelimiter(title, d);
      ClosedLinesShape(lines, d);
    }
  }

  /** Filtering lines that are closed by `d` up to a last free one keeps them closed, and none starts with a space. */
  lemma ClosedLinesShape(lines: seq<string>, d: char)
    requires |lines| > 0 && (forall i :: 0 <= i < |lines| - 1 ==> Closed(lines[i], d)) && Free(lines[|lines| - 1], d)
    requires forall i :: 0 <= i < |lines| ==> lines[i] == "" || lines[i][0] != ' '
    ensures var r := NonEmpty(lines);
      (forall i :: 0 <= i < |r| ==> r[i] != "" && r[i][0] != ' ')
      && (forall i :: 0 <= i < |r| - 1 ==> Closed(r[i], d))
      && (|r| > 0 ==> Closed(r[|r| - 1], d) || Free(r[|r| - 1], d))
  {
    NonEmptyLastOnly(lines);
    var r := NonEmpty(lines);
    assert forall i :: 0 <= i < |r| ==> r[i] == lines[i];
  }

  /** When some delimited line is too wide the layout is the wrapped one; otherwise it is the delimited one, and every line fits. */
  lemma SplitFallback(m: Metric, size: nat, width: nat, title: string)
    ensures (exists line :: line in DelimitedLines(title) && TooWide(m, size, width, line))
      ==> Split(m, size, width, title) == Wrap(m, size, width, title)
    ensures (forall line :: line in DelimitedLines(title) ==> !TooWide(m, size, width, line))
      ==> (Split(m, size, width, title) == NonEmpty(DelimitedLines(title))
        && forall line :: line in Split(m, size, width, title) ==> !TooWide(m, size, width, line))
  {
    var lines := DelimitedLines(title);
    if exists line :: line in lines && TooWide(m, size, width, line) {
      var line :| line in lines && TooWide(m, size, width, line);
      var i :| 0 <= i < |lines| && lines[i] == line;
    }
  }

  /** A character that neither is skipped nor cuts a line. */
  predicate Ordinary(c: char) { c != ' ' && !IsDelimiter(c) }

  lemma AppendOrdinary(s: string, c: char)
    requires Ordinary(c)
    ensures FirstDelimiter(s + [c]) == FirstDelimiter(s)
    ensures var ls := DelimitedLines(s);
      DelimitedLines(s + [c]) == ls[..|ls| - 1] + [ls[|ls| - 1] + [c]]
  {
    FirstDelimiterAppend(s, c);
    FirstDelimiterIsFirst(s);
    DelimitedAppend(s, c);
  }

  lemma AppendComma(s: string)
    requires FirstDelimiter(s) == None || FirstDelimiter(s) == Some(',')
    ensures FirstDelimiter(s + [',']) == Some(',')
    ensures var ls := DelimitedLines(s);
      DelimitedLines(s + [',']) == ls[..|ls| - 1] + [ls[|ls| - 1] + [',']] + [""]
  {
    FirstDelimiterAppend(s, ',');
    DelimitedAppend(s, ',');
  }

  lemma AppendBlank(s: string)
    requires var ls := DelimitedLines(s); ls[|ls| - 1] == ""
    ensures FirstDelimiter(s + [' ']) == FirstDelimiter(s)
    ensures DelimitedLines(s + [' ']) == DelimitedLines(s)
  {
    FirstDelimiterAppend(s, ' ');
    DelimitedAppend(s, ' ');
  }

  /** An ordinary character then the comma: the open line becomes `x,` and a new line opens. */
  lemma AppendWordComma(s: string, x: char)
    requires Ordinary(x) && (FirstDelimiter(s) == None || FirstDelimiter(s) == Some(','))
    requires var ls := DelimitedLines(s); ls[|ls| - 1] == ""
    ensures FirstDelimiter(s + [x] + [',']) == Some(',')
    ensures var ls := DelimitedLines(s);
      DelimitedLines(s + [x] + [',']) == ls[..|ls| - 1] + [[x, ','], ""]
  {
    var ls := DelimitedLines(s);
    var pre := ls[..|ls| - 1];
    AppendOrdinary(s, x);
    assert DelimitedLines(s + [x]) == pre + [[x]] by { assert ls[|ls| - 1] + [x] == [x]; }
    AppendComma(s + [x]);
    CloseLine(pre, [x], ',');
    assert [x] + [','] == [x, ','];
  }

  /** Closing the open line with `d` and opening an empty one. */
  lemma CloseLine(pre: seq<string>, line: string, d: char)
    ensures var ls := pre + [line];
      ls[..|ls| - 1] + [ls[|ls| - 1] + [d]] + [""] == pre + [line + [d], ""]
  {
    var ls := pre + [line];
    assert ls[..|ls| - 1] == pre;
  }

  /** One clause `x,` followed by a space, appended after a title that ends a line. */
  lemma AppendClause(s: string, x: char)
    requires Ordinary(x) && (FirstDelimiter(s) == None || FirstDelimiter(s) == Some(','))
    requires var ls := DelimitedLines(s); ls[|ls| - 1] == ""
    ensures FirstDelimiter(s + [x] + [','] + [' ']) == Some(',')
    ensures var ls := DelimitedLines(s);
      DelimitedLines(s + [x] + [','] + [' ']) == ls[..|ls| - 1] + [[x, ','], ""]
  {
    AppendWordComma(s, x);
    AppendBlank(s + [x] + [',']);
  }

  /**
   * `_split_title("a, b, c")` before the width test, for any ordinary letters
   * a, b, c: each line ends with the comma, and the space after a comma opens
   * no line of its own.
   */
  lemma DelimitedExample(a: char, b: char, c: char)
    requires Ordinary(a) && Ordinary(b) && Ordinary(c)
    ensures NonEmpty(DelimitedLines([a, ',', ' ', b, ',', ' ', c])) == [[a, ','], [b, ','], [c]]
  {
    var s0: string := [];
    assert DelimitedLines(s0) == [""];
    assert FirstDelimiter(s0) == None;
    AppendClause(s0, a);
    var s1 := s0 + [a] + [','] + [' '];
    assert DelimitedLines(s1) == [[a, ','], ""];
    AppendClause(s1, b);
    var s2 := s1 + [b] + [','] + [' '];
    assert DelimitedLines(s2) == [[a, ','], [b, ','], ""];
    AppendOrdinary(s2, c);
    var s3 := s2 + [c];
    var l2: seq<string> := [[a, ','], [b, ','], ""];
    assert l2[..2] == [[a, ','], [b, ',']];
    assert l2[2] + [c] == [c];
    assert l2[..2] + [l2[2] + [c]] == [[a, ','], [b, ','], [c]];
    assert DelimitedLines(s3) == [[a, ','], [b, ','], [c]];
    assert s3 == [a, ',', ' ', b, ',', ' ', c];
    NonEmptyAllNonEmpty([[a, ','], [b, ','], [c]]);
  }
}
