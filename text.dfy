/**
 * The string primitives of Python 3 that the layout code relies on:
 * `str.isspace`, `str.split()` with no argument, `' '.join`, `str.strip`,
 * `''.join` and the `[l for l in lines if l]` filter.
 */
module Text {

  /** Python's `str.isspace` for one character; `re`'s `\s` on str patterns is the same set. */
  predicate IsSpace(c: char)
  {
    c == ' ' || ('\t' <= c <= '\r') || ('\U{1C}' <= c <= '\U{1F}') || c == '\U{85}' || c == '\U{A0}'
    || c == '\U{1680}' || ('\U{2000}' <= c <= '\U{200A}') || c == '\U{2028}' || c == '\U{2029}'
    || c == '\U{202F}' || c == '\U{205F}' || c == '\U{3000}'
  }

  predicate NoSpace(s: string)
  {
    forall i :: 0 <= i < |s| ==> !IsSpace(s[i])
  }

  predicate AllSpace(s: string)
  {
    forall i :: 0 <= i < |s| ==> IsSpace(s[i])
  }

  /** A word as `str.split()` produces it: non-empty and free of whitespace. */
  predicate IsWord(w: string)
  {
    |w| > 0 && NoSpace(w)
  }

  predicate AllWords(ws: seq<string>)
  {
    forall i :: 0 <= i < |ws| ==> IsWord(ws[i])
  }

  /** Length of the run of non-whitespace characters at the start of `s`. */
  function WordLength(s: string): (n: nat)
    ensures n <= |s| && NoSpace(s[..n])
    ensures n < |s| ==> IsSpace(s[n])
  {
    if s == [] || IsSpace(s[0]) then 0
    else
      var k := WordLength(s[1..]);
      assert s[..k + 1] == [s[0]] + s[1..][..k];
      k + 1
  }

  /** `s.split()`: the maximal runs of non-whitespace characters, in order. */
  function Words(s: string): (ws: seq<string>)
    ensures AllWords(ws)
    decreases |s|
  {
    if s == [] then []
    else if IsSpace(s[0]) then Words(s[1..])
    else
      var k := WordLength(s);
      [s[..k]] + Words(s[k..])
  }

  /** `s.split()` yields no words exactly when `s` is all whitespace. */
  lemma {:induction false} WordsNone(s: string)
    ensures Words(s) == [] <==> AllSpace(s)
    decreases |s|
  {
    if s != [] && IsSpace(s[0]) {
      WordsNone(s[1..]);
      assert AllSpace(s) <==> AllSpace(s[1..]) by {
        if AllSpace(s[1..]) {
          forall i | 0 <= i < |s| ensures IsSpace(s[i]) { if i > 0 { assert s[i] == s[1..][i - 1]; } }
        }
      }
    }
  }

  /** `' '.join(ws)`, defined from the right end so that appending a word is one step. */
  function Join(ws: seq<string>): string
  {
    if ws == [] then ""
    else if |ws| == 1 then ws[0]
    else Join(ws[..|ws| - 1]) + " " + ws[|ws| - 1]
  }

  /** `''.join(ss)` */
  function Concat(ss: seq<string>): string
  {
    if ss == [] then "" else Concat(ss[..|ss| - 1]) + ss[|ss| - 1]
  }

  /** `[l for l in lines if l]` */
  function NonEmpty(lines: seq<string>): (r: seq<string>)
    ensures forall i :: 0 <= i < |r| ==> r[i] != ""
    ensures forall l :: l in r <==> l in lines && l != ""
    ensures |r| <= |lines|
  {
    if lines == [] then []
    else if lines[|lines| - 1] == "" then NonEmpty(lines[..|lines| - 1])
    else NonEmpty(lines[..|lines| - 1]) + [lines[|lines| - 1]]
  }

  /** The filter keeps a single line exactly when it is non-empty. */
  lemma NonEmptySingle(l: string)
    ensures NonEmpty([l]) == if l == "" then [] else [l]
  {
    assert [l][..0] == [];
  }

  /** The filter works line by line: it keeps the order and every non-empty copy. */
  lemma {:induction false} NonEmptyAppend(a: seq<string>, b: seq<string>)
    ensures NonEmpty(a + b) == NonEmpty(a) + NonEmpty(b)
    decreases |b|
  {
    if b == [] {
      assert a + b == a;
    } else {
      var init := b[..|b| - 1];
      assert (a + b)[..|a + b| - 1] == a + init;
      assert (a + b)[|a + b| - 1] == b[|b| - 1];
      NonEmptyAppend(a, init);
    }
  }

  function TrimLeft(s: string): string
  {
    if s != [] && IsSpace(s[0]) then TrimLeft(s[1..]) else s
  }

  function TrimRight(s: string): string
  {
    if s != [] && IsSpace(s[|s| - 1]) then TrimRight(s[..|s| - 1]) else s
  }

  /** `s.strip()` */
  function Trim(s: string): string
  {
    TrimRight(TrimLeft(s))
  }

  /** Joining words that contain no space and are not empty starts and ends with a non-space character. */
  lemma {:induction false} JoinEnds(ws: seq<string>)
    requires AllWords(ws) && ws != []
    ensures |Join(ws)| > 0
    ensures Join(ws)[0] == ws[0][0] && !IsSpace(Join(ws)[0])
    ensures !IsSpace(Join(ws)[|Join(ws)| - 1])
  {
    var last := ws[|ws| - 1];
    assert IsWord(last);
    assert !IsSpace(last[|last| - 1]);
    if |ws| > 1 {
      JoinEnds(ws[..|ws| - 1]);
      assert IsWord(ws[0]);
    }
  }

  /** `Join` of words is empty exactly when there are no words. */
  lemma JoinEmpty(ws: seq<string>)
    requires AllWords(ws)
    ensures Join(ws) == "" <==> ws == []
  {
    if ws != [] { JoinEnds(ws); }
  }

  /** `Words` undoes `Join`: splitting words joined with single spaces gives them back. */
  lemma {:induction false} WordsOfJoin(ws: seq<string>)
    requires AllWords(ws)
    ensures Words(Join(ws)) == ws
  {
    if ws == [] {
    } else if |ws| == 1 {
      WordsOfWord(ws[0]);
    } else {
      var init := ws[..|ws| - 1];
      var last := ws[|ws| - 1];
      var x := Join(init);
      assert Join(ws) == x + " " + last;
      assert Words(x) == init by { WordsOfJoin(init); }
      assert Words(x + " " + last) == init + [last] by {
        WordsAppend(x, last);
      }
      assert init + [last] == ws;
    }
  }

  lemma {:induction false} WordsOfWord(w: string)
    requires IsWord(w)
    ensures Words(w) == [w]
  {
    WordLengthAll(w);
    assert w[..|w|] == w;
    assert w[|w|..] == [];
  }

  lemma {:induction false} WordLengthAll(s: string)
    requires NoSpace(s)
    ensures WordLength(s) == |s|
    decreases |s|
  {
    if s != [] {
      assert NoSpace(s[1..]) by { forall i | 0 <= i < |s[1..]| ensures !IsSpace(s[1..][i]) { assert s[1..][i] == s[i + 1]; } }
      WordLengthAll(s[1..]);
    }
  }

  /** Appending a space and a word to any text appends that word to its words. */
  lemma {:induction false} WordsAppend(s: string, w: string)
    requires IsWord(w)
    ensures Words(s + " " + w) == Words(s) + [w]
    decreases |s|, 1
  {
    if s == [] {
      assert s + " " + w == " " + w;
      WordsAfterSpace(w);
    } else if IsSpace(s[0]) {
      WordsAppendSpace(s, w);
    } else {
      WordsAppendWord(s, w);
    }
  }

  /** `WordsAppend` when `s` starts with a space: the space is skipped on both sides. */
  lemma {:induction false} WordsAppendSpace(s: string, w: string)
    requires |s| > 0 && IsWord(w) && IsSpace(s[0])
    ensures Words(s + " " + w) == Words(s) + [w]
    decreases |s|, 0
  {
    WordsAppend(s[1..], w);
    WordsSkipSpace(s, w);
  }

  /** `WordsAppend` when `s` starts with a word: that word leads both lists. */
  lemma {:induction false} WordsAppendWord(s: string, w: string)
    requires |s| > 0 && IsWord(w) && !IsSpace(s[0])
    ensures Words(s + " " + w) == Words(s) + [w]
    decreases |s|, 0
  {
    var t := s + " " + w;
    var k := WordLength(s);
    var first := s[..k];
    var rest := Words(s[k..]);
    var after := Words(t[k..]);
    assert Words(t) == [first] + after && Words(s) == [first] + rest by {
      WordsFirstWord(s, w);
    }
    assert after == rest + [w] by {
      if k < |s| {
        assert t[k..] == s[k..] + " " + w;
        WordsAppend(s[k..], w);
      } else {
        WordsFirstWord(s, w);
      }
    }
    ConsSnoc(first, rest, w);
  }

  /** Putting a word in front commutes with putting one at the back. */
  lemma ConsSnoc(first: string, rest: seq<string>, w: string)
    ensures [first] + (rest + [w]) == [first] + rest + [w]
  {
  }

  /** A leading space adds no word, with or without the appended word. */
  lemma WordsSkipSpace(s: string, w: string)
    requires |s| > 0 && IsSpace(s[0])
    ensures Words(s + " " + w) == Words(s[1..] + " " + w) && Words(s) == Words(s[1..])
  {
    var t := s + " " + w;
    assert t[0] == s[0];
    assert t[1..] == s[1..] + " " + w;
  }

  /** The first word of `s` stays the first word once a space and a word follow it. */
  lemma WordsFirstWord(s: string, w: string)
    requires |s| > 0 && !IsSpace(s[0]) && IsWord(w)
    ensures var k := WordLength(s);
      var t := s + " " + w;
      Words(t) == [s[..k]] + Words(t[k..]) && Words(s) == [s[..k]] + Words(s[k..])
      && (k == |s| ==> Words(t[k..]) == [w] && Words(s[k..]) == [])
  {
    var t := s + " " + w;
    var k := WordLength(s);
    assert t == s + (" " + w);
    WordLengthPrefix(s, " " + w);
    assert t[0] == s[0] && t[..k] == s[..k];
    if k == |s| {
      assert t[k..] == " " + w;
      assert s[k..] == [];
      WordsAfterSpace(w);
    }
  }

  /** A space and then a word is that word alone. */
  lemma WordsAfterSpace(w: string)
    requires IsWord(w)
    ensures Words(" " + w) == [w]
  {
    assert (" " + w)[1..] == w;
    WordsOfWord(w);
  }

  /** The scan of the first word of `s` does not look past the first space after `s`. */
  lemma {:induction false} WordLengthPrefix(s: string, rest: string)
    requires |rest| > 0 && IsSpace(rest[0])
    ensures WordLength(s + rest) == WordLength(s)
    decreases |s|
  {
    if s != [] && !IsSpace(s[0]) {
      assert (s + rest)[1..] == s[1..] + rest;
      WordLengthPrefix(s[1..], rest);
    }
  }

  /**
   * The wrap loop's undo step: cutting the last word off the joined line and
   * stripping the result gives the line as it was before the word was added.
   */
  lemma TrimDropsLastWord(ws: seq<string>, w: string)
    requires AllWords(ws) && IsWord(w)
    ensures var j := Join(ws + [w]);
      |w| <= |j| && Trim(j[..|j| - |w|]) == Join(ws)
  {
    var j := Join(ws + [w]);
    assert (ws + [w])[..|ws|] == ws;
    if ws == [] {
      assert j == w;
      assert j[..0] == "";
    } else {
      var x := Join(ws);
      JoinEnds(ws);
      assert j == x + " " + w;
      assert j[..|j| - |w|] == x + " ";
      assert TrimLeft(x + " ") == x + " ";
      assert (x + " ")[..|x|] == x;
      assert TrimRight(x + " ") == TrimRight(x);
    }
  }
}
