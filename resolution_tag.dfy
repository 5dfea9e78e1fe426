/**
 * Removal of a resolution tag such as " [1920 x 1080]" from a title: Python's
 * `re.sub('', title)` with the fixed pattern `\s?\[[0-9]+\s?[xX*×]\s?[0-9]+\]`.
 *
 * `TagLength` is the regular-expression engine at one position, `StripTags` the
 * left-to-right substitution loop. `IsTag` is the pattern written as a plain
 * predicate on a whole string; `TagLengthExact` proves the two agree, and the
 * `Strip...` lemmas show that `StripTags` removes exactly the leftmost
 * non-overlapping matches.
 */
module ResolutionTag {
  import opened Text

  predicate IsDigit(c: char) { '0' <= c <= '9' }

  /** The character class `[xX*×]`. */
  predicate IsTimes(c: char) { c == 'x' || c == 'X' || c == '*' || c == '\U{D7}' }

  predicate AllDigits(s: string)
  {
    forall k :: 0 <= k < |s| ==> IsDigit(s[k])
  }

  /** `[0-9]+` */
  predicate IsNumber(s: string) { |s| > 0 && AllDigits(s) }

  /** `[xX*×]\s?[0-9]+` */
  predicate IsTimesNumber(v: string)
  {
    |v| > 0 && IsTimes(v[0]) && ((|v| > 1 && IsSpace(v[1]) && IsNumber(v[2..])) || IsNumber(v[1..]))
  }

  /** `\s?[xX*×]\s?[0-9]+` */
  predicate IsSeparatorNumber(v: string)
  {
    (|v| > 0 && IsSpace(v[0]) && IsTimesNumber(v[1..])) || IsTimesNumber(v)
  }

  /** `[0-9]+\s?[xX*×]\s?[0-9]+` */
  predicate IsDimensions(u: string)
  {
    exists i :: 0 < i < |u| && IsNumber(u[..i]) && IsSeparatorNumber(u[i..])
  }

  /** `\[[0-9]+\s?[xX*×]\s?[0-9]+\]` */
  predicate IsBracketTag(t: string)
  {
    |t| >= 2 && t[0] == '[' && t[|t| - 1] == ']' && IsDimensions(t[1..|t| - 1])
  }

  /** The whole pattern, as a property of the matched text. */
  predicate IsTag(t: string)
  {
    (|t| > 0 && IsSpace(t[0]) && IsBracketTag(t[1..])) || IsBracketTag(t)
  }

  /** Length of the run of digits at the start of `s` (greedy `[0-9]*`). */
  function DigitRun(s: string): (n: nat)
    ensures n <= |s|
  {
    if s != [] && IsDigit(s[0]) then 1 + DigitRun(s[1..]) else 0
  }

  /** Match length of `[xX*×]\s?[0-9]+` at the start of `v`, 0 for none. */
  function TimesNumberLength(v: string): (n: nat)
    ensures n <= |v|
  {
    if v == [] || !IsTimes(v[0]) then 0
    else
      var o := if |v| > 1 && IsSpace(v[1]) then 2 else 1;
      var d := DigitRun(v[o..]);
      if d == 0 then 0 else o + d
  }

  /** Match length of `\s?[xX*×]\s?[0-9]+` at the start of `v`, 0 for none. */
  function SeparatorNumberLength(v: string): (n: nat)
    ensures n <= |v|
  {
    if v != [] && IsSpace(v[0]) then
      var k := TimesNumberLength(v[1..]);
      if k == 0 then 0 else 1 + k
    else TimesNumberLength(v)
  }

  /** Match length of `[0-9]+\s?[xX*×]\s?[0-9]+` at the start of `u`, 0 for none. */
  function DimensionsLength(u: string): (n: nat)
    ensures n <= |u|
  {
    var a := DigitRun(u);
    if a == 0 then 0
    else
      var k := SeparatorNumberLength(u[a..]);
      if k == 0 then 0 else a + k
  }

  /** Match length of `\[[0-9]+\s?[xX*×]\s?[0-9]+\]` at the start of `s`, 0 for none. */
  function BracketTagLength(s: string): (n: nat)
    ensures n <= |s|
  {
    if s == [] || s[0] != '[' then 0
    else
      var d := DimensionsLength(s[1..]);
      if d > 0 && 1 + d < |s| && s[1 + d] == ']' then d + 2 else 0
  }

  /** Match length of the whole pattern at the start of `s`, 0 for none. */
  function TagLength(s: string): (n: nat)
    ensures n <= |s|
  {
    if s != [] && IsSpace(s[0]) && BracketTagLength(s[1..]) > 0 then 1 + BracketTagLength(s[1..])
    else BracketTagLength(s)
  }

  /** `regex_resolution.sub('', s)`: scan left to right, drop each match, keep every other character. */
  function StripTags(s: string): (r: string)
    ensures |r| <= |s|
    decreases |s|
  {
    if s == [] then []
    else
      var n := TagLength(s);
      if n == 0 then [s[0]] + StripTags(s[1..]) else StripTags(s[n..])
  }

  /** `a` can be obtained from `b` by deleting characters. */
  predicate IsSubsequence(a: string, b: string)
    decreases |b|
  {
    a == [] || (b != [] && ((a[0] == b[0] && IsSubsequence(a[1..], b[1..])) || IsSubsequence(a, b[1..])))
  }

  /** `n` ends a match of a sub-pattern when no digit follows it (all sub-patterns end in `[0-9]+`). */
  predicate EndsRun(v: string, n: nat)
    requires n <= |v|
  {
    n == |v| || !IsDigit(v[n])
  }

  lemma {:induction false} DigitRunExact(v: string, n: nat)
    requires n <= |v| && AllDigits(v[..n]) && EndsRun(v, n)
    ensures DigitRun(v) == n
    decreases n
  {
    if n > 0 {
      assert v[0] == v[..n][0];
      assert v[1..][..n - 1] == v[..n][1..];
      DigitRunExact(v[1..], n - 1);
    }
  }

  lemma {:induction false} DigitRunSound(v: string)
    ensures AllDigits(v[..DigitRun(v)]) && EndsRun(v, DigitRun(v))
    decreases |v|
  {
    if v != [] && IsDigit(v[0]) {
      DigitRunSound(v[1..]);
      var n := DigitRun(v);
      forall k | 0 <= k < n ensures IsDigit(v[..n][k]) {
        if k > 0 { assert v[..n][k] == v[1..][..n - 1][k - 1]; }
      }
    }
  }

  lemma TimesNumberExact(v: string, n: nat)
    requires n <= |v| && IsTimesNumber(v[..n]) && EndsRun(v, n)
    ensures TimesNumberLength(v) == n
  {
    var w := v[..n];
    var o := if |w| > 1 && IsSpace(w[1]) then 2 else 1;
    assert w[o..] == v[o..][..n - o];
    assert EndsRun(v[o..], n - o) by { assert n < |v| ==> v[o..][n - o] == v[n]; }
    DigitRunExact(v[o..], n - o);
  }

  lemma TimesNumberSound(v: string)
    requires TimesNumberLength(v) > 0
    ensures IsTimesNumber(v[..TimesNumberLength(v)]) && EndsRun(v, TimesNumberLength(v))
  {
    var n := TimesNumberLength(v);
    var o := if |v| > 1 && IsSpace(v[1]) then 2 else 1;
    DigitRunSound(v[o..]);
    assert v[..n][o..] == v[o..][..n - o];
    assert n < |v| ==> v[o..][n - o] == v[n];
  }

  lemma SeparatorNumberExact(v: string, n: nat)
    requires n <= |v| && IsSeparatorNumber(v[..n]) && EndsRun(v, n)
    ensures SeparatorNumberLength(v) == n
  {
    var w := v[..n];
    if IsSpace(v[0]) {
      assert w[1..] == v[1..][..n - 1];
      assert n < |v| ==> v[1..][n - 1] == v[n];
      TimesNumberExact(v[1..], n - 1);
    } else {
      TimesNumberExact(v, n);
    }
  }

  lemma SeparatorNumberSound(v: string)
    requires SeparatorNumberLength(v) > 0
    ensures IsSeparatorNumber(v[..SeparatorNumberLength(v)]) && EndsRun(v, SeparatorNumberLength(v))
  {
    var n := SeparatorNumberLength(v);
    if IsSpace(v[0]) {
      TimesNumberSound(v[1..]);
      assert v[..n][1..] == v[1..][..n - 1];
      assert n < |v| ==> v[1..][n - 1] == v[n];
    } else {
      TimesNumberSound(v);
    }
  }

  /** A separator begins with whitespace or a times sign, never with a digit. */
  lemma SeparatorNumberStart(v: string)
    requires IsSeparatorNumber(v)
    ensures |v| > 0 && !IsDigit(v[0])
  {
    if IsSpace(v[0]) { assert IsTimesNumber(v[1..]); } else { assert IsTimes(v[0]); }
  }

  lemma DimensionsExact(u: string, n: nat)
    requires n <= |u| && IsDimensions(u[..n]) && EndsRun(u, n)
    ensures DimensionsLength(u) == n
  {
    var i :| 0 < i < n && IsNumber(u[..n][..i]) && IsSeparatorNumber(u[..n][i..]);
    DimensionsNumberPart(u, n, i);
    DimensionsSeparatorPart(u, n, i);
  }

  /** The number before the separator is the greedy run of digits. */
  lemma DimensionsNumberPart(u: string, n: nat, i: nat)
    requires 0 < i < n <= |u| && IsNumber(u[..n][..i]) && IsSeparatorNumber(u[..n][i..])
    ensures DigitRun(u) == i
  {
    var w := u[..n];
    assert w[..i] == u[..i];
    SeparatorNumberStart(w[i..]);
    assert u[i] == w[i..][0];
    DigitRunExact(u, i);
  }

  /** The separator and second number after it are the longest match there. */
  lemma DimensionsSeparatorPart(u: string, n: nat, i: nat)
    requires 0 < i < n <= |u| && IsSeparatorNumber(u[..n][i..]) && EndsRun(u, n)
    ensures SeparatorNumberLength(u[i..]) == n - i
  {
    var v := u[i..];
    assert v[..n - i] == u[..n][i..];
    assert EndsRun(v, n - i) by { assert n < |u| ==> v[n - i] == u[n]; }
    SeparatorNumberExact(v, n - i);
  }

  lemma DimensionsSound(u: string)
    requires DimensionsLength(u) > 0
    ensures IsDimensions(u[..DimensionsLength(u)]) && EndsRun(u, DimensionsLength(u))
  {
    var n := DimensionsLength(u);
    var a := DigitRun(u);
    DigitRunSound(u);
    SeparatorNumberSound(u[a..]);
    var w := u[..n];
    assert w[..a] == u[..a];
    assert w[a..] == u[a..][..n - a];
    assert n < |u| ==> u[a..][n - a] == u[n];
    assert IsNumber(w[..a]) && IsSeparatorNumber(w[a..]);
  }

  lemma BracketTagExact(s: string, n: nat)
    requires n <= |s| && IsBracketTag(s[..n])
    ensures BracketTagLength(s) == n
  {
    var t := s[..n];
    assert t[1..n - 1] == s[1..][..n - 2];
    assert s[1..][n - 2] == ']';
    DimensionsExact(s[1..], n - 2);
  }

  lemma BracketTagSound(s: string)
    requires BracketTagLength(s) > 0
    ensures IsBracketTag(s[..BracketTagLength(s)])
  {
    var d := DimensionsLength(s[1..]);
    assert s[0] == '[' && d > 0 && BracketTagLength(s) == d + 2 && s[1 + d] == ']';
    DimensionsSound(s[1..]);
    BracketOfDimensions(s, d);
  }

  /** Dimensions between `[` and `]` make a bracket tag. */
  lemma BracketOfDimensions(s: string, d: nat)
    requires d + 2 <= |s| && s[0] == '[' && s[d + 1] == ']' && IsDimensions(s[1..][..d])
    ensures IsBracketTag(s[..d + 2])
  {
    var t := s[..d + 2];
    assert t[1..|t| - 1] == s[1..][..d];
  }

  /** A match the engine reports is a tag. */
  lemma TagLengthSound(s: string)
    requires TagLength(s) > 0
    ensures IsTag(s[..TagLength(s)])
  {
    var n := TagLength(s);
    if s != [] && IsSpace(s[0]) && BracketTagLength(s[1..]) > 0 {
      assert n == 1 + BracketTagLength(s[1..]);
      BracketTagSound(s[1..]);
      assert s[..n][1..] == s[1..][..n - 1];
    } else {
      BracketTagSound(s);
    }
  }

  /** A tag at the start of `s` is the match the engine reports. */
  lemma TagLengthComplete(s: string, m: nat)
    requires 0 < m <= |s| && IsTag(s[..m])
    ensures m == TagLength(s)
  {
    if IsSpace(s[0]) {
      assert s[..m][1..] == s[1..][..m - 1];
      assert IsBracketTag(s[1..][..m - 1]);
      BracketTagExact(s[1..], m - 1);
    } else {
      assert IsBracketTag(s[..m]);
      BracketTagExact(s, m);
    }
  }

  /**
   * The engine and the pattern agree: `TagLength(s)` is positive exactly when
   * some prefix of `s` is a tag, and then that prefix is the only one.
   */
  lemma TagLengthExact(s: string)
    ensures TagLength(s) > 0 ==> IsTag(s[..TagLength(s)])
    ensures forall n :: 0 < n <= |s| && IsTag(s[..n]) ==> n == TagLength(s)
  {
    if TagLength(s) > 0 { TagLengthSound(s); }
    forall m | 0 < m <= |s| && IsTag(s[..m]) ensures m == TagLength(s) {
      TagLengthComplete(s, m);
    }
  }

  /** A tag at the front of the text is dropped as a whole. */
  lemma StripSkipsTag(s: string, n: nat)
    requires 0 < n <= |s| && IsTag(s[..n])
    ensures StripTags(s) == StripTags(s[n..])
  {
    TagLengthExact(s);
  }

  /** A character where no tag begins is kept. */
  lemma StripKeepsNonTag(s: string)
    requires |s| > 0 && forall n :: 0 < n <= |s| ==> !IsTag(s[..n])
    ensures StripTags(s) == [s[0]] + StripTags(s[1..])
  {
    TagLengthExact(s);
  }

  lemma {:induction false} SubsequenceDrop(a: string, b: string, k: nat)
    requires k <= |b| && IsSubsequence(a, b[k..])
    ensures IsSubsequence(a, b)
    decreases k
  {
    if k > 0 {
      assert b[1..][k - 1..] == b[k..];
      SubsequenceDrop(a, b[1..], k - 1);
    }
  }

  lemma {:induction false} SubsequenceLength(a: string, b: string)
    requires IsSubsequence(a, b)
    ensures |a| <= |b|
    decreases |b|
  {
    if a != [] {
      if a[0] == b[0] && IsSubsequence(a[1..], b[1..]) { SubsequenceLength(a[1..], b[1..]); } else { SubsequenceLength(a, b[1..]); }
    }
  }

  /** Stripping only deletes characters, so the result is never longer than the title. */
  lemma {:induction false} StripIsSubsequence(s: string)
    ensures IsSubsequence(StripTags(s), s)
    ensures |StripTags(s)| <= |s|
    decreases |s|
  {
    if s != [] {
      var n := TagLength(s);
      if n == 0 {
        StripIsSubsequence(s[1..]);
        assert ([s[0]] + StripTags(s[1..]))[1..] == StripTags(s[1..]);
      } else {
        StripIsSubsequence(s[n..]);
        SubsequenceDrop(StripTags(s[n..]), s, n);
      }
    }
    SubsequenceLength(StripTags(s), s);
  }

  /** A title without `[` has no tag and is left as it is. */
  lemma {:induction false} StripNoBracket(s: string)
    requires '[' !in s
    ensures StripTags(s) == s
    decreases |s|
  {
    if s != [] {
      assert TagLength(s) == 0 by {
        assert |s| > 1 ==> s[1] == s[1..][0];
      }
      StripNoBracket(s[1..]);
    }
  }

  /** No match starts at a character that is not `[` unless it is a space followed by `[`. */
  lemma NoTagAt(s: string)
    requires s != [] && s[0] != '[' && (IsSpace(s[0]) && |s| > 1 ==> s[1] != '[')
    ensures TagLength(s) == 0
  {
    assert BracketTagLength(s) == 0;
    if |s| > 1 { assert s[1..][0] == s[1]; }
  }

  /** Text without `[` before a tag is copied through unchanged. */
  lemma {:induction false} StripPrefix(p: string, q: string)
    requires '[' !in p && (p != [] ==> !IsSpace(p[|p| - 1]))
    ensures StripTags(p + q) == p + StripTags(q)
    decreases |p|
  {
    if p == [] {
      assert p + q == q;
    } else {
      StripKeepsPrefixHead(p, q);
      assert '[' !in p[1..] by { assert forall c :: c in p[1..] ==> c in p; }
      StripPrefix(p[1..], q);
      ConsAppend(p, StripTags(q));
    }
  }

  lemma ConsAppend(p: string, r: string)
    requires p != []
    ensures [p[0]] + (p[1..] + r) == p + r
  {
    assert [p[0]] + p[1..] == p;
  }

  /** The first character of such a prefix starts no tag and is kept. */
  lemma StripKeepsPrefixHead(p: string, q: string)
    requires p != [] && '[' !in p && !IsSpace(p[|p| - 1])
    ensures StripTags(p + q) == [p[0]] + StripTags(p[1..] + q)
  {
    var s := p + q;
    assert s[0] == p[0];
    assert |p| > 1 ==> s[1] == p[1];
    NoTagAt(s);
    assert s[1..] == p[1..] + q;
  }

  lemma FourDigits(s: string)
    requires |s| == 4 && IsDigit(s[0]) && IsDigit(s[1]) && IsDigit(s[2]) && IsDigit(s[3])
    ensures IsNumber(s)
  {
    forall k | 0 <= k < |s| ensures IsDigit(s[k]) {
      assert k == 0 || k == 1 || k == 2 || k == 3;
    }
  }

  lemma DimensionsExample()
    ensures IsDimensions("1920x1080")
  {
    FourDigits("1080");
    FourDigits("1920");
    var u := "1920x1080";
    assert u[..4] == "1920" && u[4..] == "x1080";
    assert IsTimesNumber("x1080") by { assert "x1080"[1..] == "1080"; }
  }

  lemma BracketAround(u: string, t: string)
    requires IsDimensions(u) && t == [' ', '['] + u + [']']
    ensures IsTag(t)
  {
    var b := t[1..];
    assert b == ['['] + u + [']'];
    assert b[1..|b| - 1] == u;
    assert IsBracketTag(b);
  }

  lemma TagLiteral(tag: string)
    requires tag == " [1920x1080]"
    ensures tag == [' ', '['] + "1920x1080" + [']']
  {
  }

  lemma TagExample(tag: string)
    requires tag == [' ', '['] + "1920x1080" + [']']
    ensures IsTag(tag)
  {
    DimensionsExample();
    BracketAround("1920x1080", tag);
  }

  /** The example from the source's comment: the trailing tag goes, the rest stays. */
  lemma StripExample(s: string, plain: string)
    requires s == "Cute Cat [1920x1080]" && plain == "Cute Cat"
    ensures StripTags(s) == plain
  {
    var tag := " [1920x1080]";
    assert s == plain + tag;
    assert '[' !in plain && !IsSpace(plain[|plain| - 1]);
    StripPrefix(plain, tag);
    TagLiteral(tag);
    TagExample(tag);
    StripWholeTag(tag);
  }

  /** A `[` followed by digits and then another `[` starts no match. */
  lemma NoTagBeforeBracket(s: string)
    requires |s| > 2 && s[0] == '[' && IsDigit(s[1]) && s[2] == '['
    ensures TagLength(s) == 0
  {
    var u := s[1..];
    assert u[0] == s[1] && u[1] == s[2];
    assert DigitRun(u[1..]) == 0;
    assert DigitRun(u) == 1;
    assert u[1..][0] == '[';
    assert SeparatorNumberLength(u[1..]) == 0;
  }

  lemma StripKeepsFirst(s: string)
    requires s != [] && TagLength(s) == 0
    ensures StripTags(s) == [s[0]] + StripTags(s[1..])
  {
  }

  lemma StripDropsTagBefore(inner: string, rest: string)
    requires IsTag(inner) && '[' !in rest
    ensures StripTags(inner + rest) == rest
  {
    assert (inner + rest)[..|inner|] == inner;
    StripSkipsTag(inner + rest, |inner|);
    assert (inner + rest)[|inner|..] == rest;
    StripNoBracket(rest);
  }

  lemma StripKeepsOpenBracket(s: string, t: string)
    requires |t| > 1 && IsDigit(t[0]) && t[1] == '[' && s == ['['] + t
    ensures StripTags(s) == ['['] + StripTags(t)
  {
    assert s[1] == t[0] && s[2] == t[1];
    NoTagBeforeBracket(s);
    StripKeepsFirst(s);
    assert s[1..] == t;
  }

  lemma StripKeepsDigit(t: string, u: string)
    requires t == ['1'] + u
    ensures StripTags(t) == ['1'] + StripTags(u)
  {
    NoTagAt(t);
    StripKeepsFirst(t);
    assert t[1..] == u;
  }

  lemma StripKeepsBracketDigit(s: string, t: string, u: string)
    requires s == ['['] + t && t == ['1'] + u && |u| > 0 && u[0] == '['
    ensures StripTags(s) == ['[', '1'] + StripTags(u)
  {
    StripKeepsOpenBracket(s, t);
    StripKeepsDigit(t, u);
  }

  lemma StripAroundInnerTag(s: string, inner: string, rest: string)
    requires |inner| > 0 && inner[0] == '[' && IsTag(inner) && '[' !in rest
    requires s == ['[', '1'] + inner + rest
    ensures StripTags(s) == ['[', '1'] + rest
  {
    var u := inner + rest;
    assert s == ['['] + (['1'] + u);
    StripKeepsBracketDigit(s, ['1'] + u, u);
    StripDropsTagBefore(inner, rest);
  }

  lemma BracketOnly(u: string, t: string)
    requires IsDimensions(u) && t == ['['] + u + [']']
    ensures IsTag(t)
  {
    assert t[1..|t| - 1] == u;
  }

  lemma SmallDimensions(u: string, a: char, b: char)
    requires IsDigit(a) && IsDigit(b) && u == [a, 'x', b]
    ensures IsDimensions(u)
  {
    assert u[..1] == [a] && u[1..] == ['x', b];
    assert IsNumber([a]) && IsNumber([b]);
    assert ['x', b][1..] == [b];
  }

  lemma IdempotenceLiterals(s: string, once: string)
    requires s == "[1[2x3]x4]" && once == "[1x4]"
    ensures s == ['[', '1'] + ['[', '2', 'x', '3', ']'] + ['x', '4', ']']
    ensures once == ['['] + ['1', 'x', '4'] + [']']
    ensures once == ['[', '1'] + ['x', '4', ']']
  {
  }

  lemma StripWholeTag(t: string)
    requires IsTag(t)
    ensures StripTags(t) == ""
  {
    assert t[..|t|] == t;
    StripSkipsTag(t, |t|);
    assert t[|t|..] == [];
  }

  /**
   * Stripping is not idempotent: removing the inner tag of "[1[2x3]x4]"
   * joins its neighbours into a new tag, which a second pass removes.
   */
  lemma StripNotIdempotent(s: string, once: string)
    requires s == "[1[2x3]x4]" && once == "[1x4]"
    ensures StripTags(s) == once
    ensures StripTags(once) == ""
  {
    IdempotenceLiterals(s, once);
    var inner := ['[', '2', 'x', '3', ']'];
    SmallDimensions(['2', 'x', '3'], '2', '3');
    BracketOnly(['2', 'x', '3'], inner);
    StripAroundInnerTag(s, inner, ['x', '4', ']']);
    SmallDimensions(['1', 'x', '4'], '1', '4');
    BracketOnly(['1', 'x', '4'], once);
    StripWholeTag(once);
  }
}
