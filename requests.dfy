/**
 * Two string helpers of the request path: the custom arguments a summoning
 * comment turns on (`process_message`), and the key under which a processed
 * request is remembered so that it is not served twice.
 */
module Requests {
  import opened Results
  import opened Text
  import opened Caption

  /** `x in body` for strings: `x` occurs somewhere in `s`, scanning from the left. */
  predicate Occurs(x: string, s: string)
  {
    x <= s || (s != [] && Occurs(x, s[1..]))
  }

  /** `x` occurs in `s` starting at index `i`. */
  predicate OccursAtIndex(x: string, s: string, i: int)
  {
    0 <= i <= |s| - |x| && s[i..i + |x|] == x
  }

  /** The scan finds `x` exactly when some slice of `s` equals it. */
  lemma {:induction false} OccursAt(x: string, s: string)
    ensures Occurs(x, s) <==> exists i :: OccursAtIndex(x, s, i)
  {
    if x <= s {
      assert OccursAtIndex(x, s, 0);
    } else if s != [] {
      OccursAt(x, s[1..]);
      OccursShift(x, s);
    }
  }

  /** Past a position where `x` does not start, `x` occurs in `s` exactly when it occurs in the rest. */
  lemma OccursShift(x: string, s: string)
    requires s != [] && !(x <= s)
    ensures (exists i :: OccursAtIndex(x, s, i)) <==> (exists i :: OccursAtIndex(x, s[1..], i))
  {
    if exists i :: OccursAtIndex(x, s, i) {
      var i :| OccursAtIndex(x, s, i);
      assert i != 0;
      assert s[1..][i - 1..i - 1 + |x|] == s[i..i + |x|];
      assert OccursAtIndex(x, s[1..], i - 1);
    }
    if exists i :: OccursAtIndex(x, s[1..], i) {
      var i :| OccursAtIndex(x, s[1..], i);
      assert s[1..][i..i + |x|] == s[i + 1..i + 1 + |x|];
      assert OccursAtIndex(x, s, i + 1);
    }
  }

  /** `any(x in body for x in triggers)` */
  predicate AnyOccurs(triggers: seq<string>, body: string)
  {
    exists i :: 0 <= i < |triggers| && Occurs(triggers[i], body)
  }

  const DarkTriggers: seq<string> := ["!dark", "!darkmode", "!black", "!d"]
  const CenterTriggers: seq<string> := ["!center", "!middle", "!c"]
  const AuthorTriggers: seq<string> := ["!author", "tagauthor", "tagauth", "!a"]

  /**
   * The custom arguments a comment body asks for, in the order the bot
   * appends them. `body` is the comment already lowercased, so `!D` or
   * `!DARK` in the comment asks for dark mode as well.
   */
  function TriggerArgs(body: string): (args: seq<string>)
    ensures "dark" in args <==> AnyOccurs(DarkTriggers, body)
    ensures "center" in args <==> AnyOccurs(CenterTriggers, body)
    ensures "tagauth" in args <==> AnyOccurs(AuthorTriggers, body)
  {
    (if AnyOccurs(DarkTriggers, body) then ["dark"] else [])
    + (if AnyOccurs(CenterTriggers, body) then ["center"] else [])
    + (if AnyOccurs(AuthorTriggers, body) then ["tagauth"] else [])
  }

  /**
   * `customargs` of a request: read from the lowercased comment body outside
   * the subreddits the bot serves automatically, and empty for those or for a
   * missing body.
   */
  function RequestArgs(automatic: bool, body: Option<string>): seq<string>
  {
    if !automatic && body.Some? then TriggerArgs(body.value) else []
  }

  /** The arguments a request reads are exactly the flags `add_title` then acts on. */
  lemma RequestOptions(automatic: bool, body: Option<string>)
    ensures var o := OptionsOf(Some(RequestArgs(automatic, body)));
      var asked := !automatic && body.Some?;
      o.dark == (asked && AnyOccurs(DarkTriggers, body.value))
      && o.center == (asked && AnyOccurs(CenterTriggers, body.value))
      && o.tagAuthor == (asked && AnyOccurs(AuthorTriggers, body.value))
  {
    if !automatic && body.Some? {
      var b := body.value;
      var d: seq<string> := if AnyOccurs(DarkTriggers, b) then ["dark"] else [];
      var c: seq<string> := if AnyOccurs(CenterTriggers, b) then ["center"] else [];
      var a: seq<string> := if AnyOccurs(AuthorTriggers, b) then ["tagauth"] else [];
      var args := d + c + a;
      assert args == TriggerArgs(b);
      assert "dark" in args <==> "dark" in d;
      assert "center" in args <==> "center" in c;
      assert "tagauth" in args <==> "tagauth" in a;
    }
  }

  /** Any word starting with `!d`, such as `!delete`, asks for dark mode, because `"!d"` is one of its triggers. */
  lemma ShortDarkTrigger(body: string, rest: string)
    requires body == "!d" + rest
    ensures "dark" in TriggerArgs(body)
  {
    assert "!d" <= body;
    assert DarkTriggers[3] == "!d";
  }

  /**
   * `submission.id + custom_title + ''.join(customargs)`, with an absent or
   * empty title or argument list adding nothing.
   */
  function DedupeKey(id: string, customTitle: Option<string>, customargs: Option<seq<string>>): string
  {
    id + RequestText(customTitle, customargs)
  }

  /** What a request adds to the submission id in its key: the title, then the arguments run together. */
  function RequestText(customTitle: Option<string>, customargs: Option<seq<string>>): string
  {
    (if customTitle.Some? then customTitle.value else "")
    + (if customargs.Some? then Concat(customargs.value) else "")
  }

  /**
   * Two requests on one submission share a key exactly when their titles and
   * arguments spell the same text once run together: the key cannot tell a
   * title from an argument, nor where one argument ends and the next begins.
   */
  lemma DedupeKeySameSubmission(id: string, title1: Option<string>, args1: Option<seq<string>>,
                                title2: Option<string>, args2: Option<seq<string>>)
    ensures DedupeKey(id, title1, args1) == DedupeKey(id, title2, args2)
      <==> RequestText(title1, args1) == RequestText(title2, args2)
  {
    var x := RequestText(title1, args1);
    var y := RequestText(title2, args2);
    if id + x == id + y {
      assert x == (id + x)[|id|..];
      assert y == (id + y)[|id|..];
    }
  }

  /** The key begins with the submission id and spells the title and every argument after it, in order. */
  lemma DedupeKeyParts(id: string, customTitle: Option<string>, customargs: Option<seq<string>>)
    ensures var key := DedupeKey(id, customTitle, customargs);
      id <= key
      && (customTitle.Some? ==> key[|id|..|id| + |customTitle.value|] == customTitle.value)
      && (customargs.Some? ==> key[|key| - |Concat(customargs.value)|..] == Concat(customargs.value))
  {
    var key := DedupeKey(id, customTitle, customargs);
    var t := if customTitle.Some? then customTitle.value else "";
    var a := if customargs.Some? then Concat(customargs.value) else "";
    assert key == id + t + a by {
      assert RequestText(customTitle, customargs) == t + a;
    }
    assert key[..|id|] == id;
    assert key[|id|..|id| + |t|] == t;
    assert key[|key| - |a|..] == a;
  }

  /**
   * Keys do not separate their parts: a request titled "dark" and a request
   * for dark mode on the same submission share one key, so whichever comes
   * second is taken as already served.
   */
  lemma DedupeKeyCollision(id: string, title: string, flag: string)
    requires title == "dark" && flag == "dark"
    ensures DedupeKey(id, Some(title), None) == DedupeKey(id, None, Some([flag]))
  {
    assert Concat([flag]) == Concat([]) + flag;
    DedupeKeySameSubmission(id, Some(title), None, None, Some([flag]));
  }
}
