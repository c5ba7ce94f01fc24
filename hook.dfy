/**
 * Reading the anchor out of the location hash and parsing it into an
 * action and a value around the hook (the separator token).
 */
module Hook {
  import opened Wrappers
  import opened JsString

  /** The hook a router uses: the argument, or ":" when it is falsy (undefined or ""). */
  function HookOrDefault(arg: Option<string>): (hook: string)
    ensures hook != ""
    ensures arg.Some? && arg.value != "" ==> hook == arg.value
    ensures arg.None? || arg.value == "" ==> hook == ":"
  {
    if arg.Some? && arg.value != "" then arg.value else ":"
  }

  /** Characters that make a string mean something else as a regular expression. */
  const RegexMeta: string := "\\^$.|?*+()[]{}"

  /** `hook` matches, as a regular expression, exactly its own literal text. */
  predicate IsLiteralPattern(hook: string) {
    forall i :: 0 <= i < |hook| ==> hook[i] !in RegexMeta
  }

  /** What the browser reports as `location.hash`: empty, or `#` followed by the fragment. */
  predicate IsLocationHash(hash: string) {
    hash == "" || hash[0] == '#'
  }

  /**
   * `getAnchor`: empty for an empty hash, otherwise the text after the first
   * `#` up to the next `#`; undefined when a non-empty hash holds no `#`.
   */
  function GetAnchor(hash: string): (anchor: Option<string>)
    ensures hash == "" ==> anchor == Some("")
    ensures anchor.None? <==> hash != "" && '#' !in hash
    ensures IsLocationHash(hash) ==> anchor.Some?
    ensures anchor.Some? ==> '#' !in anchor.value
  {
    if hash == "" then Some("")
    else
      var parts := Split(hash, "#");
      ContainsChar(hash, '#');
      if |parts| > 1 then
        ContainsChar(parts[1], '#');
        Some(parts[1])
      else None
  }

  /**
   * The location hash after `setAnchor(anchor)` assigns `location.hash`: a
   * falsy anchor clears it; otherwise one leading `#` of the anchor is dropped
   * and the remaining fragment is reported behind a `#`, an empty fragment as "".
   */
  function HashAfterSet(anchor: string): (hash: string)
    ensures IsLocationHash(hash)
    ensures anchor == "" ==> hash == ""
    ensures '#' !in anchor && anchor != "" ==> hash == "#" + anchor
  {
    var fragment := if anchor != "" && anchor[0] == '#' then anchor[1..] else anchor;
    if fragment == "" then "" else "#" + fragment
  }

  /** The result of `parse`: the action and the value, each possibly undefined. */
  datatype Parsed = Parsed(action: Option<string>, value: Option<string>)

  /**
   * `parse`: when the hook occurs in the anchor, the action is the first piece
   * of the anchor split at every hook and the value the second piece.
   */
  function Parse(anchor: string, hook: string): (r: Parsed)
    requires hook != ""
    ensures r.action.Some? <==> Contains(anchor, hook)
    ensures r.value.Some? <==> Contains(anchor, hook)
    ensures r.action.Some? ==> !Contains(r.action.value, hook) && !Contains(r.value.value, hook)
    ensures r.action.Some? ==> r.action.value + hook + r.value.value <= anchor
  {
    if Contains(anchor, hook) then
      var parts := Split(anchor, hook);
      JoinFront(parts, hook);
      Parsed(Some(parts[0]), Some(parts[1]))
    else
      Parsed(None, None)
  }

  /** No occurrence of `hook` starts inside `x`, not even one running on into a following hook. */
  predicate HookFree(x: string, hook: string)
    requires hook != ""
  {
    !Contains(x + hook[..|hook| - 1], hook)
  }

  /** For a one-character hook, being hook-free is not containing that character. */
  lemma HookFreeChar(x: string, c: char)
    ensures HookFree(x, [c]) <==> c !in x
  {
    assert x + [c][..0] == x;
    ContainsChar(x, c);
  }

  /** After a hook-free prefix, the hook that follows is the first one. */
  lemma FirstHookAfter(x: string, hook: string, rest: string)
    requires hook != "" && HookFree(x, hook)
    ensures FirstAt(x + hook + rest, hook, |x|)
  {
    var s := x + hook + rest;
    var t := x + hook[..|hook| - 1];
    assert s[|x|..|x| + |hook|] == hook;
    assert t == s[..|t|];
    forall j | 0 <= j < |x|
      ensures !OccursAt(s, hook, j)
    {
      assert !OccursAt(t, hook, j);
      assert j + |hook| <= |t|;
      assert s[..|t|][j..j + |hook|] == s[j..j + |hook|];
    }
  }

  /** The action is the hook-free prefix; the value is the first piece of what follows the hook. */
  lemma ParseAfterFirstHook(x: string, hook: string, rest: string)
    requires hook != "" && HookFree(x, hook)
    ensures Parse(x + hook + rest, hook) == Parsed(Some(x), Some(Split(rest, hook)[0]))
  {
    var s := x + hook + rest;
    FirstHookAfter(x, hook, rest);
    SplitAtFirst(s, hook, |x|);
    assert s[..|x|] == x && s[|x| + |hook|..] == rest;
  }

  /** Round trip: `x`, the hook, then a hook-free `y` parse back into action `x` and value `y`. */
  lemma ParseRoundTrip(x: string, hook: string, y: string)
    requires hook != "" && HookFree(x, hook) && !Contains(y, hook)
    ensures Parse(x + hook + y, hook) == Parsed(Some(x), Some(y))
  {
    ParseAfterFirstHook(x, hook, y);
    SplitWhole(y, hook);
  }

  /**
   * The converse of `ParseAfterFirstHook`: when `x` is not hook-free, an
   * earlier hook cuts it short, so the action is never `x`.
   */
  lemma ParseNeedsHookFree(x: string, hook: string, rest: string)
    requires hook != "" && !HookFree(x, hook)
    ensures Parse(x + hook + rest, hook).action != Some(x)
  {
    var s := x + hook + rest;
    var t := x + hook[..|hook| - 1];
    var j :| 0 <= j <= |t| - |hook| && OccursAt(t, hook, j);
    assert t == s[..|t|];
    assert s[..|t|][j..j + |hook|] == s[j..j + |hook|];
    assert OccursAt(s, hook, j);
    var r := IndexOf(s, hook, 0);
    assert r.Some?;
    var i := r.value;
    assert i <= j < |x|;
    SplitAtFirst(s, hook, i);
    assert Parse(s, hook).action == Some(s[..i]);
  }

  /** The value stops at the second hook: whatever follows it is dropped. */
  lemma ParseStopsAtSecondHook(x: string, hook: string, y: string, z: string)
    requires hook != "" && HookFree(x, hook) && HookFree(y, hook)
    ensures Parse(x + hook + y + hook + z, hook) == Parsed(Some(x), Some(y))
  {
    assert x + hook + y + hook + z == x + hook + (y + hook + z);
    ParseAfterFirstHook(x, hook, y + hook + z);
    FirstHookAfter(y, hook, z);
    SplitAtFirst(y + hook + z, hook, |y|);
    assert (y + hook + z)[..|y|] == y;
  }

  /** With the usual one-character hooks, hook-free just means the character is absent. */
  lemma ParseCharHook(x: string, c: char, y: string, z: string)
    requires c !in x && c !in y
    ensures Parse(x + [c] + y, [c]) == Parsed(Some(x), Some(y))
    ensures Parse(x + [c] + y + [c] + z, [c]) == Parsed(Some(x), Some(y))
  {
    HookFreeChar(x, c);
    HookFreeChar(y, c);
    ContainsChar(y, c);
    ParseRoundTrip(x, [c], y);
    ParseStopsAtSecondHook(x, [c], y, z);
  }

  /**
   * For a hook that can overlap itself, "neither part contains the hook" is
   * not enough for the round trip: "a" + "aa" + "" parses as "" and "a".
   */
  lemma OverlappingHook()
    ensures !Contains("a", "aa") && !Contains("", "aa")
    ensures Parse("a" + "aa" + "", "aa") == Parsed(Some(""), Some("a"))
  {
    var s := "a" + "aa" + "";
    assert OccursAt(s, "aa", 0);
    SplitAtFirst(s, "aa", 0);
    assert s[2..] == "a";
    SplitWhole("a", "aa");
  }

  /** `setAnchor` then `getAnchor` gives back an anchor without `#`, with or without one leading `#`. */
  lemma SetThenGet(anchor: string)
    requires '#' !in anchor
    ensures GetAnchor(HashAfterSet(anchor)) == Some(anchor)
    ensures GetAnchor(HashAfterSet("#" + anchor)) == Some(anchor)
  {
    assert ("#" + anchor)[1..] == anchor;
    if anchor != "" {
      GetAnchorSegment("", anchor, "");
      assert "" + "#" + anchor + "" == "#" + anchor;
    }
  }

  /** The anchor is the `#`-free text between the first `#` and the next one (or the end). */
  lemma GetAnchorSegment(p: string, a: string, rest: string)
    requires '#' !in p && '#' !in a
    requires rest == "" || rest[0] == '#'
    ensures GetAnchor(p + "#" + a + rest) == Some(a)
  {
    HookFreeChar(p, '#');
    assert p + "#" + a + rest == p + "#" + (a + rest);
    SplitAfterHashFreePrefix(p, a + rest);
    SplitHeadAnchor(a, rest);
  }

  /** The first piece of `a + rest` at `#` is the `#`-free `a` when `rest` is empty or starts with `#`. */
  lemma SplitHeadAnchor(a: string, rest: string)
    requires '#' !in a
    requires rest == "" || rest[0] == '#'
    ensures Split(a + rest, "#")[0] == a
  {
    if rest == "" {
      assert a + rest == a;
      ContainsChar(a, '#');
      SplitWhole(a, "#");
    } else {
      assert a + rest == a + "#" + rest[1..];
      SplitHeadAtHash(a, rest[1..]);
    }
  }

  /** The first piece of `a + "#" + z` at `#` is the `#`-free `a`. */
  lemma SplitHeadAtHash(a: string, z: string)
    requires '#' !in a
    ensures Split(a + "#" + z, "#")[0] == a
  {
    HookFreeChar(a, '#');
    FirstHookAfter(a, "#", z);
    SplitAtFirst(a + "#" + z, "#", |a|);
    assert (a + "#" + z)[..|a|] == a;
  }

  /** Splitting a hash at `#` after a `#`-free prefix. */
  lemma SplitAfterHashFreePrefix(p: string, rest: string)
    requires HookFree(p, "#")
    ensures Split(p + "#" + rest, "#") == [p] + Split(rest, "#")
  {
    var s := p + "#" + rest;
    FirstHookAfter(p, "#", rest);
    SplitAtFirst(s, "#", |p|);
    assert s[..|p|] == p && s[|p| + 1..] == rest;
  }
}
