/**
 * The parts of JavaScript's String.prototype that the router relies on, for a
 * literal (non-empty) separator: substring search (`indexOf`), `split` and
 * its inverse `join`.
 */
module JsString {
  import opened Wrappers

  /** `h` occurs in `s` starting at index `i`. */
  predicate OccursAt(s: string, h: string, i: int) {
    0 <= i && i + |h| <= |s| && s[i..i + |h|] == h
  }

  /** `h` occurs somewhere in `s`. */
  predicate Contains(s: string, h: string) {
    exists i :: 0 <= i <= |s| - |h| && OccursAt(s, h, i)
  }

  /** `i` is the first occurrence of `h` in `s`. */
  predicate FirstAt(s: string, h: string, i: int) {
    OccursAt(s, h, i) && forall j :: 0 <= j < i ==> !OccursAt(s, h, j)
  }

  /** The first occurrence of `h` in `s` at or after `from` (`indexOf`). */
  function IndexOf(s: string, h: string, from: nat): (r: Option<nat>)
    requires from <= |s|
    decreases |s| - from
    ensures r.Some? ==> from <= r.value && OccursAt(s, h, r.value)
    ensures r.Some? ==> forall j :: from <= j < r.value ==> !OccursAt(s, h, j)
    ensures r.None? ==> forall j :: from <= j ==> !OccursAt(s, h, j)
  {
    if OccursAt(s, h, from) then Some(from)
    else if from == |s| then None
    else IndexOf(s, h, from + 1)
  }

  /** Glues `parts` back together with `sep` between neighbours (`join`). */
  function Join(parts: seq<string>, sep: string): string {
    if parts == [] then ""
    else if |parts| == 1 then parts[0]
    else parts[0] + sep + Join(parts[1..], sep)
  }

  /**
   * `split` with a non-empty string separator: cut `s` at every occurrence of
   * `sep`, scanning left to right and resuming after each occurrence.
   */
  function Split(s: string, sep: string): (parts: seq<string>)
    requires sep != ""
    decreases |s|
    ensures |parts| >= 1
    ensures |parts| == 1 <==> !Contains(s, sep)
    ensures forall k :: 0 <= k < |parts| ==> !Contains(parts[k], sep)
    ensures Join(parts, sep) == s
  {
    match IndexOf(s, sep, 0)
    case None => [s]
    case Some(i) =>
      var rest := Split(s[i + |sep|..], sep);
      SplitStep(s, sep, i, rest);
      [s[..i]] + rest
  }

  /** One step of `Split`: the text before the first occurrence, then the parts of the rest. */
  lemma SplitStep(s: string, sep: string, i: nat, rest: seq<string>)
    requires sep != "" && FirstAt(s, sep, i)
    requires |rest| >= 1
    requires forall k :: 0 <= k < |rest| ==> !Contains(rest[k], sep)
    requires Join(rest, sep) == s[i + |sep|..]
    ensures |[s[..i]] + rest| != 1 && Contains(s, sep)
    ensures forall k :: 0 <= k < |[s[..i]] + rest| ==> !Contains(([s[..i]] + rest)[k], sep)
    ensures Join([s[..i]] + rest, sep) == s
  {
    PrefixBeforeFirst(s, sep, i);
    var parts := [s[..i]] + rest;
    assert parts[1..] == rest;
    assert Join(parts, sep) == s[..i] + sep + Join(rest, sep);
    assert s == s[..i] + sep + s[i + |sep|..];
    assert forall k :: 1 <= k < |parts| ==> parts[k] == rest[k - 1];
  }

  /** No occurrence of `sep` lies inside the text before the first one. */
  lemma PrefixBeforeFirst(s: string, sep: string, i: int)
    requires sep != "" && 0 <= i <= |s|
    requires forall j :: 0 <= j < i ==> !OccursAt(s, sep, j)
    ensures !Contains(s[..i], sep)
  {
    forall j | 0 <= j <= i - |sep|
      ensures !OccursAt(s[..i], sep, j)
    {
      assert !OccursAt(s, sep, j);
      assert s[..i][j..j + |sep|] == s[j..j + |sep|];
    }
  }

  /** Splitting at the first occurrence: the head is the text before it. */
  lemma SplitAtFirst(s: string, sep: string, i: int)
    requires sep != "" && FirstAt(s, sep, i)
    ensures Split(s, sep) == [s[..i]] + Split(s[i + |sep|..], sep)
  {
    IndexOfFirst(s, sep, 0, i);
  }

  /** The search from any point up to the first occurrence finds that occurrence. */
  lemma {:induction false} IndexOfFirst(s: string, h: string, from: nat, i: int)
    requires from <= i && FirstAt(s, h, i)
    decreases i - from
    ensures from <= |s| && IndexOf(s, h, from) == Some(i)
  {
    if from < i {
      assert !OccursAt(s, h, from);
      IndexOfFirst(s, h, from + 1, i);
    }
  }

  /** A string without the separator splits into itself alone. */
  lemma SplitWhole(s: string, sep: string)
    requires sep != "" && !Contains(s, sep)
    ensures Split(s, sep) == [s]
  {
    var parts := Split(s, sep);
    assert Join(parts, sep) == parts[0];
  }

  /** The first part, the separator and the second part start the original. */
  lemma JoinFront(parts: seq<string>, sep: string)
    requires |parts| >= 2
    ensures parts[0] + sep + parts[1] <= Join(parts, sep)
  {
    var tail := parts[1..];
    if |tail| >= 2 {
      assert Join(tail, sep) == tail[0] + sep + Join(tail[1..], sep);
    }
    assert tail[0] <= Join(tail, sep);
  }

  /** A one-character separator occurs exactly where that character does. */
  lemma {:induction false} ContainsChar(s: string, c: char)
    ensures Contains(s, [c]) <==> c in s
  {
    if c in s {
      var i :| 0 <= i < |s| && s[i] == c;
      assert s[i..i + 1] == [c];
      assert OccursAt(s, [c], i);
    }
    if Contains(s, [c]) {
      var i :| 0 <= i <= |s| - 1 && OccursAt(s, [c], i);
      assert s[i] == s[i..i + 1][0];
    }
  }
}
