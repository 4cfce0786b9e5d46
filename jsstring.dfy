/**
 * The few JavaScript `String` operations the topic pages rely on, stated over
 * `seq<char>`: `startsWith`, `indexOf`, `split` with a non-empty separator,
 * `replace` of a string pattern by the empty string, and the regular
 * expression `/^\d+\./`.
 */
module JsString {

  /** `s.startsWith(prefix)`. */
  predicate StartsWith(s: string, prefix: string)
    ensures StartsWith(s, prefix) <==> IndexOf(s, prefix, 0) == 0
  {
    |prefix| <= |s| && s[..|prefix|] == prefix
  }

  /** `pat` occurs in `s` starting at position `i`. */
  predicate OccursAt(s: string, pat: string, i: int) {
    0 <= i && i + |pat| <= |s| && s[i..i + |pat|] == pat
  }

  /** `s.indexOf(pat, from)`: the first occurrence at or after `from`, or -1. */
  function IndexOf(s: string, pat: string, from: nat): (r: int)
    ensures r == -1 || (from <= r && OccursAt(s, pat, r))
    ensures forall j :: from <= j && (r == -1 || j < r) ==> !OccursAt(s, pat, j)
    decreases |s| - from
  {
    if from + |pat| > |s| then -1
    else if s[from..from + |pat|] == pat then from
    else IndexOf(s, pat, from + 1)
  }

  /** Any occurrence with no earlier one at or after `from` is the one `IndexOf` finds. */
  lemma IndexOfIsFirst(s: string, pat: string, from: nat, k: int)
    requires from <= k && OccursAt(s, pat, k)
    requires forall j :: from <= j < k ==> !OccursAt(s, pat, j)
    ensures IndexOf(s, pat, from) == k
  {
  }

  /** Occurrences inside a prefix of `s` are occurrences in `s`. */
  lemma OccursInPrefix(s: string, n: nat, pat: string, j: int)
    requires n <= |s|
    ensures OccursAt(s[..n], pat, j) ==> OccursAt(s, pat, j)
    ensures j + |pat| <= n ==> (OccursAt(s[..n], pat, j) <==> OccursAt(s, pat, j))
  {
    if 0 <= j && j + |pat| <= n {
      assert s[..n][j..j + |pat|] == s[j..j + |pat|];
    }
  }

  /** Occurrences in a suffix of `s` are occurrences in `s`, shifted. */
  lemma OccursInSuffix(s: string, n: nat, pat: string, j: int)
    requires n <= |s|
    ensures OccursAt(s[n..], pat, j) <==> (0 <= j && OccursAt(s, pat, n + j))
  {
    if 0 <= j && j + |pat| <= |s| - n {
      assert s[n..][j..j + |pat|] == s[n + j..n + j + |pat|];
    }
  }

  /** The first occurrence found in `a` is still the first one once `a` is extended. */
  lemma IndexOfExtend(a: string, b: string, pat: string)
    requires IndexOf(a, pat, 0) >= 0
    ensures IndexOf(a + b, pat, 0) == IndexOf(a, pat, 0)
  {
    var k := IndexOf(a, pat, 0);
    var s := a + b;
    assert s[..|a|] == a;
    forall j | 0 <= j < k
      ensures !OccursAt(s, pat, j)
    {
      OccursInPrefix(s, |a|, pat, j);
    }
    OccursInPrefix(s, |a|, pat, k);
    IndexOfIsFirst(s, pat, 0, k);
  }

  /** A leading character that cannot start the pattern shifts its first occurrence by one. */
  lemma IndexOfAfterLead(c: char, s: string, pat: string)
    requires |pat| > 0 && pat[0] != c
    ensures IndexOf([c] + s, pat, 0) == if IndexOf(s, pat, 0) < 0 then -1 else IndexOf(s, pat, 0) + 1
  {
    var t := [c] + s;
    assert t[1..] == s;
    assert !OccursAt(t, pat, 0);
    var k := IndexOf(s, pat, 0);
    forall j | 1 <= j && (k < 0 || j < k + 1)
      ensures !OccursAt(t, pat, j)
    {
      OccursInSuffix(t, 1, pat, j - 1);
    }
    if k >= 0 {
      OccursInSuffix(t, 1, pat, k);
      IndexOfIsFirst(t, pat, 0, k + 1);
    } else {
      assert forall j :: 0 <= j ==> !OccursAt(t, pat, j);
    }
  }

  /** The summed lengths of `parts`. */
  function TotalLength(parts: seq<string>): nat {
    if parts == [] then 0 else |parts[0]| + TotalLength(parts[1..])
  }

  /**
   * `parts.join(sep)`: the parts in order with one separator between
   * neighbours, so the result opens with the first part and is as long as
   * the parts together plus one separator fewer than there are parts.
   */
  function Join(parts: seq<string>, sep: string): (r: string)
    ensures |parts| > 0 ==> StartsWith(r, parts[0])
    ensures |parts| > 0 ==> |r| == TotalLength(parts) + (|parts| - 1) * |sep|
  {
    if |parts| == 0 then ""
    else if |parts| == 1 then parts[0]
    else parts[0] + sep + Join(parts[1..], sep)
  }

  /**
   * `s.split(sep)` for a non-empty separator: cut at the leftmost occurrence,
   * then go on after it. The parts join back to `s`, none of them contains the
   * separator, and each part but the last is followed at once by the leftmost
   * occurrence of the separator, which pins down the leftmost, non-overlapping
   * reading when occurrences overlap.
   */
  function Split(s: string, sep: string): (parts: seq<string>)
    requires |sep| > 0
    ensures |parts| >= 1
    ensures Join(parts, sep) == s
    ensures forall i :: 0 <= i < |parts| ==> IndexOf(parts[i], sep, 0) == -1
    ensures forall i :: 0 <= i < |parts| - 1 ==> IndexOf(parts[i] + sep, sep, 0) == |parts[i]|
    decreases |s|
  {
    var k := IndexOf(s, sep, 0);
    if k < 0 then [s]
    else
      var rest := Split(s[k + |sep|..], sep);
      SplitHead(s, sep, k);
      AroundOccurrence(s, sep, k);
      [s[..k]] + rest
  }

  /** An occurrence of `pat` cuts `s` into the part before it, `pat` and the part after it. */
  lemma AroundOccurrence(s: string, pat: string, k: int)
    requires OccursAt(s, pat, k)
    ensures s == s[..k] + pat + s[k + |pat|..]
  {
    assert s == s[..k] + s[k..k + |pat|] + s[k + |pat|..];
  }

  /** The head cut off by `Split` holds no separator and ends at the first one. */
  lemma SplitHead(s: string, sep: string, k: int)
    requires |sep| > 0 && k == IndexOf(s, sep, 0) && k >= 0
    ensures IndexOf(s[..k], sep, 0) == -1
    ensures IndexOf(s[..k] + sep, sep, 0) == k
  {
    HeadHasNoSeparator(s, sep, k);
    HeadEndsAtSeparator(s, sep, k);
  }

  /** No occurrence of `sep` lies within the part of `s` before its first one. */
  lemma HeadHasNoSeparator(s: string, sep: string, k: int)
    requires |sep| > 0 && k == IndexOf(s, sep, 0) && k >= 0
    ensures IndexOf(s[..k], sep, 0) == -1
  {
    forall j | 0 <= j
      ensures !OccursAt(s[..k], sep, j)
    {
      OccursInPrefix(s, k, sep, j);
    }
  }

  /** The prefix of `s` that ends with an occurrence of `pat` is the part before it followed by `pat`. */
  lemma PrefixThroughOccurrence(s: string, pat: string, k: int)
    requires OccursAt(s, pat, k)
    ensures s[..k] + pat == s[..k + |pat|]
  {
    assert s[..k + |pat|] == s[..k] + s[k..k + |pat|];
  }

  /** A prefix `t` of `s` that still holds its first occurrence of `pat` at or after `from` finds it at the same place. */
  lemma {:induction false} IndexOfInPrefix(s: string, t: string, pat: string, from: nat)
    requires |t| <= |s| && t == s[..|t|]
    requires IndexOf(s, pat, from) >= 0 && IndexOf(s, pat, from) + |pat| <= |t|
    ensures IndexOf(t, pat, from) == IndexOf(s, pat, from)
    decreases IndexOf(s, pat, from) - from
  {
    assert t[from..from + |pat|] == s[from..from + |pat|];
    if s[from..from + |pat|] != pat {
      IndexOfInPrefix(s, t, pat, from + 1);
    }
  }

  /** The part before the first `sep`, followed by `sep`, finds that `sep` right after the part. */
  lemma HeadEndsAtSeparator(s: string, sep: string, k: int)
    requires |sep| > 0 && k == IndexOf(s, sep, 0) && k >= 0
    ensures IndexOf(s[..k] + sep, sep, 0) == k
  {
    PrefixThroughOccurrence(s, sep, k);
    IndexOfInPrefix(s, s[..k] + sep, sep, 0);
  }

  /** The first part of a split runs up to the first separator; the rest is the split of what follows it. */
  lemma SplitFirst(s: string, sep: string)
    requires |sep| > 0
    ensures Split(s, sep)[0] == if IndexOf(s, sep, 0) < 0 then s else s[..IndexOf(s, sep, 0)]
    ensures IndexOf(s, sep, 0) >= 0 ==> Split(s, sep)[1..] == Split(s[IndexOf(s, sep, 0) + |sep|..], sep)
  {
  }

  /**
   * `s.replace(pat, '')` with a string pattern: the first occurrence of `pat`
   * is removed, and nothing happens when there is none. Putting `pat` back
   * where it was found gives `s` again.
   */
  function RemoveFirst(s: string, pat: string): (r: string)
    ensures IndexOf(s, pat, 0) == -1 ==> r == s
    ensures IndexOf(s, pat, 0) >= 0 ==>
      |r| == |s| - |pat| &&
      r[..IndexOf(s, pat, 0)] + pat + r[IndexOf(s, pat, 0)..] == s
  {
    var k := IndexOf(s, pat, 0);
    if k < 0 then s
    else
      var r := s[..k] + s[k + |pat|..];
      assert r[..k] == s[..k] && r[k..] == s[k + |pat|..];
      assert s == s[..k] + s[k..k + |pat|] + s[k + |pat|..];
      r
  }

  /** When `s` starts with `pat`, removing its first occurrence drops that prefix. */
  lemma {:induction false} RemoveFirstOfPrefix(s: string, pat: string)
    requires StartsWith(s, pat)
    ensures RemoveFirst(s, pat) == s[|pat|..]
  {
    assert OccursAt(s, pat, 0);
    IndexOfIsFirst(s, pat, 0, 0);
  }

  /** `\d` of a JavaScript regular expression without the `u` flag: an ASCII digit. */
  predicate IsDigit(c: char) {
    '0' <= c <= '9'
  }

  /** The number of ASCII digits `s` starts with. */
  function LeadingDigits(s: string): (n: nat)
    ensures n <= |s|
    ensures forall i :: 0 <= i < n ==> IsDigit(s[i])
    ensures n < |s| ==> !IsDigit(s[n])
  {
    if |s| > 0 && IsDigit(s[0]) then 1 + LeadingDigits(s[1..]) else 0
  }

  /** `s.match(/^\d+\./)` succeeds, read off the greedy run of leading digits. */
  predicate StartsWithNumberDot(s: string)
    ensures StartsWithNumberDot(s) ==> 2 <= |s| && IsDigit(s[0])
  {
    var n := LeadingDigits(s);
    0 < n < |s| && s[n] == '.'
  }

  /**
   * The greedy reading agrees with the regular expression's own meaning:
   * some non-empty run of digits at the start is followed by a dot.
   */
  lemma StartsWithNumberDotMeaning(s: string)
    ensures StartsWithNumberDot(s) <==>
      exists k :: 0 < k < |s| && s[k] == '.' && forall i :: 0 <= i < k ==> IsDigit(s[i])
  {
    var n := LeadingDigits(s);
    if exists k :: 0 < k < |s| && s[k] == '.' && forall i :: 0 <= i < k ==> IsDigit(s[i]) {
      var k :| 0 < k < |s| && s[k] == '.' && forall i :: 0 <= i < k ==> IsDigit(s[i]);
    }
  }
}
