/** String helpers: Ruby's `gsub(pattern, '')` for a literal pattern, and
    what it does to the `-value` tag of a schema name. */
module Strings {

  /** The tag that `_key_schema_name` deletes from a value-schema name. */
  const ValueTag: string := "-value"

  /** `p` occurs in `s` starting at index `i`. */
  predicate OccursAt(s: string, p: string, i: nat) {
    i <= |s| && p <= s[i..]
  }

  /** `p` occurs nowhere in `s`. */
  ghost predicate Free(s: string, p: string) {
    forall i: nat :: !OccursAt(s, p, i)
  }

  /** Ruby's `s.gsub(p, '')` for a literal, non-empty `p`: a single
      left-to-right scan that deletes every non-overlapping match. Text that
      a deletion joins together is not scanned again. */
  function RemoveAll(s: string, p: string): (r: string)
    requires |p| > 0
    ensures |r| <= |s|
    decreases |s|
  {
    if |s| < |p| then s
    else if p <= s then RemoveAll(s[|p|..], p)
    else [s[0]] + RemoveAll(s[1..], p)
  }

  /** A string shorter than the pattern comes back unchanged. */
  lemma RemoveAllShort(s: string, p: string)
    requires |p| > 0 && |s| < |p|
    ensures RemoveAll(s, p) == s
  {
  }

  /** Deletion only happens at matches: a string in which `p` never occurs
      is returned unchanged. */
  lemma {:induction false} RemoveAllFree(s: string, p: string)
    requires |p| > 0
    requires Free(s, p)
    ensures RemoveAll(s, p) == s
    decreases |s|
  {
    if |s| >= |p| {
      assert !OccursAt(s, p, 0);
      assert !(p <= s);
      forall i: nat
        ensures !OccursAt(s[1..], p, i)
      {
        assert !OccursAt(s, p, i + 1);
      }
      RemoveAllFree(s[1..], p);
      assert s == [s[0]] + s[1..];
    }
  }

  /** A string without any `-` holds no `-value` and is returned
      unchanged. */
  lemma {:induction false} RemoveValueTagNoDash(s: string)
    requires '-' !in s
    ensures RemoveAll(s, ValueTag) == s
    decreases |s|
  {
    if |s| >= |ValueTag| {
      assert s[0] != ValueTag[0];
      assert '-' !in s[1..];
      RemoveValueTagNoDash(s[1..]);
      assert s == [s[0]] + s[1..];
    }
  }

  /** The first character of `p` does not recur in it. Then no match of
      `p` can start inside another match, since that would need a proper
      prefix of `p` that is also its suffix. */
  ghost predicate FirstCharUnique(p: string) {
    |p| > 0 && forall k :: 1 <= k < |p| ==> p[k] != p[0]
  }

  lemma ValueTagFirstCharUnique()
    ensures FirstCharUnique(ValueTag)
  {
    assert ValueTag == ['-', 'v', 'a', 'l', 'u', 'e'];
  }

  /** A match of `p` at the start of `a + p + b` lies inside `a` when `a`
      is at least as long as `p`. */
  lemma NoMatchAtStart(a: string, p: string, b: string)
    requires |a| >= |p| && !(p <= a)
    ensures !(p <= a + p + b)
  {
    assert (a + p + b)[..|p|] == a[..|p|];
  }

  /** When `a` is non-empty and shorter than `p`, `a + p + b` cannot start
      with `p`: that match would put a copy of `p`'s first character at
      index `|a|` of `p`. */
  lemma NoMatchStraddling(a: string, p: string, b: string)
    requires FirstCharUnique(p)
    requires 1 <= |a| < |p|
    ensures !(p <= a + p + b)
  {
    assert (a + p + b)[|a|] == p[0];
  }

  /** Where `t` does not start with `p`, the scan keeps `t`'s first
      character and moves on by one. */
  lemma ScanKeepsFirst(t: string, p: string)
    requires |p| > 0 && |t| >= |p| && !(p <= t)
    ensures RemoveAll(t, p) == [t[0]] + RemoveAll(t[1..], p)
  {
  }

  /** Where `a` is at least as long as `p` and does not start with it, the
      scan of `a + p + b` keeps `a`'s first character. */
  lemma SkipFirst(a: string, p: string, b: string)
    requires |p| > 0 && |a| >= |p| && !(p <= a)
    ensures RemoveAll(a + p + b, p) == [a[0]] + RemoveAll(a[1..] + p + b, p)
  {
    NoMatchAtStart(a, p, b);
    assert (a + p + b)[1..] == a[1..] + p + b;
  }

  /** Where `a` is non-empty and shorter than `p`, the scan of
      `a + p + b` keeps `a`'s first character. */
  lemma ShortFirst(a: string, p: string, b: string)
    requires FirstCharUnique(p)
    requires 1 <= |a| < |p|
    ensures RemoveAll(a + p + b, p) == [a[0]] + RemoveAll(a[1..] + p + b, p)
  {
    NoMatchStraddling(a, p, b);
    assert (a + p + b)[1..] == a[1..] + p + b;
  }

  /** One step over `a + p + b` when `a` is non-empty and shorter than
      `p`: its first character is kept. */
  lemma SplitStepShort(a: string, p: string, b: string)
    requires FirstCharUnique(p)
    requires 1 <= |a| < |p|
    requires RemoveAll(a[1..] + p + b, p) == a[1..] + RemoveAll(b, p)
    ensures RemoveAll(a + p + b, p) == a + RemoveAll(b, p)
  {
    ShortFirst(a, p, b);
    assert a == [a[0]] + a[1..];
  }

  /** One step over `a + p + b` when `a` starts with `p`: the match is
      deleted. */
  lemma SplitStepMatch(a: string, p: string, b: string)
    requires |p| > 0 && p <= a
    requires RemoveAll(a[|p|..] + p + b, p) == RemoveAll(a[|p|..], p) + RemoveAll(b, p)
    ensures RemoveAll(a + p + b, p) == RemoveAll(a, p) + RemoveAll(b, p)
  {
    assert p <= a + p + b;
    assert (a + p + b)[|p|..] == a[|p|..] + p + b;
  }

  /** One step over `a + p + b` when `a` is at least as long as `p` but
      does not start with it: the first character is kept. */
  lemma SplitStepSkip(a: string, p: string, b: string)
    requires |p| > 0 && |a| >= |p| && !(p <= a)
    requires RemoveAll(a[1..] + p + b, p) == RemoveAll(a[1..], p) + RemoveAll(b, p)
    ensures RemoveAll(a + p + b, p) == RemoveAll(a, p) + RemoveAll(b, p)
  {
    SkipFirst(a, p, b);
    ScanKeepsFirst(a, p);
  }

  /** For a pattern whose first character does not recur, each occurrence
      is deleted wherever it stands: deleting from `a + p + b` is deleting
      from `a` and from `b` separately. */
  lemma {:induction false} RemoveAllSplit(a: string, p: string, b: string)
    requires FirstCharUnique(p)
    ensures RemoveAll(a + p + b, p) == RemoveAll(a, p) + RemoveAll(b, p)
    decreases |a|
  {
    if |a| == 0 {
      assert a + p + b == p + b;
      assert (p + b)[|p|..] == b;
    } else if |a| < |p| {
      RemoveAllSplit(a[1..], p, b);
      RemoveAllShort(a[1..], p);
      SplitStepShort(a, p, b);
      RemoveAllShort(a, p);
    } else if p <= a {
      RemoveAllSplit(a[|p|..], p, b);
      SplitStepMatch(a, p, b);
    } else {
      RemoveAllSplit(a[1..], p, b);
      SplitStepSkip(a, p, b);
    }
  }

  /** Every `-value` is deleted wherever it stands. */
  lemma RemoveValueTagSplit(a: string, b: string)
    ensures RemoveAll(a + ValueTag + b, ValueTag) == RemoveAll(a, ValueTag) + RemoveAll(b, ValueTag)
  {
    ValueTagFirstCharUnique();
    RemoveAllSplit(a, ValueTag, b);
  }

  /** The case the name was written for: a trailing `-value` is deleted. */
  lemma RemoveTrailingValueTag(a: string)
    ensures RemoveAll(a + ValueTag, ValueTag) == RemoveAll(a, ValueTag)
  {
    RemoveValueTagSplit(a, "");
    assert a + ValueTag + "" == a + ValueTag;
  }

  /** One scan only: deleting the inner tag of `--valuevalue` joins the
      remaining `-` and `value` into a fresh `-value`, which stays. */
  lemma RemoveAllIsSinglePass()
    ensures RemoveAll("--valuevalue", ValueTag) == ValueTag
    ensures OccursAt(RemoveAll("--valuevalue", ValueTag), ValueTag, 0)
  {
    var s, t := "--valuevalue", "-" + ValueTag + "value";
    assert |s| == |t|;
    forall i | 0 <= i < |s|
      ensures s[i] == t[i]
    {
    }
    RemoveValueTagSplit("-", "value");
    RemoveAllShort("-", ValueTag);
    RemoveAllShort("value", ValueTag);
  }
}
