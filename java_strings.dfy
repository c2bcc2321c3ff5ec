/**
 * The java.lang.String operations that the statement splitter relies on:
 * startsWith, trim and indexOf. A Java string is modelled as a sequence of
 * characters.
 */
module JavaStrings {

  /** `s.startsWith(prefix)`. */
  predicate StartsWith(s: string, prefix: string)
  {
    |prefix| <= |s| && forall i :: 0 <= i < |prefix| ==> s[i] == prefix[i]
  }

  /** `startsWith` compares the string's first `|prefix|` characters with the prefix. */
  lemma StartsWithSlice(s: string, prefix: string)
    ensures StartsWith(s, prefix) <==> |prefix| <= |s| && s[..|prefix|] == prefix
  {
    if |prefix| <= |s| && s[..|prefix|] == prefix {
      assert forall i :: 0 <= i < |prefix| ==> s[..|prefix|][i] == s[i];
    }
  }

  /** The characters `trim` removes: every character whose code is at most U+0020. */
  predicate IsTrimmable(c: char)
  {
    c <= ' '
  }

  /** The leading-whitespace loop of `trim`: drops the trimmable characters at the front. */
  function TrimLeading(s: string): (r: string)
    ensures |r| <= |s| && r == s[|s| - |r|..]
    ensures forall j :: 0 <= j < |s| - |r| ==> IsTrimmable(s[j])
    ensures r == [] || !IsTrimmable(r[0])
  {
    if s != [] && IsTrimmable(s[0]) then TrimLeading(s[1..]) else s
  }

  /** The trailing-whitespace loop of `trim`: drops the trimmable characters at the back. */
  function TrimTrailing(s: string): (r: string)
    ensures |r| <= |s| && r == s[..|r|]
    ensures forall j :: |r| <= j < |s| ==> IsTrimmable(s[j])
    ensures r == [] || !IsTrimmable(r[|r| - 1])
  {
    if s != [] && IsTrimmable(s[|s| - 1]) then TrimTrailing(s[..|s| - 1]) else s
  }

  /**
   * `s.trim()`: `s` without its leading and trailing characters of code at
   * most U+0020.
   */
  function Trim(s: string): (r: string)
    ensures |r| <= |s|
    ensures r == [] || (!IsTrimmable(r[0]) && !IsTrimmable(r[|r| - 1]))
  {
    var t := TrimLeading(s);
    var r := TrimTrailing(t);
    assert r != [] ==> r[0] == t[0];
    r
  }

  /** `sub` occurs in `s` at position `k`. */
  predicate OccursAt(s: string, sub: string, k: nat)
  {
    k + |sub| <= |s| && s[k..k + |sub|] == sub
  }

  /** `s.indexOf(sub, i)` for `i <= |s|`: the least position from `i` on where `sub` occurs, or -1. */
  function IndexFrom(s: string, sub: string, i: nat): (r: int)
    requires i <= |s|
    ensures r == -1 || (i <= r && OccursAt(s, sub, r))
    ensures r == -1 ==> forall k :: i <= k <= |s| ==> !OccursAt(s, sub, k)
    ensures 0 <= r ==> forall k :: i <= k < r ==> !OccursAt(s, sub, k)
    decreases |s| - i
  {
    if OccursAt(s, sub, i) then i
    else if i == |s| then -1
    else IndexFrom(s, sub, i + 1)
  }

  /**
   * `s.indexOf(sub)`: the least position at which `sub` occurs in `s`, or -1
   * when it occurs nowhere. The empty string occurs at position 0.
   */
  function IndexOf(s: string, sub: string): (r: int)
    ensures r == -1 || (0 <= r && OccursAt(s, sub, r))
    ensures 0 <= r ==> forall k :: 0 <= k < r ==> !OccursAt(s, sub, k)
    ensures r == -1 ==> forall k :: 0 <= k <= |s| ==> !OccursAt(s, sub, k)
  {
    IndexFrom(s, sub, 0)
  }

  /** Trimming an already trimmed string changes nothing. */
  lemma TrimIdempotent(s: string)
    ensures Trim(Trim(s)) == Trim(s)
  {
    var r := Trim(s);
    if r != [] {
      assert TrimLeading(r) == r;
      assert TrimTrailing(r) == r;
    }
  }

  /**
   * `Trim(s)` is the part of `s` left between its leading run of trimmable
   * characters (the `|s| - |t|` characters that `TrimLeading` drops) and its
   * trailing run of trimmable characters.
   */
  lemma TrimSlice(s: string, t: string, r: string)
    requires t == TrimLeading(s) && r == Trim(s)
    ensures |s| - |t| + |r| <= |s|
    ensures r == s[|s| - |t|..|s| - |t| + |r|]
    ensures forall j :: 0 <= j < |s| - |t| ==> IsTrimmable(s[j])
    ensures forall j :: |s| - |t| + |r| <= j < |s| ==> IsTrimmable(s[j])
  {
    assert r == TrimTrailing(t);
    SliceOfSuffix(s, t, r);
    TailOfSuffix(s, t, r);
  }

  /** A prefix `r` of a suffix `t` of `s` is a slice of `s`. */
  lemma SliceOfSuffix(s: string, t: string, r: string)
    requires |t| <= |s| && t == s[|s| - |t|..]
    requires |r| <= |t| && r == t[..|r|]
    ensures r == s[|s| - |t|..|s| - |t| + |r|]
  {
  }

  /** What the suffix `t` of `s` holds after its first `|r|` characters is what `s` holds there. */
  lemma TailOfSuffix(s: string, t: string, r: string)
    requires |t| <= |s| && t == s[|s| - |t|..]
    requires |r| <= |t|
    requires forall j :: |r| <= j < |t| ==> IsTrimmable(t[j])
    ensures forall j :: |s| - |t| + |r| <= j < |s| ==> IsTrimmable(s[j])
  {
    var a := |s| - |t|;
    forall j | a + |r| <= j < |s|
      ensures IsTrimmable(s[j])
    {
      assert s[j] == t[j - a];
    }
  }

  /**
   * Whichever way `s` is cut into a trimmable front, a middle that neither
   * starts nor ends with a trimmable character, and a trimmable back,
   * `Trim(s)` is that middle: the two ends `trim` removes are the maximal ones.
   */
  lemma TrimUnique(s: string, a: nat, b: nat)
    requires a <= b <= |s|
    requires forall j :: 0 <= j < a ==> IsTrimmable(s[j])
    requires forall j :: b <= j < |s| ==> IsTrimmable(s[j])
    requires a < b ==> !IsTrimmable(s[a]) && !IsTrimmable(s[b - 1])
    ensures Trim(s) == s[a..b]
  {
    if a < b {
      var t := TrimLeading(s);
      var a0 := |s| - |t|;
      assert !IsTrimmable(s[a]) && !IsTrimmable(s[b - 1]);
      assert a0 <= a;
      assert t[0] == s[a0];
      assert a0 == a;
      var r := Trim(s);
      TrimSlice(s, t, r);
      assert b <= a0 + |r|;
      assert r[|r| - 1] == s[a0 + |r| - 1];
      assert a0 + |r| <= b;
    } else {
      TrimEmpty(s);
    }
  }

  /** A trimmed token is empty exactly when the token holds only trimmable characters. */
  lemma TrimEmpty(s: string)
    ensures Trim(s) == [] <==> forall j :: 0 <= j < |s| ==> IsTrimmable(s[j])
  {
    var t := TrimLeading(s);
    if t != [] {
      assert TrimTrailing(t) != [];
      assert !IsTrimmable(s[|s| - |t|]);
    }
  }

  /** Every character of `Trim(s)` is a character of `s`. */
  lemma TrimChars(s: string, c: char)
    requires c in Trim(s)
    ensures c in s
  {
    var t := TrimLeading(s);
    var r := TrimTrailing(t);
    var k :| 0 <= k < |r| && r[k] == c;
    assert t[k] == c;
    assert s[|s| - |t| + k] == c;
  }
}
