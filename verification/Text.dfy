/** String operations of the standard library that the repository builds on. */
module Text {

  /** `parts.join(sep)`. */
  function Join(parts: seq<string>, sep: string): string {
    if parts == [] then ""
    else if |parts| == 1 then parts[0]
    else parts[0] + sep + Join(parts[1..], sep)
  }

  function Digit(d: nat): char
    requires d < 10
  {
    '0' + d as char
  }

  /** How an integer prints. */
  function Digits(n: nat): string {
    if n < 10 then [Digit(n)] else Digits(n / 10) + [Digit(n % 10)]
  }

  /** `s.replace(pattern, by)`: every leftmost occurrence, not looking inside what was put in. */
  function ReplaceAll(s: string, pattern: string, replacement: string): string
    requires pattern != ""
  {
    if |s| < |pattern| then s
    else if pattern <= s then replacement + ReplaceAll(s[|pattern|..], pattern, replacement)
    else [s[0]] + ReplaceAll(s[1..], pattern, replacement)
  }

  predicate OccursAt(s: string, pattern: string, i: nat) {
    i + |pattern| <= |s| && s[i..i + |pattern|] == pattern
  }

  ghost predicate Contains(s: string, pattern: string) {
    exists i: nat :: OccursAt(s, pattern, i)
  }

  /** No end of `a` could be the beginning of an occurrence. */
  ghost predicate Sealed(a: string, pattern: string) {
    forall i: nat :: i < |a| && |a| - i < |pattern| ==> !(a[i..] <= pattern)
  }

  /** No occurrence in `a + b` begins in `a` and goes on in `b`. */
  ghost predicate NoStraddle(a: string, b: string, pattern: string) {
    forall i: nat :: i < |a| && |a| - i < |pattern| ==> !OccursAt(a + b, pattern, i)
  }

  lemma SealedKeepsApart(a: string, b: string, pattern: string)
    requires Sealed(a, pattern)
    ensures NoStraddle(a, b, pattern)
  {
    forall i: nat | i < |a| && |a| - i < |pattern|
      ensures !OccursAt(a + b, pattern, i)
    {
      if i + |pattern| <= |a + b| {
        assert (a + b)[i..i + |pattern|][..|a| - i] == a[i..];
      }
    }
  }

  lemma StraddleTail(a: string, b: string, n: nat, pattern: string)
    requires NoStraddle(a, b, pattern) && n <= |a|
    ensures NoStraddle(a[n..], b, pattern)
  {
    forall i: nat | i < |a[n..]| && |a[n..]| - i < |pattern|
      ensures !OccursAt(a[n..] + b, pattern, i)
    {
      assert !OccursAt(a + b, pattern, n + i);
      if i + |pattern| <= |a[n..] + b| {
        assert (a[n..] + b)[i..i + |pattern|] == (a + b)[n + i..n + i + |pattern|];
      }
    }
  }

  lemma StartsWithin(a: string, b: string, pattern: string)
    requires a != "" && NoStraddle(a, b, pattern)
    ensures pattern <= a + b <==> pattern <= a
  {
    if |a| < |pattern| {
      assert !OccursAt(a + b, pattern, 0);
      assert |pattern| <= |a + b| ==> (a + b)[0..|pattern|] == (a + b)[..|pattern|];
    }
  }

  /** Where no occurrence straddles, the two parts can be rewritten on their own. */
  lemma {:induction false} ReplaceSplits(a: string, b: string, pattern: string, replacement: string)
    requires pattern != "" && NoStraddle(a, b, pattern)
    ensures ReplaceAll(a + b, pattern, replacement)
         == ReplaceAll(a, pattern, replacement) + ReplaceAll(b, pattern, replacement)
    decreases |a|
  {
    if a == "" {
      assert a + b == b;
    } else {
      StartsWithin(a, b, pattern);
      var n := if pattern <= a then |pattern| else 1;
      StraddleTail(a, b, n, pattern);
      assert (a + b)[n..] == a[n..] + b;
      ReplaceSplits(a[n..], b, pattern, replacement);
      ReplaceStep(a, pattern, replacement);
      ReplaceStep(a + b, pattern, replacement);
      assert (a + b)[0] == a[0];
      var head := if pattern <= a then replacement else [a[0]];
      Assoc(head, ReplaceAll(a[n..], pattern, replacement), ReplaceAll(b, pattern, replacement));
    }
  }

  lemma Assoc<T>(a: seq<T>, b: seq<T>, c: seq<T>)
    ensures a + (b + c) == a + b + c
  {
  }

  lemma SameFront<T>(front: seq<T>, a: seq<T>, b: seq<T>)
    ensures front + a == front + b <==> a == b
  {
    assert (front + a)[|front|..] == a && (front + b)[|front|..] == b;
  }

  lemma ReplaceStep(s: string, pattern: string, replacement: string)
    requires pattern != "" && s != ""
    ensures ReplaceAll(s, pattern, replacement)
         == if pattern <= s then replacement + ReplaceAll(s[|pattern|..], pattern, replacement)
            else [s[0]] + ReplaceAll(s[1..], pattern, replacement)
  {
    if |s| < |pattern| {
      ShortStays(s[1..], pattern, replacement);
    }
  }

  lemma ShortStays(s: string, pattern: string, replacement: string)
    requires pattern != "" && |s| < |pattern|
    ensures ReplaceAll(s, pattern, replacement) == s
  {
  }

  lemma ContainsTail(s: string, pattern: string)
    requires s != "" && !(pattern <= s)
    ensures Contains(s, pattern) <==> Contains(s[1..], pattern)
  {
    forall i: nat
      ensures OccursAt(s, pattern, i + 1) <==> OccursAt(s[1..], pattern, i)
    {
      if i + 1 + |pattern| <= |s| {
        assert s[1..][i..i + |pattern|] == s[i + 1..i + 1 + |pattern|];
      }
    }
    if Contains(s, pattern) {
      var i: nat :| OccursAt(s, pattern, i);
      assert i > 0;
      assert OccursAt(s[1..], pattern, i - 1);
    }
  }

  /** From position k on the strings differ, and there one has `x` and the other `y`. */
  predicate SplitAt(s: string, r: string, k: nat, x: char, y: char) {
    k < |s| && k < |r| && s[..k] == r[..k] && s[k] == x && r[k] == y
  }

  /** Without an occurrence nothing changes; with one the string first differs where one begins. */
  lemma {:induction false} ReplaceChanges(s: string, pattern: string, replacement: string) returns (k: nat)
    requires pattern != "" && replacement != "" && replacement[0] != pattern[0]
    ensures !Contains(s, pattern) ==> ReplaceAll(s, pattern, replacement) == s
    ensures Contains(s, pattern) ==>
              SplitAt(s, ReplaceAll(s, pattern, replacement), k, pattern[0], replacement[0])
    decreases |s|
  {
    k := 0;
    if |s| < |pattern| {
    } else if pattern <= s {
      assert OccursAt(s, pattern, 0);
    } else {
      ContainsTail(s, pattern);
      var j := ReplaceChanges(s[1..], pattern, replacement);
      var tail := ReplaceAll(s[1..], pattern, replacement);
      assert ReplaceAll(s, pattern, replacement) == [s[0]] + tail;
      assert s == [s[0]] + s[1..];
      if Contains(s, pattern) {
        k := j + 1;
        assert ([s[0]] + s[1..])[..k] == [s[0]] + s[1..][..j];
        assert ([s[0]] + tail)[..k] == [s[0]] + tail[..j];
      }
    }
  }
}
