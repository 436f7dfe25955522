/**
The chain of replacements against a single pass, with no condition on the template
and next to none on the values: a pass goes wrong exactly when the placeholder it
replaces begins in literal text or in a value already put in, and what has gone
wrong once is never put right by a later pass.
*/
module OnePass {
  import opened Text
  import opened SqlValues
  import opened TemplateScanner
  import opened Substitution
  import opened SubstitutionLaws

  /** No value is empty or begins with a brace. */
  ghost predicate Solid(vals: map<string, string>) {
    forall n :: n in vals ==> vals[n] != "" && vals[n][0] != '{'
  }

  /** What stands for the segment once these parameters are filled in. */
  function PartText(seg: Segment, done: seq<string>, vals: map<string, string>): string {
    match seg
    case Literal(text) => text
    case Placeholder(name) => Direct(name, done, vals)
  }

  /** A placeholder that is not filled in yet. */
  predicate IsHole(seg: Segment, done: seq<string>, vals: map<string, string>) {
    seg.Placeholder? && !Listed(seg.name, done, vals)
  }

  /** An occurrence begins in `a`, and may go on behind it. */
  ghost predicate BeginsIn(a: string, rest: string, pattern: string) {
    exists i: nat :: i < |a| && OccursAt(a + rest, pattern, i)
  }

  /**
  With the parameters in `done` filled in, the placeholder of q begins in literal
  text or in a value, not where the template has it.
  */
  ghost predicate Stray(segs: seq<Segment>, done: seq<string>, q: string, vals: map<string, string>) {
    segs != [] &&
    (|| (!IsHole(segs[0], done, vals)
         && BeginsIn(PartText(segs[0], done, vals), FillDirect(segs[1..], done, vals), Braced(q)))
     || Stray(segs[1..], done, q, vals))
  }

  /** No pass finds a stray occurrence of the placeholder it replaces. */
  ghost predicate NeverStray(segs: seq<Segment>, done: seq<string>, names: seq<string>, vals: map<string, string>)
    decreases |names|
  {
    names != [] ==>
      && (names[0] in vals ==> !Stray(segs, done, names[0], vals))
      && NeverStray(segs, done + [names[0]], names[1..], vals)
  }

  // ---------------------------------------------------------------- one replacement

  lemma FirstPlace(s: string, pattern: string)
    ensures OccursAt(s, pattern, 0) <==> pattern <= s
  {
    assert |pattern| <= |s| ==> s[0..|pattern|] == s[..|pattern|];
  }

  lemma NextPlace(s: string, pattern: string, i: nat)
    requires s != ""
    ensures OccursAt(s, pattern, i + 1) <==> OccursAt(s[1..], pattern, i)
  {
    assert i + |pattern| <= |s| - 1 ==> s[1..][i..i + |pattern|] == s[i + 1..i + 1 + |pattern|];
  }

  lemma FirstCharacter(s: string, pattern: string, k: nat)
    requires pattern != "" && OccursAt(s, pattern, k)
    ensures k < |s| && s[k] == pattern[0]
  {
    assert s[k..k + |pattern|][0] == s[k];
  }

  lemma SameBeginning(c: char, x: string, y: string, k: nat)
    requires k <= |x| && k <= |y| && x[..k] == y[..k]
    ensures ([c] + x)[..k + 1] == ([c] + y)[..k + 1]
  {
    assert ([c] + x)[..k + 1] == [c] + x[..k] && ([c] + y)[..k + 1] == [c] + y[..k];
  }

  /** The leftmost occurrence is replaced, and up to it nothing changes. */
  lemma {:induction false} LeftmostIsReplaced(s: string, pattern: string, replacement: string, i: nat) returns (k: nat)
    requires pattern != "" && replacement != "" && OccursAt(s, pattern, i)
    ensures k <= i && OccursAt(s, pattern, k)
    ensures
      var r := ReplaceAll(s, pattern, replacement);
      k < |s| && k < |r| && r[..k] == s[..k] && r[k] == replacement[0]
    decreases |s|
  {
    hide ReplaceAll, OccursAt;
    FirstCharacter(s, pattern, i);
    FirstPlace(s, pattern);
    ReplaceStep(s, pattern, replacement);
    if pattern <= s {
      k := 0;
    } else {
      var tail, r := s[1..], ReplaceAll(s[1..], pattern, replacement);
      NextPlace(s, pattern, i - 1);
      var j := LeftmostIsReplaced(tail, pattern, replacement, i - 1);
      NextPlace(s, pattern, j);
      SameBeginning(s[0], r, tail, j);
      assert s == [s[0]] + tail;
      k := j + 1;
    }
  }

  /** If no occurrence begins up to a place, nothing changes up to it. */
  lemma {:induction false} PrefixIsKept(s: string, pattern: string, replacement: string, k: nat)
    requires pattern != "" && k < |s| && forall i: nat :: i <= k ==> !OccursAt(s, pattern, i)
    ensures
      var r := ReplaceAll(s, pattern, replacement);
      k < |r| && r[..k + 1] == s[..k + 1]
    decreases |s|
  {
    hide ReplaceAll, OccursAt;
    FirstPlace(s, pattern);
    assert !OccursAt(s, pattern, 0);
    ReplaceStep(s, pattern, replacement);
    var tail, r := s[1..], ReplaceAll(s[1..], pattern, replacement);
    assert s == [s[0]] + tail;
    if k > 0 {
      forall i: nat | i <= k - 1
        ensures !OccursAt(tail, pattern, i)
      {
        NextPlace(s, pattern, i);
      }
      PrefixIsKept(tail, pattern, replacement, k - 1);
    }
    SameBeginning(s[0], r, tail, k);
  }

  /** If no occurrence begins in the first part, it stays, and the rest is rewritten on its own. */
  lemma NothingBegins(a: string, rest: string, pattern: string, replacement: string)
    requires pattern != "" && !BeginsIn(a, rest, pattern)
    ensures ReplaceAll(a + rest, pattern, replacement) == a + ReplaceAll(rest, pattern, replacement)
  {
    forall i: nat | i < |a|
      ensures !OccursAt(a + rest, pattern, i)
    {
    }
    ReplaceSplits(a, rest, pattern, replacement);
    forall i: nat
      ensures !OccursAt(a, pattern, i)
    {
      if i + |pattern| <= |a| {
        assert a[i..i + |pattern|] == (a + rest)[i..i + |pattern|];
        assert !OccursAt(a + rest, pattern, i);
      }
    }
    NoOccurrenceStays(a, pattern, replacement);
  }

  // ---------------------------------------------------------------- a text that has gone wrong

  /** The text has something else in place of a brace of this part. */
  predicate DriftsAt(a: string, t: string, k: nat) {
    k < |a| && k < |t| && t[..k] == a[..k] && a[k] == '{' && t[k] != '{'
  }

  /** It agrees with the single pass up to a brace of literal text or of a value, and has something else there. */
  ghost predicate Drift(segs: seq<Segment>, done: seq<string>, vals: map<string, string>, t: string) {
    segs != [] &&
    var a := PartText(segs[0], done, vals);
    || (!IsHole(segs[0], done, vals) && exists k: nat :: DriftsAt(a, t, k))
    || (a <= t && Drift(segs[1..], done, vals, t[|a|..]))
  }

  lemma {:induction false} DriftDiffers(segs: seq<Segment>, done: seq<string>, vals: map<string, string>, t: string)
    requires Drift(segs, done, vals, t)
    ensures t != FillDirect(segs, done, vals)
  {
    var a, rest := PartText(segs[0], done, vals), FillDirect(segs[1..], done, vals);
    if !IsHole(segs[0], done, vals) && exists k: nat :: DriftsAt(a, t, k) {
      var k: nat :| DriftsAt(a, t, k);
      assert (a + rest)[k] == a[k];
    } else {
      DriftDiffers(segs[1..], done, vals, t[|a|..]);
      assert (a + rest)[|a|..] == rest;
    }
  }

  lemma FilledStays(seg: Segment, done: seq<string>, q: string, vals: map<string, string>)
    requires !IsHole(seg, done, vals)
    ensures !IsHole(seg, done + [q], vals) && PartText(seg, done + [q], vals) == PartText(seg, done, vals)
  {
  }

  /** A placeholder on its way through a pass, whatever stands behind it. */
  lemma HoleIsPassed(f: WordChars, seg: Segment, done: seq<string>, q: string, vals: map<string, string>, rest: string)
    requires IsHole(seg, done, vals) && IsName(f, seg.name) && IsName(f, q) && q in vals
    ensures ReplaceAll(PartText(seg, done, vals) + rest, Braced(q), vals[q])
         == PartText(seg, done + [q], vals) + ReplaceAll(rest, Braced(q), vals[q])
  {
    HoleIsSealed(f, seg.name, q);
    PassOneHole(f, seg.name, q, vals[q]);
    SealedKeepsApart(Braced(seg.name), rest, Braced(q));
    ReplaceSplits(Braced(seg.name), rest, Braced(q), vals[q]);
  }

  /** Where an occurrence begins in a part that is no hole, the pass makes the text drift. */
  lemma BeginningDrifts(a: string, rest: string, q: string, v: string)
    requires BeginsIn(a, rest, Braced(q)) && v != "" && v[0] != '{'
    ensures exists k: nat :: DriftsAt(a, ReplaceAll(a + rest, Braced(q), v), k)
  {
    var i: nat :| i < |a| && OccursAt(a + rest, Braced(q), i);
    var k := LeftmostIsReplaced(a + rest, Braced(q), v, i);
    FirstCharacter(a + rest, Braced(q), k);
    assert (a + rest)[..k] == a[..k] && (a + rest)[k] == a[k];
    assert DriftsAt(a, ReplaceAll(a + rest, Braced(q), v), k);
  }

  /** A pass is right exactly when no occurrence is stray; otherwise the text drifts. */
  lemma {:induction false} PassIsRightExactly(f: WordChars, segs: seq<Segment>, done: seq<string>, q: string,
                                              vals: map<string, string>)
    requires (forall k :: 0 <= k < |segs| ==> SegmentOk(f, segs[k])) && IsName(f, q) && q in vals && Solid(vals)
    ensures
      var next := ReplaceAll(FillDirect(segs, done, vals), Braced(q), vals[q]);
      if Stray(segs, done, q, vals) then Drift(segs, done + [q], vals, next)
      else next == FillDirect(segs, done + [q], vals)
  {
    if segs != [] {
      var seg, a, rest := segs[0], PartText(segs[0], done, vals), FillDirect(segs[1..], done, vals);
      assert SegmentOk(f, seg);
      PassIsRightExactly(f, segs[1..], done, q, vals);
      if IsHole(seg, done, vals) {
        HoleIsPassed(f, seg, done, q, vals, rest);
        GoesOn(PartText(seg, done + [q], vals), ReplaceAll(rest, Braced(q), vals[q]));
      } else {
        FilledStays(seg, done, q, vals);
        if BeginsIn(a, rest, Braced(q)) {
          BeginningDrifts(a, rest, q, vals[q]);
        } else {
          NothingBegins(a, rest, Braced(q), vals[q]);
          GoesOn(a, ReplaceAll(rest, Braced(q), vals[q]));
        }
      }
    }
  }

  lemma GoesOn(a: string, t: string)
    ensures a <= a + t && (a + t)[|a|..] == t
  {
  }

  /** A drift within one part stays within it, if an occurrence begins at or before its place. */
  lemma DriftMovesForward(a: string, t: string, k: nat, i: nat, q: string, v: string)
    requires DriftsAt(a, t, k) && v != "" && v[0] != '{' && i <= k && OccursAt(t, Braced(q), i)
    ensures exists j: nat :: DriftsAt(a, ReplaceAll(t, Braced(q), v), j)
  {
    hide ReplaceAll;
    var j := LeftmostIsReplaced(t, Braced(q), v, i);
    FirstCharacter(t, Braced(q), j);
    assert t[j] == '{' && j < k;
    assert t[..k][..j] == t[..j] && a[..k][..j] == a[..j] && t[..k][j] == a[..k][j];
    assert DriftsAt(a, ReplaceAll(t, Braced(q), v), j);
  }

  lemma DriftHereStays(a: string, t: string, k: nat, q: string, v: string)
    requires DriftsAt(a, t, k) && v != "" && v[0] != '{'
    ensures exists j: nat :: DriftsAt(a, ReplaceAll(t, Braced(q), v), j)
  {
    hide ReplaceAll;
    if exists i: nat :: i <= k && OccursAt(t, Braced(q), i) {
      var i: nat :| i <= k && OccursAt(t, Braced(q), i);
      DriftMovesForward(a, t, k, i, q, v);
    } else {
      PrefixIsKept(t, Braced(q), v, k);
      var r := ReplaceAll(t, Braced(q), v);
      assert r[..k] == r[..k + 1][..k] && r[k] == r[..k + 1][k];
      assert t[..k] == t[..k + 1][..k] && t[k] == t[..k + 1][k];
      assert DriftsAt(a, r, k);
    }
  }

  /** What has gone wrong stays wrong. */
  lemma {:induction false} DriftStays(f: WordChars, segs: seq<Segment>, done: seq<string>, q: string,
                                      vals: map<string, string>, t: string)
    requires (forall k :: 0 <= k < |segs| ==> SegmentOk(f, segs[k])) && IsName(f, q) && q in vals && Solid(vals)
    requires Drift(segs, done, vals, t)
    ensures Drift(segs, done + [q], vals, ReplaceAll(t, Braced(q), vals[q]))
  {
    hide ReplaceAll, BeginsIn, Listed, DriftsAt;
    var seg, a := segs[0], PartText(segs[0], done, vals);
    assert SegmentOk(f, seg);
    if !IsHole(seg, done, vals) && exists k: nat :: DriftsAt(a, t, k) {
      var k: nat :| DriftsAt(a, t, k);
      FilledStays(seg, done, q, vals);
      DriftHereStays(a, t, k, q, vals[q]);
    } else {
      var rest := t[|a|..];
      assert t == a + rest;
      DriftStays(f, segs[1..], done, q, vals, rest);
      if IsHole(seg, done, vals) {
        HoleIsPassed(f, seg, done, q, vals, rest);
        GoesOn(PartText(seg, done + [q], vals), ReplaceAll(rest, Braced(q), vals[q]));
      } else {
        FilledStays(seg, done, q, vals);
        if BeginsIn(a, rest, Braced(q)) {
          BeginningDrifts(a, rest, q, vals[q]);
        } else {
          NothingBegins(a, rest, Braced(q), vals[q]);
          GoesOn(a, ReplaceAll(rest, Braced(q), vals[q]));
        }
      }
    }
  }

  // ---------------------------------------------------------------- the chain

  lemma {:induction false} UnboundChangesNothing(segs: seq<Segment>, done: seq<string>, q: string,
                                                 vals: map<string, string>)
    requires q !in vals
    ensures FillDirect(segs, done + [q], vals) == FillDirect(segs, done, vals)
    ensures forall t :: Drift(segs, done, vals, t) ==> Drift(segs, done + [q], vals, t)
  {
    if segs != [] {
      UnboundChangesNothing(segs[1..], done, q, vals);
    }
  }

  lemma {:induction false} DriftForEver(f: WordChars, segs: seq<Segment>, done: seq<string>, names: seq<string>,
                                        vals: map<string, string>, t: string)
    requires (forall k :: 0 <= k < |segs| ==> SegmentOk(f, segs[k])) && AllNames(f, names) && Solid(vals)
    requires Drift(segs, done, vals, t)
    ensures Drift(segs, done + names, vals, Sequential(t, names, vals))
    decreases |names|
  {
    if names == [] {
      assert done + names == done;
    } else {
      var q := names[0];
      assert done + [q] + names[1..] == done + names;
      if q in vals {
        DriftStays(f, segs, done, q, vals, t);
      } else {
        UnboundChangesNothing(segs, done, q, vals);
      }
      DriftForEver(f, segs, done + [q], names[1..], vals, Pass(t, q, vals));
    }
  }

  lemma {:induction false} ChainFrom(f: WordChars, segs: seq<Segment>, done: seq<string>, names: seq<string>,
                                     vals: map<string, string>)
    requires (forall k :: 0 <= k < |segs| ==> SegmentOk(f, segs[k])) && AllNames(f, names) && Solid(vals)
    ensures Sequential(FillDirect(segs, done, vals), names, vals) == FillDirect(segs, done + names, vals)
       <==> NeverStray(segs, done, names, vals)
    decreases |names|
  {
    if names == [] {
      assert done + names == done;
    } else {
      var q := names[0];
      assert done + [q] + names[1..] == done + names;
      ChainFrom(f, segs, done + [q], names[1..], vals);
      if q in vals {
        PassIsRightExactly(f, segs, done, q, vals);
        if Stray(segs, done, q, vals) {
          var next := Pass(FillDirect(segs, done, vals), q, vals);
          DriftForEver(f, segs, done + [q], names[1..], vals, next);
          DriftDiffers(segs, done + names, vals, Sequential(next, names[1..], vals));
        }
      } else {
        UnboundChangesNothing(segs, done, q, vals);
      }
    }
  }

  lemma {:induction false} NothingFilled(segs: seq<Segment>, vals: map<string, string>)
    ensures FillDirect(segs, [], vals) == Restore(segs)
  {
    if segs != [] {
      NothingFilled(segs[1..], vals);
    }
  }

  /**
  The chain of replacements gives what a single pass gives, for any template and any
  values that are not empty and do not begin with a brace, exactly when no pass finds
  the placeholder it replaces beginning in literal text or in a value put in before.
  */
  lemma ChainIsOnePassExactly(f: WordChars, s: string, names: seq<string>, vals: map<string, string>)
    requires AllNames(f, names) && Solid(vals)
    ensures Sequential(s, names, vals) == FillDirect(Scan(f, s), names, vals)
       <==> NeverStray(Scan(f, s), [], names, vals)
  {
    ScanIsCanonical(f, s);
    ScanRestores(f, s);
    NothingFilled(Scan(f, s), vals);
    ChainFrom(f, Scan(f, s), [], names, vals);
    assert [] + names == names;
  }

  /** The same for the values the server prints, on every template. */
  lemma ServerChainIsOnePassExactly(f: WordChars, s: string, names: seq<string>, params: map<string, Param>)
    requires AllNames(f, names)
    ensures Sequential(s, names, Printed(params)) == FillDirect(Scan(f, s), names, Printed(params))
       <==> NeverStray(Scan(f, s), [], names, Printed(params))
  {
    AllPrintedAreTame(f, params);
    ChainIsOnePassExactly(f, s, names, Printed(params));
  }

  // ---------------------------------------------------------------- every order

  /** Parameters that can be filled in at the time another one's turn comes. */
  ghost predicate Possible(names: seq<string>, done: seq<string>, q: string, vals: map<string, string>) {
    Distinct(done + [q]) && (forall n :: n in done ==> n in names) && Listed(q, names, vals)
  }

  /** Whatever parameters are filled in, no other one's placeholder is stray. */
  ghost predicate NeverStrayInAnyOrder(segs: seq<Segment>, names: seq<string>, vals: map<string, string>) {
    forall done, q :: Possible(names, done, q, vals) ==> !Stray(segs, done, q, vals)
  }

  ghost predicate EveryOrderIsOnePass(f: WordChars, s: string, names: seq<string>, vals: map<string, string>) {
    forall b :: Reorders(names, b) ==> Sequential(s, b, vals) == FillDirect(Scan(f, s), names, vals)
  }

  lemma {:induction false} StrayAt(segs: seq<Segment>, done: seq<string>, names: seq<string>,
                                   vals: map<string, string>, i: nat)
    requires NeverStray(segs, done, names, vals) && i < |names| && names[i] in vals
    ensures !Stray(segs, done + names[..i], names[i], vals)
    decreases |names|
  {
    if i == 0 {
      assert done + names[..0] == done;
    } else {
      StrayAt(segs, done + [names[0]], names[1..], vals, i - 1);
      assert done + [names[0]] + names[1..][..i - 1] == done + names[..i];
    }
  }

  lemma {:induction false} NeverStrayFrom(segs: seq<Segment>, done: seq<string>, names: seq<string>,
                                          vals: map<string, string>)
    requires forall i :: 0 <= i < |names| && names[i] in vals ==> !Stray(segs, done + names[..i], names[i], vals)
    ensures NeverStray(segs, done, names, vals)
    decreases |names|
  {
    if names != [] {
      var tail := names[1..];
      assert names[..0] == [] && done + [] == done;
      forall i | 0 <= i < |tail| && tail[i] in vals
        ensures !Stray(segs, done + [names[0]] + tail[..i], tail[i], vals)
      {
        assert tail[i] == names[i + 1];
        assert done + [names[0]] + tail[..i] == done + names[..i + 1];
      }
      NeverStrayFrom(segs, done + [names[0]], tail, vals);
    }
  }

  function WithoutAll(names: seq<string>, gone: seq<string>): seq<string> {
    if gone == [] then names else Without(WithoutAll(names, gone[1..]), gone[0])
  }

  lemma {:induction false} WithoutAllIs(names: seq<string>, gone: seq<string>)
    requires Distinct(names)
    ensures Distinct(WithoutAll(names, gone))
    ensures forall x :: x in WithoutAll(names, gone) <==> x in names && x !in gone
  {
    if gone != [] {
      WithoutAllIs(names, gone[1..]);
      WithoutOne(WithoutAll(names, gone[1..]), gone[0]);
      assert gone == [gone[0]] + gone[1..];
    }
  }

  /** Any parameters can come first, and any other one next. */
  lemma OrderWith(names: seq<string>, done: seq<string>, q: string) returns (b: seq<string>)
    requires Distinct(names) && Distinct(done + [q]) && (forall n :: n in done ==> n in names) && q in names
    ensures Reorders(names, b) && |done| < |b| && b[..|done|] == done && b[|done|] == q
  {
    var front := done + [q];
    WithoutAllIs(names, front);
    b := front + WithoutAll(names, front);
    assert b[..|done|] == done;
    forall i, j | 0 <= i < j < |b|
      ensures b[i] != b[j]
    {
      if j >= |front| {
        assert b[j] in WithoutAll(names, front);
        assert i < |front| ==> b[i] in front;
      }
    }
  }

  /**
  Every order of the list gives the single pass exactly when, whatever parameters
  are filled in, no other one's placeholder begins in literal text or in a value.
  */
  lemma EveryOrderExactly(f: WordChars, s: string, names: seq<string>, vals: map<string, string>)
    requires AllNames(f, names) && Solid(vals) && Distinct(names)
    ensures EveryOrderIsOnePass(f, s, names, vals) <==> NeverStrayInAnyOrder(Scan(f, s), names, vals)
  {
    var segs := Scan(f, s);
    if NeverStrayInAnyOrder(segs, names, vals) {
      forall b | Reorders(names, b)
        ensures Sequential(s, b, vals) == FillDirect(segs, names, vals)
      {
        SafeOrder(segs, names, b, vals);
        OrderIsOnePass(f, s, names, b, vals);
      }
    }
    if EveryOrderIsOnePass(f, s, names, vals) {
      forall done, q | Possible(names, done, q, vals)
        ensures !Stray(segs, done, q, vals)
      {
        var b := OrderWith(names, done, q);
        OrderIsOnePass(f, s, names, b, vals);
        StrayAt(segs, [], b, vals, |done|);
        assert [] + b[..|done|] == done;
      }
    }
  }

  lemma OrderIsOnePass(f: WordChars, s: string, names: seq<string>, b: seq<string>, vals: map<string, string>)
    requires AllNames(f, names) && Solid(vals) && Reorders(names, b)
    ensures Sequential(s, b, vals) == FillDirect(Scan(f, s), names, vals) <==> NeverStray(Scan(f, s), [], b, vals)
  {
    forall i | 0 <= i < |b|
      ensures IsName(f, b[i])
    {
      assert b[i] in names;
    }
    ChainIsOnePassExactly(f, s, b, vals);
    DirectIgnoresOrder(Scan(f, s), names, b, vals);
  }

  lemma SafeOrder(segs: seq<Segment>, names: seq<string>, b: seq<string>, vals: map<string, string>)
    requires NeverStrayInAnyOrder(segs, names, vals) && Reorders(names, b)
    ensures NeverStray(segs, [], b, vals)
  {
    forall i | 0 <= i < |b| && b[i] in vals
      ensures !Stray(segs, [] + b[..i], b[i], vals)
    {
      assert [] + b[..i] == b[..i] && b[..i] + [b[i]] == b[..i + 1];
      assert forall n :: n in b[..i] ==> n in b;
      assert Possible(names, b[..i], b[i], vals);
    }
    NeverStrayFrom(segs, [], b, vals);
  }
}
