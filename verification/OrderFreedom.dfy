/**
When the order of the parameter list is free, on any template: exactly when no order
can make a placeholder begin in literal text or in a value.  If one can, take the
last place where that happens; the parameter it concerns, put last and put first,
gives two results that part at the end of that place.
*/
module OrderFreedom {
  import opened Text
  import opened TemplateScanner
  import opened SqlValues
  import opened Substitution
  import opened SubstitutionLaws
  import opened OnePass
  import opened StrayCounts

  ghost predicate SegmentsOk(f: WordChars, segs: seq<Segment>) {
    forall k :: 0 <= k < |segs| ==> SegmentOk(f, segs[k])
  }

  // ---------------------------------------------------------------- the last place

  /** The text of a segment that is no hole. */
  function Own(seg: Segment, vals: map<string, string>): string {
    match seg
    case Literal(text) => text
    case Placeholder(name) => if name in vals then vals[name] else ""
  }

  /** At this place of the segment the placeholder of q can come to begin. */
  ghost predicate StraysAt(seg: Segment, back: seq<Segment>, names: seq<string>, vals: map<string, string>,
                           k: nat, done: seq<string>, q: string) {
    && Possible(names, done, q, vals)
    && !IsHole(seg, done, vals)
    && k < |Own(seg, vals)|
    && OccursAt(Own(seg, vals) + FillDirect(back, done, vals), Braced(q), k)
  }

  ghost predicate NoneFrom(seg: Segment, back: seq<Segment>, names: seq<string>, vals: map<string, string>, n: nat) {
    forall k: nat, done, q :: n <= k ==> !StraysAt(seg, back, names, vals, k, done, q)
  }

  lemma StrayIsHere(segs: seq<Segment>, names: seq<string>, vals: map<string, string>, done: seq<string>, q: string)
    returns (k: nat)
    requires Possible(names, done, q, vals) && Stray(segs, done, q, vals) && !Stray(segs[1..], done, q, vals)
    ensures StraysAt(segs[0], segs[1..], names, vals, k, done, q)
  {
    hide Possible, FillDirect;
    var a := PartText(segs[0], done, vals);
    assert BeginsIn(a, FillDirect(segs[1..], done, vals), Braced(q));
    assert a == Own(segs[0], vals);
    k :| k < |a| && OccursAt(a + FillDirect(segs[1..], done, vals), Braced(q), k);
  }

  lemma {:induction false} LastSegment(segs: seq<Segment>, names: seq<string>, vals: map<string, string>)
    returns (i: nat, k: nat, done: seq<string>, q: string)
    requires !NeverStrayInAnyOrder(segs, names, vals)
    ensures i < |segs| && NeverStrayInAnyOrder(segs[i + 1..], names, vals)
    ensures StraysAt(segs[i], segs[i + 1..], names, vals, k, done, q)
  {
    hide Possible, StraysAt;
    if NeverStrayInAnyOrder(segs[1..], names, vals) {
      i := 0;
      done, q :| Possible(names, done, q, vals) && Stray(segs, done, q, vals);
      assert !Stray(segs[1..], done, q, vals);
      k := StrayIsHere(segs, names, vals, done, q);
    } else {
      i, k, done, q := LastSegment(segs[1..], names, vals);
      i := i + 1;
      assert segs[1..][i..] == segs[i + 1..];
    }
  }

  lemma {:induction false} LastPlace(seg: Segment, back: seq<Segment>, names: seq<string>, vals: map<string, string>,
                                     some: nat, done0: seq<string>, q0: string, n: nat)
    returns (k: nat, done: seq<string>, q: string)
    requires StraysAt(seg, back, names, vals, some, done0, q0)
    requires some < n && NoneFrom(seg, back, names, vals, n)
    ensures StraysAt(seg, back, names, vals, k, done, q) && NoneFrom(seg, back, names, vals, k + 1)
    decreases n
  {
    hide StraysAt;
    var m := n - 1;
    if exists done, q :: StraysAt(seg, back, names, vals, m, done, q) {
      k := m;
      done, q :| StraysAt(seg, back, names, vals, m, done, q);
    } else {
      forall k: nat, done, q | m <= k
        ensures !StraysAt(seg, back, names, vals, k, done, q)
      {
        assert k == m || n <= k;
      }
      k, done, q := LastPlace(seg, back, names, vals, some, done0, q0, m);
    }
  }

  lemma HoleOpens(seg: Segment, done: seq<string>, vals: map<string, string>, rest: string)
    ensures IsHole(seg, done, vals) ==>
              var s := PartText(seg, done, vals) + rest;
              s != "" && s[0] == '{'
  {
  }

  /** Text without a brace that is there stays there when more is filled in. */
  lemma {:induction false} BodyGrows(back: seq<Segment>, done: seq<string>, all: seq<string>, vals: map<string, string>,
                                     p: string)
    requires '{' !in p && p <= FillDirect(back, done, vals) && forall n :: n in done ==> n in all
    ensures p <= FillDirect(back, all, vals)
  {
    if p != "" {
      var a, rest := PartText(back[0], done, vals), FillDirect(back[1..], done, vals);
      assert p[0] == (a + rest)[0];
      HoleOpens(back[0], done, vals, rest);
      assert PartText(back[0], all, vals) == a;
      if |a| < |p| {
        assert p[..|a|] == a && p == a + p[|a|..];
        assert (a + rest)[|a|..] == rest;
        BodyGrows(back[1..], done, all, vals, p[|a|..]);
      } else {
        assert p == a[..|p|];
      }
    }
  }

  lemma PlaceholderGrows(f: WordChars, x: string, back: seq<Segment>, done: seq<string>, all: seq<string>,
                         vals: map<string, string>, q: string)
    requires IsName(f, q) && x != "" && Braced(q) <= x + FillDirect(back, done, vals)
    requires forall n :: n in done ==> n in all
    ensures Braced(q) <= x + FillDirect(back, all, vals)
  {
    hide FillDirect;
    var p, rest := Braced(q), FillDirect(back, done, vals);
    if |p| <= |x| {
      assert p == x[..|p|];
    } else {
      var more := p[|x|..];
      assert p[..|x|] == x && p == x + more;
      assert (x + rest)[|x|..] == rest && (x + rest)[|x|..][..|more|] == more;
      assert !f('{');
      assert more == (q + "}")[|x| - 1..];
      BodyGrows(back, done, all, vals, more);
    }
  }

  lemma OwnAt(seg: Segment, back: seq<Segment>, names: seq<string>, vals: map<string, string>,
              k: nat, done: seq<string>, q: string)
    requires StraysAt(seg, back, names, vals, k, done, q)
    ensures Braced(q) <= Own(seg, vals)[k..] + FillDirect(back, done, vals)
    ensures Own(seg, vals)[k] == '{'
  {
    var a, rest := Own(seg, vals), FillDirect(back, done, vals);
    assert (a + rest)[k..] == a[k..] + rest;
    assert (a + rest)[k..k + |Braced(q)|] == (a + rest)[k..][..|Braced(q)|];
    FirstCharacter(a + rest, Braced(q), k);
  }

  /** At one place only one placeholder can come to begin. */
  lemma OneNameAt(f: WordChars, seg: Segment, back: seq<Segment>, names: seq<string>, vals: map<string, string>,
                  k: nat, done: seq<string>, q: string, done': seq<string>, q': string)
    requires IsName(f, q) && IsName(f, q')
    requires StraysAt(seg, back, names, vals, k, done, q) && StraysAt(seg, back, names, vals, k, done', q')
    ensures q == q'
  {
    var x := Own(seg, vals)[k..];
    OwnAt(seg, back, names, vals, k, done, q);
    OwnAt(seg, back, names, vals, k, done', q');
    PlaceholderGrows(f, x, back, done, names, vals, q);
    PlaceholderGrows(f, x, back, done', names, vals, q');
    NotBoth(f, x + FillDirect(back, names, vals), q, q');
  }

  // ---------------------------------------------------------------- the text from that place on

  /** What the single pass has from that place on; before the segment is filled in, the whole segment. */
  function From(seg: Segment, back: seq<Segment>, k: nat, done: seq<string>, vals: map<string, string>): string
    requires k <= |Own(seg, vals)|
  {
    (if IsHole(seg, done, vals) then Braced(seg.name) else Own(seg, vals)[k..]) + FillDirect(back, done, vals)
  }

  /** Nothing begins across a brace. */
  lemma BraceParts(f: WordChars, l: string, z: string, q: string, v: string)
    requires IsName(f, q) && z != "" && z[0] == '{'
    ensures ReplaceAll(l + z, Braced(q), v) == ReplaceAll(l, Braced(q), v) + ReplaceAll(z, Braced(q), v)
  {
    var p := Braced(q);
    assert !f('{');
    forall i: nat | i < |l| && |l| - i < |p|
      ensures !OccursAt(l + z, p, i)
    {
      var n := |l| - i;
      assert p[n] == (q + "}")[n - 1] != '{';
      if i + |p| <= |l + z| {
        assert (l + z)[i..i + |p|][n] == z[0];
      }
    }
    ReplaceSplits(l, z, p, v);
  }

  lemma BackIsDirect(f: WordChars, back: seq<Segment>, names: seq<string>, vals: map<string, string>,
                     done: seq<string>, q: string)
    requires SegmentsOk(f, back) && Solid(vals) && NeverStrayInAnyOrder(back, names, vals)
    requires Possible(names, done, q, vals) && IsName(f, q)
    ensures ReplaceAll(FillDirect(back, done, vals), Braced(q), vals[q]) == FillDirect(back, done + [q], vals)
  {
    PassIsRightExactly(f, back, done, q, vals);
  }

  /** Where no placeholder of q begins, the pass fills in only what is behind. */
  lemma TailIsDirect(f: WordChars, seg: Segment, back: seq<Segment>, names: seq<string>, vals: map<string, string>,
                     k: nat, done: seq<string>, q: string)
    requires SegmentsOk(f, back) && Solid(vals) && NeverStrayInAnyOrder(back, names, vals)
    requires Possible(names, done, q, vals) && IsName(f, q) && !IsHole(seg, done, vals) && k <= |Own(seg, vals)|
    requires forall j: nat :: k <= j ==> !StraysAt(seg, back, names, vals, j, done, q)
    ensures ReplaceAll(Own(seg, vals)[k..] + FillDirect(back, done, vals), Braced(q), vals[q])
         == Own(seg, vals)[k..] + FillDirect(back, done + [q], vals)
  {
    hide ReplaceAll, FillDirect, Own, IsHole, OccursAt, NeverStrayInAnyOrder;
    var a, rest, p := Own(seg, vals), FillDirect(back, done, vals), Braced(q);
    BackIsDirect(f, back, names, vals, done, q);
    forall i: nat | i < |a[k..]|
      ensures !OccursAt(a[k..] + rest, p, i)
    {
      assert !StraysAt(seg, back, names, vals, k + i, done, q);
      LaterPlace(a, rest, p, k, i);
    }
    NothingBegins(a[k..], rest, p, vals[q]);
  }

  lemma LaterPlace(a: string, rest: string, p: string, k: nat, i: nat)
    requires k <= |a|
    ensures OccursAt(a[k..] + rest, p, i) <==> OccursAt(a + rest, p, k + i)
  {
    assert a + rest == a[..k] + (a[k..] + rest);
    if i + |p| <= |a[k..] + rest| {
      assert (a[k..] + rest)[i..i + |p|] == (a + rest)[k + i..k + i + |p|];
    }
  }

  /** The place, and the only parameter that can come to begin there. */
  ghost predicate LastIs(f: WordChars, seg: Segment, back: seq<Segment>, names: seq<string>, vals: map<string, string>,
                         k: nat, last: string) {
    && SegmentOk(f, seg) && SegmentsOk(f, back) && Solid(vals) && AllNames(f, names)
    && NeverStrayInAnyOrder(back, names, vals)
    && k < |Own(seg, vals)| && Own(seg, vals)[k] == '{'
    && NoneFrom(seg, back, names, vals, k + 1)
    && (forall done, q :: StraysAt(seg, back, names, vals, k, done, q) ==> q == last)
  }

  lemma PassHole(f: WordChars, seg: Segment, back: seq<Segment>, names: seq<string>, vals: map<string, string>,
                 k: nat, last: string, done: seq<string>, q: string) returns (l: string)
    requires LastIs(f, seg, back, names, vals, k, last) && Possible(names, done, q, vals)
    requires IsHole(seg, done, vals)
    ensures ReplaceAll(From(seg, back, k, done, vals), Braced(q), vals[q]) == l + From(seg, back, k, done + [q], vals)
  {
    hide ReplaceAll, FillDirect, NeverStrayInAnyOrder, NoneFrom;
    HoleIsPassed(f, seg, done, q, vals, FillDirect(back, done, vals));
    BackIsDirect(f, back, names, vals, done, q);
    var rest := FillDirect(back, done + [q], vals);
    if seg.name == q {
      l := vals[q][..k];
      Assoc(vals[q][..k], vals[q][k..], rest);
      assert vals[q] == vals[q][..k] + vals[q][k..];
    } else {
      l := "";
    }
  }

  lemma PassFrom(f: WordChars, seg: Segment, back: seq<Segment>, names: seq<string>, vals: map<string, string>,
                 k: nat, last: string, done: seq<string>, q: string) returns (l: string)
    requires LastIs(f, seg, back, names, vals, k, last) && Possible(names, done, q, vals) && q != last
    ensures ReplaceAll(From(seg, back, k, done, vals), Braced(q), vals[q]) == l + From(seg, back, k, done + [q], vals)
  {
    hide ReplaceAll, FillDirect, Own, NeverStrayInAnyOrder, StraysAt;
    assert IsName(f, q);
    if IsHole(seg, done, vals) {
      l := PassHole(f, seg, back, names, vals, k, last, done, q);
    } else {
      l := "";
      forall j: nat | k <= j
        ensures !StraysAt(seg, back, names, vals, j, done, q)
      {
        assert j == k || k + 1 <= j;
      }
      TailIsDirect(f, seg, back, names, vals, k, done, q);
      FilledStays(seg, done, q, vals);
    }
  }

  lemma {:induction false} ChainFromPlace(
    f: WordChars, seg: Segment, back: seq<Segment>, names: seq<string>, vals: map<string, string>, k: nat, last: string,
    done: seq<string>, others: seq<string>, l: string) returns (l': string)
    requires LastIs(f, seg, back, names, vals, k, last) && last !in others
    requires Distinct(done + others) && (forall n :: n in done + others ==> n in names)
    ensures Sequential(l + From(seg, back, k, done, vals), others, vals)
         == l' + From(seg, back, k, done + others, vals)
    decreases |others|
  {
    if others == [] {
      assert done + others == done;
      l' := l;
    } else {
      var q, z := others[0], From(seg, back, k, done, vals);
      assert done + [q] + others[1..] == done + others;
      assert q in done + others;
      var l2 := l;
      if q in vals {
        assert (done + [q]) == (done + others)[..|done| + 1];
        var m := PassFrom(f, seg, back, names, vals, k, last, done, q);
        BraceParts(f, l, z, q, vals[q]);
        l2 := ReplaceAll(l, Braced(q), vals[q]) + m;
        Assoc(ReplaceAll(l, Braced(q), vals[q]), m, From(seg, back, k, done + [q], vals));
      } else {
        UnboundChangesNothing(back, done, q, vals);
      }
      l' := ChainFromPlace(f, seg, back, names, vals, k, last, done + [q], others[1..], l2);
    }
  }

  // ---------------------------------------------------------------- two orders that part

  /** At first no placeholder is stray. */
  lemma {:induction false} NothingStraysAtFirst(f: WordChars, t: string, q: string, vals: map<string, string>)
    requires IsName(f, q)
    ensures !Stray(Scan(f, t), [], q, vals)
    decreases |t|
  {
    if t == "" {
    } else if StartsPlaceholder(f, t) {
      NothingStraysAtFirst(f, AfterName(f, t), q, vals);
      assert IsHole(Placeholder(NameOf(f, t)), [], vals);
    } else {
      var n := LiteralLength(f, t);
      NothingStraysAtFirst(f, t[n..], q, vals);
      ScanRestores(f, t[n..]);
      NothingFilled(Scan(f, t[n..]), vals);
      assert t[..n] + t[n..] == t;
      forall i: nat | i < n
        ensures !OccursAt(t, Braced(q), i)
      {
        LiteralHasNoPlaceholder(f, t, i);
        OccurrenceIsPlaceholder(f, t, q, i);
      }
    }
  }

  lemma OccurrenceIsPlaceholder(f: WordChars, t: string, q: string, i: nat)
    requires IsName(f, q)
    ensures OccursAt(t, Braced(q), i) ==> PlaceholderAt(f, t, i)
  {
    if OccursAt(t, Braced(q), i) {
      var rest := t[i + |Braced(q)|..];
      NameStartsPlaceholder(f, q, rest);
      assert t[i..] == Braced(q) + rest;
    }
  }

  lemma {:induction false} FillAppend(a: seq<Segment>, b: seq<Segment>, done: seq<string>, vals: map<string, string>)
    ensures FillDirect(a + b, done, vals) == FillDirect(a, done, vals) + FillDirect(b, done, vals)
  {
    if a == [] {
      assert a + b == b;
    } else {
      assert (a + b)[1..] == a[1..] + b;
      FillAppend(a[1..], b, done, vals);
      Assoc(PartText(a[0], done, vals), FillDirect(a[1..], done, vals), FillDirect(b, done, vals));
    }
  }

  lemma OneSegment(seg: Segment, back: seq<Segment>, done: seq<string>, vals: map<string, string>)
    ensures FillDirect([seg] + back, done, vals) == PartText(seg, done, vals) + FillDirect(back, done, vals)
  {
    assert ([seg] + back)[1..] == back;
  }

  lemma SplitAtPlace(segs: seq<Segment>, i: nat, k: nat, done: seq<string>,
                     vals: map<string, string>) returns (l: string)
    requires i < |segs| && k <= |Own(segs[i], vals)|
    ensures FillDirect(segs, done, vals) == l + From(segs[i], segs[i + 1..], k, done, vals)
  {
    hide FillDirect;
    var front, seg, back := FillDirect(segs[..i], done, vals), segs[i], segs[i + 1..];
    assert segs == segs[..i] + ([seg] + back);
    FillAppend(segs[..i], [seg] + back, done, vals);
    OneSegment(seg, back, done, vals);
    if IsHole(seg, done, vals) {
      l := front;
    } else {
      var a, rest := Own(seg, vals), FillDirect(back, done, vals);
      l := front + a[..k];
      assert a == a[..k] + a[k..];
      Assoc(a[..k], a[k..], rest);
      Assoc(front, a[..k], a[k..] + rest);
    }
  }

  lemma ReplacedHead(f: WordChars, q: string, v: string, w: string, w': string)
    requires IsName(f, q) && Braced(q) <= ['{'] + w && Braced(q) <= ['{'] + w'
    requires ReplaceAll(w, Braced(q), v) == w'
    ensures ReplaceAll(['{'] + w, Braced(q), v) == v + (['{'] + w')[|Braced(q)|..]
  {
    hide ReplaceAll;
    var p, body := Braced(q), q + "}";
    assert p == ['{'] + body && !f('{');
    var s, tail := (['{'] + w)[|p|..], (['{'] + w')[|p|..];
    assert ['{'] + w == p + s && ['{'] + w' == p + tail;
    assert w == body + s by { assert w == (['{'] + w)[1..] && (p + s)[1..] == body + s; }
    assert w' == body + tail by { assert w' == (['{'] + w')[1..] && (p + tail)[1..] == body + tail; }
    BodyIsKept(body, s, q, v);
    SameFront(body, ReplaceAll(s, p, v), tail);
    ReplaceStep(['{'] + w, p, v);
  }

  /** The placeholder that comes to begin at the place, and what is behind it when all is filled in. */
  lemma LastPass(f: WordChars, seg: Segment, back: seq<Segment>, names: seq<string>, vals: map<string, string>,
                 k: nat, last: string, done: seq<string>, others: seq<string>) returns (tail: string)
    requires LastIs(f, seg, back, names, vals, k, last) && StraysAt(seg, back, names, vals, k, done, last)
    requires Possible(names, others, last, vals) && forall n :: n in done ==> n in others
    ensures From(seg, back, k, others + [last], vals) == Braced(last) + tail
    ensures ReplaceAll(From(seg, back, k, others, vals), Braced(last), vals[last]) == vals[last] + tail
  {
    hide ReplaceAll, FillDirect, Own, NeverStrayInAnyOrder, StraysAt;
    assert IsName(f, last);
    var x, rest, rest' := Own(seg, vals)[k..], FillDirect(back, others, vals), FillDirect(back, others + [last], vals);
    FilledEnough(seg, back, names, vals, k, done, others, last);
    OwnAt(seg, back, names, vals, k, done, last);
    PlaceholderGrows(f, x, back, done, others, vals, last);
    PlaceholderGrows(f, x, back, done, others + [last], vals, last);
    TailIsDirect(f, seg, back, names, vals, k + 1, others, last);
    var y := Own(seg, vals)[k + 1..];
    assert x == ['{'] + y;
    Assoc(['{'], y, rest);
    Assoc(['{'], y, rest');
    ReplacedHead(f, last, vals[last], y + rest, y + rest');
    tail := (x + rest')[|Braced(last)|..];
    assert x + rest' == Braced(last) + tail;
  }

  lemma FilledEnough(seg: Segment, back: seq<Segment>, names: seq<string>, vals: map<string, string>,
                     k: nat, done: seq<string>, others: seq<string>, last: string)
    requires StraysAt(seg, back, names, vals, k, done, last) && forall n :: n in done ==> n in others
    ensures !IsHole(seg, others, vals) && !IsHole(seg, others + [last], vals)
  {
  }

  lemma EndsDiffer(a: string, v: string, b: string, p: string, tail: string)
    requires v != "" && p != "" && v[|v| - 1] != p[|p| - 1]
    ensures a + (v + tail) != b + (p + tail)
  {
    var x, y := a + (v + tail), b + (p + tail);
    if |x| == |y| {
      var i := |x| - |tail| - 1;
      assert x[i] == v[|v| - 1] && y[i] == p[|p| - 1];
    }
  }

  /** No value ends in a closing brace. */
  ghost predicate Firm(vals: map<string, string>) {
    forall n :: n in vals ==> vals[n] != "" && vals[n][|vals[n]| - 1] != '}'
  }

  lemma PlaceIsLast(f: WordChars, segs: seq<Segment>, names: seq<string>, vals: map<string, string>)
    returns (i: nat, k: nat, done: seq<string>, q: string)
    requires SegmentsOk(f, segs) && Solid(vals) && AllNames(f, names)
    requires !NeverStrayInAnyOrder(segs, names, vals)
    ensures i < |segs| && StraysAt(segs[i], segs[i + 1..], names, vals, k, done, q)
    ensures LastIs(f, segs[i], segs[i + 1..], names, vals, k, q)
  {
    i, k, done, q := LastSegment(segs, names, vals);
    var seg, back := segs[i], segs[i + 1..];
    hide NeverStrayInAnyOrder;
    k, done, q := LastPlace(seg, back, names, vals, k, done, q, |Own(seg, vals)|);
    OwnAt(seg, back, names, vals, k, done, q);
    forall done', q' | StraysAt(seg, back, names, vals, k, done', q')
      ensures q' == q
    {
      OneNameAt(f, seg, back, names, vals, k, done, q, done', q');
    }
  }

  lemma FromOpens(seg: Segment, back: seq<Segment>, k: nat, done: seq<string>, vals: map<string, string>)
    requires k < |Own(seg, vals)| && Own(seg, vals)[k] == '{'
    ensures From(seg, back, k, done, vals) != "" && From(seg, back, k, done, vals)[0] == '{'
  {
  }

  lemma CanComeLast(names: seq<string>, vals: map<string, string>, done: seq<string>, q: string, others: seq<string>)
    requires Possible(names, done, q, vals)
    requires Distinct(others) && forall n :: n in others <==> n in names && n != q
    ensures Possible(names, others, q, vals) && forall n :: n in done ==> n in others
  {
    forall n | n in done
      ensures n != q
    {
      var j :| 0 <= j < |done| && done[j] == n;
      assert (done + [q])[j] == n && (done + [q])[|done|] == q;
    }
  }

  /** With q last, its placeholder at the place has become its value. */
  lemma QGoesLast(f: WordChars, s: string, names: seq<string>, vals: map<string, string>,
                  i: nat, k: nat, done: seq<string>, q: string, others: seq<string>) returns (l: string, tail: string)
    requires i < |Scan(f, s)|
    requires StraysAt(Scan(f, s)[i], Scan(f, s)[i + 1..], names, vals, k, done, q)
    requires LastIs(f, Scan(f, s)[i], Scan(f, s)[i + 1..], names, vals, k, q)
    requires Distinct(others) && forall n :: n in others <==> n in names && n != q
    ensures q in vals && k <= |Own(Scan(f, s)[i], vals)|
    ensures From(Scan(f, s)[i], Scan(f, s)[i + 1..], k, others + [q], vals) == Braced(q) + tail
    ensures Sequential(s, others + [q], vals) == l + (vals[q] + tail)
  {
    hide Sequential, FillDirect, From, Own, NeverStrayInAnyOrder, NoneFrom, ReplaceAll;
    var segs := Scan(f, s);
    var seg, back := segs[i], segs[i + 1..];
    ScanRestores(f, s);
    NothingFilled(segs, vals);
    CanComeLast(names, vals, done, q, others);
    var l0 := SplitAtPlace(segs, i, k, [], vals);
    assert [] + others == others;
    var l1 := ChainFromPlace(f, seg, back, names, vals, k, q, [], others, l0);
    SequentialSnoc(s, others, q, vals);
    FromOpens(seg, back, k, others, vals);
    BraceParts(f, l1, From(seg, back, k, others, vals), q, vals[q]);
    tail := LastPass(f, seg, back, names, vals, k, q, done, others);
    l := ReplaceAll(l1, Braced(q), vals[q]);
  }

  /** With q first, its placeholder at the place stays. */
  lemma QGoesFirst(f: WordChars, s: string, names: seq<string>, vals: map<string, string>,
                   i: nat, k: nat, q: string, others: seq<string>) returns (m: string)
    requires i < |Scan(f, s)| && Listed(q, names, vals)
    requires LastIs(f, Scan(f, s)[i], Scan(f, s)[i + 1..], names, vals, k, q)
    requires Distinct(others) && forall n :: n in others <==> n in names && n != q
    ensures k <= |Own(Scan(f, s)[i], vals)|
    ensures Sequential(s, [q] + others, vals)
         == m + From(Scan(f, s)[i], Scan(f, s)[i + 1..], k, [q] + others, vals)
  {
    hide Sequential, FillDirect, From, Own, NeverStrayInAnyOrder, NoneFrom, ReplaceAll, Stray;
    var segs := Scan(f, s);
    var seg, back := segs[i], segs[i + 1..];
    ScanRestores(f, s);
    ScanIsCanonical(f, s);
    NothingFilled(segs, vals);
    NothingStraysAtFirst(f, s, q, vals);
    PassIsRightExactly(f, segs, [], q, vals);
    assert [] + [q] == [q];
    var l := SplitAtPlace(segs, i, k, [q], vals);
    m := ChainFromPlace(f, seg, back, names, vals, k, q, [q], others, l);
    OneFirst(s, q, others, vals);
  }

  lemma OneFirst(s: string, q: string, others: seq<string>, vals: map<string, string>)
    ensures Sequential(s, [q] + others, vals) == Sequential(Pass(s, q, vals), others, vals)
  {
    assert ([q] + others)[1..] == others;
  }

  lemma SameFrom(seg: Segment, back: seq<Segment>, k: nat, a: seq<string>, b: seq<string>, vals: map<string, string>)
    requires k <= |Own(seg, vals)| && forall n :: n in a <==> n in b
    ensures From(seg, back, k, a, vals) == From(seg, back, k, b, vals)
  {
    DirectIgnoresOrder(back, a, b, vals);
  }

  /** Put last and put first, the parameter gives two results. */
  lemma LastAndFirstPart(f: WordChars, s: string, names: seq<string>, vals: map<string, string>,
                         i: nat, k: nat, done: seq<string>, q: string, others: seq<string>)
    requires Firm(vals) && i < |Scan(f, s)|
    requires StraysAt(Scan(f, s)[i], Scan(f, s)[i + 1..], names, vals, k, done, q)
    requires LastIs(f, Scan(f, s)[i], Scan(f, s)[i + 1..], names, vals, k, q)
    requires Distinct(others) && forall n :: n in others <==> n in names && n != q
    ensures Sequential(s, others + [q], vals) != Sequential(s, [q] + others, vals)
  {
    hide Sequential, FillDirect, From, Own, LastIs;
    var l, tail := QGoesLast(f, s, names, vals, i, k, done, q, others);
    var m := QGoesFirst(f, s, names, vals, i, k, q, others);
    SameFrom(Scan(f, s)[i], Scan(f, s)[i + 1..], k, [q] + others, others + [q], vals);
    EndsDiffer(l, vals[q], m, Braced(q), tail);
  }

  /**
  On any template the order of the list is free exactly when, whatever parameters are
  filled in, no other one's placeholder begins in literal text or in a value.
  */
  lemma OrderIsFreeOnAnyTemplate(f: WordChars, s: string, names: seq<string>, vals: map<string, string>)
    requires AllNames(f, names) && Solid(vals) && Firm(vals) && Distinct(names)
    ensures OrderIsFree(s, names, vals) <==> NeverStrayInAnyOrder(Scan(f, s), names, vals)
  {
    hide NeverStrayInAnyOrder, Sequential, FillDirect, Distinct;
    if NeverStrayInAnyOrder(Scan(f, s), names, vals) {
      EveryOrderExactly(f, s, names, vals);
      OneResult(f, s, names, vals);
    } else {
      ScanIsCanonical(f, s);
      var i, k, done, q := PlaceIsLast(f, Scan(f, s), names, vals);
      WithoutOne(names, q);
      var others := Without(names, q);
      LastAndFirstPart(f, s, names, vals, i, k, done, q, others);
      TwoReorderings(names, q, others);
    }
  }

  lemma OneResult(f: WordChars, s: string, names: seq<string>, vals: map<string, string>)
    requires EveryOrderIsOnePass(f, s, names, vals) && Distinct(names)
    ensures OrderIsFree(s, names, vals)
  {
    assert Reorders(names, names);
  }

  lemma TwoReorderings(names: seq<string>, q: string, others: seq<string>)
    requires q in names && Distinct(others) && forall n :: n in others <==> n in names && n != q
    ensures Reorders(names, others + [q]) && Reorders(names, [q] + others)
  {
  }

  // ---------------------------------------------------------------- the values the server prints

  lemma PrintedIsFirm(p: Param)
    requires ParamToSql(p).Ok?
    ensures
      var v := ParamToSql(p).value;
      v != "" && v[|v| - 1] != '}'
  {
    match p
    case Single(Number(n)) => assert NumeralChar(n[|n| - 1]);
    case Single(Str(t)) => LastOfJoin("'", Escape(t), '\'');
    case Single(_) =>
    case List(items) =>
      if AllRows(items) {
        JoinedRowsEnd(CellsOf(items));
      } else {
        LastOfJoin("[", Join(Map(ScalarToSql, ValuesOf(items)), ", "), ']');
      }
  }

  /** The order of the server's list is free exactly then, on any template and for all values it can print. */
  lemma ServerOrderIsFreeExactly(f: WordChars, s: string, names: seq<string>, params: map<string, Param>)
    requires AllNames(f, names) && Distinct(names)
    ensures OrderIsFree(s, names, Printed(params)) <==> NeverStrayInAnyOrder(Scan(f, s), names, Printed(params))
  {
    AllPrintedAreTame(f, params);
    forall n | n in Printed(params)
      ensures Printed(params)[n] != "" && Printed(params)[n][|Printed(params)[n]| - 1] != '}'
    {
      PrintedIsFirm(params[n]);
    }
    OrderIsFreeOnAnyTemplate(f, s, names, Printed(params));
  }
}
