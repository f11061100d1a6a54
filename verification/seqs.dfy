/** Sequence vocabulary used across the model: order-preserving filtering,
    duplicate removal in first-occurrence order (`Array.from(new Set(xs))`),
    prefixes and subsequences. */
module Seqs {

  /** `a` can be obtained from `b` by deleting elements, keeping the order. */
  ghost predicate IsSubseq<T>(a: seq<T>, b: seq<T>)
    decreases |b|
  {
    if |a| == 0 then true
    else if |b| == 0 then false
    else (a[0] == b[0] && IsSubseq(a[1..], b[1..])) || IsSubseq(a, b[1..])
  }

  predicate NoDups<T(==)>(s: seq<T>) {
    forall i, j :: 0 <= i < j < |s| ==> s[i] != s[j]
  }

  /** `xs.filter(p)`. */
  function Filter<T>(s: seq<T>, p: T -> bool): (r: seq<T>)
    ensures |r| <= |s|
    ensures forall i :: 0 <= i < |r| ==> r[i] in s && p(r[i])
    ensures forall i :: 0 <= i < |s| && p(s[i]) ==> s[i] in r
    ensures IsSubseq(r, s)
  {
    if |s| == 0 then []
    else if p(s[0]) then [s[0]] + Filter(s[1..], p)
    else Filter(s[1..], p)
  }

  lemma {:induction false} FilterAppend<T>(a: seq<T>, b: seq<T>, p: T -> bool)
    ensures Filter(a + b, p) == Filter(a, p) + Filter(b, p)
  {
    if |a| == 0 {
      assert a + b == b;
    } else {
      assert (a + b)[0] == a[0];
      assert (a + b)[1..] == a[1..] + b;
      FilterAppend(a[1..], b, p);
      if p(a[0]) {
        calc {
          Filter(a + b, p);
          [a[0]] + Filter(a[1..] + b, p);
          [a[0]] + (Filter(a[1..], p) + Filter(b, p));
        }
      }
    }
  }

  /** A filter that keeps everything changes nothing. */
  lemma {:induction false} FilterAll<T>(s: seq<T>, p: T -> bool)
    requires forall i :: 0 <= i < |s| ==> p(s[i])
    ensures Filter(s, p) == s
  {
    if |s| > 0 {
      var tail := s[1..];
      assert forall i :: 0 <= i < |tail| ==> tail[i] == s[i + 1];
      FilterAll(tail, p);
      assert p(s[0]);
      assert s == [s[0]] + tail;
    }
  }

  /** Position of the first occurrence. */
  function IndexOf<T(==)>(s: seq<T>, x: T): (k: nat)
    requires x in s
    ensures k < |s| && s[k] == x
    ensures forall j :: 0 <= j < k ==> s[j] != x
  {
    if s[0] == x then 0 else 1 + IndexOf(s[1..], x)
  }

  lemma IndexOfPrefix<T>(p: seq<T>, q: seq<T>, x: T)
    requires x in p
    ensures IndexOf(p + q, x) == IndexOf(p, x)
  {
    var k := IndexOf(p, x);
    assert (p + q)[k] == x;
  }

  /** `Array.from(new Set(s))`: each value once, at the position of its
      first occurrence. */
  function Dedupe<T(==)>(s: seq<T>): (r: seq<T>)
    ensures NoDups(r)
    ensures forall i :: 0 <= i < |r| ==> r[i] in s
    ensures forall i :: 0 <= i < |s| ==> s[i] in r
    ensures |r| <= |s|
    ensures forall i, j :: 0 <= i < j < |r| ==> IndexOf(s, r[i]) < IndexOf(s, r[j])
  {
    if |s| == 0 then []
    else
      var init := s[..|s| - 1];
      var last := s[|s| - 1];
      var r := Dedupe(init);
      assert s == init + [last];
      forall y | y in init
        ensures IndexOf(s, y) == IndexOf(init, y)
      {
        IndexOfPrefix(init, [last], y);
      }
      if last in r then r
      else
        assert IndexOf(s, last) == |s| - 1;
        r + [last]
  }

  /** A sequence without duplicates is its own deduplication. */
  lemma {:induction false} DedupeOfDistinct<T>(s: seq<T>)
    requires NoDups(s)
    ensures Dedupe(s) == s
  {
    if |s| > 0 {
      var init := s[..|s| - 1];
      DedupeOfDistinct(init);
      DedupeStep(s);
      assert s[|s| - 1] !in init;
      assert s == init + [s[|s| - 1]];
    }
  }

  /** One step of `Dedupe`: the last element is kept when it is new. */
  lemma DedupeStep<T>(s: seq<T>)
    requires |s| > 0
    ensures var init := s[..|s| - 1];
            Dedupe(s) == if s[|s| - 1] in Dedupe(init) then Dedupe(init) else Dedupe(init) + [s[|s| - 1]]
  {
  }

  /** Deduplication is idempotent. */
  lemma DedupeIdempotent<T>(s: seq<T>)
    ensures Dedupe(Dedupe(s)) == Dedupe(s)
  {
    DedupeOfDistinct(Dedupe(s));
  }

  /** `s.slice(0, n)`. */
  function Take<T>(s: seq<T>, n: nat): (r: seq<T>)
    ensures |r| == if n < |s| then n else |s|
    ensures r <= s
  {
    if n < |s| then s[..n] else s
  }

  /** Filtering keeps the relative order of first occurrences. */
  lemma {:induction false} FilterKeepsOrder<T>(s: seq<T>, p: T -> bool, x: T, y: T)
    requires x in Filter(s, p) && y in Filter(s, p)
    ensures IndexOf(Filter(s, p), x) < IndexOf(Filter(s, p), y) <==> IndexOf(s, x) < IndexOf(s, y)
  {
    if p(s[0]) {
      if s[0] != x && s[0] != y {
        FilterKeepsOrder(s[1..], p, x, y);
      }
    } else {
      FilterKeepsOrder(s[1..], p, x, y);
    }
  }

  /** One more value at the end is kept exactly when it is new. */
  lemma DedupeSnoc<T>(s: seq<T>, x: T)
    ensures Dedupe(s + [x]) == if x in Dedupe(s) then Dedupe(s) else Dedupe(s) + [x]
  {
    var u := s + [x];
    assert u[..|u| - 1] == s;
    assert u[|u| - 1] == x;
  }

  /** Appending values already present does not change the deduplication. */
  lemma {:induction false} DedupeAbsorbs<T>(s: seq<T>, t: seq<T>)
    requires forall i :: 0 <= i < |t| ==> t[i] in s
    ensures Dedupe(s + t) == Dedupe(s)
    decreases |t|
  {
    if |t| == 0 {
      assert s + t == s;
    } else {
      var t' := t[..|t| - 1];
      var x := t[|t| - 1];
      assert s + t == (s + t') + [x];
      DedupeAbsorbs(s, t');
      DedupeSnoc(s + t', x);
      assert x in Dedupe(s);
    }
  }

  /** Deduplication only ever appends: what `a` deduplicates to stays at
      the front when more values follow. */
  lemma {:induction false} DedupePrefix<T>(a: seq<T>, b: seq<T>)
    ensures Dedupe(a) <= Dedupe(a + b)
    decreases |b|
  {
    if |b| == 0 {
      assert a + b == a;
    } else {
      var b' := b[..|b| - 1];
      assert a + b == (a + b') + [b[|b| - 1]];
      DedupePrefix(a, b');
      DedupeSnoc(a + b', b[|b| - 1]);
    }
  }

  /** Splitting off the head of the left operand of a concatenation. */
  lemma AppendHead<T>(a: seq<T>, b: seq<T>)
    requires |a| > 0
    ensures a + b == [a[0]] + (a[1..] + b)
    ensures (a + b)[0] == a[0] && (a + b)[1..] == a[1..] + b
  {
    assert a == [a[0]] + a[1..];
  }

  /** A filter that keeps nothing gives the empty sequence. */
  lemma {:induction false} FilterNone<T>(s: seq<T>, p: T -> bool)
    requires forall i :: 0 <= i < |s| ==> !p(s[i])
    ensures Filter(s, p) == []
  {
    if |s| > 0 {
      var tail := s[1..];
      assert forall i :: 0 <= i < |tail| ==> tail[i] == s[i + 1];
      FilterNone(tail, p);
    }
  }

  /** Dropping a front part the filter rejects does not change it. */
  lemma FilterDropPrefix<T>(s: seq<T>, k: nat, p: T -> bool)
    requires k <= |s| && forall i :: 0 <= i < k ==> !p(s[i])
    ensures Filter(s[k..], p) == Filter(s, p)
  {
    var front := s[..k];
    assert s == front + s[k..];
    FilterAppend(front, s[k..], p);
    FilterNone(front, p);
  }

  /** Dropping a back part the filter rejects does not change it. */
  lemma FilterDropSuffix<T>(s: seq<T>, k: nat, p: T -> bool)
    requires k <= |s| && forall i :: k <= i < |s| ==> !p(s[i])
    ensures Filter(s[..k], p) == Filter(s, p)
  {
    var back := s[k..];
    assert s == s[..k] + back;
    FilterAppend(s[..k], back, p);
    assert forall i :: 0 <= i < |back| ==> back[i] == s[k + i];
    FilterNone(back, p);
  }

  /** `Filter` keeps every copy of a value it accepts and none of a value
      it rejects. */
  lemma {:induction false} FilterCount<T>(s: seq<T>, p: T -> bool)
    ensures forall x :: multiset(Filter(s, p))[x] == if p(x) then multiset(s)[x] else 0
  {
    if |s| > 0 {
      var tail := s[1..];
      FilterCount(tail, p);
      assert s == [s[0]] + tail;
      assert multiset(s) == multiset{s[0]} + multiset(tail);
      if p(s[0]) {
        assert multiset(Filter(s, p)) == multiset{s[0]} + multiset(Filter(tail, p));
      }
    }
  }
}
