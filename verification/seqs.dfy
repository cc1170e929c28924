/**
  Sequence helpers on particle ids mirroring the JavaScript array operations the playground
  uses on its particle collections: `indexOf`, `splice(start, 1)` (with the
  JavaScript treatment of a negative start), the guarded
  "indexOf, then splice if found" removal, and `filter`.
 */
module Seqs {

  /** Particle identities (the JavaScript code compares object references). */
  type Id = nat

  /** No element occurs twice. */
  ghost predicate Distinct(s: seq<Id>) {
    forall i, j :: 0 <= i < j < |s| ==> s[i] != s[j]
  }

  /** Dropping the head of a duplicate-free sequence leaves a duplicate-free
      sequence without the head. */
  lemma DistinctTail(s: seq<Id>)
    requires Distinct(s) && |s| > 0
    ensures s[0] !in s[1..] && Distinct(s[1..])
  {
    assert forall k :: 0 <= k < |s| - 1 ==> s[1..][k] == s[k + 1];
  }

  /** The elements of a sequence, as a set. */
  function Elems(s: seq<Id>): set<Id> {
    set x | x in s
  }

  /** `a` can be obtained from `b` by deleting elements: order is kept. */
  ghost predicate Subsequence(a: seq<Id>, b: seq<Id>)
    decreases |b|
  {
    |a| == 0 || (|b| > 0 && if a[0] == b[0] then Subsequence(a[1..], b[1..]) else Subsequence(a, b[1..]))
  }

  /** `Array.prototype.indexOf`: the first position of `x`, or -1 when absent. */
  function IndexOf(s: seq<Id>, x: Id): (i: int)
    ensures -1 <= i < |s|
    ensures i == -1 <==> x !in s
    ensures 0 <= i ==> s[i] == x && x !in s[..i]
  {
    if |s| == 0 then -1
    else if s[0] == x then 0
    else
      var j := IndexOf(s[1..], x);
      if j == -1 then -1
      else
        assert s[..j + 1] == [s[0]] + s[1..][..j];
        j + 1
  }

  /** The index `splice(start, 1)` actually deletes at: a negative start counts
      from the end and is clamped at 0. */
  function SpliceStart(len: nat, start: int): nat {
    if start >= 0 then start else if len + start < 0 then 0 else len + start
  }

  /** `Array.prototype.splice(start, 1)`: delete one element at the normalised
      start, or nothing when that lies past the end. Exactly the element at
      that position goes (`SpliceAt` gives the positions of the rest). */
  function SpliceOne(s: seq<Id>, start: int): (r: seq<Id>)
    ensures SpliceStart(|s|, start) < |s| ==> |r| == |s| - 1
    ensures var k := SpliceStart(|s|, start);
      k < |s| ==> multiset(r) + multiset{s[k]} == multiset(s)
    ensures SpliceStart(|s|, start) >= |s| ==> r == s
  {
    var k := SpliceStart(|s|, start);
    if k < |s| then
      assert s == s[..k] + [s[k]] + s[k + 1..];
      s[..k] + s[k + 1..]
    else s
  }

  /** The guarded removal every careful path uses:
      `const i = a.indexOf(x); if (i !== -1) a.splice(i, 1);` */
  function Remove(s: seq<Id>, x: Id): (r: seq<Id>)
    ensures x !in s ==> r == s
    ensures Distinct(s) ==> r == Without(s, {x})
    ensures forall y :: y != x ==> (y in r <==> y in s)
    ensures forall y :: y in r ==> y in s
    ensures x in s ==> |r| == |s| - 1
  {
    var i := IndexOf(s, x);
    if i != -1 then
      RemoveIsWithout(s, x);
      assert s == s[..i] + [s[i]] + s[i + 1..];
      SpliceOne(s, i)
    else
      WithoutNothing(s, {x});
      s
  }

  /** `s.filter(y => !xs.has(y))`: drop every element of `xs`, keep the rest in order. */
  function Without(s: seq<Id>, xs: set<Id>): (r: seq<Id>)
    ensures forall y :: y in r <==> y in s && y !in xs
    ensures |r| <= |s|
    ensures Distinct(s) ==> Distinct(r)
    decreases |s|
  {
    if |s| == 0 then []
    else
      var rest := Without(s[1..], xs);
      if s[0] in xs then rest
      else
        assert Distinct(s) ==> s[0] !in s[1..];
        [s[0]] + rest
  }

  lemma {:induction false} WithoutNothing(s: seq<Id>, xs: set<Id>)
    requires forall y :: y in s ==> y !in xs
    ensures Without(s, xs) == s
    decreases |s|
  {
    if |s| > 0 {
      WithoutNothing(s[1..], xs);
      assert s == [s[0]] + s[1..];
    }
  }

  /** Filtering keeps the survivors in their original relative order. */
  lemma {:induction false} WithoutIsSubsequence(s: seq<Id>, xs: set<Id>)
    ensures Subsequence(Without(s, xs), s)
    decreases |s|
  {
    if |s| > 0 {
      WithoutIsSubsequence(s[1..], xs);
      var rest := Without(s[1..], xs);
      if s[0] !in xs {
        assert Without(s, xs) == [s[0]] + rest;
        assert ([s[0]] + rest)[1..] == rest;
      }
    }
  }

  lemma {:induction false} WithoutAppend(a: seq<Id>, b: seq<Id>, xs: set<Id>)
    ensures Without(a + b, xs) == Without(a, xs) + Without(b, xs)
    decreases |a|
  {
    if |a| == 0 {
      assert a + b == b;
    } else {
      assert (a + b)[1..] == a[1..] + b;
      WithoutAppend(a[1..], b, xs);
    }
  }

  lemma {:induction false} WithoutTwice(s: seq<Id>, xs: set<Id>, ys: set<Id>)
    ensures Without(Without(s, xs), ys) == Without(s, xs + ys)
    decreases |s|
  {
    if |s| > 0 {
      WithoutTwice(s[1..], xs, ys);
      var inner := Without(s[1..], xs);
      if s[0] !in xs {
        assert Without(s, xs) == [s[0]] + inner;
        assert ([s[0]] + inner)[1..] == inner;
      }
    }
  }

  /** On a duplicate-free sequence, the guarded removal deletes exactly `x`. */
  lemma RemoveIsWithout(s: seq<Id>, x: Id)
    ensures Distinct(s) && IndexOf(s, x) != -1 ==> SpliceOne(s, IndexOf(s, x)) == Without(s, {x})
  {
    if Distinct(s) && x in s {
      SpliceIsWithout(s, x);
    }
  }

  lemma {:induction false} SpliceIsWithout(s: seq<Id>, x: Id)
    requires Distinct(s) && x in s
    ensures SpliceOne(s, IndexOf(s, x)) == Without(s, {x})
    decreases |s|
  {
    if s[0] == x {
      assert SpliceOne(s, 0) == s[1..];
      assert x !in s[1..] by {
        forall k | 1 <= k < |s| ensures s[k] != s[0] { }
      }
      WithoutNothing(s[1..], {x});
    } else {
      var t := s[1..];
      assert Distinct(t);
      SpliceIsWithout(t, x);
      SpliceCons(s, x);
      WithoutCons(s, {x});
    }
  }

  /** Past a head other than `x`, the unguarded splice works on the tail. */
  lemma SpliceCons(s: seq<Id>, x: Id)
    requires |s| > 0 && s[0] != x && x in s
    ensures SpliceOne(s, IndexOf(s, x)) == [s[0]] + SpliceOne(s[1..], IndexOf(s[1..], x))
  {
    var t := s[1..];
    IndexOfCons(s, x);
    var j := IndexOf(t, x);
    SpliceAt(s, j + 1);
    SpliceAt(t, j);
    CutCons(s, j);
  }

  lemma SpliceAt(s: seq<Id>, k: nat)
    requires k < |s|
    ensures SpliceOne(s, k) == s[..k] + s[k + 1..]
  {
  }

  lemma IndexOfCons(s: seq<Id>, x: Id)
    requires |s| > 0 && s[0] != x && x in s
    ensures IndexOf(s, x) == IndexOf(s[1..], x) + 1
    ensures 0 <= IndexOf(s[1..], x)
  {
    assert x in s[1..];
  }

  lemma CutCons(s: seq<Id>, j: nat)
    requires j + 1 < |s|
    ensures s[..j + 1] + s[j + 2..] == [s[0]] + (s[1..][..j] + s[1..][j + 1..])
  {
    var t := s[1..];
    assert s[..j + 1] == [s[0]] + t[..j];
    assert s[j + 2..] == t[j + 1..];
  }

  /** A head that is not filtered out stays in front. */
  lemma WithoutCons(s: seq<Id>, xs: set<Id>)
    requires |s| > 0 && s[0] !in xs
    ensures Without(s, xs) == [s[0]] + Without(s[1..], xs)
  {
  }

  /** On a duplicate-free sequence, removing the element at position `i` keeps
      everything before and after it. */
  lemma RemoveAt(s: seq<Id>, i: nat)
    requires Distinct(s) && i < |s|
    ensures Remove(s, s[i]) == s[..i] + s[i + 1..]
  {
    var k := IndexOf(s, s[i]);
    assert k == i;
    assert SpliceOne(s, i) == s[..i] + s[i + 1..];
  }

  /** The unguarded `splice(indexOf(x), 1)` is the guarded removal when `x` is present. */
  lemma SpliceFound(s: seq<Id>, x: Id)
    requires Distinct(s) && x in s
    ensures SpliceOne(s, IndexOf(s, x)) == Remove(s, x) == Without(s, {x})
  {
  }

  /** ... and deletes the LAST element when `x` is absent, since `indexOf` gives -1. */
  lemma SpliceMissingDropsLast(s: seq<Id>, x: Id)
    requires x !in s && |s| > 0
    ensures SpliceOne(s, IndexOf(s, x)) == s[..|s| - 1]
    ensures s[|s| - 1] !in SpliceOne(s, IndexOf(s, x)) || !Distinct(s)
  {
  }
}
