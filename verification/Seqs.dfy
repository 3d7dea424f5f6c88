/** Facts about mapping a function over a sequence, stated on multisets of elements. */
module Seqs {

  function Map<A, B>(f: A -> B, s: seq<A>): seq<B> {
    seq(|s|, i requires 0 <= i < |s| => f(s[i]))
  }

  lemma MapConcat<A, B>(f: A -> B, s: seq<A>, t: seq<A>)
    ensures Map(f, s + t) == Map(f, s) + Map(f, t)
  {
  }

  /** The position of an element that a sequence is known to hold. */
  lemma IndexOf<T>(s: seq<T>, x: T) returns (k: nat)
    requires x in multiset(s)
    ensures k < |s| && s[k] == x
  {
    k :| 0 <= k < |s| && s[k] == x;
  }

  lemma RemoveAt<T>(s: seq<T>, k: nat)
    requires k < |s|
    ensures multiset(s) == multiset(s[..k] + s[k + 1..]) + multiset{s[k]}
  {
    assert s == s[..k] + [s[k]] + s[k + 1..];
  }

  lemma SplitHead<T>(s: seq<T>)
    requires s != []
    ensures multiset(s) == multiset(s[1..]) + multiset{s[0]}
  {
    assert s == [s[0]] + s[1..];
  }

  lemma CancelOne<T>(a: multiset<T>, b: multiset<T>, x: T)
    requires a + multiset{x} == b + multiset{x}
    ensures a == b
  {
    assert a == (a + multiset{x}) - multiset{x};
    assert b == (b + multiset{x}) - multiset{x};
  }

  /** A rearrangement of the arguments rearranges the images. */
  lemma {:induction false} MapPermutation<A, B>(f: A -> B, s: seq<A>, t: seq<A>)
    requires multiset(s) == multiset(t)
    ensures multiset(Map(f, s)) == multiset(Map(f, t))
    decreases |s|
  {
    if s == [] {
      assert |multiset(t)| == 0;
      assert t == [];
    } else {
      SplitHead(s);
      var k := IndexOf(t, s[0]);
      RemoveAt(t, k);
      var rest := t[..k] + t[k + 1..];
      CancelOne(multiset(s[1..]), multiset(rest), s[0]);
      MapPermutation(f, s[1..], rest);
      MapAround(f, t, k);
      assert Map(f, s) == [f(s[0])] + Map(f, s[1..]);
    }
  }

  lemma MapAround<A, B>(f: A -> B, t: seq<A>, k: nat)
    requires k < |t|
    ensures multiset(Map(f, t)) == multiset(Map(f, t[..k] + t[k + 1..])) + multiset{f(t[k])}
  {
    var m := Map(f, t);
    RemoveAt(m, k);
    assert m[..k] + m[k + 1..] == Map(f, t[..k] + t[k + 1..]);
  }

  /** Injective on the elements of the two sequences: no two of them share an image. */
  ghost predicate InjectiveOn<A, B>(f: A -> B, s: seq<A>) {
    forall x, y | x in s && y in s :: f(x) == f(y) ==> x == y
  }

  /** Equal multisets of images come from equal multisets of arguments. */
  lemma {:induction false} MapCancel<A, B>(f: A -> B, s: seq<A>, t: seq<A>)
    requires InjectiveOn(f, s + t)
    requires multiset(Map(f, s)) == multiset(Map(f, t))
    ensures multiset(s) == multiset(t)
    decreases |s|
  {
    assert |Map(f, s)| == |multiset(Map(f, s))| == |Map(f, t)|;
    if s == [] {
      assert t == [];
    } else {
      var m, n := Map(f, s), Map(f, t);
      assert m[0] in multiset(m);
      var k := IndexOf(n, m[0]);
      assert s[0] in s + t && t[k] in s + t;
      assert s[0] == t[k];
      SplitHead(s);
      SplitHead(m);
      assert m[1..] == Map(f, s[1..]);
      RemoveAt(t, k);
      MapAround(f, t, k);
      var rest := t[..k] + t[k + 1..];
      assert forall x | x in s[1..] + rest :: x in s + t;
      CancelOne(multiset(Map(f, s[1..])), multiset(Map(f, rest)), m[0]);
      MapCancel(f, s[1..], rest);
    }
  }

  /** Pairwise different elements. */
  ghost predicate Distinct<T>(s: seq<T>) {
    forall i, j | 0 <= i < j < |s| :: s[i] != s[j]
  }

  lemma {:induction false} DistinctCount<T>(s: seq<T>, x: T)
    requires Distinct(s)
    ensures multiset(s)[x] == if x in s then 1 else 0
    decreases |s|
  {
    if s != [] {
      SplitHead(s);
      DistinctCount(s[1..], x);
      assert x in s <==> x == s[0] || x in s[1..];
    }
  }

  lemma CountTwice<T>(s: seq<T>, i: nat, j: nat)
    requires i < j < |s| && s[i] == s[j]
    ensures multiset(s)[s[i]] >= 2
  {
    assert s == s[..j] + s[j..];
    assert s[..j][i] in multiset(s[..j]) && s[j..][0] in multiset(s[j..]);
  }

  lemma DistinctPermutes<T>(s: seq<T>, t: seq<T>)
    requires multiset(s) == multiset(t) && Distinct(s)
    ensures Distinct(t)
  {
    forall i, j | 0 <= i < j < |t|
      ensures t[i] != t[j]
    {
      if t[i] == t[j] {
        DistinctCount(s, t[i]);
        CountTwice(t, i, j);
      }
    }
  }

  /** Distinct elements drawn from another sequence occur in it at least as often. */
  lemma DistinctSub<T>(s: seq<T>, t: seq<T>)
    requires Distinct(s)
    requires forall x | x in s :: x in t
    ensures multiset(s) <= multiset(t)
  {
    forall x
      ensures multiset(s)[x] <= multiset(t)[x]
    {
      DistinctCount(s, x);
      if x in s {
        assert x in multiset(t);
      }
    }
  }

  /** A pigeonhole: a sub-multiset of the same size is the whole. */
  lemma SubOfSameSize<T>(a: multiset<T>, b: multiset<T>)
    requires a <= b && |a| >= |b|
    ensures a == b
  {
    assert b == a + (b - a);
    assert |b - a| == 0;
  }

  /** What LIMIT and OFFSET select. */
  function Window<T>(s: seq<T>, limit: nat, offset: nat): seq<T> {
    if offset >= |s| then []
    else if offset + limit <= |s| then s[offset..offset + limit]
    else s[offset..]
  }

  function Filter<T>(p: T -> bool, s: seq<T>): (r: seq<T>)
    ensures forall x | x in r :: p(x) && x in s
  {
    if s == [] then []
    else (if p(s[0]) then [s[0]] else []) + Filter(p, s[1..])
  }

  lemma {:induction false} FilterConcat<T>(p: T -> bool, s: seq<T>, t: seq<T>)
    ensures Filter(p, s + t) == Filter(p, s) + Filter(p, t)
  {
    if s == [] {
      assert s + t == t;
    } else {
      assert (s + t)[1..] == s[1..] + t;
      FilterConcat(p, s[1..], t);
    }
  }

  lemma {:induction false} FilterAll<T>(p: T -> bool, s: seq<T>)
    requires forall i | 0 <= i < |s| :: p(s[i])
    ensures Filter(p, s) == s
  {
    if s != [] {
      FilterAll(p, s[1..]);
      assert s == [s[0]] + s[1..];
    }
  }

  lemma {:induction false} FilterCount<T>(p: T -> bool, s: seq<T>, x: T)
    ensures multiset(Filter(p, s))[x] == if p(x) then multiset(s)[x] else 0
  {
    if s != [] {
      FilterCount(p, s[1..], x);
      SplitHead(s);
    }
  }

  lemma FilterAround<T>(p: T -> bool, t: seq<T>, front: seq<T>, x: seq<T>, back: seq<T>)
    requires t == front + (x + back)
    ensures multiset(Filter(p, t)) == multiset(Filter(p, front + back)) + multiset(Filter(p, x))
  {
    FilterConcat(p, front, x + back);
    FilterConcat(p, x, back);
    FilterConcat(p, front, back);
    MiddleOut(Filter(p, front), Filter(p, x), Filter(p, back));
  }

  lemma SplitAt<T>(t: seq<T>, k: nat)
    requires k < |t|
    ensures t == t[..k] + ([t[k]] + t[k + 1..])
  {
  }

  lemma FilterHead<T>(p: T -> bool, s: seq<T>)
    requires s != []
    ensures multiset(Filter(p, s)) == multiset(Filter(p, s[1..])) + multiset(Filter(p, [s[0]]))
  {
    assert [s[0]][1..] == [];
  }

  lemma MiddleOut<T>(a: seq<T>, m: seq<T>, b: seq<T>)
    ensures multiset(a + (m + b)) == multiset(a + b) + multiset(m)
  {
  }

  /** A rearrangement of a sequence rearranges what is filtered from it. */
  lemma {:induction false} FilterPermutation<T>(p: T -> bool, s: seq<T>, t: seq<T>)
    requires multiset(s) == multiset(t)
    ensures multiset(Filter(p, s)) == multiset(Filter(p, t))
    decreases |s|
  {
    if s == [] {
      assert |multiset(t)| == 0;
      assert t == [];
    } else {
      SplitHead(s);
      var k := IndexOf(t, s[0]);
      RemoveAt(t, k);
      var rest := t[..k] + t[k + 1..];
      CancelOne(multiset(s[1..]), multiset(rest), s[0]);
      FilterPermutation(p, s[1..], rest);
      SplitAt(t, k);
      FilterAround(p, t, t[..k], [t[k]], t[k + 1..]);
      FilterHead(p, s);
    }
  }
}
