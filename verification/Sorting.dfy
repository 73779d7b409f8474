/** sort.Strings and the bookkeeping of permutations: a sorted sequence is determined by the
    multiset it holds, and mapping a function respects permutation. */
module Sorting {
  import opened GoStrings

  // ---------------------------------------------------------------- sorting

  predicate Sorted(s: seq<string>) {
    forall i, j :: 0 <= i < j < |s| ==> Compare(s[i], s[j]) <= 0
  }

  lemma SortedCons(x: string, s: seq<string>)
    requires Sorted(s) && (s != [] ==> Compare(x, s[0]) <= 0)
    ensures Sorted([x] + s)
  {
    forall j | 0 <= j < |s| ensures Compare(x, s[j]) <= 0 {
      if j > 0 { CompareTrans(x, s[0], s[j]); }
    }
    hide Compare;
  }

  lemma SortedTail(s: seq<string>)
    requires Sorted(s) && s != []
    ensures Sorted(s[1..]) && multiset(s) == multiset(s[1..]) + multiset{s[0]}
    ensures |s| > 1 ==> Compare(s[0], s[1]) <= 0
  {
    hide Compare;
    assert s == [s[0]] + s[1..];
  }

  function Insert(x: string, s: seq<string>): (r: seq<string>)
    requires Sorted(s)
    ensures multiset(r) == multiset(s) + multiset{x} && Sorted(r)
    ensures r != [] && (r[0] == x || (s != [] && r[0] == s[0]))
  {
    hide Compare, Sorted;
    if s == [] then
      SortedCons(x, s);
      assert [x] + s == [x];
      [x]
    else if Compare(x, s[0]) <= 0 then
      SortedCons(x, s);
      [x] + s
    else
      SortedTail(s);
      CompareSign(x, s[0]);
      var rest := Insert(x, s[1..]);
      SortedCons(s[0], rest);
      [s[0]] + rest
  }

  /** sort.Strings: bytewise order. */
  function SortStrings(s: seq<string>): (r: seq<string>)
    ensures multiset(r) == multiset(s) && Sorted(r)
  {
    if s == [] then []
    else
      assert s == [s[0]] + s[1..];
      Insert(s[0], SortStrings(s[1..]))
  }

  /** A sorted sequence is determined by what it holds. */
  lemma {:induction false} SortedUnique(a: seq<string>, b: seq<string>)
    requires Sorted(a) && Sorted(b) && multiset(a) == multiset(b)
    ensures a == b
  {
    hide *;
    SameSize(a, b);
    if a != [] {
      SortedLeast(a, b);
      SortedLeast(b, a);
      CompareSign(a[0], b[0]);
      SortedTail(a);
      SortedTail(b);
      Cancel(multiset(a[1..]), multiset(b[1..]), a[0]);
      SortedUnique(a[1..], b[1..]);
      assert a == [a[0]] + a[1..] && b == [b[0]] + b[1..];
    }
  }

  lemma SameSize<A>(a: seq<A>, b: seq<A>)
    requires multiset(a) == multiset(b)
    ensures |a| == |b|
  {
    assert |a| == |multiset(a)| && |b| == |multiset(b)|;
  }

  lemma SortedLeast(a: seq<string>, b: seq<string>)
    requires Sorted(a) && a != [] && b != [] && multiset(a) == multiset(b)
    ensures Compare(a[0], b[0]) <= 0
  {
    hide Compare;
    assert b[0] in multiset(b);
    assert b[0] in a;
    var i :| 0 <= i < |a| && a[i] == b[0];
    assert Compare(a[0], a[0]) == 0;
  }

  // ---------------------------------------------------------------- permutations

  function Map<A, B>(f: A -> B, s: seq<A>): (r: seq<B>)
    ensures |r| == |s| && forall i :: 0 <= i < |s| ==> r[i] == f(s[i])
  {
    seq(|s|, i requires 0 <= i < |s| => f(s[i]))
  }

  lemma MapConcat<A, B>(f: A -> B, a: seq<A>, b: seq<A>)
    ensures Map(f, a + b) == Map(f, a) + Map(f, b)
  {
  }

  lemma MapOne<A, B>(f: A -> B, x: A)
    ensures Map(f, [x]) == [f(x)]
  {
  }

  lemma TakeOut<A>(b: seq<A>, j: nat)
    requires j < |b|
    ensures b == b[..j] + ([b[j]] + b[j + 1..])
    ensures multiset(b) == multiset(b[..j] + b[j + 1..]) + multiset{b[j]}
  {
    assert b == b[..j] + ([b[j]] + b[j + 1..]);
  }

  lemma Cancel<A>(m: multiset<A>, n: multiset<A>, x: A)
    requires m + multiset{x} == n + multiset{x}
    ensures m == n
  {
    assert m == m + multiset{x} - multiset{x} && n == n + multiset{x} - multiset{x};
  }

  lemma MapTakeOut<A, B>(f: A -> B, b: seq<A>, j: nat)
    requires j < |b|
    ensures multiset(Map(f, b)) == multiset(Map(f, b[..j] + b[j + 1..])) + multiset{f(b[j])}
  {
    TakeOut(b, j);
    MapConcat(f, b[..j], [b[j]] + b[j + 1..]);
    MapConcat(f, [b[j]], b[j + 1..]);
    MapConcat(f, b[..j], b[j + 1..]);
    MapOne(f, b[j]);
    hide Map;
  }

  lemma {:induction false} MapPermuted<A, B>(f: A -> B, a: seq<A>, b: seq<A>)
    requires multiset(a) == multiset(b)
    ensures multiset(Map(f, a)) == multiset(Map(f, b))
  {
    if a == [] {
      assert |b| == |multiset(b)| == |multiset(a)| == 0;
    } else {
      assert a[0] in multiset(b);
      var j :| 0 <= j < |b| && b[j] == a[0];
      TakeOut(b, j);
      TakeOut(a, 0);
      assert a[..0] + a[1..] == a[1..];
      Cancel(multiset(a[1..]), multiset(b[..j] + b[j + 1..]), a[0]);
      MapPermuted(f, a[1..], b[..j] + b[j + 1..]);
      MapTakeOut(f, a, 0);
      MapTakeOut(f, b, j);
      hide Map;
    }
  }
}
