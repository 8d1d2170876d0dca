/** Filtering and permuting sequences. */
module Sequences {

  function Keep<T(!new)>(s: seq<T>, p: T -> bool): (r: seq<T>)
    ensures forall x :: x in r <==> x in s && p(x)
  {
    if s == [] then []
    else (if p(s[0]) then [s[0]] else []) + Keep(s[1..], p)
  }

  lemma {:induction false} KeepFirst<T(!new)>(x: T, rest: seq<T>, p: T -> bool)
    ensures Keep([x] + rest, p) == (if p(x) then [x] else []) + Keep(rest, p)
  {
    assert ([x] + rest)[1..] == rest;
  }

  lemma {:induction false} KeepNone<T(!new)>(s: seq<T>, p: T -> bool)
    requires forall x :: x in s ==> !p(x)
    ensures Keep(s, p) == []
  {
    if s != [] {
      assert s == [s[0]] + s[1..];
      KeepNone(s[1..], p);
    }
  }

  lemma {:induction false} KeepAll<T(!new)>(s: seq<T>, p: T -> bool)
    requires forall x :: x in s ==> p(x)
    ensures Keep(s, p) == s
  {
    if s != [] {
      assert s == [s[0]] + s[1..];
      KeepAll(s[1..], p);
    }
  }

  /** The first `n`, or all. */
  function Take<T>(s: seq<T>, n: nat): seq<T> {
    if |s| <= n then s else s[..n]
  }

  lemma {:induction false} Regroup<T>(a: seq<T>, b: seq<T>, c: seq<T>)
    ensures a + (b + c) == (a + b) + c && a + [] == a
  {
  }

  lemma {:induction false} KeepOfNone<T(!new)>(b: seq<T>, p: T -> bool)
    ensures [] + b == b && Keep([], p) == []
  {
  }

  lemma {:induction false} HeadAndRest<T>(a: seq<T>, b: seq<T>)
    requires a != []
    ensures a == [a[0]] + a[1..] && a + b == [a[0]] + (a[1..] + b)
  {
  }

  lemma {:induction false} KeepSplits<T(!new)>(a: seq<T>, b: seq<T>, p: T -> bool)
    ensures Keep(a + b, p) == Keep(a, p) + Keep(b, p)
  {
    hide *;
    if a == [] {
      KeepOfNone(b, p);
    } else {
      var x, rest := a[0], a[1..];
      KeepSplits(rest, b, p);
      HeadAndRest(a, b);
      KeepFirst(x, rest, p);
      KeepFirst(x, rest + b, p);
      Regroup(if p(x) then [x] else [], Keep(rest, p), Keep(b, p));
    }
  }

  lemma {:induction false} KeepCounts<T(!new)>(s: seq<T>, p: T -> bool, x: T)
    ensures multiset(Keep(s, p))[x] == if p(x) then multiset(s)[x] else 0
  {
    if s != [] {
      KeepCounts(s[1..], p, x);
      assert s == [s[0]] + s[1..];
    }
  }

  lemma {:induction false} KeepPermutes<T(!new)>(a: seq<T>, b: seq<T>, p: T -> bool)
    requires forall x :: p(x) ==> multiset(a)[x] == multiset(b)[x]
    ensures multiset(Keep(a, p)) == multiset(Keep(b, p))
  {
    forall x ensures multiset(Keep(a, p))[x] == multiset(Keep(b, p))[x] {
      KeepCounts(a, p, x);
      KeepCounts(b, p, x);
    }
  }

  lemma {:induction false} PermutedLength<T(!new)>(a: seq<T>, b: seq<T>)
    requires multiset(a) == multiset(b)
    ensures |a| == |b|
    ensures forall x :: x in a <==> x in b
  {
    assert |a| == |multiset(a)| && |b| == |multiset(b)|;
    forall x ensures x in a <==> x in b {
      assert x in a <==> x in multiset(a);
      assert x in b <==> x in multiset(b);
    }
  }

  lemma {:induction false} MovedOut<T(!new)>(x: T, rest: seq<T>, before: seq<T>, after: seq<T>)
    requires multiset([x] + rest) == multiset(before + ([x] + after))
    ensures multiset(rest) == multiset(before + after)
  {
    assert multiset([x] + rest) == multiset{x} + multiset(rest);
    assert multiset(before + ([x] + after)) == multiset{x} + multiset(before + after);
    assert multiset(rest) == multiset([x] + rest) - multiset{x};
  }

  lemma {:induction false} SingletonPermutes<T(!new)>(a: seq<T>, b: seq<T>)
    requires multiset(a) == multiset(b)
    ensures |a| == |b| && (|a| == 1 ==> a == b)
  {
    PermutedLength(a, b);
    if |a| == 1 {
      assert a[0] in b;
    }
  }
}
