/** Texts as JavaScript sees them, UTF-16 code units, with the order that
    `Array.prototype.sort` and a byte-wise collation use, and sorting by key. */
module TextOrder {

  type CodeUnit = c: int | 0 <= c < 0x1_0000

  type Text = seq<CodeUnit>

  /** An ASCII literal as code units. */
  function Ascii(s: string): (t: Text)
    ensures |t| == |s|
    ensures forall i :: 0 <= i < |s| && s[i] < 128 as char ==> t[i] == s[i] as int
  {
    seq(|s|, i requires 0 <= i < |s| => if s[i] < 128 as char then s[i] as int else 0x3F)
  }

  /** Lexicographic order by code unit; a proper prefix comes first. */
  predicate Before(a: Text, b: Text) {
    |b| > 0 && (|a| == 0 || a[0] < b[0] || (a[0] == b[0] && Before(a[1..], b[1..])))
  }

  /** They agree on the first `n` units, then one ends or has the smaller unit. */
  predicate DifferAt(a: Text, b: Text, n: nat) {
    n <= |a| && n < |b| && a[..n] == b[..n] && (n == |a| || a[n] < b[n])
  }

  /** The order is decided by the first unit that differs, and a text comes before
      its extensions. */
  lemma {:induction false} FirstDifferenceDecides(a: Text, b: Text)
    ensures Before(a, b) <==> exists n: nat :: DifferAt(a, b, n)
  {
    if Before(a, b) {
      var n := Difference(a, b);
    }
    forall n: nat | DifferAt(a, b, n) ensures Before(a, b) {
      BeforeAt(a, b, n);
    }
  }

  lemma {:induction false} Difference(a: Text, b: Text) returns (n: nat)
    requires Before(a, b)
    ensures DifferAt(a, b, n)
  {
    if |a| == 0 || a[0] < b[0] {
      n := 0;
    } else {
      var m := Difference(a[1..], b[1..]);
      n := m + 1;
      assert a[..n] == [a[0]] + a[1..][..m] && b[..n] == [b[0]] + b[1..][..m];
    }
  }

  lemma {:induction false} BeforeAt(a: Text, b: Text, n: nat)
    requires DifferAt(a, b, n)
    ensures Before(a, b)
  {
    if n > 0 {
      assert a[..n][0] == b[..n][0];
      assert a[1..][..n - 1] == a[..n][1..] && b[1..][..n - 1] == b[..n][1..];
      BeforeAt(a[1..], b[1..], n - 1);
    }
  }

  lemma {:induction false} BeforeIsTotal(a: Text, b: Text)
    ensures Before(a, b) || a == b || Before(b, a)
  {
    if |a| > 0 && |b| > 0 && a[0] == b[0] {
      BeforeIsTotal(a[1..], b[1..]);
      assert a == [a[0]] + a[1..] && b == [b[0]] + b[1..];
    }
  }

  lemma {:induction false} BeforeIsTransitive(a: Text, b: Text, c: Text)
    requires Before(a, b) && Before(b, c)
    ensures Before(a, c)
  {
    if |a| > 0 && a[0] == b[0] == c[0] {
      BeforeIsTransitive(a[1..], b[1..], c[1..]);
    }
  }

  lemma {:induction false} BeforeIsIrreflexive(a: Text)
    ensures !Before(a, a)
  {
    if |a| > 0 {
      BeforeIsIrreflexive(a[1..]);
    }
  }

  // ----- entries and sorting by key -----

  datatype Entry<T> = Entry(key: Text, value: T)

  ghost predicate DistinctKeys<T>(es: seq<Entry<T>>) {
    forall i, j :: 0 <= i < j < |es| ==> es[i].key != es[j].key
  }

  ghost predicate Ascending<T>(es: seq<Entry<T>>) {
    forall i, j :: 0 <= i < j < |es| ==> Before(es[i].key, es[j].key)
  }

  function InsertByKey<T>(e: Entry<T>, es: seq<Entry<T>>): (r: seq<Entry<T>>)
    ensures |r| == |es| + 1
    ensures multiset(r) == multiset{e} + multiset(es)
  {
    if es == [] || Before(e.key, es[0].key) then [e] + es
    else
      assert es == [es[0]] + es[1..];
      [es[0]] + InsertByKey(e, es[1..])
  }

  /** `Object.keys(record).sort()` with each key's value alongside. */
  function SortByKey<T>(es: seq<Entry<T>>): (r: seq<Entry<T>>)
    ensures |r| == |es|
    ensures multiset(r) == multiset(es)
  {
    if es == [] then []
    else
      assert es == [es[0]] + es[1..];
      InsertByKey(es[0], SortByKey(es[1..]))
  }

  lemma {:induction false} SameMembers<T>(a: seq<T>, b: seq<T>)
    requires multiset(a) == multiset(b)
    ensures AllIn(a, b)
  {
    forall i | 0 <= i < |a| ensures a[i] in b {
      assert a[i] in multiset(b);
    }
  }

  lemma {:induction false} InsertKeepsAscending<T>(e: Entry<T>, es: seq<Entry<T>>)
    requires Ascending(es) && forall i :: 0 <= i < |es| ==> es[i].key != e.key
    ensures Ascending(InsertByKey(e, es))
  {
    var r := InsertByKey(e, es);
    if es == [] {
    } else if Before(e.key, es[0].key) {
      forall j | 0 < j < |es| ensures Before(e.key, es[j].key) {
        BeforeIsTransitive(e.key, es[0].key, es[j].key);
      }
    } else {
      BeforeIsTotal(e.key, es[0].key);
      InsertKeepsAscending(e, es[1..]);
      var tail := InsertByKey(e, es[1..]);
      forall j | 0 <= j < |tail| ensures Before(es[0].key, tail[j].key) {
        assert tail[j] in multiset(tail);
        assert tail[j] == e || tail[j] in es[1..];
      }
    }
  }

  lemma {:induction false} SortIsAscending<T>(es: seq<Entry<T>>)
    requires DistinctKeys(es)
    ensures Ascending(SortByKey(es))
  {
    if es != [] {
      SortIsAscending(es[1..]);
      var rest := SortByKey(es[1..]);
      SameMembers(rest, es[1..]);
      forall i | 0 <= i < |rest| ensures rest[i].key != es[0].key {
        assert rest[i] in es[1..];
      }
      InsertKeepsAscending(es[0], rest);
    }
  }

  lemma {:induction false} SameLeastEntry<T>(a: seq<Entry<T>>, b: seq<Entry<T>>)
    requires Ascending(a) && Ascending(b) && |a| > 0 && |b| > 0
    requires a[0] in b && b[0] in a
    ensures a[0] == b[0]
  {
    var i :| 0 <= i < |a| && a[i] == b[0];
    var j :| 0 <= j < |b| && b[j] == a[0];
    if i > 0 && j > 0 {
      BeforeIsTransitive(a[0].key, b[0].key, a[0].key);
      BeforeIsIrreflexive(a[0].key);
    }
  }

  lemma {:induction false} TailMembers<T>(a: seq<Entry<T>>, b: seq<Entry<T>>)
    requires Ascending(a) && |a| > 0 && |b| > 0 && a[0] == b[0]
    requires AllIn(a, b)
    ensures AllIn(a[1..], b[1..])
  {
    forall i | 0 <= i < |a[1..]| ensures a[1..][i] in b[1..] {
      assert a[1..][i] == a[i + 1];
      var j :| 0 <= j < |b| && b[j] == a[i + 1];
      BeforeIsIrreflexive(a[0].key);
      assert b[1..][j - 1] == b[j];
    }
  }

  ghost predicate AllIn<T>(a: seq<T>, b: seq<T>) {
    forall i :: 0 <= i < |a| ==> a[i] in b
  }

  lemma {:induction false} TailAscends<T>(a: seq<Entry<T>>)
    requires Ascending(a) && a != []
    ensures Ascending(a[1..]) && a == [a[0]] + a[1..]
  {
  }

  lemma {:induction false} FirstIn<T>(a: seq<T>, b: seq<T>)
    requires AllIn(a, b) && a != []
    ensures a[0] in b
  {
  }

  /** Ascending sequences over the same entries are the same sequence. */
  lemma {:induction false} AscendingIsUnique<T>(a: seq<Entry<T>>, b: seq<Entry<T>>)
    requires Ascending(a) && Ascending(b) && |a| == |b| && AllIn(a, b) && AllIn(b, a)
    ensures a == b
  {
    hide *;
    if a != [] {
      FirstIn(a, b);
      FirstIn(b, a);
      TailAscends(a);
      TailAscends(b);
      SameLeastEntry(a, b);
      TailMembers(a, b);
      TailMembers(b, a);
      AscendingIsUnique(a[1..], b[1..]);
    }
  }

  /** Distinct keys, equally many entries, one list inside the other: the same
      sorted list, whatever order the keys were written in. */
  lemma {:induction false} SortForgetsOrder<T>(a: seq<Entry<T>>, b: seq<Entry<T>>)
    requires DistinctKeys(a) && DistinctKeys(b) && |a| == |b|
    requires forall i :: 0 <= i < |a| ==> a[i] in b
    ensures SortByKey(a) == SortByKey(b)
  {
    InjectiveIsPermutation(a, b);
    SortIsAscending(a);
    SortIsAscending(b);
    SameMembers(SortByKey(a), SortByKey(b));
    SameMembers(SortByKey(b), SortByKey(a));
    AscendingIsUnique(SortByKey(a), SortByKey(b));
  }

  lemma {:induction false} SortedStays<T>(es: seq<Entry<T>>)
    requires Ascending(es)
    ensures SortByKey(es) == es
  {
    if es != [] {
      SortedStays(es[1..]);
      assert es == [es[0]] + es[1..];
      assert |es| > 1 ==> Before(es[0].key, es[1].key);
    }
  }

  lemma {:induction false} InjectiveIsPermutation<T>(a: seq<T>, b: seq<T>)
    requires forall i, j :: 0 <= i < j < |a| ==> a[i] != a[j]
    requires |a| == |b| && forall i :: 0 <= i < |a| ==> a[i] in b
    ensures multiset(a) == multiset(b)
  {
    if a != [] {
      var k :| 0 <= k < |b| && b[k] == a[0];
      var b' := b[..k] + b[k + 1..];
      assert b == b[..k] + [b[k]] + b[k + 1..];
      assert a == [a[0]] + a[1..];
      forall i | 0 <= i < |a[1..]| ensures a[1..][i] in b' {
        var j :| 0 <= j < |b| && b[j] == a[1..][i];
        assert a[1..][i] == a[i + 1] != a[0];
        assert j != k;
        assert b'[if j < k then j else j - 1] == b[j];
      }
      InjectiveIsPermutation(a[1..], b');
    }
  }
}
