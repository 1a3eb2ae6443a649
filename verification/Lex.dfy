/** Byte-wise string order, and sorting by a string key (Go's sort.Strings and sort.Slice). */
module Lex {

  /** Lexicographic order. Code-point order agrees with byte order on UTF-8 text. */
  predicate Le(a: string, b: string) {
    a == "" || (b != "" && (a[0] < b[0] || (a[0] == b[0] && Le(a[1..], b[1..]))))
  }

  lemma {:induction false} LeTotal(a: string, b: string)
    ensures Le(a, b) || Le(b, a)
  {
    if a != "" && b != "" && a[0] == b[0] { LeTotal(a[1..], b[1..]); }
  }

  lemma {:induction false} LeAntisymmetric(a: string, b: string)
    requires Le(a, b) && Le(b, a)
    ensures a == b
  {
    if a != "" {
      LeAntisymmetric(a[1..], b[1..]);
      assert a == [a[0]] + a[1..] && b == [b[0]] + b[1..];
    }
  }

  lemma {:induction false} LeTransitive(a: string, b: string, c: string)
    requires Le(a, b) && Le(b, c)
    ensures Le(a, c)
  {
    if a != "" && a[0] == b[0] == c[0] { LeTransitive(a[1..], b[1..], c[1..]); }
  }

  /** The two strings first differ there. */
  predicate PartAt(a: string, b: string, i: nat) { i < |a| && i < |b| && a[..i] == b[..i] && a[i] != b[i] }

  lemma {:induction false} LeAt(a: string, b: string, i: nat)
    requires PartAt(a, b, i)
    ensures Le(a, b) <==> a[i] < b[i]
    decreases i
  {
    if i > 0 {
      assert a[0] == a[..i][0] && b[0] == b[..i][0];
      assert a[1..][..i - 1] == a[..i][1..] && b[1..][..i - 1] == b[..i][1..];
      LeAt(a[1..], b[1..], i - 1);
    }
  }

  lemma {:induction false} LePrefix(a: string, b: string)
    requires a <= b
    ensures Le(a, b) && (Le(b, a) <==> a == b)
  {
    if a != "" {
      assert a[0] == b[0] && a[1..] <= b[1..];
      LePrefix(a[1..], b[1..]);
      assert a == [a[0]] + a[1..] && b == [b[0]] + b[1..];
    }
  }

  lemma {:induction false} PrefixOrPart(a: string, b: string) returns (i: nat)
    ensures a <= b || b <= a || PartAt(a, b, i)
  {
    i := 0;
    if a != "" && b != "" && a[0] == b[0] {
      i := PrefixOrPart(a[1..], b[1..]);
      i := i + 1;
      assert a == [a[0]] + a[1..] && b == [b[0]] + b[1..];
      if PartAt(a[1..], b[1..], i - 1) {
        assert a[..i] == [a[0]] + a[1..][..i - 1] && b[..i] == [b[0]] + b[1..][..i - 1];
      }
    }
  }

  /** A string comes before its extensions, and otherwise the first place where two strings differ decides. */
  lemma LeExactly(a: string, b: string)
    ensures Le(a, b) <==> a <= b || exists i: nat :: PartAt(a, b, i) && a[i] < b[i]
  {
    var i := PrefixOrPart(a, b);
    if PartAt(a, b, i) {
      LeAt(a, b, i);
      assert !(a <= b);
    } else if a <= b {
      LePrefix(a, b);
    } else {
      LePrefix(b, a);
    }
    forall k: nat | PartAt(a, b, k) ensures Le(a, b) <==> a[k] < b[k] { LeAt(a, b, k); }
  }

  /** The key under which plain strings are sorted. */
  function Self(s: string): string { s }

  ghost predicate SortedBy<T>(key: T -> string, s: seq<T>) {
    forall i, j :: 0 <= i < j < |s| ==> Le(key(s[i]), key(s[j]))
  }

  ghost predicate Distinct<T>(s: seq<T>) {
    forall i, j :: 0 <= i < j < |s| ==> s[i] != s[j]
  }

  function Insert<T>(key: T -> string, x: T, s: seq<T>): (r: seq<T>)
    ensures multiset(r) == multiset(s) + multiset{x}
  {
    if s == [] then [x]
    else if Le(key(x), key(s[0])) then [x] + s
    else
      assert s == [s[0]] + s[1..];
      [s[0]] + Insert(key, x, s[1..])
  }

  /** The sort of the Go library, specified by its result: a permutation in key order. */
  function SortBy<T>(key: T -> string, s: seq<T>): (r: seq<T>)
    ensures multiset(r) == multiset(s)
    ensures |r| == |s|
  {
    if s == [] then []
    else
      assert s == [s[0]] + s[1..];
      var r := Insert(key, s[0], SortBy(key, s[1..]));
      assert |multiset(r)| == |multiset(s)|;
      r
  }

  lemma {:induction false} InsertSorted<T>(key: T -> string, x: T, s: seq<T>)
    requires SortedBy(key, s)
    ensures SortedBy(key, Insert(key, x, s))
  {
    if s == [] {
    } else if Le(key(x), key(s[0])) {
      forall j | 0 <= j < |s| ensures Le(key(x), key(s[j])) {
        if j > 0 { LeTransitive(key(x), key(s[0]), key(s[j])); }
      }
    } else {
      InsertSorted(key, x, s[1..]);
      LeTotal(key(x), key(s[0]));
      var rest := Insert(key, x, s[1..]);
      forall j | 0 <= j < |rest| ensures Le(key(s[0]), key(rest[j])) {
        assert rest[j] in multiset(rest);
        assert rest[j] == x || rest[j] in s[1..];
      }
    }
  }

  lemma {:induction false} SortBySorted<T>(key: T -> string, s: seq<T>)
    ensures SortedBy(key, SortBy(key, s))
  {
    if s != [] {
      SortBySorted(key, s[1..]);
      InsertSorted(key, s[0], SortBy(key, s[1..]));
    }
  }

  lemma HeadIsLeast<T>(key: T -> string, s: seq<T>, x: T)
    requires SortedBy(key, s) && x in s
    ensures Le(key(s[0]), key(x))
  {
    var i :| 0 <= i < |s| && s[i] == x;
    if i == 0 { LeTotal(key(x), key(x)); }
  }

  /** Any two key-ordered arrangements of one multiset coincide when the key tells elements apart. */
  lemma {:induction false} SortedUnique<T>(key: T -> string, a: seq<T>, b: seq<T>)
    requires SortedBy(key, a) && SortedBy(key, b)
    requires multiset(a) == multiset(b)
    requires forall x, y :: x in a && y in a && key(x) == key(y) ==> x == y
    ensures a == b
  {
    assert |multiset(a)| == |a| && |multiset(b)| == |b|;
    if a != [] {
      assert a[0] in multiset(a) && b[0] in multiset(b);
      HeadIsLeast(key, a, b[0]);
      HeadIsLeast(key, b, a[0]);
      LeAntisymmetric(key(a[0]), key(b[0]));
      TailMultisets(a, b);
      SortedUnique(key, a[1..], b[1..]);
      assert a == [a[0]] + a[1..] && b == [b[0]] + b[1..];
    }
  }

  lemma TailMultisets<T>(a: seq<T>, b: seq<T>)
    requires a != [] && b != [] && a[0] == b[0] && multiset(a) == multiset(b)
    ensures multiset(a[1..]) == multiset(b[1..])
    ensures forall x :: x in a[1..] ==> x in a
  {
    assert a == [a[0]] + a[1..] && b == [b[0]] + b[1..];
    assert multiset(a[1..]) == multiset(a) - multiset{a[0]};
    assert multiset(b[1..]) == multiset(b) - multiset{b[0]};
  }

  // ---- Sorted enumeration of a finite set of names ----

  ghost predicate Enumerates(r: seq<string>, s: set<string>) {
    && SortedBy(Self, r)
    && Distinct(r)
    && (forall x :: x in r <==> x in s)
  }

  ghost function SeqOf(s: set<string>): (r: seq<string>)
    ensures Distinct(r)
    ensures forall x :: x in r <==> x in s
  {
    if s == {} then []
    else
      var x :| x in s;
      assert s == (s - {x}) + {x};
      [x] + SeqOf(s - {x})
  }

  lemma {:induction false} DistinctCount<T>(s: seq<T>, x: T)
    requires Distinct(s)
    ensures multiset(s)[x] == if x in s then 1 else 0
  {
    if s != [] {
      assert s == [s[0]] + s[1..];
      DistinctCount(s[1..], x);
    }
  }

  lemma {:induction false} DistinctFromCount<T>(s: seq<T>)
    requires forall x :: multiset(s)[x] <= 1
    ensures Distinct(s)
  {
    if s != [] {
      assert s == [s[0]] + s[1..];
      var rest := s[1..];
      assert multiset(s) == multiset{s[0]} + multiset(rest);
      forall x ensures multiset(rest)[x] <= 1 { assert multiset(rest)[x] <= multiset(s)[x]; }
      DistinctFromCount(rest);
      assert multiset(s)[s[0]] == 1 + multiset(rest)[s[0]];
      forall j | 0 < j < |s| ensures s[0] != s[j] { assert rest[j - 1] in multiset(rest); }
    }
  }

  lemma EnumerationExists(s: set<string>) returns (r: seq<string>)
    ensures Enumerates(r, s)
  {
    var raw := SeqOf(s);
    r := SortBy(Self, raw);
    SortBySorted(Self, raw);
    forall x ensures multiset(r)[x] <= 1 { DistinctCount(raw, x); }
    DistinctFromCount(r);
    forall x ensures x in r <==> x in s {
      assert x in r <==> x in multiset(r);
      assert x in raw <==> x in multiset(raw);
    }
  }

  /** The strictly increasing listing of a set: what appending in map order and sorting yields. */
  ghost function SortedOf(s: set<string>): (r: seq<string>)
    ensures forall x :: x in r <==> x in s
  {
    assert exists r :: Enumerates(r, s) by { var r := EnumerationExists(s); }
    var r :| Enumerates(r, s);
    r
  }

  lemma SortedOfEnumerates(s: set<string>)
    ensures Enumerates(SortedOf(s), s)
  {}

  lemma {:induction false} DistinctSize<T>(r: seq<T>, s: set<T>)
    requires Distinct(r) && forall x :: x in r <==> x in s
    ensures |r| == |s|
  {
    if r == [] {
      assert s == {};
    } else {
      assert r[0] in s;
      forall x ensures x in r[1..] <==> x in s - {r[0]} { assert x in r <==> x == r[0] || x in r[1..]; }
      DistinctSize(r[1..], s - {r[0]});
    }
  }

  lemma SubsetSize<T>(a: set<T>, b: set<T>)
    requires a <= b
    ensures |a| <= |b|
  {
    assert b == a + (b - a);
  }

  /** A listing of some of the names of a set is no longer than the set. */
  lemma SortedSize(s: set<string>, all: set<string>)
    requires s <= all
    ensures |SortedOf(s)| == |s| <= |all|
  {
    SortedOfEnumerates(s);
    DistinctSize(SortedOf(s), s);
    SubsetSize(s, all);
  }

  lemma EnumerationUnique(a: seq<string>, b: seq<string>, s: set<string>)
    requires Enumerates(a, s) && Enumerates(b, s)
    ensures a == b
  {
    forall x ensures multiset(a)[x] == multiset(b)[x] {
      DistinctCount(a, x);
      DistinctCount(b, x);
    }
    assert multiset(a) == multiset(b);
    SortedUnique(Self, a, b);
  }

  /** Sorting an unordered duplicate-free listing gives the enumeration of its set. */
  lemma SortEnumerates(raw: seq<string>, s: set<string>)
    requires Distinct(raw)
    requires forall x :: x in raw <==> x in s
    ensures SortBy(Self, raw) == SortedOf(s)
  {
    var r := SortBy(Self, raw);
    SortBySorted(Self, raw);
    forall x ensures multiset(r)[x] <= 1 { DistinctCount(raw, x); }
    DistinctFromCount(r);
    forall x ensures x in r <==> x in s {
      assert x in r <==> x in multiset(r);
      assert x in raw <==> x in multiset(raw);
    }
    SortedOfEnumerates(s);
    EnumerationUnique(r, SortedOf(s), s);
  }
}
