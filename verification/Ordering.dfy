/**
  Sorting as the Go sources rely on it: `sort.Slice` and `sort.Strings` leave a
  permutation in which no later element is less than an earlier one, and promise
  nothing about ties.
*/
module Ordering {

  // ----- Go's string order -----

  predicate Below(a: string, b: string)
    decreases |a|
  {
    b != [] && (a == [] || a[0] < b[0] || (a[0] == b[0] && Below(a[1..], b[1..])))
  }

  /** k characters agree, and then a ends or has the smaller one. */
  predicate SplitsAt(a: string, b: string, k: nat) {
    k <= |a| && k < |b| && a[..k] == b[..k] && (k == |a| || a[k] < b[k])
  }

  lemma FirstAgrees(a: string, b: string, k: nat)
    requires SplitsAt(a, b, k) && k > 0
    ensures a[0] == b[0]
  {
    assert a[..k][0] == b[..k][0];
  }

  /** The order is lexicographic. */
  lemma {:induction false} BelowIsLexicographic(a: string, b: string)
    ensures Below(a, b) <==> exists k: nat :: SplitsAt(a, b, k)
    decreases |a|
  {
    if a != [] && b != [] && a[0] == b[0] {
      BelowIsLexicographic(a[1..], b[1..]);
      if k: nat :| SplitsAt(a[1..], b[1..], k) {
        assert a[..k + 1] == [a[0]] + a[1..][..k] && b[..k + 1] == [b[0]] + b[1..][..k];
        assert SplitsAt(a, b, k + 1);
      }
      if k: nat :| SplitsAt(a, b, k) {
        assert k > 0;
        assert a[1..][..k - 1] == a[..k][1..] && b[1..][..k - 1] == b[..k][1..];
        assert SplitsAt(a[1..], b[1..], k - 1);
      }
    } else if b != [] {
      assert a == [] || a[0] < b[0] ==> SplitsAt(a, b, 0);
      if k: nat :| SplitsAt(a, b, k) && k > 0 { FirstAgrees(a, b, k); }
    }
  }

  lemma {:induction false} BelowTransitive(a: string, b: string, c: string)
    requires Below(a, b) && Below(b, c)
    ensures Below(a, c)
    decreases |a|
  {
    if a != [] && a[0] == b[0] && b[0] == c[0] {
      BelowTransitive(a[1..], b[1..], c[1..]);
    }
  }

  lemma {:induction false} BelowTrichotomy(a: string, b: string)
    ensures Below(a, b) || a == b || Below(b, a)
    ensures !(Below(a, b) && Below(b, a)) && !Below(a, a)
    decreases |a|
  {
    if a != [] {
      BelowTrichotomy(a[1..], a[1..]);
      if b != [] {
        BelowTrichotomy(a[1..], b[1..]);
        assert a == [a[0]] + a[1..] && b == [b[0]] + b[1..];
      }
    }
  }

  lemma BelowIsTotalOrder()
    ensures StrictWeak(Below) && Connected(Below)
  {
    forall a: string, b: string
      ensures Below(a, b) || a == b || Below(b, a)
      ensures !(Below(a, b) && Below(b, a))
    { BelowTrichotomy(a, b); }
    forall a: string, b: string, c: string | !Below(a, b) && !Below(b, c)
      ensures !Below(a, c)
    {
      if Below(a, c) {
        BelowTrichotomy(a, b);
        BelowTrichotomy(b, c);
        BelowTrichotomy(a, c);
        if Below(c, b) && Below(b, a) { BelowTransitive(c, b, a); }
      }
    }
  }

  // ----- orders and sorted sequences -----

  /** What `sort.Slice` demands of its comparison. */
  ghost predicate StrictWeak<T(!new)>(less: (T, T) -> bool) {
    && (forall x, y :: less(x, y) ==> !less(y, x))
    && (forall x, y, z :: !less(x, y) && !less(y, z) ==> !less(x, z))
  }

  ghost predicate Connected<T(!new)>(less: (T, T) -> bool) {
    forall x, y :: less(x, y) || x == y || less(y, x)
  }

  /** What `sort.Slice` delivers: ties may stand in any order. */
  ghost predicate Sorted<T>(less: (T, T) -> bool, s: seq<T>) {
    forall i, j | 0 <= i < j < |s| :: !less(s[j], s[i])
  }

  /** Strictly increasing: no ties at all. */
  ghost predicate Ascending<T>(less: (T, T) -> bool, s: seq<T>) {
    forall i, j | 0 <= i < j < |s| :: less(s[i], s[j])
  }

  method Insert<T(!new)>(less: (T, T) -> bool, s: seq<T>, x: T) returns (r: seq<T>)
    requires StrictWeak(less) && Sorted(less, s)
    ensures Sorted(less, r)
    ensures multiset(r) == multiset(s) + multiset{x}
  {
    var i := 0;
    while i < |s| && !less(x, s[i])
      invariant 0 <= i <= |s|
      invariant forall k | 0 <= k < i :: !less(x, s[k])
    {
      i := i + 1;
    }
    assert s == s[..i] + s[i..];
    r := s[..i] + [x] + s[i..];
    InsertedSorted(less, s, x, i);
  }

  lemma InsertedSorted<T(!new)>(less: (T, T) -> bool, s: seq<T>, x: T, at: nat)
    requires StrictWeak(less) && Sorted(less, s) && at <= |s|
    requires forall k | 0 <= k < at :: !less(x, s[k])
    requires at < |s| ==> less(x, s[at])
    ensures Sorted(less, s[..at] + [x] + s[at..])
  {
    var r := s[..at] + [x] + s[at..];
    forall i, j | 0 <= i < j < |r| ensures !less(r[j], r[i]) {
      if i == at {
        assert r[j] == s[j - 1];
        assert !less(s[at], x);
        assert at < j - 1 ==> !less(s[j - 1], s[at]);
      } else if j != at {
        assert r[i] == s[if i < at then i else i - 1] && r[j] == s[if j < at then j else j - 1];
      }
    }
  }

  method Sort<T(!new)>(less: (T, T) -> bool, s: seq<T>) returns (r: seq<T>)
    requires StrictWeak(less)
    ensures Sorted(less, r)
    ensures multiset(r) == multiset(s)
  {
    r := [];
    for n := 0 to |s|
      invariant Sorted(less, r)
      invariant multiset(r) == multiset(s[..n])
    {
      assert s[..n + 1] == s[..n] + [s[n]];
      r := Insert(less, r, s[n]);
    }
    assert s[..|s|] == s;
  }

  /** A strictly increasing listing of a set is unique. */
  lemma {:induction false} AscendingUnique<T(!new)>(less: (T, T) -> bool, a: seq<T>, b: seq<T>)
    requires StrictWeak(less)
    requires Ascending(less, a) && Ascending(less, b)
    requires forall x :: x in a <==> x in b
    ensures a == b
    decreases |a|
  {
    assert b != [] ==> b[0] in b;
    if a != [] {
      assert a[0] in b && b[0] in a;
      assert a[0] == b[0];
      forall x ensures x in a[1..] <==> x in b[1..] {
        assert x in a <==> x == a[0] || x in a[1..];
        assert x in b <==> x == b[0] || x in b[1..];
      }
      AscendingUnique(less, a[1..], b[1..]);
    }
  }

  // ----- the keys of a Go map -----

  ghost predicate Lists(ks: seq<string>, keys: set<string>) {
    Ascending(Below, ks) && forall k :: k in ks <==> k in keys
  }

  lemma ListsUnique(a: seq<string>, b: seq<string>, keys: set<string>)
    requires Lists(a, keys) && Lists(b, keys)
    ensures a == b
  {
    BelowIsTotalOrder();
    AscendingUnique(Below, a, b);
  }

  /** Ranges over a map in an arbitrary order, then sorts the keys. */
  method SortedKeys<V>(m: map<string, V>) returns (ks: seq<string>)
    ensures Lists(ks, m.Keys)
  {
    var todo := m.Keys;
    var found: seq<string> := [];
    while todo != {}
      invariant todo <= m.Keys
      invariant forall k :: k in found <==> k in m.Keys - todo
      invariant forall i, j | 0 <= i < j < |found| :: found[i] != found[j]
      decreases |todo|
    {
      var k :| k in todo;
      assert k !in found;
      assert forall i | 0 <= i < |found| :: found[i] in found;
      todo := todo - {k};
      found := found + [k];
    }
    BelowIsTotalOrder();
    ks := Sort(Below, found);
    forall k ensures k in ks <==> k in m.Keys {
      assert k in ks <==> k in multiset(ks);
      assert k in found <==> k in multiset(found);
    }
    SortedDistinct(ks, found);
  }

  lemma SortedDistinct(ks: seq<string>, found: seq<string>)
    requires Sorted(Below, ks) && multiset(ks) == multiset(found)
    requires forall i, j | 0 <= i < j < |found| :: found[i] != found[j]
    ensures Ascending(Below, ks)
  {
    BelowIsTotalOrder();
    NoRepeats(found);
    forall i, j | 0 <= i < j < |ks| ensures Below(ks[i], ks[j]) {
      if ks[i] == ks[j] {
        Repeated(ks, i, j);
      }
    }
  }

  lemma Repeated<T>(s: seq<T>, i: nat, j: nat)
    requires i < j < |s| && s[i] == s[j]
    ensures multiset(s)[s[i]] >= 2
  {
    assert s == s[..j] + [s[j]] + s[j + 1..];
    assert s[i] in s[..j];
  }

  lemma {:induction false} NoRepeats<T>(s: seq<T>)
    requires forall i, j | 0 <= i < j < |s| :: s[i] != s[j]
    ensures forall x | x in s :: multiset(s)[x] == 1
  {
    if s != [] {
      var front, last := s[..|s| - 1], s[|s| - 1];
      NoRepeats(front);
      assert s == front + [last];
      assert last !in front;
      assert last !in multiset(front);
    }
  }
}
