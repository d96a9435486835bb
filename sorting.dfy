/** The stable sort by date-time used twice by the engine: `sort_by_key` on
    the trades and `sort_by` on the disposals of a tax year. */
module Sorting {
  import opened Calendar

  /** `s` is in ascending date-time order under `key`. */
  ghost predicate SortedBy<T>(s: seq<T>, key: T -> DateTime) {
    forall i, j :: 0 <= i < j < |s| ==> Le(key(s[i]), key(s[j]))
  }

  /** Insert `x` after every element of `s` whose key is not later than its own. */
  function Insert<T>(x: T, s: seq<T>, key: T -> DateTime): (r: seq<T>)
    ensures multiset(r) == multiset(s) + multiset{x}
    ensures |r| == |s| + 1
  {
    if s == [] then [x]
    else if Lt(key(x), key(s[0])) then [x] + s
    else
      assert s == [s[0]] + s[1..];
      [s[0]] + Insert(x, s[1..], key)
  }

  /** Stable insertion sort: elements with equal keys keep their input order. */
  function SortBy<T>(s: seq<T>, key: T -> DateTime): (r: seq<T>)
    ensures multiset(r) == multiset(s)
    ensures |r| == |s|
  {
    if s == [] then []
    else
      assert s == s[..|s| - 1] + [s[|s| - 1]];
      Insert(s[|s| - 1], SortBy(s[..|s| - 1], key), key)
  }

  lemma {:induction false} InsertSorted<T>(x: T, s: seq<T>, key: T -> DateTime)
    requires SortedBy(s, key)
    ensures SortedBy(Insert(x, s, key), key)
  {
    if s != [] && !Lt(key(x), key(s[0])) {
      InsertSorted(x, s[1..], key);
      var r := Insert(x, s, key);
      assert r == [s[0]] + Insert(x, s[1..], key);
      forall i, j | 0 <= i < j < |r| ensures Le(key(r[i]), key(r[j])) {
        if i == 0 {
          var e := r[j];
          assert e in multiset(Insert(x, s[1..], key));
          assert e == x || e in multiset(s[1..]);
          if e == x {
            LeTotal(key(x), key(s[0]));
          } else {
            var k :| 0 <= k < |s[1..]| && s[1..][k] == e;
            assert s[k + 1] == e;
          }
        }
      }
    } else if s != [] {
      var r := Insert(x, s, key);
      forall i, j | 0 <= i < j < |r| ensures Le(key(r[i]), key(r[j])) {
        if i == 0 && j > 1 {
          LeTransitive(key(x), key(s[0]), key(s[j - 1]));
        }
      }
    }
  }

  /** The sort's output is ordered by key (and, by SortBy's contract, a permutation of its input). */
  lemma {:induction false} SortBySorted<T>(s: seq<T>, key: T -> DateTime)
    ensures SortedBy(SortBy(s, key), key)
  {
    if s != [] {
      SortBySorted(s[..|s| - 1], key);
      InsertSorted(s[|s| - 1], SortBy(s[..|s| - 1], key), key);
    }
  }

  /** Distinct elements of `s` have distinct keys. */
  ghost predicate KeysDistinct<T>(s: seq<T>, key: T -> DateTime) {
    forall i, j :: 0 <= i < |s| && 0 <= j < |s| && key(s[i]) == key(s[j]) ==> s[i] == s[j]
  }

  /** Two key-sorted arrangements of the same elements agree when no two
      different elements share a key. */
  lemma {:induction false} SortedUnique<T>(a: seq<T>, b: seq<T>, key: T -> DateTime)
    requires SortedBy(a, key) && SortedBy(b, key)
    requires multiset(a) == multiset(b)
    requires KeysDistinct(a, key)
    ensures a == b
  {
    if a != [] {
      SameFirst(a, b, key);
      SameTail(a, b);
      TailFacts(a, key);
      TailFacts(b, key);
      SortedUnique(a[1..], b[1..], key);
      assert a == [a[0]] + a[1..] && b == [b[0]] + b[1..];
    } else {
      assert |b| == |multiset(b)| == 0;
    }
  }

  /** Removing the same first element leaves the same elements. */
  lemma SameTail<T>(a: seq<T>, b: seq<T>)
    requires a != [] && b != [] && a[0] == b[0] && multiset(a) == multiset(b)
    ensures multiset(a[1..]) == multiset(b[1..])
  {
    assert a == [a[0]] + a[1..] && b == [b[0]] + b[1..];
    assert multiset(a[1..]) == multiset(a) - multiset{a[0]};
    assert multiset(b[1..]) == multiset(b) - multiset{b[0]};
  }

  /** The first element of a sorted arrangement is a least one, so two
      arrangements of the same elements start alike. */
  lemma SameFirst<T>(a: seq<T>, b: seq<T>, key: T -> DateTime)
    requires SortedBy(a, key) && SortedBy(b, key)
    requires multiset(a) == multiset(b) && a != []
    requires KeysDistinct(a, key)
    ensures b != [] && a[0] == b[0]
  {
    var x := a[0];
    assert x in multiset(b);
    var j :| 0 <= j < |b| && b[j] == x;
    var y := b[0];
    assert y in multiset(a);
    var i :| 0 <= i < |a| && a[i] == y;
    assert Le(key(x), key(y)) by { if i > 0 { assert Le(key(a[0]), key(a[i])); } }
    assert Le(key(y), key(x)) by { if j > 0 { assert Le(key(b[0]), key(b[j])); } }
    LeAntisymmetric(key(x), key(y));
    assert a[0] == a[i];
  }

  lemma TailFacts<T>(a: seq<T>, key: T -> DateTime)
    requires a != []
    ensures SortedBy(a, key) ==> SortedBy(a[1..], key)
    ensures KeysDistinct(a, key) ==> KeysDistinct(a[1..], key)
  {
    var ta := a[1..];
    if SortedBy(a, key) {
      forall p, q | 0 <= p < q < |ta| ensures Le(key(ta[p]), key(ta[q])) {
        assert ta[p] == a[p + 1] && ta[q] == a[q + 1];
      }
    }
    if KeysDistinct(a, key) {
      forall p, q | 0 <= p < |ta| && 0 <= q < |ta| && key(ta[p]) == key(ta[q]) ensures ta[p] == ta[q] {
        assert ta[p] == a[p + 1] && ta[q] == a[q + 1];
      }
    }
  }

  /** The sort depends only on which elements it is given, not on their
      input order, when no two different elements share a key. */
  lemma SortByOrderIndependent<T>(a: seq<T>, b: seq<T>, key: T -> DateTime)
    requires multiset(a) == multiset(b)
    requires KeysDistinct(a, key)
    ensures SortBy(a, key) == SortBy(b, key)
  {
    var sa, sb := SortBy(a, key), SortBy(b, key);
    SortBySorted(a, key);
    SortBySorted(b, key);
    forall i, j | 0 <= i < |sa| && 0 <= j < |sa| && key(sa[i]) == key(sa[j]) ensures sa[i] == sa[j] {
      assert sa[i] in multiset(a) && sa[j] in multiset(a);
      var p :| 0 <= p < |a| && a[p] == sa[i];
      var q :| 0 <= q < |a| && a[q] == sa[j];
    }
    SortedUnique(sa, sb, key);
  }

  /** Inserting an element no earlier than everything already there appends it. */
  lemma {:induction false} InsertAtEnd<T>(x: T, s: seq<T>, key: T -> DateTime)
    requires forall i :: 0 <= i < |s| ==> Le(key(s[i]), key(x))
    ensures Insert(x, s, key) == s + [x]
  {
    if s != [] {
      assert !Lt(key(x), key(s[0])) by {
        if Lt(key(x), key(s[0])) { LeAntisymmetric(key(x), key(s[0])); }
      }
      InsertAtEnd(x, s[1..], key);
      assert [s[0]] + (s[1..] + [x]) == s + [x];
    }
  }

  /** Sorting an already sorted sequence leaves it as it is. */
  lemma {:induction false} SortByKeepsSorted<T>(s: seq<T>, key: T -> DateTime)
    requires SortedBy(s, key)
    ensures SortBy(s, key) == s
  {
    if s != [] {
      var init := s[..|s| - 1];
      assert SortedBy(init, key);
      SortByKeepsSorted(init, key);
      InsertAtEnd(s[|s| - 1], init, key);
      assert init + [s[|s| - 1]] == s;
    }
  }

  /** The elements of `s` whose key is `at`, in their order in `s`. */
  ghost function At<T>(s: seq<T>, key: T -> DateTime, at: DateTime): seq<T> {
    if s == [] then [] else (if key(s[0]) == at then [s[0]] else []) + At(s[1..], key, at)
  }

  /** No element has key `at`: none is kept. */
  lemma {:induction false} AtNone<T>(s: seq<T>, key: T -> DateTime, at: DateTime)
    requires forall k :: 0 <= k < |s| ==> key(s[k]) != at
    ensures At(s, key, at) == []
  {
    if s != [] {
      assert forall k :: 0 <= k < |s[1..]| ==> s[1..][k] == s[k + 1];
      AtNone(s[1..], key, at);
    }
  }

  /** Keeping the elements with key `at` commutes with appending one element. */
  lemma {:induction false} AtAppend<T>(s: seq<T>, x: T, key: T -> DateTime, at: DateTime)
    ensures At(s + [x], key, at) == At(s, key, at) + (if key(x) == at then [x] else [])
  {
    if s == [] {
      assert [] + [x] == [x] && [x][1..] == [];
    } else {
      assert (s + [x])[1..] == s[1..] + [x];
      AtAppend(s[1..], x, key, at);
    }
  }

  /** Insertion puts `x` after every element with the same key as `x`. */
  lemma {:induction false} InsertStable<T>(x: T, s: seq<T>, key: T -> DateTime, at: DateTime)
    requires SortedBy(s, key)
    ensures At(Insert(x, s, key), key, at) == At(s, key, at) + (if key(x) == at then [x] else [])
  {
    if s != [] {
      if Lt(key(x), key(s[0])) {
        assert ([x] + s)[1..] == s;
        if key(x) == at {
          forall k | 0 <= k < |s| ensures key(s[k]) != at {
            if key(s[k]) == at {
              assert Le(key(s[0]), key(s[k]));
              LeAntisymmetric(key(s[0]), key(s[k]));
            }
          }
          AtNone(s, key, at);
        }
      } else {
        TailFacts(s, key);
        InsertStable(x, s[1..], key, at);
        assert ([s[0]] + Insert(x, s[1..], key))[1..] == Insert(x, s[1..], key);
      }
    }
  }

  /** The sort is stable: the elements that share a key keep their input order. */
  lemma {:induction false} SortByStable<T>(s: seq<T>, key: T -> DateTime, at: DateTime)
    ensures At(SortBy(s, key), key, at) == At(s, key, at)
  {
    if s != [] {
      var init, x := s[..|s| - 1], s[|s| - 1];
      assert init + [x] == s;
      assert SortBy(s, key) == Insert(x, SortBy(init, key), key);
      SortByStable(init, key, at);
      SortBySorted(init, key);
      InsertStable(x, SortBy(init, key), key, at);
      AtAppend(init, x, key, at);
    }
  }
}
