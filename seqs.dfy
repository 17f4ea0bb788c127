/**
 * Sequence combinators shared by the repository models: a filter (JPQL `WHERE`) and a
 * stable insertion sort on lexicographic integer keys (JPQL `ORDER BY`).
 * Rows with equal keys keep their store order.
 */
module Seqs {

  /** A sort key, compared lexicographically; smaller keys come first. */
  type Key = seq<int>

  predicate KeyLe(a: Key, b: Key)
  {
    a == [] || (b != [] && (a[0] < b[0] || (a[0] == b[0] && KeyLe(a[1..], b[1..]))))
  }

  lemma {:induction false} KeyLeTotal(a: Key, b: Key)
    ensures KeyLe(a, b) || KeyLe(b, a)
  {
    if a != [] && b != [] && a[0] == b[0] {
      KeyLeTotal(a[1..], b[1..]);
    }
  }

  lemma {:induction false} KeyLeTrans(a: Key, b: Key, c: Key)
    requires KeyLe(a, b) && KeyLe(b, c)
    ensures KeyLe(a, c)
  {
    if a != [] && b != [] && c != [] && a[0] == b[0] && b[0] == c[0] {
      KeyLeTrans(a[1..], b[1..], c[1..]);
    }
  }

  /** One-component keys compare as their component. */
  lemma KeyLeSingle(a: int, b: int)
    ensures KeyLe([a], [b]) <==> a <= b
  {
    assert [a][1..] == [];
  }

  /** Three-component keys compare lexicographically. */
  lemma KeyLeTriple(a0: int, a1: int, a2: int, b0: int, b1: int, b2: int)
    ensures KeyLe([a0, a1, a2], [b0, b1, b2]) <==>
              a0 < b0 || (a0 == b0 && (a1 < b1 || (a1 == b1 && a2 <= b2)))
  {
    assert [a0, a1, a2][1..] == [a1, a2] && [b0, b1, b2][1..] == [b1, b2];
    assert [a1, a2][1..] == [a2] && [b1, b2][1..] == [b2];
    KeyLeSingle(a2, b2);
  }

  /** The elements of `s` that satisfy `p`, in their order in `s`. */
  function Filter<T>(p: T -> bool, s: seq<T>): (r: seq<T>)
    ensures |r| <= |s|
    ensures forall i :: 0 <= i < |r| ==> p(r[i])
  {
    if s == [] then [] else (if p(s[0]) then [s[0]] else []) + Filter(p, s[1..])
  }

  /** An element is kept exactly when it is in `s` and satisfies `p`. */
  lemma {:induction false} FilterMembers<T>(p: T -> bool, s: seq<T>)
    ensures forall x :: x in Filter(p, s) <==> x in s && p(x)
  {
    if s != [] {
      FilterMembers(p, s[1..]);
      assert s == [s[0]] + s[1..];
    }
  }

  lemma {:induction false} FilterConcat<T>(p: T -> bool, a: seq<T>, b: seq<T>)
    ensures Filter(p, a + b) == Filter(p, a) + Filter(p, b)
  {
    if a != [] {
      var h := if p(a[0]) then [a[0]] else [];
      ConsAppend(a, b);
      FilterCons(p, a + b);
      FilterConcat(p, a[1..], b);
      assert h + (Filter(p, a[1..]) + Filter(p, b)) == (h + Filter(p, a[1..])) + Filter(p, b);
    } else {
      assert a + b == b;
    }
  }

  /** The head and the rest of a concatenation whose first part is not empty. */
  lemma ConsAppend<T>(a: seq<T>, b: seq<T>)
    requires a != []
    ensures a + b != [] && (a + b)[0] == a[0] && (a + b)[1..] == a[1..] + b
  {
  }

  /** Filtering twice is filtering once by the conjunction. */
  lemma {:induction false} FilterFilter<T>(p: T -> bool, q: T -> bool, both: T -> bool, s: seq<T>)
    requires forall x :: both(x) == (q(x) && p(x))
    ensures Filter(both, s) == Filter(p, Filter(q, s))
  {
    if s != [] {
      FilterFilter(p, q, both, s[1..]);
      assert both(s[0]) == (q(s[0]) && p(s[0]));
      var f := Filter(q, s[1..]);
      if q(s[0]) {
        assert Filter(q, s) == [s[0]] + f;
        assert ([s[0]] + f)[0] == s[0] && ([s[0]] + f)[1..] == f;
      } else {
        assert Filter(q, s) == f;
      }
    }
  }

  /** Every element the filter keeps comes from `s`. */
  lemma {:induction false} FilterElementsIn<T>(p: T -> bool, s: seq<T>)
    ensures forall i :: 0 <= i < |Filter(p, s)| ==> Filter(p, s)[i] in s
  {
    if s != [] {
      FilterElementsIn(p, s[1..]);
      var t := Filter(p, s[1..]);
      forall i | 0 <= i < |t| ensures t[i] in s {
        assert t[i] in s[1..];
      }
    }
  }

  lemma FilterHeadIn<T>(p: T -> bool, s: seq<T>)
    requires Filter(p, s) != []
    ensures Filter(p, s)[0] in s
  {
    FilterMembers(p, s);
    var f := Filter(p, s);
    assert f[0] in f;
  }

  ghost predicate SortedBy<T>(key: T -> Key, s: seq<T>)
  {
    forall i, j :: 0 <= i < j < |s| ==> KeyLe(key(s[i]), key(s[j]))
  }

  /** `x` placed before the first element whose key is not smaller than its own. */
  function Insert<T>(key: T -> Key, x: T, s: seq<T>): (r: seq<T>)
    ensures |r| == |s| + 1
    ensures multiset(r) == multiset(s) + multiset{x}
  {
    if s == [] || KeyLe(key(x), key(s[0])) then [x] + s
    else
      assert s == [s[0]] + s[1..];
      [s[0]] + Insert(key, x, s[1..])
  }

  /** Stable insertion sort of `s` by `key`. */
  function SortBy<T>(key: T -> Key, s: seq<T>): (r: seq<T>)
    ensures |r| == |s|
    ensures multiset(r) == multiset(s)
  {
    if s == [] then []
    else
      assert s == [s[0]] + s[1..];
      Insert(key, s[0], SortBy(key, s[1..]))
  }

  lemma {:induction false} InsertSorted<T>(key: T -> Key, x: T, s: seq<T>)
    requires SortedBy(key, s)
    ensures SortedBy(key, Insert(key, x, s))
  {
    if s == [] || KeyLe(key(x), key(s[0])) {
      forall j | 0 <= j < |s|
        ensures KeyLe(key(x), key(s[j]))
      {
        if j > 0 {
          KeyLeTrans(key(x), key(s[0]), key(s[j]));
        }
      }
    } else {
      KeyLeTotal(key(x), key(s[0]));
      InsertSorted(key, x, s[1..]);
      var t := Insert(key, x, s[1..]);
      forall j | 0 <= j < |t|
        ensures KeyLe(key(s[0]), key(t[j]))
      {
        assert t[j] in multiset(t);
        if t[j] != x {
          assert t[j] in multiset(s[1..]);
          var k :| 0 <= k < |s[1..]| && s[1..][k] == t[j];
          assert s[k + 1] == t[j];
        }
      }
      assert Insert(key, x, s) == [s[0]] + t;
    }
  }

  lemma {:induction false} SortBySorted<T>(key: T -> Key, s: seq<T>)
    ensures SortedBy(key, SortBy(key, s))
  {
    if s != [] {
      SortBySorted(key, s[1..]);
      InsertSorted(key, s[0], SortBy(key, s[1..]));
    }
  }

  /** Sorting neither adds nor drops an element. */
  lemma SortByMembers<T>(key: T -> Key, s: seq<T>)
    ensures forall x :: x in SortBy(key, s) <==> x in s
  {
    forall x
      ensures x in SortBy(key, s) <==> x in s
    {
      assert x in SortBy(key, s) <==> x in multiset(SortBy(key, s));
      assert x in s <==> x in multiset(s);
    }
  }

  /** The first element of a sorted sequence has the least key. */
  lemma SortedHeadLeast<T>(key: T -> Key, s: seq<T>, y: T)
    requires SortedBy(key, s) && y in s
    ensures KeyLe(key(s[0]), key(y))
  {
    var j :| 0 <= j < |s| && s[j] == y;
    if j == 0 {
      KeyLeTotal(key(y), key(y));
    }
  }

  lemma {:induction false} FilterInsert<T>(key: T -> Key, p: T -> bool, x: T, t: seq<T>)
    requires SortedBy(key, t)
    ensures Filter(p, Insert(key, x, t)) ==
              if p(x) then Insert(key, x, Filter(p, t)) else Filter(p, t)
  {
    if t == [] {
    } else if KeyLe(key(x), key(t[0])) {
      FilterInsertFront(key, p, x, t);
    } else {
      FilterInsert(key, p, x, t[1..]);
      FilterInsertLater(key, p, x, t);
    }
  }

  /** `x` goes in front of a sorted `t`, so it also goes in front of any filter of `t`. */
  lemma FilterInsertFront<T>(key: T -> Key, p: T -> bool, x: T, t: seq<T>)
    requires SortedBy(key, t) && t != [] && KeyLe(key(x), key(t[0]))
    ensures Filter(p, Insert(key, x, t)) ==
              if p(x) then Insert(key, x, Filter(p, t)) else Filter(p, t)
  {
    assert Insert(key, x, t) == [x] + t;
    assert ([x] + t)[0] == x && ([x] + t)[1..] == t;
    var ft := Filter(p, t);
    if p(x) && ft != [] {
      FilterHeadIn(p, t);
      var j :| 0 <= j < |t| && t[j] == ft[0];
      if j > 0 {
        KeyLeTrans(key(x), key(t[0]), key(t[j]));
      }
      assert Insert(key, x, ft) == [x] + ft;
    }
  }

  /** `x` goes after the head of `t`; the claim for `t[1..]` carries over. */
  lemma FilterInsertLater<T>(key: T -> Key, p: T -> bool, x: T, t: seq<T>)
    requires t != [] && !KeyLe(key(x), key(t[0]))
    requires Filter(p, Insert(key, x, t[1..])) ==
               if p(x) then Insert(key, x, Filter(p, t[1..])) else Filter(p, t[1..])
    ensures Filter(p, Insert(key, x, t)) ==
              if p(x) then Insert(key, x, Filter(p, t)) else Filter(p, t)
  {
    var rest := Insert(key, x, t[1..]);
    var f := Filter(p, t[1..]);
    var h := if p(t[0]) then [t[0]] else [];
    assert Insert(key, x, t) == [t[0]] + rest;
    FilterCons(p, [t[0]] + rest);
    assert Filter(p, Insert(key, x, t)) == h + Filter(p, rest);
    FilterCons(p, t);
    assert Filter(p, t) == h + f;
    if !p(x) {
      assert Filter(p, rest) == f;
    } else if p(t[0]) {
      assert Filter(p, rest) == Insert(key, x, f);
      InsertAfterHead(key, x, t[0], f);
      assert Insert(key, x, h + f) == h + Insert(key, x, f);
    } else {
      assert Filter(p, rest) == Insert(key, x, f);
      assert h + f == f && h + Filter(p, rest) == Filter(p, rest);
    }
  }

  /** The filter of a non-empty sequence, one step unfolded. */
  lemma FilterCons<T>(p: T -> bool, s: seq<T>)
    requires s != []
    ensures Filter(p, s) == (if p(s[0]) then [s[0]] else []) + Filter(p, s[1..])
  {
  }

  /** An element with a larger key than `y` is inserted after `y`. */
  lemma InsertAfterHead<T>(key: T -> Key, x: T, y: T, s: seq<T>)
    requires !KeyLe(key(x), key(y))
    ensures Insert(key, x, [y] + s) == [y] + Insert(key, x, s)
  {
    assert ([y] + s)[0] == y && ([y] + s)[1..] == s;
  }

  /** Sorting then filtering equals filtering then sorting (the sort is stable). */
  lemma {:induction false} SortFilterCommute<T>(key: T -> Key, p: T -> bool, s: seq<T>)
    ensures SortBy(key, Filter(p, s)) == Filter(p, SortBy(key, s))
  {
    if s != [] {
      var sorted := SortBy(key, s[1..]);
      var f := Filter(p, s[1..]);
      SortFilterCommute(key, p, s[1..]);
      assert SortBy(key, f) == Filter(p, sorted);
      SortBySorted(key, s[1..]);
      FilterInsert(key, p, s[0], sorted);
      assert SortBy(key, s) == Insert(key, s[0], sorted);
      if p(s[0]) {
        assert Filter(p, s) == [s[0]] + f;
        assert ([s[0]] + f)[0] == s[0] && ([s[0]] + f)[1..] == f;
        assert SortBy(key, Filter(p, s)) == Insert(key, s[0], SortBy(key, f));
      } else {
        assert Filter(p, s) == f;
      }
    }
  }
}
