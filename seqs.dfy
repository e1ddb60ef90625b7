/** Sequence operations that the app's array expressions are built from:
    `filter`, `map`, and a stable `sort` by a two-valued key. */
module Seqs {

  /** The elements of `s` on which `p` yields `b`, in their order in `s`
      (Array.prototype.filter with the predicate `x => p(x) == b`). */
  function Select<T(!new)>(s: seq<T>, p: T -> bool, b: bool): (r: seq<T>)
    ensures |r| <= |s|
    ensures forall i :: 0 <= i < |r| ==> p(r[i]) == b
  {
    if s == [] then []
    else if p(s[0]) == b then [s[0]] + Select(s[1..], p, b)
    else Select(s[1..], p, b)
  }

  /** Array.prototype.map. */
  function Map<T, U>(s: seq<T>, f: T -> U): (r: seq<U>)
    ensures |r| == |s|
    ensures forall i :: 0 <= i < |s| ==> r[i] == f(s[i])
  {
    if s == [] then [] else [f(s[0])] + Map(s[1..], f)
  }

  /** An element is selected exactly when it occurs in the input and matches. */
  lemma {:induction false} SelectMembers<T(!new)>(s: seq<T>, p: T -> bool, b: bool)
    ensures forall x :: x in Select(s, p, b) <==> x in s && p(x) == b
  {
    if s != [] {
      SelectMembers(s[1..], p, b);
      assert forall x :: x in s <==> x == s[0] || x in s[1..];
    }
  }

  lemma {:induction false} SelectAppend<T(!new)>(a: seq<T>, c: seq<T>, p: T -> bool, b: bool)
    ensures Select(a + c, p, b) == Select(a, p, b) + Select(c, p, b)
  {
    if a == [] {
      assert a + c == c;
    } else {
      assert (a + c)[0] == a[0];
      assert (a + c)[1..] == a[1..] + c;
      SelectAppend(a[1..], c, p, b);
    }
  }

  /** Selecting from a sequence that holds only matching elements keeps all of it. */
  lemma {:induction false} SelectAll<T(!new)>(s: seq<T>, p: T -> bool, b: bool)
    requires forall i :: 0 <= i < |s| ==> p(s[i]) == b
    ensures Select(s, p, b) == s
  {
    if s != [] {
      SelectAll(s[1..], p, b);
    }
  }

  /** Selecting from a sequence that holds no matching element yields nothing. */
  lemma {:induction false} SelectNone<T(!new)>(s: seq<T>, p: T -> bool, b: bool)
    requires forall i :: 0 <= i < |s| ==> p(s[i]) != b
    ensures Select(s, p, b) == []
  {
    if s != [] {
      SelectNone(s[1..], p, b);
    }
  }

  /** Each matching element is selected as often as it occurs; no other is. */
  lemma {:induction false} SelectCount<T(!new)>(s: seq<T>, p: T -> bool, b: bool, x: T)
    ensures multiset(Select(s, p, b))[x] == if p(x) == b then multiset(s)[x] else 0
  {
    if s != [] {
      SelectCount(s[1..], p, b, x);
      assert s == [s[0]] + s[1..];
    }
  }

  lemma AppendAssoc<T>(a: seq<T>, b: seq<T>, c: seq<T>)
    ensures a + b + c == a + (b + c)
  {
  }

  /** Whether a comparator built from `key` orders `a` strictly before `b`:
      key-true elements precede key-false ones, all others compare equal. */
  predicate Before<T>(a: T, b: T, key: T -> bool)
  {
    key(a) && !key(b)
  }

  /** Inserts `x` in front of the first element of `t` that does not come
      strictly before it: a stable insertion step with the comparator `Before`. */
  function InsertByKey<T>(x: T, t: seq<T>, key: T -> bool): (r: seq<T>)
    ensures |r| == |t| + 1 && multiset(r) == multiset(t) + multiset{x}
  {
    if t == [] then [x]
    else if Before(t[0], x, key) then
      assert t == [t[0]] + t[1..];
      [t[0]] + InsertByKey(x, t[1..], key)
    else [x] + t
  }

  /** A stable sort with the comparator `Before`, as an insertion sort. */
  function SortByKey<T>(s: seq<T>, key: T -> bool): (r: seq<T>)
    ensures |r| == |s| && multiset(r) == multiset(s)
  {
    if s == [] then []
    else
      assert s == [s[0]] + s[1..];
      InsertByKey(s[0], SortByKey(s[1..], key), key)
  }

  lemma InsertKeyed<T>(x: T, t: seq<T>, key: T -> bool)
    requires key(x)
    ensures InsertByKey(x, t, key) == [x] + t
  {
  }

  lemma {:induction false} InsertAfterKeyed<T>(x: T, a: seq<T>, c: seq<T>, key: T -> bool)
    requires !key(x)
    requires forall i :: 0 <= i < |a| ==> key(a[i])
    requires c == [] || !key(c[0])
    ensures InsertByKey(x, a + c, key) == a + [x] + c
  {
    if a == [] {
      assert a + c == c;
    } else {
      assert (a + c)[0] == a[0];
      assert (a + c)[1..] == a[1..] + c;
      InsertAfterKeyed(x, a[1..], c, key);
    }
  }

  /** The stable sort puts every key-true element first and every key-false
      element after them, each group in its original order. */
  lemma {:induction false} SortByKeyIsPartition<T(!new)>(s: seq<T>, key: T -> bool)
    ensures SortByKey(s, key) == Select(s, key, true) + Select(s, key, false)
  {
    if s != [] {
      SortByKeyIsPartition(s[1..], key);
      if key(s[0]) {
        SortStepKeyed(s, key);
      } else {
        SortStepUnkeyed(s, key);
      }
    }
  }

  lemma SortStepKeyed<T(!new)>(s: seq<T>, key: T -> bool)
    requires s != [] && key(s[0])
    requires SortByKey(s[1..], key) == Select(s[1..], key, true) + Select(s[1..], key, false)
    ensures SortByKey(s, key) == Select(s, key, true) + Select(s, key, false)
  {
    var a, c := Select(s[1..], key, true), Select(s[1..], key, false);
    InsertKeyed(s[0], a + c, key);
    AppendAssoc([s[0]], a, c);
  }

  lemma SortStepUnkeyed<T(!new)>(s: seq<T>, key: T -> bool)
    requires s != [] && !key(s[0])
    requires SortByKey(s[1..], key) == Select(s[1..], key, true) + Select(s[1..], key, false)
    ensures SortByKey(s, key) == Select(s, key, true) + Select(s, key, false)
  {
    var x, a, c := s[0], Select(s[1..], key, true), Select(s[1..], key, false);
    assert Select(s, key, true) == a;
    assert Select(s, key, false) == [x] + c;
    calc {
      SortByKey(s, key);
      InsertByKey(x, a + c, key);
      { InsertAfterKeyed(x, a, c, key); }
      a + [x] + c;
      { AppendAssoc(a, [x], c); }
      a + ([x] + c);
    }
  }

  /** In the sorted sequence no key-false element precedes a key-true one. */
  lemma SortByKeyOrdered<T(!new)>(s: seq<T>, key: T -> bool)
    ensures forall i, j :: 0 <= i < j < |SortByKey(s, key)| && key(SortByKey(s, key)[j]) ==> key(SortByKey(s, key)[i])
  {
    SortByKeyIsPartition(s, key);
    var a, c := Select(s, key, true), Select(s, key, false);
    var r := SortByKey(s, key);
    forall i, j | 0 <= i < j < |r| && key(r[j])
      ensures key(r[i])
    {
      assert j < |a|;
      assert r[i] == a[i];
    }
  }

  /** Within each key group the sort keeps the input order (stability). */
  lemma SortByKeyStable<T(!new)>(s: seq<T>, key: T -> bool, b: bool)
    ensures Select(SortByKey(s, key), key, b) == Select(s, key, b)
  {
    var a, c := Select(s, key, true), Select(s, key, false);
    SortByKeyIsPartition(s, key);
    SelectAppend(a, c, key, b);
    if b {
      SelectAll(a, key, true);
      SelectNone(c, key, true);
    } else {
      SelectNone(a, key, false);
      SelectAll(c, key, false);
    }
  }
}
