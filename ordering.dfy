/** Python's list primitives as the task code uses them: lexicographic
    comparison of sort keys (tuples and strings compare element by element),
    list comprehensions, collecting and writing loops, and the stable sort
    behind `sorted(..., key=...)` and `list.sort(key=...)`. */
module Ordering {
  import opened Wrappers

  /** Strict lexicographic order on key sequences: Python's `<` on tuples of
      integers and on strings (compared code point by code point). */
  predicate LexLess(a: seq<int>, b: seq<int>)
    decreases |a|
  {
    b != [] && (a == [] || a[0] < b[0] || (a[0] == b[0] && LexLess(a[1..], b[1..])))
  }

  lemma {:induction false} LexIrreflexive(a: seq<int>)
    ensures !LexLess(a, a)
  {
    if a != [] {
      LexIrreflexive(a[1..]);
    }
  }

  lemma {:induction false} LexTransitive(a: seq<int>, b: seq<int>, c: seq<int>)
    requires LexLess(a, b) && LexLess(b, c)
    ensures LexLess(a, c)
  {
    if a != [] && a[0] == b[0] && b[0] == c[0] {
      LexTransitive(a[1..], b[1..], c[1..]);
    }
  }

  /** Any two distinct keys are ordered one way or the other. */
  lemma {:induction false} LexTotal(a: seq<int>, b: seq<int>)
    ensures a == b || LexLess(a, b) || LexLess(b, a)
  {
    if a != [] && b != [] && a[0] == b[0] {
      LexTotal(a[1..], b[1..]);
      if a[1..] == b[1..] {
        assert a == [a[0]] + a[1..] && b == [b[0]] + b[1..];
      }
    }
  }

  lemma LexAsymmetric(a: seq<int>, b: seq<int>)
    requires LexLess(a, b)
    ensures !LexLess(b, a)
  {
    if LexLess(b, a) {
      LexTransitive(a, b, a);
      LexIrreflexive(a);
    }
  }

  /** The code points of a string, the key Python compares strings by. */
  function Codes(s: string): (r: seq<int>)
    ensures |r| == |s| && forall i :: 0 <= i < |s| ==> r[i] == s[i] as int
  {
    seq(|s|, i requires 0 <= i < |s| => s[i] as int)
  }

  lemma CodesInjective(s: string, t: string)
    requires Codes(s) == Codes(t)
    ensures s == t
  {
    assert |s| == |t|;
    forall i | 0 <= i < |s|
      ensures s[i] == t[i]
    {
      assert Codes(s)[i] == Codes(t)[i];
    }
  }

  /** `[x for x in s if p(x)]` */
  function Filter<T>(s: seq<T>, p: T -> bool): (r: seq<T>)
    ensures |r| <= |s|
    ensures forall i :: 0 <= i < |r| ==> p(r[i])
  {
    if s == [] then []
    else
      var rest := Filter(s[1..], p);
      if p(s[0]) then [s[0]] + rest else rest
  }

  /** The comprehension keeps exactly the elements satisfying the condition. */
  lemma {:induction false} FilterMembers<T>(s: seq<T>, p: T -> bool)
    ensures forall i :: 0 <= i < |s| ==> (s[i] in Filter(s, p) <==> p(s[i]))
  {
    if s != [] {
      FilterMembers(s[1..], p);
      forall i | 0 <= i < |s|
        ensures s[i] in Filter(s, p) <==> p(s[i])
      {
        if i > 0 {
          assert s[i] == s[1..][i - 1];
          FilterSub(s[1..], p, s[i]);
        }
      }
    }
  }

  /** Nothing enters the comprehension that was not in the list. */
  lemma {:induction false} FilterSub<T>(s: seq<T>, p: T -> bool, x: T)
    ensures x in Filter(s, p) ==> x in s && p(x)
  {
    if s != [] {
      FilterSub(s[1..], p, x);
    }
  }

  /** Nothing but elements of the list is kept. */
  lemma FilterWithin<T>(s: seq<T>, p: T -> bool)
    ensures forall i :: 0 <= i < |Filter(s, p)| ==> Filter(s, p)[i] in s
  {
    forall i | 0 <= i < |Filter(s, p)|
      ensures Filter(s, p)[i] in s
    {
      FilterSub(s, p, Filter(s, p)[i]);
    }
  }

  /** A one-element list is kept or dropped whole. */
  lemma FilterSingle<T>(x: T, p: T -> bool)
    ensures Filter([x], p) == if p(x) then [x] else []
  {
    assert [x][1..] == [];
  }

  /** The comprehension distributes over concatenation, so it keeps the
      relative order of what it keeps. */
  lemma {:induction false} FilterConcat<T>(a: seq<T>, b: seq<T>, p: T -> bool)
    ensures Filter(a + b, p) == Filter(a, p) + Filter(b, p)
  {
    if a == [] {
      assert a + b == b;
    } else {
      assert (a + b)[0] == a[0];
      assert (a + b)[1..] == a[1..] + b;
      FilterConcat(a[1..], b, p);
      var head := if p(a[0]) then [a[0]] else [];
      assert Filter(a + b, p) == head + Filter(a[1..] + b, p);
      assert Filter(a, p) == head + Filter(a[1..], p);
    }
  }

  /** A comprehension keeps everything exactly when the condition holds
      throughout. */
  lemma {:induction false} FilterAll<T>(s: seq<T>, p: T -> bool)
    ensures Filter(s, p) == s <==> forall i :: 0 <= i < |s| ==> p(s[i])
  {
    if s != [] {
      FilterAll(s[1..], p);
      if !p(s[0]) {
        assert |Filter(s, p)| < |s| by {
          assert Filter(s, p) == Filter(s[1..], p);
        }
      }
    }
  }

  /** Filtering twice by the same condition is filtering once. */
  lemma {:induction false} FilterIdempotent<T>(s: seq<T>, p: T -> bool)
    ensures Filter(Filter(s, p), p) == Filter(s, p)
  {
    var r := Filter(s, p);
    assert forall i :: 0 <= i < |r| ==> p(r[i]) by {
      forall i | 0 <= i < |r| ensures p(r[i]) {
        assert r[i] in r;
      }
    }
    FilterAll(r, p);
  }

  /** `[x for x in s if p(x)]` with a condition that may raise (None): the
      comprehension raises when the condition does for some element, and
      otherwise keeps the elements for which it holds, in order. */
  function TryFilter<T>(s: seq<T>, p: T -> Option<bool>): (r: Option<seq<T>>)
    ensures r.Some? <==> forall i :: 0 <= i < |s| ==> p(s[i]).Some?
    ensures r.Some? ==> |r.value| <= |s|
    ensures r.Some? ==> forall i :: 0 <= i < |r.value| ==> r.value[i] in s && p(r.value[i]) == Some(true)
    ensures r.Some? ==> forall i :: 0 <= i < |s| ==> (s[i] in r.value <==> p(s[i]) == Some(true))
  {
    if s == [] then Some([])
    else
      match p(s[0])
      case None => None
      case Some(hit) =>
        match TryFilter(s[1..], p)
        case None =>
          assert !p(s[1..][0]).Some? || exists i :: 0 <= i < |s[1..]| && p(s[1..][i]).None?;
          None
        case Some(rest) =>
          assert s == [s[0]] + s[1..];
          if hit then Some([s[0]] + rest) else Some(rest)
  }

  /** The elements a condition that may raise keeps: those it holds for. */
  function Holds<T>(p: T -> Option<bool>): T -> bool {
    x => p(x) == Some(true)
  }

  /** When it does not raise, the comprehension with a raising condition
      is the plain comprehension keeping what the condition holds for: the
      same elements, in the same order, as often as in the list. */
  lemma {:induction false} TryFilterIsFilter<T>(s: seq<T>, p: T -> Option<bool>)
    requires TryFilter(s, p).Some?
    ensures TryFilter(s, p).value == Filter(s, Holds(p))
  {
    if s != [] {
      TryFilterIsFilter(s[1..], p);
    }
  }

  /** `[f(x) for x in s]` keeping only the present results: a loop that
      appends what each element yields. */
  function Collect<A, B>(s: seq<A>, f: A -> Option<B>): seq<B> {
    if s == [] then [] else (if f(s[0]).Some? then [f(s[0]).value] else []) + Collect(s[1..], f)
  }

  lemma {:induction false} CollectSnoc<A, B>(s: seq<A>, x: A, f: A -> Option<B>)
    ensures Collect(s + [x], f) == Collect(s, f) + (if f(x).Some? then [f(x).value] else [])
  {
    if s == [] {
      assert [x][1..] == [];
    } else {
      var head := if f(s[0]).Some? then [f(s[0]).value] else [];
      assert (s + [x])[0] == s[0];
      assert (s + [x])[1..] == s[1..] + [x];
      assert Collect(s + [x], f) == head + Collect(s[1..] + [x], f);
      CollectSnoc(s[1..], x, f);
      assert Collect(s, f) == head + Collect(s[1..], f);
    }
  }

  /** One step of the collecting loop over a prefix. */
  lemma CollectStep<A, B>(s: seq<A>, i: nat, f: A -> Option<B>)
    requires i < |s|
    ensures Collect(s[..i + 1], f) == Collect(s[..i], f) + (if f(s[i]).Some? then [f(s[i]).value] else [])
  {
    CollectSnoc(s[..i], s[i], f);
    assert s[..i + 1] == s[..i] + [s[i]];
  }

  /** When every element yields a value, nothing is dropped: one value per
      element, in order. */
  lemma {:induction false} CollectAllSome<A, B>(s: seq<A>, f: A -> Option<B>)
    requires forall i :: 0 <= i < |s| ==> f(s[i]).Some?
    ensures |Collect(s, f)| == |s|
    ensures forall i :: 0 <= i < |s| ==> Collect(s, f)[i] == f(s[i]).value
  {
    if s != [] {
      CollectAllSome(s[1..], f);
      assert forall i :: 1 <= i < |s| ==> s[1..][i - 1] == s[i];
    }
  }

  /** `"".join(f(x) for x in s)` */
  function ConcatMap<A>(s: seq<A>, f: A -> string): string {
    if s == [] then "" else f(s[0]) + ConcatMap(s[1..], f)
  }

  lemma {:induction false} ConcatMapSnoc<A>(s: seq<A>, x: A, f: A -> string)
    ensures ConcatMap(s + [x], f) == ConcatMap(s, f) + f(x)
  {
    if s == [] {
      assert [x][1..] == [];
    } else {
      assert (s + [x])[0] == s[0];
      assert (s + [x])[1..] == s[1..] + [x];
      assert ConcatMap(s + [x], f) == f(s[0]) + ConcatMap(s[1..] + [x], f);
      ConcatMapSnoc(s[1..], x, f);
      assert ConcatMap(s, f) == f(s[0]) + ConcatMap(s[1..], f);
    }
  }

  /** One step of the writing loop over a prefix. */
  lemma ConcatMapStep<A>(s: seq<A>, i: nat, f: A -> string)
    requires i < |s|
    ensures ConcatMap(s[..i + 1], f) == ConcatMap(s[..i], f) + f(s[i])
  {
    ConcatMapSnoc(s[..i], s[i], f);
    assert s[..i + 1] == s[..i] + [s[i]];
  }

  /** `sum(1 for x in s if p(x))` */
  function Count<T>(s: seq<T>, p: T -> bool): (n: nat)
    ensures n <= |s|
    ensures n == |Filter(s, p)|
  {
    if s == [] then 0 else (if p(s[0]) then 1 else 0) + Count(s[1..], p)
  }

  /** The elements of `s` whose key is `k`, in order: what stability of a
      sort leaves unchanged. */
  function KeepKey<T>(s: seq<T>, key: T -> seq<int>, k: seq<int>): seq<T> {
    if s == [] then [] else (if key(s[0]) == k then [s[0]] else []) + KeepKey(s[1..], key, k)
  }

  /** Non-decreasing by `key`: no later element has a strictly smaller key. */
  predicate Sorted<T>(s: seq<T>, key: T -> seq<int>) {
    forall i, j :: 0 <= i < j < |s| ==> !LexLess(key(s[j]), key(s[i]))
  }

  /** Insert `x` into a list sorted by `key`, after every element whose key
      is not greater than its own. */
  function Insert<T>(x: T, s: seq<T>, key: T -> seq<int>): (r: seq<T>)
    ensures |r| == |s| + 1
    ensures multiset(r) == multiset(s) + multiset{x}
  {
    if s == [] then [x]
    else if LexLess(key(x), key(s[0])) then [x] + s
    else
      assert s == [s[0]] + s[1..];
      [s[0]] + Insert(x, s[1..], key)
  }

  /** The stable sort: `sorted(s, key=key)`. */
  function SortBy<T>(s: seq<T>, key: T -> seq<int>): (r: seq<T>)
    ensures multiset(r) == multiset(s)
    ensures |r| == |s|
  {
    if s == [] then []
    else
      assert s == s[..|s| - 1] + [s[|s| - 1]];
      Insert(s[|s| - 1], SortBy(s[..|s| - 1], key), key)
  }

  lemma {:induction false} InsertSorted<T>(x: T, s: seq<T>, key: T -> seq<int>)
    requires Sorted(s, key)
    ensures Sorted(Insert(x, s, key), key)
  {
    if s != [] && !LexLess(key(x), key(s[0])) {
      InsertSorted(x, s[1..], key);
      var r := Insert(x, s, key);
      var t := Insert(x, s[1..], key);
      assert r == [s[0]] + t;
      forall j | 0 < j < |r|
        ensures !LexLess(key(r[j]), key(r[0]))
      {
        assert r[j] in multiset(t);
        assert r[j] == x || r[j] in multiset(s[1..]);
        if r[j] != x {
          var m :| 0 <= m < |s[1..]| && s[1..][m] == r[j];
          assert s[1 + m] == r[j];
        }
      }
    } else if s != [] {
      var r := Insert(x, s, key);
      forall j | 0 < j < |r|
        ensures !LexLess(key(r[j]), key(r[0]))
      {
        assert r[j] == s[j - 1];
        if LexLess(key(s[j - 1]), key(x)) {
          if j - 1 == 0 {
            LexAsymmetric(key(x), key(s[0]));
          } else {
            assert !LexLess(key(s[j - 1]), key(s[0]));
            LexTotal(key(s[j - 1]), key(s[0]));
            if key(s[j - 1]) != key(s[0]) {
              LexTransitive(key(x), key(s[0]), key(s[j - 1]));
              LexAsymmetric(key(x), key(s[j - 1]));
            } else {
              LexAsymmetric(key(x), key(s[0]));
            }
          }
        }
      }
    }
  }

  /** The result of the stable sort is sorted by its key. */
  lemma {:induction false} SortBySorted<T>(s: seq<T>, key: T -> seq<int>)
    ensures Sorted(SortBy(s, key), key)
  {
    if s != [] {
      SortBySorted(s[..|s| - 1], key);
      InsertSorted(s[|s| - 1], SortBy(s[..|s| - 1], key), key);
    }
  }

  /** Inserting into a sorted list puts `x` after every element with the same
      key, so among equal keys the order is the order of insertion. */
  lemma {:induction false} InsertKeepKey<T>(x: T, s: seq<T>, key: T -> seq<int>, k: seq<int>)
    requires Sorted(s, key)
    ensures KeepKey(Insert(x, s, key), key, k)
         == KeepKey(s, key, k) + (if key(x) == k then [x] else [])
  {
    var tail := if key(x) == k then [x] else [];
    if s == [] {
      assert KeepKey([x], key, k) == tail + KeepKey([x][1..], key, k);
      assert [x][1..] == [];
    } else if LexLess(key(x), key(s[0])) {
      assert Insert(x, s, key) == [x] + s;
      assert ([x] + s)[0] == x;
      assert ([x] + s)[1..] == s;
      assert KeepKey([x] + s, key, k) == tail + KeepKey(s, key, k);
      if key(x) == k {
        // every element of s has a key at least key(s[0]), so none has key k
        forall i | 0 <= i < |s|
          ensures key(s[i]) != k
        {
          if i > 0 && key(s[i]) != key(s[0]) {
            LexTotal(key(s[i]), key(s[0]));
            LexTransitive(key(x), key(s[0]), key(s[i]));
          }
          LexIrreflexive(key(x));
        }
        KeepKeyNone(s, key, k);
      }
    } else {
      var head := if key(s[0]) == k then [s[0]] else [];
      var r := Insert(x, s[1..], key);
      assert Sorted(s[1..], key);
      InsertKeepKey(x, s[1..], key, k);
      assert Insert(x, s, key) == [s[0]] + r;
      assert ([s[0]] + r)[0] == s[0];
      assert ([s[0]] + r)[1..] == r;
      assert KeepKey([s[0]] + r, key, k) == head + KeepKey(r, key, k);
      assert KeepKey(s, key, k) == head + KeepKey(s[1..], key, k);
    }
  }

  lemma {:induction false} KeepKeyNone<T>(s: seq<T>, key: T -> seq<int>, k: seq<int>)
    requires forall i :: 0 <= i < |s| ==> key(s[i]) != k
    ensures KeepKey(s, key, k) == []
  {
    if s != [] {
      KeepKeyNone(s[1..], key, k);
    }
  }

  lemma {:induction false} KeepKeyConcat<T>(a: seq<T>, b: seq<T>, key: T -> seq<int>, k: seq<int>)
    ensures KeepKey(a + b, key, k) == KeepKey(a, key, k) + KeepKey(b, key, k)
  {
    if a == [] {
      assert a + b == b;
    } else {
      var head := if key(a[0]) == k then [a[0]] else [];
      assert (a + b)[0] == a[0];
      assert (a + b)[1..] == a[1..] + b;
      assert KeepKey(a + b, key, k) == head + KeepKey(a[1..] + b, key, k);
      KeepKeyConcat(a[1..], b, key, k);
      assert KeepKey(a, key, k) == head + KeepKey(a[1..], key, k);
    }
  }

  /** Stability: among elements with equal keys the sort keeps the original
      relative order. */
  lemma {:induction false} SortByStable<T>(s: seq<T>, key: T -> seq<int>, k: seq<int>)
    ensures KeepKey(SortBy(s, key), key, k) == KeepKey(s, key, k)
  {
    if s != [] {
      var init, last := s[..|s| - 1], s[|s| - 1];
      var tail := if key(last) == k then [last] else [];
      SortByStable(init, key, k);
      assert SortBy(s, key) == Insert(last, SortBy(init, key), key);
      InsertIntoSortBy(last, init, key, k);
      assert KeepKey(SortBy(s, key), key, k) == KeepKey(init, key, k) + tail;
      KeepKeyLast(s, key, k);
    }
  }

  lemma KeepKeyLast<T>(s: seq<T>, key: T -> seq<int>, k: seq<int>)
    requires s != []
    ensures KeepKey(s, key, k) == KeepKey(s[..|s| - 1], key, k) + (if key(s[|s| - 1]) == k then [s[|s| - 1]] else [])
  {
    var x := s[|s| - 1];
    KeepKeyConcat(s[..|s| - 1], [x], key, k);
    assert [x][1..] == [];
    assert s[..|s| - 1] + [x] == s;
  }

  lemma InsertIntoSortBy<T>(x: T, s: seq<T>, key: T -> seq<int>, k: seq<int>)
    ensures KeepKey(Insert(x, SortBy(s, key), key), key, k)
         == KeepKey(SortBy(s, key), key, k) + (if key(x) == k then [x] else [])
  {
    SortBySorted(s, key);
    InsertKeepKey(x, SortBy(s, key), key, k);
  }

  /** Sorting a list that is already sorted leaves it as it is; in particular
      sorting twice is sorting once. */
  lemma {:induction false} SortBySortedIdentity<T>(s: seq<T>, key: T -> seq<int>)
    requires Sorted(s, key)
    ensures SortBy(s, key) == s
  {
    if s != [] {
      var init, last := s[..|s| - 1], s[|s| - 1];
      SortBySortedIdentity(init, key);
      InsertLast(last, init, key);
    }
  }

  lemma {:induction false} InsertLast<T>(x: T, s: seq<T>, key: T -> seq<int>)
    requires forall i :: 0 <= i < |s| ==> !LexLess(key(x), key(s[i]))
    ensures Insert(x, s, key) == s + [x]
  {
    if s != [] {
      InsertLast(x, s[1..], key);
    }
  }

  lemma SortByIdempotent<T>(s: seq<T>, key: T -> seq<int>)
    ensures SortBy(SortBy(s, key), key) == SortBy(s, key)
  {
    SortBySorted(s, key);
    SortBySortedIdentity(SortBy(s, key), key);
  }

  /** Two keys that order the elements of `s` alike. */
  predicate SameOrder<T>(s: seq<T>, k1: T -> seq<int>, k2: T -> seq<int>) {
    forall i, j :: 0 <= i < |s| && 0 <= j < |s| ==> (LexLess(k1(s[i]), k1(s[j])) <==> LexLess(k2(s[i]), k2(s[j])))
  }

  lemma {:induction false} InsertAgree<T>(x: T, s: seq<T>, k1: T -> seq<int>, k2: T -> seq<int>)
    requires forall i :: 0 <= i < |s| ==> (LexLess(k1(x), k1(s[i])) <==> LexLess(k2(x), k2(s[i])))
    ensures Insert(x, s, k1) == Insert(x, s, k2)
  {
    if s != [] {
      assert forall i :: 0 <= i < |s[1..]| ==> s[1..][i] == s[i + 1];
      InsertAgree(x, s[1..], k1, k2);
    }
  }

  /** Sorting depends only on how the key orders the elements: two keys
      that order them alike give the same sorted list. */
  lemma {:induction false} SortByAgree<T>(s: seq<T>, k1: T -> seq<int>, k2: T -> seq<int>)
    requires SameOrder(s, k1, k2)
    ensures SortBy(s, k1) == SortBy(s, k2)
  {
    if s != [] {
      var init, last := s[..|s| - 1], s[|s| - 1];
      assert forall i :: 0 <= i < |init| ==> init[i] == s[i];
      SortByAgree(init, k1, k2);
      var q := SortBy(init, k1);
      forall i | 0 <= i < |q|
        ensures LexLess(k1(last), k1(q[i])) <==> LexLess(k2(last), k2(q[i]))
      {
        assert q[i] in multiset(init);
        var j :| 0 <= j < |init| && init[j] == q[i];
      }
      InsertAgree(last, q, k1, k2);
    }
  }

  /** `[f(x) for x in s]` with an `f` that may raise (None): the whole
      comprehension raises when `f` does for some element. */
  function TryMap<A, B>(s: seq<A>, f: A -> Option<B>): (r: Option<seq<B>>)
    ensures r.Some? <==> forall i :: 0 <= i < |s| ==> f(s[i]).Some?
    ensures r.Some? ==> |r.value| == |s| && forall i :: 0 <= i < |s| ==> Some(r.value[i]) == f(s[i])
  {
    if s == [] then Some([])
    else
      match f(s[0])
      case None => None
      case Some(y) =>
        match TryMap(s[1..], f)
        case None =>
          assert exists i :: 0 <= i < |s[1..]| && f(s[1..][i]).None?;
          None
        case Some(rest) =>
          assert forall i :: 1 <= i < |s| ==> s[i] == s[1..][i - 1];
          Some([y] + rest)
  }

  /** No element occurs twice. */
  predicate Distinct<T(==)>(s: seq<T>) {
    forall i, j :: 0 <= i < j < |s| ==> s[i] != s[j]
  }

  lemma DistinctCons<T>(s: seq<T>)
    requires s != []
    ensures Distinct(s) <==> s[0] !in s[1..] && Distinct(s[1..])
  {
    if Distinct(s) {
      forall k | 0 <= k < |s[1..]| ensures s[1..][k] != s[0] {
        assert s[1..][k] == s[k + 1];
      }
      forall i, j | 0 <= i < j < |s[1..]| ensures s[1..][i] != s[1..][j] {
        assert s[1..][i] == s[i + 1] && s[1..][j] == s[j + 1];
      }
    }
    if s[0] !in s[1..] && Distinct(s[1..]) {
      forall i, j | 0 <= i < j < |s| ensures s[i] != s[j] {
        assert s[j] == s[1..][j - 1];
        if i > 0 {
          assert s[i] == s[1..][i - 1];
        }
      }
    }
  }

  /** A list is duplicate-free exactly when no element occurs twice in its
      multiset. */
  lemma {:induction false} DistinctCounts<T>(s: seq<T>)
    ensures Distinct(s) <==> forall x :: multiset(s)[x] <= 1
  {
    if s != [] {
      var h, t := s[0], s[1..];
      assert s == [h] + t;
      DistinctCons(s);
      DistinctCounts(t);
      assert forall x :: multiset(s)[x] == multiset(t)[x] + (if x == h then 1 else 0);
      if forall x :: multiset(s)[x] <= 1 {
        assert multiset(t)[h] == 0;
        assert forall x :: multiset(t)[x] <= 1 by {
          forall x ensures multiset(t)[x] <= 1 {
            assert multiset(s)[x] <= 1;
          }
        }
      }
    }
  }
}
