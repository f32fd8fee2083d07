/** Filtering and the stable ascending sort the player uses twice: JavaScript's
    `Array.prototype.sort` with a numeric comparator `key(a) - key(b)`, which is
    stable. The sort is given as a function (insertion from the back, each element
    placed after every element whose key is not larger), characterised by three
    properties, and shown to be the only sequence with them. */
module Sorting {

  /** `s.filter(p)`. */
  function Filter<T>(s: seq<T>, p: T -> bool): (r: seq<T>)
    ensures |r| <= |s|
    ensures forall i :: 0 <= i < |r| ==> p(r[i])
  {
    if s == [] then [] else Filter(s[..|s| - 1], p) + (if p(s[|s| - 1]) then [s[|s| - 1]] else [])
  }

  /** The filtered sequence holds exactly the elements of `s` that satisfy `p`. */
  lemma {:induction false} FilterMembers<T>(s: seq<T>, p: T -> bool)
    ensures forall x :: x in Filter(s, p) <==> x in s && p(x)
  {
    if s != [] {
      FilterMembers(s[..|s| - 1], p);
      assert s == s[..|s| - 1] + [s[|s| - 1]];
    }
  }

  lemma {:induction false} FilterAppend<T>(a: seq<T>, b: seq<T>, p: T -> bool)
    ensures Filter(a + b, p) == Filter(a, p) + Filter(b, p)
  {
    if b != [] {
      var ab := a + b;
      assert ab[..|ab| - 1] == a + b[..|b| - 1];
      FilterAppend(a, b[..|b| - 1], p);
    } else {
      assert a + b == a;
    }
  }

  /** Ascending by key. */
  predicate SortedBy<T>(s: seq<T>, key: T -> int) {
    forall i, j :: 0 <= i < j < |s| ==> key(s[i]) <= key(s[j])
  }

  /** The elements of `s` whose key is `k`, in their order in `s`. Stability of a
      sort means each of these is the same before and after. */
  function KeyClass<T>(s: seq<T>, key: T -> int, k: int): seq<T> {
    if s == [] then []
    else KeyClass(s[..|s| - 1], key, k) + (if key(s[|s| - 1]) == k then [s[|s| - 1]] else [])
  }

  lemma {:induction false} KeyClassAppend<T>(a: seq<T>, b: seq<T>, key: T -> int, k: int)
    ensures KeyClass(a + b, key, k) == KeyClass(a, key, k) + KeyClass(b, key, k)
  {
    if b != [] {
      var ab := a + b;
      assert ab[..|ab| - 1] == a + b[..|b| - 1];
      KeyClassAppend(a, b[..|b| - 1], key, k);
    } else {
      assert a + b == a;
    }
  }

  lemma {:induction false} KeyClassMembers<T>(s: seq<T>, key: T -> int, k: int)
    ensures forall x :: x in KeyClass(s, key, k) <==> x in s && key(x) == k
  {
    if s != [] {
      KeyClassMembers(s[..|s| - 1], key, k);
      assert s == s[..|s| - 1] + [s[|s| - 1]];
    }
  }

  /** Places `x` after the last element of `s` whose key is at most `key(x)`. */
  function Insert<T>(s: seq<T>, x: T, key: T -> int): seq<T> {
    if s == [] || key(s[|s| - 1]) <= key(x) then s + [x]
    else Insert(s[..|s| - 1], x, key) + [s[|s| - 1]]
  }

  /** Stable ascending sort by `key`. */
  function SortBy<T>(s: seq<T>, key: T -> int): (r: seq<T>)
    ensures |r| == |s|
  {
    if s == [] then []
    else
      var sorted := SortBy(s[..|s| - 1], key);
      InsertLength(sorted, s[|s| - 1], key);
      Insert(sorted, s[|s| - 1], key)
  }

  lemma {:induction false} InsertLength<T>(s: seq<T>, x: T, key: T -> int)
    ensures |Insert(s, x, key)| == |s| + 1
  {
    if s != [] && key(s[|s| - 1]) > key(x) {
      InsertLength(s[..|s| - 1], x, key);
    }
  }

  lemma {:induction false} InsertMultiset<T>(s: seq<T>, x: T, key: T -> int)
    ensures multiset(Insert(s, x, key)) == multiset(s) + multiset{x}
  {
    if s != [] && key(s[|s| - 1]) > key(x) {
      InsertMultiset(s[..|s| - 1], x, key);
      assert s == s[..|s| - 1] + [s[|s| - 1]];
    }
  }

  lemma {:induction false} InsertSorted<T>(s: seq<T>, x: T, key: T -> int)
    requires SortedBy(s, key)
    ensures SortedBy(Insert(s, x, key), key)
  {
    if s != [] && key(s[|s| - 1]) > key(x) {
      var init := s[..|s| - 1];
      InsertSorted(init, x, key);
      InsertMultiset(init, x, key);
      var r := Insert(init, x, key);
      forall y | y in r ensures key(y) <= key(s[|s| - 1]) {
        assert y in multiset(r);
        if y != x {
          assert y in init;
        }
      }
    }
  }

  lemma {:induction false} InsertKeyClass<T>(s: seq<T>, x: T, key: T -> int, k: int)
    ensures KeyClass(Insert(s, x, key), key, k) == KeyClass(s, key, k) + (if key(x) == k then [x] else [])
  {
    if s == [] || key(s[|s| - 1]) <= key(x) {
      KeyClassAppend(s, [x], key, k);
    } else {
      var init, last := s[..|s| - 1], s[|s| - 1];
      InsertKeyClass(init, x, key, k);
      KeyClassAppend(Insert(init, x, key), [last], key, k);
      assert s == init + [last];
      KeyClassAppend(init, [last], key, k);
    }
  }

  /** The three properties of the sort: ascending, a permutation of its input,
      and stable (equal keys keep their input order). */
  lemma {:induction false} SortByCorrect<T>(s: seq<T>, key: T -> int)
    ensures |SortBy(s, key)| == |s|
    ensures SortedBy(SortBy(s, key), key)
    ensures multiset(SortBy(s, key)) == multiset(s)
    ensures forall k :: KeyClass(SortBy(s, key), key, k) == KeyClass(s, key, k)
  {
    if s != [] {
      var init, last := s[..|s| - 1], s[|s| - 1];
      SortByCorrect(init, key);
      InsertLength(SortBy(init, key), last, key);
      InsertSorted(SortBy(init, key), last, key);
      InsertMultiset(SortBy(init, key), last, key);
      assert s == init + [last];
      forall k ensures KeyClass(SortBy(s, key), key, k) == KeyClass(s, key, k) {
        InsertKeyClass(SortBy(init, key), last, key, k);
      }
    }
  }

  lemma {:induction false} KeyClassNonEmpty<T>(s: seq<T>, key: T -> int, i: int)
    requires 0 <= i < |s|
    ensures KeyClass(s, key, key(s[i])) != []
  {
    KeyClassMembers(s, key, key(s[i]));
    assert s[i] in KeyClass(s, key, key(s[i]));
  }

  lemma AppendCancel<T>(a: seq<T>, b: seq<T>, e: seq<T>)
    requires a + e == b + e
    ensures a == b
  {
    assert a == (a + e)[..|a|];
    assert b == (b + e)[..|b|];
  }

  lemma EmptyClasses<T>(r: seq<T>, t: seq<T>, key: T -> int)
    requires forall k :: KeyClass(r, key, k) == KeyClass(t, key, k)
    ensures r == [] <==> t == []
  {
    if t != [] {
      KeyClassNonEmpty(t, key, |t| - 1);
      assert KeyClass(r, key, key(t[|t| - 1])) != [];
    }
    if r != [] {
      KeyClassNonEmpty(r, key, |r| - 1);
      assert KeyClass(t, key, key(r[|r| - 1])) != [];
    }
  }

  /** The last key of an ascending `r` bounds every key of a `t` with the same classes. */
  lemma LastKeyBound<T>(r: seq<T>, t: seq<T>, key: T -> int)
    requires SortedBy(r, key) && r != [] && t != []
    requires forall k :: KeyClass(r, key, k) == KeyClass(t, key, k)
    ensures key(t[|t| - 1]) <= key(r[|r| - 1])
  {
    var k := key(t[|t| - 1]);
    KeyClassNonEmpty(t, key, |t| - 1);
    assert KeyClass(r, key, k) != [];
    ClassWitness(r, key, k);
  }

  lemma {:induction false} ClassWitness<T>(s: seq<T>, key: T -> int, k: int)
    requires KeyClass(s, key, k) != []
    ensures exists i :: 0 <= i < |s| && key(s[i]) == k
  {
    var init := s[..|s| - 1];
    if key(s[|s| - 1]) != k {
      ClassWitness(init, key, k);
      var i :| 0 <= i < |init| && key(init[i]) == k;
      assert s[i] == init[i];
    }
  }

  /** Two ascending sequences with the same key classes are equal. */
  lemma {:induction false} SortedClassesDetermine<T>(r: seq<T>, t: seq<T>, key: T -> int)
    requires SortedBy(r, key) && SortedBy(t, key)
    requires forall k :: KeyClass(r, key, k) == KeyClass(t, key, k)
    ensures r == t
    decreases |r| + |t|
  {
    EmptyClasses(r, t, key);
    if r != [] {
      var x, y := r[|r| - 1], t[|t| - 1];
      var r', t' := r[..|r| - 1], t[..|t| - 1];
      LastKeyBound(r, t, key);
      LastKeyBound(t, r, key);
      assert key(x) == key(y);
      var c := KeyClass(r, key, key(x));
      assert c == KeyClass(r', key, key(x)) + [x];
      assert c == KeyClass(t', key, key(y)) + [y];
      assert x == c[|c| - 1] == y;
      forall k ensures KeyClass(r', key, k) == KeyClass(t', key, k) {
        var e := if key(x) == k then [x] else [];
        assert KeyClass(r, key, k) == KeyClass(r', key, k) + e;
        assert KeyClass(t, key, k) == KeyClass(t', key, k) + e;
        AppendCancel(KeyClass(r', key, k), KeyClass(t', key, k), e);
      }
      SortedClassesDetermine(r', t', key);
      assert r == r' + [x] && t == t' + [y];
    }
  }

  /** SortBy is the only stable ascending rearrangement: any sequence that is
      ascending and keeps every key class of `s` in order is SortBy(s, key). */
  lemma SortByUnique<T>(s: seq<T>, r: seq<T>, key: T -> int)
    requires SortedBy(r, key)
    requires forall k :: KeyClass(r, key, k) == KeyClass(s, key, k)
    ensures r == SortBy(s, key)
  {
    SortByCorrect(s, key);
    SortedClassesDetermine(r, SortBy(s, key), key);
  }

  lemma {:induction false} FilterKeepsSorted<T>(s: seq<T>, p: T -> bool, key: T -> int)
    requires SortedBy(s, key)
    ensures SortedBy(Filter(s, p), key)
  {
    if s != [] {
      var init := s[..|s| - 1];
      FilterKeepsSorted(init, p, key);
      FilterBounded(init, p, key, key(s[|s| - 1]));
    }
  }

  lemma {:induction false} FilterBounded<T>(s: seq<T>, p: T -> bool, key: T -> int, bound: int)
    requires forall i :: 0 <= i < |s| ==> key(s[i]) <= bound
    ensures forall i :: 0 <= i < |Filter(s, p)| ==> key(Filter(s, p)[i]) <= bound
  {
    if s != [] {
      FilterBounded(s[..|s| - 1], p, key, bound);
    }
  }

  lemma {:induction false} KeyClassOfFilter<T>(s: seq<T>, p: T -> bool, key: T -> int, k: int)
    ensures KeyClass(Filter(s, p), key, k) == Filter(KeyClass(s, key, k), p)
  {
    if s != [] {
      var init, last := s[..|s| - 1], s[|s| - 1];
      KeyClassOfFilter(init, p, key, k);
      KeyClassAppend(Filter(init, p), if p(last) then [last] else [], key, k);
      FilterAppend(KeyClass(init, key, k), if key(last) == k then [last] else [], p);
    }
  }

  /** Filtering commutes with permutation: equal multisets give equal filtered multisets. */
  lemma {:induction false} FilterMultiset<T>(s: seq<T>, p: T -> bool)
    ensures forall x :: multiset(Filter(s, p))[x] == if p(x) then multiset(s)[x] else 0
  {
    if s != [] {
      FilterMultiset(s[..|s| - 1], p);
      assert s == s[..|s| - 1] + [s[|s| - 1]];
    }
  }

  /** One shift of the insertion loop: moving past an element with a larger key. */
  lemma InsertShift<T>(sorted: seq<T>, j: int, x: T, key: T -> int)
    requires 0 < j <= |sorted| && key(sorted[j - 1]) > key(x)
    ensures Insert(sorted[..j], x, key) + sorted[j..] == Insert(sorted[..j - 1], x, key) + sorted[j - 1..]
  {
    assert sorted[..j][..j - 1] == sorted[..j - 1];
    assert sorted[j - 1..] == [sorted[j - 1]] + sorted[j..];
  }

  /** The insertion loop stops where `x` goes. */
  lemma InsertStop<T>(sorted: seq<T>, j: int, x: T, key: T -> int)
    requires 0 <= j <= |sorted| && (j == 0 || key(sorted[j - 1]) <= key(x))
    ensures Insert(sorted[..j], x, key) == sorted[..j] + [x]
  {
  }

  /** One pass of insertion sort: `a[i]` moves left past every element of the
      sorted prefix `a[..i]` with a larger key. */
  method InsertAt<T>(a: array<T>, i: int, key: T -> int)
    requires 0 <= i < a.Length
    modifies a
    ensures a[..i + 1] == Insert(old(a[..i]), old(a[i]), key)
    ensures a[i + 1..] == old(a[i + 1..])
  {
    var x := a[i];
    ghost var sorted, rest := a[..i], a[i + 1..];
    var j := i;
    assert sorted[..j] == sorted && sorted[j..] == [];
    assert a[..] == sorted[..j] + [a[j]] + sorted[j..] + rest;
    while j > 0 && key(a[j - 1]) > key(x)
      invariant 0 <= j <= i
      invariant a[..] == sorted[..j] + [a[j]] + sorted[j..] + rest
      invariant Insert(sorted, x, key) == Insert(sorted[..j], x, key) + sorted[j..]
    {
      InsertShift(sorted, j, x, key);
      ghost var before := a[..];
      ShiftSlot(sorted, rest, j, a[j], a[j - 1]);
      a[j] := a[j - 1];
      assert a[..] == before[j := before[j - 1]];
      j := j - 1;
    }
    ghost var before := a[..];
    a[j] := x;
    assert a[..] == before[j := x];
    InsertStop(sorted, j, x, key);
    Placed(sorted, rest, j, before[j], x, a[..]);
    assert a[..i + 1] == a[..][..i + 1] && a[i + 1..] == a[..][i + 1..];
  }

  /** One shift of the loop on the whole array: the slot moves one place left
      and the element it passes fills the old slot. */
  lemma ShiftSlot<T>(sorted: seq<T>, rest: seq<T>, j: int, y: T, z: T)
    requires 0 < j <= |sorted|
    requires (sorted[..j] + [y] + sorted[j..] + rest)[j - 1] == z
    ensures z == sorted[j - 1]
    ensures (sorted[..j] + [y] + sorted[j..] + rest)[j := z] ==
            sorted[..j - 1] + [z] + sorted[j - 1..] + rest
  {
    var b := sorted[..j] + [y] + sorted[j..] + rest;
    var c := sorted[..j - 1] + [z] + sorted[j - 1..] + rest;
    assert |b[j := z]| == |c|;
    forall m | 0 <= m < |c| ensures b[j := z][m] == c[m] {
      if m < j - 1 {
      } else if m == j - 1 {
      } else if m == j {
      } else if m <= |sorted| {
        assert c[m] == sorted[j - 1..][m - j];
      } else {
      }
    }
  }

  /** Once `x` fills the slot, the prefix is the insertion and the tail is
      untouched. */
  lemma Placed<T>(sorted: seq<T>, rest: seq<T>, j: int, y: T, x: T, r: seq<T>)
    requires 0 <= j <= |sorted|
    requires r == (sorted[..j] + [y] + sorted[j..] + rest)[j := x]
    ensures r[..|sorted| + 1] == sorted[..j] + [x] + sorted[j..]
    ensures r[|sorted| + 1..] == rest
  {
    var p := sorted[..j] + [x] + sorted[j..];
    assert r == p + rest;
  }

  /** Sorting one more element of a list inserts it into the sorted prefix. */
  lemma SortByStep<T>(s: seq<T>, i: int, key: T -> int)
    requires 0 <= i < |s|
    ensures SortBy(s[..i + 1], key) == Insert(SortBy(s[..i], key), s[i], key)
  {
    assert s[..i + 1][..i] == s[..i];
  }

  /** One round of the insertion sort: when the first `i` elements hold the
      sorted prefix of `input` and the rest is untouched, inserting element `i`
      extends the sorted prefix by one. */
  lemma InsertionRound<T>(input: seq<T>, i: int, key: T -> int, before: seq<T>, after: seq<T>)
    requires 0 <= i < |input| == |before| == |after|
    requires before[..i] == SortBy(input[..i], key) && before[i..] == input[i..]
    requires after[..i + 1] == Insert(before[..i], before[i], key) && after[i + 1..] == before[i + 1..]
    ensures after[..i + 1] == SortBy(input[..i + 1], key) && after[i + 1..] == input[i + 1..]
  {
    assert before[i] == input[i] && before[i + 1..] == input[i + 1..] by {
      assert before[i..] == [before[i]] + before[i + 1..];
      assert input[i..] == [input[i]] + input[i + 1..];
    }
    SortByStep(input, i, key);
  }

  /** In-place insertion sort, the shape of `composite.sort(...)`. */
  method SortInPlace<T>(a: array<T>, key: T -> int)
    modifies a
    ensures a[..] == SortBy(old(a[..]), key)
  {
    ghost var input := a[..];
    var i := 0;
    while i < a.Length
      invariant 0 <= i <= a.Length
      invariant a[..i] == SortBy(input[..i], key)
      invariant a[i..] == input[i..]
    {
      ghost var before := a[..];
      InsertAt(a, i, key);
      InsertionRound(input, i, key, before, a[..]);
      i := i + 1;
    }
    assert a[..] == a[..a.Length] && input == input[..a.Length];
  }
}
