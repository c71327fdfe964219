/** A stable sort by a real-valued key. `Array.prototype.sort` with the
    comparator `(a, b) => key(a) - key(b)` is stable (ECMAScript 2019 and
    later), so ties keep their input order; a stable insertion sort is the
    reference model for it. */
module Sorting {
  import opened Seqs

  /** Non-decreasing by `key`. */
  predicate SortedBy<T>(s: seq<T>, key: T -> real) {
    forall i, j :: 0 <= i < j < |s| ==> key(s[i]) <= key(s[j])
  }

  /** Inserts `x` after every element whose key is at most `key(x)`. */
  function Insert<T>(s: seq<T>, x: T, key: T -> real): (r: seq<T>)
    requires SortedBy(s, key)
    ensures SortedBy(r, key)
    ensures multiset(r) == multiset(s) + multiset{x}
    ensures forall i :: 0 <= i < |r| ==> r[i] in s || r[i] == x
    decreases |s|
  {
    if s == [] then [x]
    else
      var last := s[|s| - 1];
      if key(last) <= key(x) then
        AppendAbove(s, x, key);
        s + [x]
      else
        var init := s[..|s| - 1];
        var r' := Insert(init, x, key);
        InsertBelowLast(s, x, key, r', r' + [last]);
        r' + [last]
  }

  /** Appending an element whose key is at least every key keeps a
      sequence sorted. */
  lemma AppendAbove<T>(s: seq<T>, y: T, key: T -> real)
    requires SortedBy(s, key)
    requires s != [] ==> key(s[|s| - 1]) <= key(y)
    ensures SortedBy(s + [y], key)
  {
  }

  /** The step of `Insert` that puts the last element back after inserting
      `x` into the others. */
  lemma InsertBelowLast<T>(s: seq<T>, x: T, key: T -> real, r': seq<T>, r: seq<T>)
    requires SortedBy(s, key) && s != [] && key(x) < key(s[|s| - 1])
    requires SortedBy(r', key)
    requires multiset(r') == multiset(s[..|s| - 1]) + multiset{x}
    requires forall i :: 0 <= i < |r'| ==> r'[i] in s[..|s| - 1] || r'[i] == x
    requires r == r' + [s[|s| - 1]]
    ensures SortedBy(r, key)
    ensures multiset(r) == multiset(s) + multiset{x}
    ensures forall i :: 0 <= i < |r| ==> r[i] in s || r[i] == x
  {
    var last := s[|s| - 1];
    var init := s[..|s| - 1];
    assert s == init + [last];
    forall k | 0 <= k < |r'| ensures key(r'[k]) <= key(last) {
      if r'[k] in init {
        var i :| 0 <= i < |init| && init[i] == r'[k];
        assert s[i] == r'[k];
      }
    }
    if r' != [] {
      assert key(r'[|r'| - 1]) <= key(last);
    }
    AppendAbove(r', last, key);
  }

  /** Stable sort of `s`, non-decreasing by `key`. */
  function SortBy<T>(s: seq<T>, key: T -> real): (r: seq<T>)
    ensures SortedBy(r, key)
    ensures multiset(r) == multiset(s)
    ensures |r| == |s|
    decreases |s|
  {
    if s == [] then []
    else
      assert s == s[..|s| - 1] + [s[|s| - 1]];
      var r := Insert(SortBy(s[..|s| - 1], key), s[|s| - 1], key);
      assert |r| == |multiset(r)|;
      r
  }

  /** The elements of `s` whose key equals `v`, in order. Stability means
      this subsequence is the same before and after sorting. */
  function WithKey<T>(s: seq<T>, key: T -> real, v: real): seq<T>
    decreases |s|
  {
    if s == [] then []
    else WithKey(s[..|s| - 1], key, v) + (if key(s[|s| - 1]) == v then [s[|s| - 1]] else [])
  }

  lemma {:induction false} WithKeyConcat<T>(a: seq<T>, b: seq<T>, key: T -> real, v: real)
    ensures WithKey(a + b, key, v) == WithKey(a, key, v) + WithKey(b, key, v)
    decreases |b|
  {
    if b == [] {
      assert a + b == a;
    } else {
      var b' := b[..|b| - 1];
      assert (a + b)[..|a + b| - 1] == a + b';
      WithKeyConcat(a, b', key, v);
    }
  }

  lemma WithKeySingle<T>(x: T, key: T -> real, v: real)
    ensures WithKey([x], key, v) == if key(x) == v then [x] else []
  {
    assert [x][..0] == [];
  }

  /** Unfolds `Insert` one step when `x` goes further left than the last
      element. */
  lemma InsertShift<T>(s: seq<T>, x: T, key: T -> real)
    requires SortedBy(s, key) && s != [] && key(x) < key(s[|s| - 1])
    ensures Insert(s, x, key) == Insert(s[..|s| - 1], x, key) + [s[|s| - 1]]
  {
  }

  /** Two one-element selections commute when the keys differ. */
  lemma WithKeySwap<T>(x: T, y: T, key: T -> real, v: real)
    requires key(x) != key(y)
    ensures WithKey([x], key, v) + WithKey([y], key, v) == WithKey([y], key, v) + WithKey([x], key, v)
  {
    WithKeySingle(x, key, v);
    WithKeySingle(y, key, v);
  }

  lemma {:induction false} InsertStable<T>(s: seq<T>, x: T, key: T -> real, v: real)
    requires SortedBy(s, key)
    ensures WithKey(Insert(s, x, key), key, v) == WithKey(s, key, v) + WithKey([x], key, v)
    decreases |s|
  {
    if s == [] {
      assert Insert(s, x, key) == [x];
    } else {
      var last := s[|s| - 1];
      var init := s[..|s| - 1];
      if key(last) <= key(x) {
        assert Insert(s, x, key) == s + [x];
        WithKeyConcat(s, [x], key, v);
      } else {
        var r' := Insert(init, x, key);
        var a, bx, bl := WithKey(init, key, v), WithKey([x], key, v), WithKey([last], key, v);
        calc {
          WithKey(Insert(s, x, key), key, v);
          { InsertShift(s, x, key); }
          WithKey(r' + [last], key, v);
          { WithKeyConcat(r', [last], key, v); }
          WithKey(r', key, v) + bl;
          { InsertStable(init, x, key, v); }
          a + bx + bl;
          { WithKeySwap(x, last, key, v); }
          a + (bl + bx);
          (a + bl) + bx;
          { assert s == init + [last]; WithKeyConcat(init, [last], key, v); }
          WithKey(s, key, v) + bx;
        }
      }
    }
  }

  /** Stability: for every key value, the elements carrying it appear in the
      sorted result in the same relative order as in the input. */
  lemma {:induction false} SortByStable<T>(s: seq<T>, key: T -> real, v: real)
    ensures WithKey(SortBy(s, key), key, v) == WithKey(s, key, v)
    decreases |s|
  {
    if s != [] {
      var init := s[..|s| - 1];
      var last := s[|s| - 1];
      assert s == init + [last];
      assert SortBy(s, key) == Insert(SortBy(init, key), last, key);
      SortByStable(init, key, v);
      InsertStable(SortBy(init, key), last, key, v);
      WithKeyConcat(init, [last], key, v);
    }
  }
}
