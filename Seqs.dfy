/** Generic sequence operations behind the backend's list handling: list comprehensions
    with a condition, order-preserving de-duplication on a key, Python's stable
    `sorted(..., reverse=True)`, `max`, `sum` and slicing `s[:n]`. */
module Seqs {

  // ---------------------------------------------------------------------------
  // Filtering: [x for x in s if p(x)]
  // ---------------------------------------------------------------------------

  /** The elements of `s` that satisfy `p`, in their order in `s`. */
  function Filter<T>(s: seq<T>, p: T -> bool): (r: seq<T>)
    ensures |r| <= |s|
    ensures forall i :: 0 <= i < |r| ==> p(r[i])
    decreases |s|
  {
    if s == [] then [] else Filter(s[..|s| - 1], p) + (if p(s[|s| - 1]) then [s[|s| - 1]] else [])
  }

  lemma {:induction false} FilterMember<T>(s: seq<T>, p: T -> bool, x: T)
    ensures x in Filter(s, p) <==> x in s && p(x)
    decreases |s|
  {
    if s != [] {
      FilterMember(s[..|s| - 1], p, x);
      assert s == s[..|s| - 1] + [s[|s| - 1]];
    }
  }

  lemma {:induction false} FilterConcat<T>(a: seq<T>, b: seq<T>, p: T -> bool)
    ensures Filter(a + b, p) == Filter(a, p) + Filter(b, p)
    decreases |b|
  {
    if b == [] {
      assert a + b == a;
    } else {
      FilterConcat(a, b[..|b| - 1], p);
      assert (a + b)[..|a + b| - 1] == a + b[..|b| - 1];
    }
  }

  lemma {:induction false} FilterAll<T>(s: seq<T>, p: T -> bool)
    requires forall i :: 0 <= i < |s| ==> p(s[i])
    ensures Filter(s, p) == s
    decreases |s|
  {
    if s != [] {
      FilterAll(s[..|s| - 1], p);
    }
  }

  /** Nothing is kept exactly when no element satisfies `p`. */
  lemma FilterEmpty<T>(s: seq<T>, p: T -> bool)
    ensures Filter(s, p) == [] <==> forall i :: 0 <= i < |s| ==> !p(s[i])
  {
    if Filter(s, p) != [] {
      FilterMember(s, p, Filter(s, p)[0]);
    }
    if exists i :: 0 <= i < |s| && p(s[i]) {
      var i :| 0 <= i < |s| && p(s[i]);
      FilterMember(s, p, s[i]);
    }
  }

  lemma {:induction false} FilterNone<T>(s: seq<T>, p: T -> bool)
    requires forall i :: 0 <= i < |s| ==> !p(s[i])
    ensures Filter(s, p) == []
    decreases |s|
  {
    if s != [] {
      FilterNone(s[..|s| - 1], p);
    }
  }

  /** The filter of one more element of `s`. */
  lemma FilterSnoc<T>(s: seq<T>, p: T -> bool, i: nat)
    requires i < |s|
    ensures Filter(s[..i + 1], p) == Filter(s[..i], p) + if p(s[i]) then [s[i]] else []
  {
    assert s[..i + 1][..i] == s[..i];
  }

  /** Two complementary filters split a sequence: their lengths add up and together they
      hold every element exactly as often as `s` does. */
  lemma {:induction false} FilterPartition<T>(s: seq<T>, p: T -> bool, q: T -> bool)
    requires forall x :: q(x) == !p(x)
    ensures |Filter(s, p)| + |Filter(s, q)| == |s|
    ensures multiset(Filter(s, p)) + multiset(Filter(s, q)) == multiset(s)
    decreases |s|
  {
    if s != [] {
      var init := s[..|s| - 1];
      FilterPartition(init, p, q);
      assert s == init + [s[|s| - 1]];
    }
  }

  /** The first element a filter keeps is the first element of `s` that satisfies `p`. */
  lemma {:induction false} FilterHead<T>(s: seq<T>, p: T -> bool) returns (i: nat)
    requires Filter(s, p) != []
    ensures i < |s| && p(s[i]) && Filter(s, p)[0] == s[i]
    ensures forall j :: 0 <= j < i ==> !p(s[j])
    decreases |s|
  {
    var init := s[..|s| - 1];
    if Filter(init, p) != [] {
      i := FilterHead(init, p);
    } else {
      i := |s| - 1;
      forall j | 0 <= j < i
        ensures !p(s[j])
      {
        assert s[j] in init;
        FilterMember(init, p, s[j]);
      }
    }
  }

  /** Extending a slice by one element. */
  lemma SliceSnoc<T>(s: seq<T>, i: nat)
    requires i < |s|
    ensures s[..i + 1] == s[..i] + [s[i]]
  {
  }

  /** Extending a slice by one element, behind a fixed front part. */
  lemma ConcatSliceSnoc<T>(a: seq<T>, b: seq<T>, i: nat)
    requires i < |b|
    ensures a + b[..i + 1] == (a + b[..i]) + [b[i]]
  {
    assert b[..i + 1] == b[..i] + [b[i]];
  }

  // ---------------------------------------------------------------------------
  // Flattening: [y for x in s for y in f(x)]
  // ---------------------------------------------------------------------------

  /** What each element of `s` contributes under `f`, concatenated in order. */
  function FlatMap<T, U>(s: seq<T>, f: T -> seq<U>): seq<U>
    decreases |s|
  {
    if s == [] then [] else FlatMap(s[..|s| - 1], f) + f(s[|s| - 1])
  }

  lemma FlatMapSnoc<T, U>(s: seq<T>, x: T, f: T -> seq<U>)
    ensures FlatMap(s + [x], f) == FlatMap(s, f) + f(x)
  {
    assert (s + [x])[..|s|] == s;
  }

  lemma {:induction false} FlatMapConcat<T, U>(a: seq<T>, b: seq<T>, f: T -> seq<U>)
    ensures FlatMap(a + b, f) == FlatMap(a, f) + FlatMap(b, f)
    decreases |b|
  {
    if b == [] {
      assert a + b == a;
    } else {
      FlatMapConcat(a, b[..|b| - 1], f);
      assert (a + b)[..|a + b| - 1] == a + b[..|b| - 1];
    }
  }

  lemma {:induction false} FlatMapMember<T, U>(s: seq<T>, f: T -> seq<U>, y: U)
    ensures y in FlatMap(s, f) <==> exists i :: 0 <= i < |s| && y in f(s[i])
    decreases |s|
  {
    if s != [] {
      var init := s[..|s| - 1];
      FlatMapMember(init, f, y);
      if exists i :: 0 <= i < |s| && y in f(s[i]) {
        var i :| 0 <= i < |s| && y in f(s[i]);
        if i < |init| {
          assert init[i] == s[i];
        }
      }
      if y in FlatMap(init, f) {
        var i :| 0 <= i < |init| && y in f(init[i]);
        assert s[i] == init[i];
      }
    }
  }

  /** A property every contribution has holds of the whole flattened sequence. */
  lemma {:induction false} FlatMapAll<T, U>(s: seq<T>, f: T -> seq<U>, p: U -> bool)
    requires forall x, j :: 0 <= j < |f(x)| ==> p(f(x)[j])
    ensures forall i :: 0 <= i < |FlatMap(s, f)| ==> p(FlatMap(s, f)[i])
    decreases |s|
  {
    if s != [] {
      FlatMapAll(s[..|s| - 1], f, p);
    }
  }

  // ---------------------------------------------------------------------------
  // De-duplication on a key, keeping first occurrences in order
  // ---------------------------------------------------------------------------

  /** Some element of `s` has key `k` (Python's `k in seen`). */
  predicate HasKey<T, K(==)>(s: seq<T>, key: T -> K, k: K) {
    exists i :: 0 <= i < |s| && key(s[i]) == k
  }

  /** The loop `for x in s: if key(x) not in seen: seen.add(key(x)); out.append(x)`. */
  function Dedup<T, K(==)>(s: seq<T>, key: T -> K): (r: seq<T>)
    ensures |r| <= |s|
    decreases |s|
  {
    if s == [] then []
    else
      var d := Dedup(s[..|s| - 1], key);
      if HasKey(d, key, key(s[|s| - 1])) then d else d + [s[|s| - 1]]
  }

  /** The keys of `s + [x]` are those of `s` and the key of `x`. */
  lemma HasKeySnoc<T, K>(s: seq<T>, key: T -> K, x: T, k: K)
    ensures HasKey(s + [x], key, k) <==> HasKey(s, key, k) || key(x) == k
  {
    if HasKey(s + [x], key, k) {
      var i :| 0 <= i < |s + [x]| && key((s + [x])[i]) == k;
      if i < |s| {
        assert (s + [x])[i] == s[i];
      }
    }
    if HasKey(s, key, k) {
      var i :| 0 <= i < |s| && key(s[i]) == k;
      assert (s + [x])[i] == s[i];
    }
    if key(x) == k {
      assert (s + [x])[|s|] == x;
    }
  }

  /** De-duplication of one more element of `s`. */
  lemma DedupSnoc<T, K>(s: seq<T>, key: T -> K, i: nat)
    requires i < |s|
    ensures Dedup(s[..i + 1], key) ==
      if HasKey(Dedup(s[..i], key), key, key(s[i])) then Dedup(s[..i], key) else Dedup(s[..i], key) + [s[i]]
  {
    assert s[..i + 1][..i] == s[..i];
  }

  /** Index `i` holds the first element of `s` with its key. */
  predicate IsFirstOccurrence<T, K(==)>(s: seq<T>, key: T -> K, i: int) {
    0 <= i < |s| && forall j :: 0 <= j < i ==> key(s[j]) != key(s[i])
  }

  /** The indices of first occurrences, in increasing order. */
  function FirstOccurrences<T, K(==)>(s: seq<T>, key: T -> K): seq<nat>
    decreases |s|
  {
    if s == [] then []
    else
      var init := s[..|s| - 1];
      FirstOccurrences(init, key) + if HasKey(init, key, key(s[|s| - 1])) then [] else [|s| - 1]
  }

  /** De-duplication keeps exactly the keys of its input. */
  lemma {:induction false} DedupKeys<T, K>(s: seq<T>, key: T -> K, k: K)
    ensures HasKey(Dedup(s, key), key, k) <==> HasKey(s, key, k)
    decreases |s|
  {
    if s != [] {
      var init := s[..|s| - 1];
      var last := s[|s| - 1];
      DedupKeys(init, key, k);
      var d := Dedup(init, key);
      var r := Dedup(s, key);
      assert HasKey(s, key, k) <==> HasKey(init, key, k) || key(last) == k by {
        if HasKey(s, key, k) {
          var i :| 0 <= i < |s| && key(s[i]) == k;
          if i < |s| - 1 {
            assert key(init[i]) == k;
          }
        }
        if HasKey(init, key, k) {
          var i :| 0 <= i < |init| && key(init[i]) == k;
          assert key(s[i]) == k;
        }
      }
      if HasKey(d, key, key(last)) {
        assert r == d;
      } else {
        assert r == d + [last];
        assert HasKey(r, key, k) <==> HasKey(d, key, k) || key(last) == k by {
          if HasKey(r, key, k) {
            var i :| 0 <= i < |r| && key(r[i]) == k;
            if i < |d| {
              assert key(d[i]) == k;
            }
          }
          if HasKey(d, key, k) {
            var i :| 0 <= i < |d| && key(d[i]) == k;
            assert key(r[i]) == k;
          }
          if key(last) == k {
            assert key(r[|d|]) == k;
          }
        }
      }
    }
  }

  /** No two elements of a de-duplicated sequence share a key. */
  lemma {:induction false} DedupDistinct<T, K>(s: seq<T>, key: T -> K)
    ensures forall i, j :: 0 <= i < j < |Dedup(s, key)| ==> key(Dedup(s, key)[i]) != key(Dedup(s, key)[j])
    decreases |s|
  {
    if s != [] {
      DedupDistinct(s[..|s| - 1], key);
    }
  }

  /** An index is listed exactly when it is a first occurrence. */
  lemma {:induction false} FirstOccurrencesMember<T, K>(s: seq<T>, key: T -> K)
    ensures forall n :: n in FirstOccurrences(s, key) <==> IsFirstOccurrence(s, key, n)
    decreases |s|
  {
    if s != [] {
      var init := s[..|s| - 1];
      var last := s[|s| - 1];
      FirstOccurrencesMember(init, key);
      forall n: int | 0 <= n < |init|
        ensures IsFirstOccurrence(s, key, n) <==> IsFirstOccurrence(init, key, n)
      {
      }
      assert IsFirstOccurrence(s, key, |s| - 1) <==> !HasKey(init, key, key(last)) by {
        if HasKey(init, key, key(last)) {
          var j :| 0 <= j < |init| && key(init[j]) == key(last);
          assert key(s[j]) == key(s[|s| - 1]);
        }
      }
    }
  }

  /** The listed indices increase. */
  lemma {:induction false} FirstOccurrencesIncreasing<T, K>(s: seq<T>, key: T -> K)
    ensures forall i, j :: 0 <= i < j < |FirstOccurrences(s, key)| ==>
              FirstOccurrences(s, key)[i] < FirstOccurrences(s, key)[j]
    decreases |s|
  {
    if s != [] {
      var init := s[..|s| - 1];
      FirstOccurrencesIncreasing(init, key);
      FirstOccurrencesMember(init, key);
      var fo0 := FirstOccurrences(init, key);
      forall i | 0 <= i < |fo0| ensures fo0[i] < |init| {
        assert fo0[i] in fo0;
      }
    }
  }

  /** The de-duplicated sequence is `s` read at the listed indices. */
  lemma {:induction false} DedupAtFirstOccurrences<T, K>(s: seq<T>, key: T -> K)
    ensures |Dedup(s, key)| == |FirstOccurrences(s, key)|
    ensures forall i :: 0 <= i < |FirstOccurrences(s, key)| ==>
              FirstOccurrences(s, key)[i] < |s| && Dedup(s, key)[i] == s[FirstOccurrences(s, key)[i]]
    decreases |s|
  {
    if s != [] {
      var init := s[..|s| - 1];
      DedupAtFirstOccurrences(init, key);
      DedupKeys(init, key, key(s[|s| - 1]));
      var fo0 := FirstOccurrences(init, key);
      forall i | 0 <= i < |fo0| ensures s[fo0[i]] == init[fo0[i]] { }
    }
  }

  /** De-duplication keeps, in order, exactly the first occurrence of every key: its
      result is `s` restricted to the increasing indices of first occurrences. */
  lemma DedupFirstOccurrences<T, K>(s: seq<T>, key: T -> K)
    ensures |Dedup(s, key)| == |FirstOccurrences(s, key)|
    ensures forall i :: 0 <= i < |FirstOccurrences(s, key)| ==>
              FirstOccurrences(s, key)[i] < |s| && Dedup(s, key)[i] == s[FirstOccurrences(s, key)[i]]
    ensures forall i, j :: 0 <= i < j < |FirstOccurrences(s, key)| ==>
              FirstOccurrences(s, key)[i] < FirstOccurrences(s, key)[j]
    ensures forall n :: n in FirstOccurrences(s, key) <==> IsFirstOccurrence(s, key, n)
  {
    FirstOccurrencesMember(s, key);
    FirstOccurrencesIncreasing(s, key);
    DedupAtFirstOccurrences(s, key);
  }

  // ---------------------------------------------------------------------------
  // Stable sort, descending: sorted(s, key=key, reverse=True)
  // ---------------------------------------------------------------------------

  /** Puts `x` in front of the first element whose key is not greater than its own. */
  function Insert<T>(x: T, s: seq<T>, key: T -> real): (r: seq<T>)
    ensures |r| == |s| + 1
  {
    if s == [] then [x]
    else if key(x) >= key(s[0]) then [x] + s
    else [s[0]] + Insert(x, s[1..], key)
  }

  /** Insertion sort by descending key; an element is inserted ahead of the equal-keyed
      elements that follow it in `s`, which keeps equal keys in their input order. */
  function SortDesc<T>(s: seq<T>, key: T -> real): (r: seq<T>)
    ensures |r| == |s|
  {
    if s == [] then [] else Insert(s[0], SortDesc(s[1..], key), key)
  }

  predicate NonIncreasing<T>(s: seq<T>, key: T -> real) {
    forall i, j :: 0 <= i < j < |s| ==> key(s[i]) >= key(s[j])
  }

  /** The elements whose key is exactly `v`, in order. */
  function WithKey<T>(s: seq<T>, key: T -> real, v: real): seq<T> {
    Filter(s, x => key(x) == v)
  }

  lemma {:induction false} InsertPermutes<T>(x: T, s: seq<T>, key: T -> real)
    ensures multiset(Insert(x, s, key)) == multiset(s) + multiset{x}
  {
    if s != [] && key(x) < key(s[0]) {
      InsertPermutes(x, s[1..], key);
      assert s == [s[0]] + s[1..];
    }
  }

  lemma {:induction false} InsertSorted<T>(x: T, s: seq<T>, key: T -> real)
    requires NonIncreasing(s, key)
    ensures NonIncreasing(Insert(x, s, key), key)
  {
    if s != [] && key(x) < key(s[0]) {
      InsertSorted(x, s[1..], key);
      InsertPermutes(x, s[1..], key);
      var r := Insert(x, s[1..], key);
      forall k | 0 <= k < |r|
        ensures key(s[0]) >= key(r[k])
      {
        assert r[k] in multiset(r);
        if r[k] != x {
          assert r[k] in multiset(s[1..]);
          var m :| 0 <= m < |s[1..]| && s[1..][m] == r[k];
          assert s[1..][m] == s[m + 1];
        }
      }
    }
  }

  lemma {:induction false} InsertStable<T>(x: T, s: seq<T>, key: T -> real, v: real)
    ensures WithKey(Insert(x, s, key), key, v) == WithKey([x], key, v) + WithKey(s, key, v)
  {
    var p := y => key(y) == v;
    if s == [] {
    } else if key(x) >= key(s[0]) {
      FilterConcat([x], s, p);
    } else {
      InsertStable(x, s[1..], key, v);
      FilterConcat([s[0]], Insert(x, s[1..], key), p);
      FilterConcat([s[0]], s[1..], p);
      assert [s[0]] + s[1..] == s;
    }
  }

  /** SortDesc returns a permutation of its input. */
  lemma {:induction false} SortPermutes<T>(s: seq<T>, key: T -> real)
    ensures multiset(SortDesc(s, key)) == multiset(s)
  {
    if s != [] {
      SortPermutes(s[1..], key);
      InsertPermutes(s[0], SortDesc(s[1..], key), key);
      assert s == [s[0]] + s[1..];
    }
  }

  /** SortDesc returns its input ordered by non-increasing key. */
  lemma {:induction false} SortSorted<T>(s: seq<T>, key: T -> real)
    ensures NonIncreasing(SortDesc(s, key), key)
  {
    if s != [] {
      SortSorted(s[1..], key);
      InsertSorted(s[0], SortDesc(s[1..], key), key);
    }
  }

  /** SortDesc is stable: for every key value, the elements with that key appear in the
      same relative order as in the input. */
  lemma {:induction false} SortStable<T>(s: seq<T>, key: T -> real, v: real)
    ensures WithKey(SortDesc(s, key), key, v) == WithKey(s, key, v)
  {
    if s != [] {
      SortStable(s[1..], key, v);
      InsertStable(s[0], SortDesc(s[1..], key), key, v);
      FilterConcat([s[0]], s[1..], y => key(y) == v);
      assert [s[0]] + s[1..] == s;
    }
  }

  /** No two elements of `s` share a key. */
  predicate DistinctKeys<T, K(==)>(s: seq<T>, key: T -> K) {
    forall i, j :: 0 <= i < j < |s| ==> key(s[i]) != key(s[j])
  }

  lemma {:induction false} InsertDistinct<T, K>(x: T, s: seq<T>, sortKey: T -> real, key: T -> K)
    requires DistinctKeys(s, key)
    requires forall i :: 0 <= i < |s| ==> key(s[i]) != key(x)
    ensures DistinctKeys(Insert(x, s, sortKey), key)
    decreases |s|
  {
    if s != [] && sortKey(x) < sortKey(s[0]) {
      var rest := Insert(x, s[1..], sortKey);
      InsertDistinct(x, s[1..], sortKey, key);
      InsertPermutes(x, s[1..], sortKey);
      forall m | 0 <= m < |rest| ensures key(s[0]) != key(rest[m]) {
        assert rest[m] in multiset(rest);
        if rest[m] != x {
          assert rest[m] in s[1..];
        }
      }
      assert Insert(x, s, sortKey) == [s[0]] + rest;
    }
  }

  /** Sorting keeps a sequence free of duplicate keys. */
  lemma {:induction false} SortDistinct<T, K>(s: seq<T>, sortKey: T -> real, key: T -> K)
    requires DistinctKeys(s, key)
    ensures DistinctKeys(SortDesc(s, sortKey), key)
    decreases |s|
  {
    if s != [] {
      var rest := SortDesc(s[1..], sortKey);
      SortDistinct(s[1..], sortKey, key);
      SortPermutes(s[1..], sortKey);
      forall m | 0 <= m < |rest| ensures key(rest[m]) != key(s[0]) {
        assert rest[m] in multiset(rest);
        assert rest[m] in s[1..];
      }
      InsertDistinct(s[0], rest, sortKey, key);
    }
  }

  /** The first `n` elements of the sorted sequence and the rest together are a
      permutation of `s`, and none of the rest outranks any of the first `n`. */
  lemma TopSplit<T>(s: seq<T>, key: T -> real, n: nat)
    ensures var t := SortDesc(s, key);
      && multiset(Prefix(t, n)) + multiset(t[|Prefix(t, n)|..]) == multiset(s)
      && forall i, j :: 0 <= i < |Prefix(t, n)| <= j < |t| ==> key(t[i]) >= key(t[j])
  {
    var t := SortDesc(s, key);
    SortPermutes(s, key);
    SortSorted(s, key);
    assert t == Prefix(t, n) + t[|Prefix(t, n)|..];
  }

  // ---------------------------------------------------------------------------
  // max, sum, s[:n]
  // ---------------------------------------------------------------------------

  /** Python's `max(s)` on a non-empty list. */
  function MaxOf(s: seq<real>): (m: real)
    requires |s| > 0
    ensures m in s
    ensures forall i :: 0 <= i < |s| ==> s[i] <= m
  {
    if |s| == 1 then s[0]
    else
      var m := MaxOf(s[1..]);
      if s[0] >= m then s[0] else m
  }

  /** Python's `sum(s)`. */
  function Sum(s: seq<real>): real
    decreases |s|
  {
    if s == [] then 0.0 else Sum(s[..|s| - 1]) + s[|s| - 1]
  }

  /** A sum of terms each above `c` is above `c` times their number. */
  lemma {:induction false} SumAbove(s: seq<real>, c: real)
    requires |s| > 0
    requires forall i :: 0 <= i < |s| ==> s[i] > c
    ensures Sum(s) > c * |s| as real
    decreases |s|
  {
    if |s| > 1 {
      SumAbove(s[..|s| - 1], c);
    }
  }

  /** A sum of terms each at most `c` is at most `c` times their number. */
  lemma {:induction false} SumAtMost(s: seq<real>, c: real)
    requires forall i :: 0 <= i < |s| ==> s[i] <= c
    ensures Sum(s) <= c * |s| as real
    decreases |s|
  {
    if s != [] {
      SumAtMost(s[..|s| - 1], c);
    }
  }

  /** Python's slice `s[:n]`. */
  function Prefix<T>(s: seq<T>, n: nat): (r: seq<T>)
    ensures |r| <= n && |r| <= |s|
    ensures |s| <= n ==> r == s
    ensures n <= |s| ==> |r| == n
    ensures forall i :: 0 <= i < |r| ==> r[i] == s[i]
  {
    if |s| <= n then s else s[..n]
  }
}
