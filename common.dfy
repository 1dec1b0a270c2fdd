/** Sequence helpers shared by the detectors and the scoring pass: the
    insertion-ordered view of a JavaScript Set, first-occurrence
    de-duplication by key, and the stable sort behind Array.prototype.sort. */
module Common {

  /** Account identifiers are the CSV's id strings. */
  type Id = string

  datatype Option<T> = None | Some(value: T)

  ghost predicate NoDup<T>(s: seq<T>)
  {
    forall i, j | 0 <= i < j < |s| :: s[i] != s[j]
  }

  /** `m.get(a) || []` (or `m[a] || []`): an absent list reads as empty. */
  function ListAt<K, V>(m: map<K, seq<V>>, a: K): seq<V>
  {
    if a in m then m[a] else []
  }

  /** `m[k].push(v)`, the list created when absent: only `k`'s list changes. */
  lemma PushAt<K, V>(m: map<K, seq<V>>, k: K, v: V, a: K)
    ensures ListAt(m[k := ListAt(m, k) + [v]], a) == ListAt(m, a) + (if a == k then [v] else [])
  {
  }

  lemma AppendAssoc<T>(a: seq<T>, b: seq<T>, c: seq<T>)
    ensures a + (b + c) == (a + b) + c
  {
  }

  /** `Set.prototype.add` on the insertion-ordered values of a Set. */
  function SetAdd<T(==)>(s: seq<T>, x: T): seq<T>
  {
    if x in s then s else s + [x]
  }

  /** Adding keeps the values distinct, adds `x`, and drops nothing. */
  lemma SetAddMembers<T>(s: seq<T>, x: T)
    ensures NoDup(s) ==> NoDup(SetAdd(s, x))
    ensures forall y | y in SetAdd(s, x) :: y == x || y in s
    ensures x in SetAdd(s, x) && forall y | y in s :: y in SetAdd(s, x)
  {
  }

  /** A sequence without repeats holds each value at most once. */
  lemma {:induction false} NoDupCount<T>(s: seq<T>, x: T)
    requires NoDup(s)
    ensures multiset(s)[x] <= 1
  {
    if s != [] {
      var n := |s| - 1;
      assert s == s[..n] + [s[n]];
      assert NoDup(s[..n]);
      NoDupCount(s[..n], x);
      assert s[n] == x ==> x !in s[..n];
    }
  }

  lemma CountTwice<T>(t: seq<T>, i: int, j: int)
    requires 0 <= i < j < |t| && multiset(t)[t[i]] <= 1
    ensures t[i] != t[j]
  {
    assert t == t[..i] + [t[i]] + t[i + 1..j] + [t[j]] + t[j + 1..];
  }

  /** A permutation of a sequence without repeats has none either. */
  lemma NoDupPermutation<T>(s: seq<T>, t: seq<T>)
    requires NoDup(s) && multiset(s) == multiset(t)
    ensures NoDup(t)
  {
    forall i, j | 0 <= i < j < |t|
      ensures t[i] != t[j]
    {
      NoDupCount(s, t[i]);
      CountTwice(t, i, j);
    }
  }

  /** The values of a JavaScript Set filled by `add(s[0])`, `add(s[1])`, ...
      in insertion order. */
  function Distinct<T(==)>(s: seq<T>): (r: seq<T>)
    ensures |r| <= |s|
  {
    if s == [] then []
    else
      SetAdd(Distinct(s[..|s| - 1]), s[|s| - 1])
  }

  /** The Set holds each value of `s` once, and nothing else. */
  lemma {:induction false} DistinctMembers<T>(s: seq<T>)
    ensures forall x | x in Distinct(s) :: x in s
    ensures forall x | x in s :: x in Distinct(s)
    ensures NoDup(Distinct(s))
  {
    if s != [] {
      var n := |s| - 1;
      DistinctMembers(s[..n]);
      SetAddMembers(Distinct(s[..n]), s[n]);
      assert s == s[..n] + [s[n]];
    }
  }

  /** One more `add` on the Set: the value is appended only when it is new. */
  lemma DistinctSnoc<T>(s: seq<T>, x: T)
    ensures Distinct(s + [x]) == SetAdd(Distinct(s), x)
  {
    assert (s + [x])[..|s|] == s;
  }

  /** The keys that the elements of `xs` map to. */
  function KeysOf<T(==), K>(xs: seq<T>, key: T -> K): set<K>
  {
    set x | x in xs :: key(x)
  }

  /** Keeps the first element for each key, in input order, as the
      detectors' de-duplication loops do. */
  function KeepFirst<T(==), K(==)>(xs: seq<T>, key: T -> K): (r: seq<T>)
    ensures |r| <= |xs|
  {
    if xs == [] then []
    else
      var init := xs[..|xs| - 1];
      var x := xs[|xs| - 1];
      if key(x) in KeysOf(init, key) then KeepFirst(init, key) else KeepFirst(init, key) + [x]
  }

  /** The result covers every key of `xs` once, with elements of `xs`. */
  lemma {:induction false} KeepFirstKeys<T, K>(xs: seq<T>, key: T -> K)
    ensures KeysOf(KeepFirst(xs, key), key) == KeysOf(xs, key)
    ensures forall i, j | 0 <= i < j < |KeepFirst(xs, key)| :: key(KeepFirst(xs, key)[i]) != key(KeepFirst(xs, key)[j])
    ensures forall x | x in KeepFirst(xs, key) :: x in xs
  {
    if xs != [] {
      var init := xs[..|xs| - 1];
      var x := xs[|xs| - 1];
      var prev := KeepFirst(init, key);
      KeepFirstKeys(init, key);
      assert forall y | y in init :: y in xs;
      assert xs == init + [x];
      KeysOfSnoc(init, x, key);
      if key(x) !in KeysOf(init, key) {
        KeysOfSnoc(prev, x, key);
        var r := prev + [x];
        forall i, j | 0 <= i < j < |r| ensures key(r[i]) != key(r[j]) {
          if j == |prev| {
            assert r[i] == prev[i] && prev[i] in prev;
          }
        }
      }
    }
  }

  /** One more element: kept exactly when its key is new. */
  lemma KeepFirstSnoc<T, K>(xs: seq<T>, x: T, key: T -> K)
    ensures KeepFirst(xs + [x], key)
            == if key(x) in KeysOf(xs, key) then KeepFirst(xs, key) else KeepFirst(xs, key) + [x]
  {
    assert (xs + [x])[..|xs|] == xs;
  }

  lemma KeysOfSnoc<T, K>(xs: seq<T>, x: T, key: T -> K)
    ensures KeysOf(xs + [x], key) == KeysOf(xs, key) + {key(x)}
  {
    assert forall y | y in xs + [x] :: y in xs || y == x;
  }

  /** No earlier element of `xs` has the key of `xs[i]`. */
  ghost predicate IsFirstOf<T, K>(xs: seq<T>, key: T -> K, i: int)
    requires 0 <= i < |xs|
  {
    forall j | 0 <= j < i :: key(xs[j]) != key(xs[i])
  }

  lemma IsFirstOfPrefix<T, K>(xs: seq<T>, key: T -> K, n: nat)
    requires n <= |xs|
    ensures forall i | 0 <= i < n :: IsFirstOf(xs, key, i) == IsFirstOf(xs[..n], key, i)
  {
  }

  /** The last element is a first occurrence exactly when its key is new. */
  lemma IsFirstOfLast<T, K>(xs: seq<T>, key: T -> K)
    requires xs != []
    ensures IsFirstOf(xs, key, |xs| - 1) <==> key(xs[|xs| - 1]) !in KeysOf(xs[..|xs| - 1], key)
  {
    var n := |xs| - 1;
    var init := xs[..n];
    if key(xs[n]) in KeysOf(init, key) {
      var y :| y in init && key(y) == key(xs[n]);
      var j :| 0 <= j < n && init[j] == y;
      assert key(xs[j]) == key(xs[n]);
    } else {
      forall j | 0 <= j < n ensures key(xs[j]) != key(xs[n]) {
        assert xs[j] == init[j] && init[j] in init;
      }
    }
  }

  /** The elements of `xs[..n]` that are the first of their key, in order:
      a filter on positions, independent of `KeepFirst`. */
  ghost function FirstOccurrences<T, K>(xs: seq<T>, key: T -> K, n: nat): seq<T>
    requires n <= |xs|
  {
    if n == 0 then []
    else FirstOccurrences(xs, key, n - 1) + (if IsFirstOf(xs, key, n - 1) then [xs[n - 1]] else [])
  }

  lemma {:induction false} FirstOccurrencesPrefix<T, K>(xs: seq<T>, key: T -> K, m: nat, n: nat)
    requires m <= n <= |xs|
    ensures FirstOccurrences(xs, key, m) == FirstOccurrences(xs[..n], key, m)
  {
    if m > 0 {
      FirstOccurrencesPrefix(xs, key, m - 1, n);
      IsFirstOfPrefix(xs, key, n);
    }
  }

  /** `KeepFirst` keeps exactly the first occurrence of each key, in input
      order: a subsequence of `xs`. */
  lemma {:induction false} KeepFirstIsFirstOccurrences<T, K>(xs: seq<T>, key: T -> K)
    ensures KeepFirst(xs, key) == FirstOccurrences(xs, key, |xs|)
  {
    if xs != [] {
      var n := |xs| - 1;
      KeepFirstIsFirstOccurrences(xs[..n], key);
      FirstOccurrencesPrefix(xs, key, n, n);
      IsFirstOfLast(xs, key);
    }
  }

  /** Places `x` before the first element whose key is not smaller. */
  function InsertBy<T>(x: T, s: seq<T>, key: T -> real): (r: seq<T>)
    ensures |r| == |s| + 1
  {
    if s == [] then [x]
    else if key(x) <= key(s[0]) then [x] + s
    else [s[0]] + InsertBy(x, s[1..], key)
  }

  /** Inserting adds exactly `x`. */
  lemma {:induction false} InsertByPermutes<T>(x: T, s: seq<T>, key: T -> real)
    ensures multiset(InsertBy(x, s, key)) == multiset(s) + multiset{x}
    ensures forall y | y in InsertBy(x, s, key) :: y == x || y in s
  {
    if s != [] && key(x) > key(s[0]) {
      InsertByPermutes(x, s[1..], key);
      assert s == [s[0]] + s[1..];
      assert forall y | y in [s[0]] + InsertBy(x, s[1..], key) :: y == s[0] || y in InsertBy(x, s[1..], key);
    }
  }

  ghost predicate SortedBy<T>(s: seq<T>, key: T -> real)
  {
    forall i, j | 0 <= i < j < |s| :: key(s[i]) <= key(s[j])
  }

  lemma SortedByTail<T>(s: seq<T>, key: T -> real)
    requires s != [] && SortedBy(s, key)
    ensures SortedBy(s[1..], key)
    ensures forall y | y in s :: key(s[0]) <= key(y)
  {
    forall y | y in s ensures key(s[0]) <= key(y) {
      var k :| 0 <= k < |s| && s[k] == y;
    }
  }

  /** An element whose key bounds a sorted sequence from below can go in front. */
  lemma SortedByCons<T>(x: T, s: seq<T>, key: T -> real)
    requires SortedBy(s, key)
    requires forall y | y in s :: key(x) <= key(y)
    ensures SortedBy([x] + s, key)
  {
    var r := [x] + s;
    forall i, j | 0 <= i < j < |r| ensures key(r[i]) <= key(r[j]) {
      assert r[j] == s[j - 1] && s[j - 1] in s;
      if i > 0 {
        assert r[i] == s[i - 1];
      }
    }
  }

  lemma {:induction false} InsertBySorted<T>(x: T, s: seq<T>, key: T -> real)
    requires SortedBy(s, key)
    ensures SortedBy(InsertBy(x, s, key), key)
  {
    if s == [] {
    } else {
      SortedByTail(s, key);
      if key(x) <= key(s[0]) {
        SortedByCons(x, s, key);
      } else {
        InsertBySorted(x, s[1..], key);
        InsertByPermutes(x, s[1..], key);
        SortedByCons(s[0], InsertBy(x, s[1..], key), key);
      }
    }
  }

  /** A stable ascending sort by `key`: the behaviour that ECMAScript
      (edition 2019 onwards) requires of Array.prototype.sort with a
      comparator returning `key(a) - key(b)`. */
  function SortBy<T>(s: seq<T>, key: T -> real): (r: seq<T>)
    ensures |r| == |s|
  {
    if s == [] then [] else InsertBy(s[0], SortBy(s[1..], key), key)
  }

  /** The result is sorted by `key` and a permutation of `s`. */
  lemma {:induction false} SortBySortsAndPermutes<T>(s: seq<T>, key: T -> real)
    ensures SortedBy(SortBy(s, key), key)
    ensures multiset(SortBy(s, key)) == multiset(s)
  {
    if s != [] {
      var sorted := SortBy(s[1..], key);
      SortBySortsAndPermutes(s[1..], key);
      InsertBySorted(s[0], sorted, key);
      InsertByPermutes(s[0], sorted, key);
      assert s == [s[0]] + s[1..];
    }
  }

  /** The elements of `s` whose key is `k`, in order. */
  function WithKey<T>(s: seq<T>, key: T -> real, k: real): seq<T>
  {
    if s == [] then [] else (if key(s[0]) == k then [s[0]] else []) + WithKey(s[1..], key, k)
  }

  lemma WithKeyCons<T>(h: T, t: seq<T>, key: T -> real, k: real)
    ensures WithKey([h] + t, key, k) == (if key(h) == k then [h] else []) + WithKey(t, key, k)
  {
    assert ([h] + t)[1..] == t;
  }

  lemma {:induction false} InsertByStable<T>(x: T, s: seq<T>, key: T -> real, k: real)
    ensures WithKey(InsertBy(x, s, key), key, k)
            == if key(x) == k then [x] + WithKey(s, key, k) else WithKey(s, key, k)
  {
    if s == [] {
      WithKeyCons(x, [], key, k);
    } else if key(x) <= key(s[0]) {
      WithKeyCons(x, s, key, k);
    } else {
      var rest := InsertBy(x, s[1..], key);
      assert InsertBy(x, s, key) == [s[0]] + rest;
      InsertByStable(x, s[1..], key, k);
      WithKeyCons(s[0], rest, key, k);
      assert s == [s[0]] + s[1..];
      WithKeyCons(s[0], s[1..], key, k);
      if key(x) == k {
        assert key(s[0]) != k;
        assert WithKey(s, key, k) == WithKey(s[1..], key, k);
        assert WithKey(InsertBy(x, s, key), key, k) == WithKey(rest, key, k);
      }
    }
  }

  /** Stability: the elements sharing any one key keep their input order. */
  lemma {:induction false} SortByStable<T>(s: seq<T>, key: T -> real, k: real)
    ensures WithKey(SortBy(s, key), key, k) == WithKey(s, key, k)
  {
    if s != [] {
      var sorted := SortBy(s[1..], key);
      assert SortBy(s, key) == InsertBy(s[0], sorted, key);
      SortByStable(s[1..], key, k);
      InsertByStable(s[0], sorted, key, k);
      assert s == [s[0]] + s[1..];
      WithKeyCons(s[0], s[1..], key, k);
    }
  }
}
