/** String operations the engine borrows from JavaScript: `<` on strings,
    `Array.prototype.join`, default `sort()` on strings, `String(n)` and
    `padStart`. */
module Strings {

  /** JavaScript `a < b` on strings: lexicographic order on characters,
      a proper prefix coming first. */
  predicate LexLess(a: string, b: string)
  {
    if |a| == 0 then |b| > 0
    else if |b| == 0 then false
    else if a[0] == b[0] then LexLess(a[1..], b[1..])
    else a[0] < b[0]
  }

  predicate LexLe(a: string, b: string)
  {
    a == b || LexLess(a, b)
  }

  lemma {:induction false} LexLessIrreflexive(a: string)
    ensures !LexLess(a, a)
  {
    if |a| > 0 {
      LexLessIrreflexive(a[1..]);
    }
  }

  lemma {:induction false} LexLessAsymmetric(a: string, b: string)
    ensures !(LexLess(a, b) && LexLess(b, a))
  {
    if |a| > 0 && |b| > 0 && a[0] == b[0] {
      LexLessAsymmetric(a[1..], b[1..]);
    }
  }

  lemma {:induction false} LexLessTransitive(a: string, b: string, c: string)
    requires LexLess(a, b) && LexLess(b, c)
    ensures LexLess(a, c)
  {
    if |a| > 0 && |b| > 0 && |c| > 0 && a[0] == b[0] && b[0] == c[0] {
      LexLessTransitive(a[1..], b[1..], c[1..]);
    }
  }

  lemma {:induction false} LexLessTotal(a: string, b: string)
    ensures a == b || LexLess(a, b) || LexLess(b, a)
  {
    if |a| > 0 && |b| > 0 && a[0] == b[0] {
      LexLessTotal(a[1..], b[1..]);
      if a[1..] == b[1..] {
        assert a == [a[0]] + a[1..] && b == [b[0]] + b[1..];
      }
    }
  }

  /** `<=` is a total order on strings. */
  lemma LexLeTotalOrder()
    ensures forall a: string :: LexLe(a, a)
    ensures forall a: string, b: string :: LexLe(a, b) && LexLe(b, a) ==> a == b
    ensures forall a: string, b: string, c: string :: LexLe(a, b) && LexLe(b, c) ==> LexLe(a, c)
    ensures forall a: string, b: string :: LexLe(a, b) || LexLe(b, a)
  {
    forall a: string, b: string | LexLe(a, b) && LexLe(b, a) ensures a == b {
      LexLessAsymmetric(a, b);
    }
    forall a: string, b: string, c: string | LexLe(a, b) && LexLe(b, c) ensures LexLe(a, c) {
      if a != b && b != c {
        LexLessTransitive(a, b, c);
      }
    }
    forall a: string, b: string ensures LexLe(a, b) || LexLe(b, a) {
      LexLessTotal(a, b);
    }
  }

  /** `ss.join(sep)`. */
  function Join(ss: seq<string>, sep: string): string
  {
    if |ss| == 0 then ""
    else if |ss| == 1 then ss[0]
    else Join(ss[..|ss| - 1], sep) + sep + ss[|ss| - 1]
  }

  // ---- default sort() on an array of strings ----

  ghost predicate LexSorted(s: seq<string>)
  {
    forall i, j | 0 <= i < j < |s| :: LexLe(s[i], s[j])
  }

  function InsertString(x: string, s: seq<string>): (r: seq<string>)
    ensures |r| == |s| + 1
  {
    if s == [] then [x]
    else if LexLe(x, s[0]) then [x] + s
    else [s[0]] + InsertString(x, s[1..])
  }

  /** Inserting adds exactly `x`. */
  lemma {:induction false} InsertStringPermutes(x: string, s: seq<string>)
    ensures multiset(InsertString(x, s)) == multiset(s) + multiset{x}
    ensures forall y | y in InsertString(x, s) :: y == x || y in s
  {
    if s != [] && !LexLe(x, s[0]) {
      InsertStringPermutes(x, s[1..]);
      assert s == [s[0]] + s[1..];
      assert forall y | y in [s[0]] + InsertString(x, s[1..]) :: y == s[0] || y in InsertString(x, s[1..]);
    }
  }

  lemma LexSortedTail(s: seq<string>)
    requires s != [] && LexSorted(s)
    ensures LexSorted(s[1..])
    ensures forall y | y in s :: LexLe(s[0], y)
  {
    forall y | y in s ensures LexLe(s[0], y) {
      var k :| 0 <= k < |s| && s[k] == y;
    }
  }

  lemma LexSortedCons(x: string, s: seq<string>)
    requires LexSorted(s)
    requires forall y | y in s :: LexLe(x, y)
    ensures LexSorted([x] + s)
  {
    var r := [x] + s;
    forall i, j | 0 <= i < j < |r| ensures LexLe(r[i], r[j]) {
      assert r[j] == s[j - 1] && s[j - 1] in s;
      if i > 0 {
        assert r[i] == s[i - 1];
      }
    }
  }

  lemma {:induction false} InsertStringSorted(x: string, s: seq<string>)
    requires LexSorted(s)
    ensures LexSorted(InsertString(x, s))
  {
    if s != [] {
      LexSortedTail(s);
      if LexLe(x, s[0]) {
        forall y | y in s ensures LexLe(x, y) {
          if x != s[0] && s[0] != y {
            LexLessTransitive(x, s[0], y);
          }
        }
        LexSortedCons(x, s);
      } else {
        LexLessTotal(x, s[0]);
        InsertStringSorted(x, s[1..]);
        InsertStringPermutes(x, s[1..]);
        LexSortedCons(s[0], InsertString(x, s[1..]));
      }
    }
  }

  /** `[...s].sort()` on strings: an insertion sort under `LexLess`. */
  function SortStrings(s: seq<string>): (r: seq<string>)
    ensures |r| == |s|
  {
    if s == [] then [] else InsertString(s[0], SortStrings(s[1..]))
  }

  /** The result is sorted and a permutation of `s`. */
  lemma {:induction false} SortStringsSortsAndPermutes(s: seq<string>)
    ensures LexSorted(SortStrings(s))
    ensures multiset(SortStrings(s)) == multiset(s)
  {
    if s != [] {
      var sorted := SortStrings(s[1..]);
      SortStringsSortsAndPermutes(s[1..]);
      InsertStringSorted(s[0], sorted);
      InsertStringPermutes(s[0], sorted);
      assert s == [s[0]] + s[1..];
    }
  }

  lemma MultisetTail<T>(a: seq<T>)
    requires a != []
    ensures multiset(a[1..]) == multiset(a) - multiset{a[0]}
  {
    assert a == [a[0]] + a[1..];
  }

  /** A sorted arrangement of a multiset of strings is unique. */
  lemma {:induction false} LexSortedUnique(a: seq<string>, b: seq<string>)
    requires LexSorted(a) && LexSorted(b)
    requires multiset(a) == multiset(b)
    ensures a == b
  {
    if a != [] {
      assert a[0] in b by {
        assert a[0] in multiset(b);
      }
      assert b[0] in a by {
        assert b[0] in multiset(a);
      }
      LexSortedTail(a);
      LexSortedTail(b);
      LexLessAsymmetric(a[0], b[0]);
      assert a[0] == b[0];
      MultisetTail(a);
      MultisetTail(b);
      LexSortedUnique(a[1..], b[1..]);
      assert a == [a[0]] + a[1..];
      assert b == [b[0]] + b[1..];
    } else {
      assert |multiset(b)| == |b|;
    }
  }

  // ---- String(n) and padStart ----

  function DigitChar(d: nat): char
    requires d < 10
  {
    "0123456789"[d]
  }

  function DigitValue(c: char): nat
  {
    if '0' <= c <= '9' then c as int - '0' as int else 0
  }

  /** `String(n)` for a non-negative integer: its decimal digits. */
  function NatToString(n: nat): (s: string)
    ensures |s| >= 1
    decreases n
  {
    if n < 10 then [DigitChar(n)] else NatToString(n / 10) + [DigitChar(n % 10)]
  }

  /** The value of a string of decimal digits (the inverse of `NatToString`). */
  function ParseNat(s: string): nat
  {
    if s == [] then 0 else 10 * ParseNat(s[..|s| - 1]) + DigitValue(s[|s| - 1])
  }

  lemma {:induction false} ParseNatToString(n: nat)
    ensures ParseNat(NatToString(n)) == n
    decreases n
  {
    var s := NatToString(n);
    if n < 10 {
      assert s[..0] == [];
    } else {
      ParseNatToString(n / 10);
      assert s[..|s| - 1] == NatToString(n / 10);
    }
  }

  /** `s.padStart(width, c)`. */
  function PadStart(s: string, width: nat, c: char): (r: string)
    ensures |r| >= width && |r| >= |s|
  {
    if |s| >= width then s else seq(width - |s|, _ => c) + s
  }

  /** Leading zeros do not change the value of a digit string. */
  lemma {:induction false} ParseNatLeadingZeros(k: nat, s: string)
    ensures ParseNat(seq(k, _ => '0') + s) == ParseNat(s)
    decreases k, |s|
  {
    var z := seq(k, _ => '0');
    if s == [] {
      assert z + s == z;
      if k > 0 {
        assert z[..k - 1] == seq(k - 1, _ => '0');
        ParseNatLeadingZeros(k - 1, []);
        assert seq(k - 1, _ => '0') + [] == seq(k - 1, _ => '0');
      }
    } else {
      var init := s[..|s| - 1];
      assert (z + s)[..|z + s| - 1] == z + init;
      ParseNatLeadingZeros(k, init);
    }
  }

  /** Zero padding keeps the decimal value: `padStart(w, "0")` is injective
      on the strings that `String` produces. */
  lemma PadStartNatToStringInjective(m: nat, n: nat, w: nat)
    requires PadStart(NatToString(m), w, '0') == PadStart(NatToString(n), w, '0')
    ensures m == n
  {
    forall k: nat | true ensures ParseNat(PadStart(NatToString(k), w, '0')) == k {
      var s := NatToString(k);
      ParseNatToString(k);
      if |s| < w {
        ParseNatLeadingZeros(w - |s|, s);
      }
    }
  }
}
