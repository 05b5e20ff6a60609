/** Sequence operations that the table code of the analysis scripts is built
    from: filtering, de-duplication, sums and means, value counting, taking a
    head, and sorting by a numeric key. */
module Seqs {

  /** The elements of `s` that satisfy `p`, in their original order. */
  function Filter<T(!new)>(s: seq<T>, p: T -> bool): (r: seq<T>)
    ensures |r| <= |s|
    ensures forall x :: x in r <==> x in s && p(x)
  {
    if s == [] then []
    else if p(s[0]) then [s[0]] + Filter(s[1..], p)
    else Filter(s[1..], p)
  }

  /** Filtering distributes over concatenation; together with the one-element
      case this pins the result down to "the satisfying elements, in order". */
  lemma {:induction false} FilterAppend<T(!new)>(s: seq<T>, t: seq<T>, p: T -> bool)
    ensures Filter(s + t, p) == Filter(s, p) + Filter(t, p)
  {
    if s == [] {
      assert s + t == t;
    } else {
      assert (s + t)[1..] == s[1..] + t;
      FilterAppend(s[1..], t, p);
    }
  }

  /** Filtering by `p` first changes nothing when `q` already implies `p`. */
  lemma {:induction false} FilterSubsumed<T(!new)>(s: seq<T>, p: T -> bool, q: T -> bool)
    requires forall x :: q(x) ==> p(x)
    ensures Filter(Filter(s, p), q) == Filter(s, q)
  {
    if s != [] {
      FilterSubsumed(s[1..], p, q);
    }
  }

  /** Number of occurrences of `x` in `s`. */
  function Count<T(==)>(s: seq<T>, x: T): nat {
    if s == [] then 0 else (if s[0] == x then 1 else 0) + Count(s[1..], x)
  }

  lemma {:induction false} CountAtMost<T>(s: seq<T>, x: T)
    ensures Count(s, x) <= |s|
  {
    if s != [] {
      CountAtMost(s[1..], x);
    }
  }

  lemma {:induction false} CountPositive<T(!new)>(s: seq<T>, x: T)
    ensures x in s <==> Count(s, x) > 0
  {
    if s != [] {
      CountPositive(s[1..], x);
    }
  }

  predicate NoDup<T(==)>(s: seq<T>) {
    forall i, j :: 0 <= i < j < |s| ==> s[i] != s[j]
  }

  /** The distinct elements of `s`, each at its first occurrence. */
  function Distinct<T(==,!new)>(s: seq<T>): (r: seq<T>)
    ensures forall x :: x in r <==> x in s
    ensures NoDup(r)
    decreases |s|
  {
    if s == [] then []
    else
      var r := Distinct(s[..|s| - 1]);
      assert forall x :: x in s[..|s| - 1] ==> x in s;
      assert forall x :: x in s ==> x in s[..|s| - 1] || x == s[|s| - 1];
      if s[|s| - 1] in r then r else r + [s[|s| - 1]]
  }

  /** De-duplication never lengthens a sequence. */
  lemma DistinctNoLonger<T(!new)>(s: seq<T>)
    ensures |Distinct(s)| <= |s|
  {
    var r := Distinct(s);
    forall x | x in multiset(r) ensures x in multiset(s) {
      assert x in r;
    }
    NoDupMultiset(r);
    MultisetSubset(r, s);
  }

  lemma {:induction false} NoDupMultiset<T>(r: seq<T>)
    requires NoDup(r)
    ensures forall x :: multiset(r)[x] <= 1
  {
    if r != [] {
      assert NoDup(r[1..]);
      NoDupMultiset(r[1..]);
      assert r == [r[0]] + r[1..];
      assert r[0] !in r[1..];
    }
  }

  lemma MultisetSubset<T>(r: seq<T>, s: seq<T>)
    requires forall x :: multiset(r)[x] <= 1
    requires forall x :: x in multiset(r) ==> x in multiset(s)
    ensures |r| <= |s|
  {
    assert multiset(r) <= multiset(s) by {
      forall x ensures multiset(r)[x] <= multiset(s)[x] {
        if x in multiset(r) {
          assert x in multiset(s);
        }
      }
    }
    assert |multiset(r)| <= |multiset(s)| by {
      SubMultisetCard(multiset(r), multiset(s));
    }
  }

  lemma SubMultisetCard<T>(a: multiset<T>, b: multiset<T>)
    requires a <= b
    ensures |a| <= |b|
  {
    assert b == a + (b - a);
  }

  /** Sum of `f` over `s`. */
  function SumBy<T>(s: seq<T>, f: T -> real): real {
    if s == [] then 0.0 else f(s[0]) + SumBy(s[1..], f)
  }

  /** Sum of a natural-valued `f` over `s`. */
  function SumByNat<T>(s: seq<T>, f: T -> nat): nat {
    if s == [] then 0 else f(s[0]) + SumByNat(s[1..], f)
  }

  lemma {:induction false} SumByNatAppend<T(!new)>(s: seq<T>, t: seq<T>, f: T -> nat)
    ensures SumByNat(s + t, f) == SumByNat(s, f) + SumByNat(t, f)
  {
    if s == [] {
      assert s + t == t;
    } else {
      assert (s + t)[1..] == s[1..] + t;
      SumByNatAppend(s[1..], t, f);
    }
  }

  /** Every value of `f` on `s` lies in [lo, hi], so the sum lies in
      [lo * |s|, hi * |s|]. */
  lemma SumBounds<T(!new)>(s: seq<T>, f: T -> real, lo: real, hi: real)
    requires forall x :: x in s ==> lo <= f(x) <= hi
    ensures lo * |s| as real <= SumBy(s, f) <= hi * |s| as real
  {
    forall i | 0 <= i < |s| ensures lo <= f(s[i]) <= hi {
      assert s[i] in s;
    }
    SumLower(s, f, lo);
    SumUpper(s, f, hi);
  }

  lemma {:induction false} SumLower<T>(s: seq<T>, f: T -> real, lo: real)
    requires forall i :: 0 <= i < |s| ==> lo <= f(s[i])
    ensures lo * (|s| as real) <= SumBy(s, f)
  {
    if s != [] {
      var rest := s[1..];
      SumLower(rest, f, lo);
      var n := |rest| as real;
      assert |s| as real == n + 1.0;
      Distribute(lo, n);
    }
  }

  lemma {:induction false} SumUpper<T>(s: seq<T>, f: T -> real, hi: real)
    requires forall i :: 0 <= i < |s| ==> f(s[i]) <= hi
    ensures SumBy(s, f) <= hi * |s| as real
  {
    if s != [] {
      var rest := s[1..];
      SumUpper(rest, f, hi);
      var n := |rest| as real;
      assert |s| as real == n + 1.0;
      Distribute(hi, n);
    }
  }

  lemma Distribute(a: real, n: real)
    ensures a * (n + 1.0) == a * n + a
  {
  }

  /** Arithmetic mean of `f` over a non-empty `s` (pandas `mean`). */
  function Mean<T>(s: seq<T>, f: T -> real): (m: real)
    requires |s| > 0
  {
    SumBy(s, f) / |s| as real
  }

  /** The mean lies between any bounds that hold for every element. */
  lemma MeanBounds<T(!new)>(s: seq<T>, f: T -> real, lo: real, hi: real)
    requires |s| > 0
    requires forall x :: x in s ==> lo <= f(x) <= hi
    ensures lo <= Mean(s, f) <= hi
  {
    SumBounds(s, f, lo, hi);
    var n := |s| as real;
    assert lo * n <= SumBy(s, f) <= hi * n;
    assert lo == lo * n / n && hi == hi * n / n;
  }

  /** The first `n` elements of `s`, or all of them (pandas `head`). */
  function Take<T>(s: seq<T>, n: nat): (r: seq<T>)
    ensures |r| == if |s| <= n then |s| else n
    ensures r <= s
  {
    if |s| <= n then s else s[..n]
  }

  // ---------------------------------------------------------------------
  // Sorting by a numeric key, largest first (pandas `sort_values(ascending=False)`)
  // ---------------------------------------------------------------------

  predicate SortedDesc<T>(s: seq<T>, key: T -> real) {
    forall i, j :: 0 <= i < j < |s| ==> key(s[i]) >= key(s[j])
  }

  /** Putting an element no smaller than every element of a sorted
      sequence in front keeps it sorted. */
  lemma SortedCons<T>(h: T, t: seq<T>, key: T -> real)
    requires SortedDesc(t, key)
    requires forall y :: y in t ==> key(h) >= key(y)
    ensures SortedDesc([h] + t, key)
  {
    var r := [h] + t;
    forall i, j | 0 <= i < j < |r| ensures key(r[i]) >= key(r[j]) {
      assert r[j] == t[j - 1];
      if i == 0 {
        assert t[j - 1] in t;
      } else {
        assert r[i] == t[i - 1];
      }
    }
  }

  /** Inserts `x` into a sorted `s` before the first element whose key is
      not larger than its own, so `x` goes ahead of the elements whose key
      equals it; `SortDesc` inserts each head into its already sorted tail,
      which keeps equal keys in their original order. */
  function InsertDesc<T(!new)>(x: T, s: seq<T>, key: T -> real): (r: seq<T>)
    requires SortedDesc(s, key)
    ensures |r| == |s| + 1
    ensures forall y :: y in r <==> y == x || y in s
    ensures multiset(r) == multiset(s) + multiset{x}
    ensures SortedDesc(r, key)
  {
    if s == [] then [x]
    else if key(x) >= key(s[0]) then
      SortedCons(x, s, key);
      [x] + s
    else
      var rest := s[1..];
      assert s == [s[0]] + rest;
      var t := InsertDesc(x, rest, key);
      assert forall y :: y in t ==> key(s[0]) >= key(y) by {
        forall y | y in t ensures key(s[0]) >= key(y) {
          if y != x {
            var k :| 0 <= k < |rest| && rest[k] == y;
            assert s[k + 1] == y;
          }
        }
      }
      SortedCons(s[0], t, key);
      [s[0]] + t
  }

  /** `s` ordered by non-increasing key, stable among equal keys. */
  function SortDesc<T(!new)>(s: seq<T>, key: T -> real): (r: seq<T>)
    ensures |r| == |s|
    ensures multiset(r) == multiset(s)
    ensures forall y :: y in r <==> y in s
    ensures SortedDesc(r, key)
  {
    if s == [] then []
    else
      assert s == [s[0]] + s[1..];
      InsertDesc(s[0], SortDesc(s[1..], key), key)
  }

  lemma {:induction false} InsertDescSum<T(!new)>(x: T, s: seq<T>, key: T -> real, f: T -> real)
    requires SortedDesc(s, key)
    ensures SumBy(InsertDesc(x, s, key), f) == f(x) + SumBy(s, f)
  {
    if s != [] && key(x) < key(s[0]) {
      InsertDescSum(x, s[1..], key, f);
      var r := InsertDesc(x, s, key);
      assert r[1..] == InsertDesc(x, s[1..], key);
    } else if s != [] {
      assert ([x] + s)[1..] == s;
    }
  }

  /** Sorting does not change a sum over the sequence. */
  lemma {:induction false} SortDescSum<T(!new)>(s: seq<T>, key: T -> real, f: T -> real)
    ensures SumBy(SortDesc(s, key), f) == SumBy(s, f)
  {
    if s != [] {
      SortDescSum(s[1..], key, f);
      InsertDescSum(s[0], SortDesc(s[1..], key), key, f);
    }
  }

  /** An element occurring at two positions occurs at least twice. */
  lemma TwiceInMultiset<T>(r: seq<T>, i: int, j: int)
    requires 0 <= i < j < |r| && r[i] == r[j]
    ensures multiset(r)[r[j]] >= 2
  {
    var x := r[j];
    assert r == r[..j] + [x] + r[j + 1..];
    assert r[..j][i] == x;
    assert multiset(r)[x] == multiset(r[..j])[x] + 1 + multiset(r[j + 1..])[x];
  }

  /** An element of a duplicate-free sequence occurs at most once. */
  lemma {:induction false} NoDupOnce<T>(s: seq<T>, x: T)
    requires NoDup(s)
    ensures multiset(s)[x] <= 1
  {
    if s != [] {
      assert s == [s[0]] + s[1..];
      assert NoDup(s[1..]) by {
        forall i, j | 0 <= i < j < |s[1..]| ensures s[1..][i] != s[1..][j] {
          assert s[1..][i] == s[i + 1] && s[1..][j] == s[j + 1];
        }
      }
      NoDupOnce(s[1..], x);
      if x == s[0] {
        assert x !in s[1..] by {
          forall k | 0 <= k < |s[1..]| ensures s[1..][k] != x {
            assert s[1..][k] == s[k + 1];
          }
        }
      }
    }
  }

  /** A positive part over a whole no smaller than it is a fraction in
      (0, 1], and exactly 1 when the two are equal. */
  lemma FractionAtMostOne(a: real, n: real)
    requires 0.0 < a <= n
    ensures 0.0 < a / n <= 1.0
    ensures a == n ==> a / n == 1.0
  {
  }

  /** A rearrangement of a duplicate-free sequence is duplicate-free. */
  lemma PermutationNoDup<T>(s: seq<T>, r: seq<T>)
    requires NoDup(s) && multiset(r) == multiset(s)
    ensures NoDup(r)
  {
    forall i, j | 0 <= i < j < |r| ensures r[i] != r[j] {
      if r[i] == r[j] {
        TwiceInMultiset(r, i, j);
        NoDupOnce(s, r[j]);
        assert false;
      }
    }
  }

  /** Sorting a table whose keys are distinct keeps its keys distinct. */
  lemma SortDescNoDupKeys<T(!new), V(!new)>(t: seq<(T, V)>, key: ((T, V)) -> real)
    requires NoDup(KeysOf(t))
    ensures NoDup(KeysOf(SortDesc(t, key)))
  {
    var r := SortDesc(t, key);
    var kt := KeysOf(t);
    var kr := KeysOf(r);
    forall i, j | 0 <= i < j < |kr| ensures kr[i] != kr[j] {
      if kr[i] == kr[j] {
        assert r[i] in r && r[j] in r;
        var a :| 0 <= a < |t| && t[a] == r[i];
        var b :| 0 <= b < |t| && t[b] == r[j];
        assert kt[a] == kt[b];
        if r[i] == r[j] {
          TwiceInMultiset(r, i, j);
          assert NoDup(t) by {
            forall p, q | 0 <= p < q < |t| ensures t[p] != t[q] {
              assert kt[p] != kt[q];
            }
          }
          NoDupOnce(t, r[j]);
          assert false;
        } else {
          assert false;
        }
      }
    }
  }

  // ---------------------------------------------------------------------
  // Counting values (pandas `value_counts`, `groupby(...).size()`)
  // ---------------------------------------------------------------------

  function KeysOf<T, V>(t: seq<(T, V)>): seq<T> {
    seq(|t|, i requires 0 <= i < |t| => t[i].0)
  }

  /** Adds one to the count of every entry whose value is `x`. */
  function Inc<T(==)>(t: seq<(T, nat)>, x: T): (r: seq<(T, nat)>)
    ensures |r| == |t|
    ensures forall i :: 0 <= i < |t| ==> r[i] == (t[i].0, t[i].1 + (if t[i].0 == x then 1 else 0))
  {
    if t == [] then [] else [(t[0].0, t[0].1 + (if t[0].0 == x then 1 else 0))] + Inc(t[1..], x)
  }

  /** Adds one occurrence of `x` to the tally `t`. */
  function Bump<T(==)>(t: seq<(T, nat)>, x: T): (r: seq<(T, nat)>)
    requires NoDup(KeysOf(t))
    ensures NoDup(KeysOf(r))
    ensures |r| == if x in KeysOf(t) then |t| else |t| + 1
    ensures forall i :: 0 <= i < |t| ==> r[i].0 == t[i].0
    ensures forall i :: 0 <= i < |t| ==> r[i].1 == t[i].1 + (if t[i].0 == x then 1 else 0)
    ensures x !in KeysOf(t) ==> r[|t|] == (x, 1)
  {
    if x in KeysOf(t) then
      var r := Inc(t, x);
      assert KeysOf(r) == KeysOf(t);
      r
    else
      var r := t + [(x, 1)];
      var kt := KeysOf(t);
      var kr := KeysOf(r);
      assert forall i :: 0 <= i < |t| ==> kr[i] == kt[i] == t[i].0 != x by {
        forall i | 0 <= i < |t| ensures kr[i] == kt[i] == t[i].0 != x {
          assert kt[i] in kt;
        }
      }
      assert kr[|t|] == x;
      assert NoDup(kr) by {
        forall i, j | 0 <= i < j < |kr| ensures kr[i] != kr[j] {
          if j < |t| {
            assert kt[i] != kt[j];
          }
        }
      }
      r
  }

  /** One `(value, count)` entry per distinct value of `s`. */
  function Tally<T(==,!new)>(s: seq<T>): (t: seq<(T, nat)>)
    ensures NoDup(KeysOf(t))
    ensures forall x :: x in KeysOf(t) <==> x in s
    ensures forall i :: 0 <= i < |t| ==> t[i].1 == Count(s, t[i].0)
  {
    if s == [] then []
    else
      var t0 := Tally(s[1..]);
      var t := Bump(t0, s[0]);
      assert forall x :: x in s <==> x == s[0] || x in s[1..];
      assert forall x :: x in KeysOf(t) <==> x == s[0] || x in KeysOf(t0) by {
        forall x ensures x in KeysOf(t) <==> x == s[0] || x in KeysOf(t0) {
          if x in KeysOf(t) {
            var i :| 0 <= i < |t| && KeysOf(t)[i] == x;
            if i < |t0| { assert KeysOf(t0)[i] == x; }
          }
          if x in KeysOf(t0) {
            var i :| 0 <= i < |t0| && KeysOf(t0)[i] == x;
            assert KeysOf(t)[i] == x;
          }
          if x == s[0] && s[0] !in KeysOf(t0) {
            assert KeysOf(t)[|t0|] == x;
          }
        }
      }
      forall i | 0 <= i < |t| ensures t[i].1 == Count(s, t[i].0) {
        if i >= |t0| {
          CountPositive(s[1..], s[0]);
        }
      }
      t
  }

  /** The sum of the counts of a tally. */
  function CountsTotal<T>(t: seq<(T, nat)>): nat {
    if t == [] then 0 else t[0].1 + CountsTotal(t[1..])
  }

  lemma {:induction false} IncTotal<T>(t: seq<(T, nat)>, x: T)
    ensures CountsTotal(Inc(t, x)) == CountsTotal(t) + Count(KeysOf(t), x)
  {
    if t != [] {
      IncTotal(t[1..], x);
      assert Inc(t, x)[1..] == Inc(t[1..], x);
      assert KeysOf(t)[1..] == KeysOf(t[1..]);
    }
  }

  lemma {:induction false} CountsTotalAppend<T>(t: seq<(T, nat)>, e: (T, nat))
    ensures CountsTotal(t + [e]) == CountsTotal(t) + e.1
  {
    if t != [] {
      assert (t + [e])[1..] == t[1..] + [e];
      CountsTotalAppend(t[1..], e);
    }
  }

  /** A value that occurs in a duplicate-free sequence occurs exactly once. */
  lemma {:induction false} NoDupCount<T(!new)>(s: seq<T>, x: T)
    requires NoDup(s) && x in s
    ensures Count(s, x) == 1
  {
    if s[0] == x {
      CountPositive(s[1..], x);
      assert x !in s[1..];
    } else {
      NoDupCount(s[1..], x);
    }
  }

  /** Adding one occurrence raises the total count by one. */
  lemma BumpTotal<T(!new)>(t: seq<(T, nat)>, x: T)
    requires NoDup(KeysOf(t))
    ensures CountsTotal(Bump(t, x)) == CountsTotal(t) + 1
  {
    if x in KeysOf(t) {
      IncTotal(t, x);
      NoDupCount(KeysOf(t), x);
    } else {
      CountsTotalAppend(t, (x, 1));
    }
  }

  /** The counts of a tally add up to the length of the counted sequence. */
  lemma {:induction false} TallyTotal<T(!new)>(s: seq<T>)
    ensures CountsTotal(Tally(s)) == |s|
  {
    if s != [] {
      TallyTotal(s[1..]);
      BumpTotal(Tally(s[1..]), s[0]);
    }
  }
}
