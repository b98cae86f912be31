/**
 * The list operations the engine leans on: `Array.prototype.filter`,
 * `[...new Set(xs)]` (first-occurrence de-duplication), `indexOf`, and the
 * order-preserving subsequence relation used to state what a filter keeps.
 */
module Seqs {

  predicate NoDuplicates<T(==)>(s: seq<T>) {
    forall i, j :: 0 <= i < j < |s| ==> s[i] != s[j]
  }

  /** `a` is an order-preserving subsequence of `b` (greedy matching decides it). */
  predicate IsSubsequence<T(==)>(a: seq<T>, b: seq<T>)
    decreases |b|
  {
    if a == [] then true
    else if b == [] then false
    else if a[0] == b[0] then IsSubsequence(a[1..], b[1..])
    else IsSubsequence(a, b[1..])
  }

  /** `s.filter(keep)`: the elements `keep` accepts, in their original order. */
  function Filter<T(!new)>(s: seq<T>, keep: T -> bool): (r: seq<T>)
    ensures |r| <= |s|
    ensures forall x :: x in r <==> x in s && keep(x)
  {
    if s == [] then []
    else (if keep(s[0]) then [s[0]] else []) + Filter(s[1..], keep)
  }

  lemma {:induction false} FilterConcat<T(!new)>(a: seq<T>, b: seq<T>, keep: T -> bool)
    ensures Filter(a + b, keep) == Filter(a, keep) + Filter(b, keep)
  {
    if a == [] {
      assert a + b == b;
    } else {
      assert (a + b)[0] == a[0];
      assert (a + b)[1..] == a[1..] + b;
      FilterConcat(a[1..], b, keep);
    }
  }

  /** What a filter returns is an order-preserving subsequence of its input. */
  lemma {:induction false} FilterIsSubsequence<T(!new)>(s: seq<T>, keep: T -> bool)
    ensures IsSubsequence(Filter(s, keep), s)
  {
    if s != [] {
      FilterIsSubsequence(s[1..], keep);
      if keep(s[0]) {
        assert ([s[0]] + Filter(s[1..], keep))[1..] == Filter(s[1..], keep);
      } else {
        assert Filter(s, keep) == Filter(s[1..], keep);
      }
    }
  }

  /** A filter whose test accepts everything returns its input. */
  lemma {:induction false} FilterKeepsAll<T(!new)>(s: seq<T>, keep: T -> bool)
    requires forall x :: x in s ==> keep(x)
    ensures Filter(s, keep) == s
  {
    if s != [] {
      FilterKeepsAll(s[1..], keep);
      assert [s[0]] + s[1..] == s;
    }
  }

  /** Two filters whose tests agree on every element return the same result. */
  lemma {:induction false} FilterSameTest<T(!new)>(s: seq<T>, f: T -> bool, g: T -> bool)
    requires forall x :: x in s ==> f(x) == g(x)
    ensures Filter(s, f) == Filter(s, g)
  {
    if s != [] {
      FilterSameTest(s[1..], f, g);
    }
  }

  /** Filtering with a stricter test is filtering the looser test's result again. */
  lemma {:induction false} FilterStricter<T(!new)>(s: seq<T>, strict: T -> bool, loose: T -> bool)
    requires forall x :: x in s && strict(x) ==> loose(x)
    ensures Filter(s, strict) == Filter(Filter(s, loose), strict)
    ensures IsSubsequence(Filter(s, strict), Filter(s, loose))
  {
    if s != [] {
      FilterStricter(s[1..], strict, loose);
      var rest := Filter(s[1..], loose);
      if loose(s[0]) {
        assert Filter(s, loose) == [s[0]] + rest;
        assert ([s[0]] + rest)[1..] == rest;
      } else {
        assert Filter(s, loose) == rest;
      }
    }
    FilterIsSubsequence(Filter(s, loose), strict);
  }

  /** A filter whose test rejects everything returns nothing. */
  lemma {:induction false} FilterKeepsNone<T(!new)>(s: seq<T>, keep: T -> bool)
    requires forall j :: 0 <= j < |s| ==> !keep(s[j])
    ensures Filter(s, keep) == []
  {
    if s != [] {
      FilterKeepsNone(s[1..], keep);
    }
  }

  /** Exactly one element passes: the filter returns just that element. */
  lemma {:induction false} FilterSingle<T(!new)>(s: seq<T>, keep: T -> bool, k: nat)
    requires k < |s| && keep(s[k])
    requires forall j :: 0 <= j < |s| && j != k ==> !keep(s[j])
    ensures Filter(s, keep) == [s[k]]
  {
    if k == 0 {
      FilterKeepsNone(s[1..], keep);
    } else {
      FilterSingle(s[1..], keep, k - 1);
    }
  }

  /** `s.indexOf(x)` for an element that is present: its first position. */
  function FirstIndexOf<T(==)>(s: seq<T>, x: T): (k: nat)
    requires x in s
    ensures k < |s| && s[k] == x
    ensures forall j :: 0 <= j < k ==> s[j] != x
  {
    if s[0] == x then 0 else 1 + FirstIndexOf(s[1..], x)
  }

  /** Appending after the first occurrence does not move it. */
  lemma FirstIndexOfAppend<T>(a: seq<T>, b: seq<T>, x: T)
    requires x in a
    ensures FirstIndexOf(a + b, x) == FirstIndexOf(a, x)
  {
    var k, k' := FirstIndexOf(a, x), FirstIndexOf(a + b, x);
    assert (a + b)[k] == x;
  }

  /** `[...new Set(s)]`: the distinct elements of `s`, each at its first occurrence. */
  function Distinct<T(==,!new)>(s: seq<T>): (r: seq<T>)
    ensures forall x :: x in r <==> x in s
    ensures NoDuplicates(r)
    ensures |r| <= |s|
  {
    if s == [] then []
    else
      var d := Distinct(s[..|s| - 1]);
      assert s == s[..|s| - 1] + [s[|s| - 1]];
      if s[|s| - 1] in d then d else d + [s[|s| - 1]]
  }

  lemma DistinctAppendOne<T(!new)>(s: seq<T>, x: T)
    ensures Distinct(s + [x]) == if x in Distinct(s) then Distinct(s) else Distinct(s) + [x]
  {
    assert (s + [x])[..|s|] == s;
  }

  /** A sequence without duplicates is its own de-duplication. */
  lemma {:induction false} DistinctOfNoDuplicates<T(!new)>(s: seq<T>)
    requires NoDuplicates(s)
    ensures Distinct(s) == s
  {
    if s != [] {
      var init := s[..|s| - 1];
      DistinctOfNoDuplicates(init);
      assert s[|s| - 1] !in init;
      assert init + [s[|s| - 1]] == s;
    }
  }

  /** De-duplicating a prefix first changes nothing: `Distinct(Distinct(a) + b) == Distinct(a + b)`. */
  lemma {:induction false} DistinctAbsorbs<T(!new)>(a: seq<T>, b: seq<T>)
    ensures Distinct(Distinct(a) + b) == Distinct(a + b)
    decreases |b|
  {
    if b == [] {
      assert Distinct(a) + b == Distinct(a);
      assert a + b == a;
      DistinctOfNoDuplicates(Distinct(a));
    } else {
      var b', y := b[..|b| - 1], b[|b| - 1];
      DistinctAbsorbs(a, b');
      assert Distinct(a) + b == (Distinct(a) + b') + [y];
      assert a + b == (a + b') + [y];
      DistinctAppendOne(Distinct(a) + b', y);
      DistinctAppendOne(a + b', y);
    }
  }

  /** The distinct elements come out in the order of their first occurrence in `s`. */
  lemma {:induction false} DistinctFirstOccurrenceOrder<T(!new)>(s: seq<T>)
    ensures forall i, j :: 0 <= i < j < |Distinct(s)| ==>
      FirstIndexOf(s, Distinct(s)[i]) < FirstIndexOf(s, Distinct(s)[j])
  {
    if s != [] {
      var init, x := s[..|s| - 1], s[|s| - 1];
      assert s == init + [x];
      DistinctFirstOccurrenceOrder(init);
      var d := Distinct(init);
      forall i, j | 0 <= i < j < |Distinct(s)|
        ensures FirstIndexOf(s, Distinct(s)[i]) < FirstIndexOf(s, Distinct(s)[j])
      {
        FirstIndexOfAppend(init, [x], d[i]);
        if j < |d| {
          FirstIndexOfAppend(init, [x], d[j]);
        } else {
          assert Distinct(s)[j] == x && x !in init;
        }
      }
    }
  }

  /** Number of occurrences of `x` in `s`. */
  function Count<T(==)>(s: seq<T>, x: T): nat {
    if s == [] then 0
    else Count(s[..|s| - 1], x) + (if s[|s| - 1] == x then 1 else 0)
  }

  lemma CountAppendOne<T>(s: seq<T>, y: T, x: T)
    ensures Count(s + [y], x) == Count(s, x) + (if y == x then 1 else 0)
  {
    assert (s + [y])[..|s|] == s;
  }

  lemma {:induction false} CountPositive<T>(s: seq<T>, x: T)
    ensures Count(s, x) > 0 <==> x in s
  {
    if s != [] {
      CountPositive(s[..|s| - 1], x);
      assert s == s[..|s| - 1] + [s[|s| - 1]];
    }
  }

  lemma {:induction false} CountOfNoDuplicates<T>(s: seq<T>, x: T)
    requires NoDuplicates(s) && x in s
    ensures Count(s, x) == 1
  {
    var init := s[..|s| - 1];
    if s[|s| - 1] == x {
      assert x !in init;
      CountPositive(init, x);
    } else {
      assert x in init;
      CountOfNoDuplicates(init, x);
    }
  }

  /** `n` copies of `x`. */
  function Copies<T>(x: T, n: nat): (r: seq<T>)
    ensures |r| == n && forall k :: 0 <= k < n ==> r[k] == x
  {
    if n == 0 then [] else Copies(x, n - 1) + [x]
  }
}
