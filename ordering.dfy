/**
 * Orderings and `sorted(set(...))`: the ascending, duplicate-free list of
 * the elements of a sequence, built by insertion. Used for instrument
 * names (T2), years (T5) and (year, instrument) group keys (aggregator).
 */
module Ordering {

  ghost predicate StrictTotalOrder<T(!new)>(lt: (T, T) -> bool) {
    && (forall a :: !lt(a, a))
    && (forall a, b, c :: lt(a, b) && lt(b, c) ==> lt(a, c))
    && (forall a, b :: a != b ==> lt(a, b) || lt(b, a))
  }

  predicate StrictlySorted<T>(xs: seq<T>, lt: (T, T) -> bool) {
    forall i, j :: 0 <= i < j < |xs| ==> lt(xs[i], xs[j])
  }

  /** Inserts `x` into the ascending list `xs` unless it is already there. */
  function Insert<T(==)>(xs: seq<T>, x: T, lt: (T, T) -> bool): seq<T> {
    if |xs| == 0 then [x]
    else if xs[0] == x then xs
    else if lt(x, xs[0]) then [x] + xs
    else [xs[0]] + Insert(xs[1..], x, lt)
  }

  /** Python's `sorted(set(xs))`. */
  function SortedDistinct<T(==)>(xs: seq<T>, lt: (T, T) -> bool): seq<T> {
    if |xs| == 0 then [] else Insert(SortedDistinct(xs[..|xs| - 1], lt), xs[|xs| - 1], lt)
  }

  lemma {:induction false} InsertSorted<T(!new)>(xs: seq<T>, x: T, lt: (T, T) -> bool)
    requires StrictTotalOrder(lt) && StrictlySorted(xs, lt)
    ensures StrictlySorted(Insert(xs, x, lt), lt)
    ensures forall y :: y in Insert(xs, x, lt) <==> y in xs || y == x
  {
    if |xs| == 0 || xs[0] == x {
    } else if lt(x, xs[0]) {
      var r := Insert(xs, x, lt);
      forall i, j | 0 <= i < j < |r| ensures lt(r[i], r[j]) {
        if i == 0 && j > 1 {
          assert lt(xs[0], xs[j - 1]);
        }
      }
    } else {
      assert lt(xs[0], x);
      var rest := Insert(xs[1..], x, lt);
      assert StrictlySorted(xs[1..], lt);
      InsertSorted(xs[1..], x, lt);
      var r := [xs[0]] + rest;
      forall i, j | 0 <= i < j < |r| ensures lt(r[i], r[j]) {
        if i == 0 {
          assert r[j] in rest;
          if r[j] != x {
            var k :| 0 <= k < |xs[1..]| && xs[1..][k] == r[j];
            assert lt(xs[0], xs[k + 1]);
          }
        } else {
          assert r[i] == rest[i - 1] && r[j] == rest[j - 1];
        }
      }
      assert StrictlySorted(r, lt);
      forall y ensures y in r <==> y in xs || y == x {
        assert y in xs <==> y == xs[0] || y in xs[1..];
      }
    }
  }

  /** `sorted(set(xs))` is ascending and holds exactly the elements of `xs`. */
  lemma {:induction false} SortedDistinctSpec<T(!new)>(xs: seq<T>, lt: (T, T) -> bool)
    requires StrictTotalOrder(lt)
    ensures StrictlySorted(SortedDistinct(xs, lt), lt)
    ensures forall y :: y in SortedDistinct(xs, lt) <==> y in xs
  {
    if |xs| > 0 {
      var init := xs[..|xs| - 1];
      SortedDistinctSpec(init, lt);
      InsertSorted(SortedDistinct(init, lt), xs[|xs| - 1], lt);
      assert xs == init + [xs[|xs| - 1]];
      forall y ensures y in xs <==> y in init || y == xs[|xs| - 1] {
      }
    }
  }

  /** An ascending list under a strict order repeats nothing. */
  lemma SortedIsDistinct<T(!new)>(xs: seq<T>, lt: (T, T) -> bool)
    requires StrictTotalOrder(lt) && StrictlySorted(xs, lt)
    ensures forall i, j :: 0 <= i < |xs| && 0 <= j < |xs| && i != j ==> xs[i] != xs[j]
  {
  }

  // ---------------------------------------------------------------------
  // The two base orders: integers, and Python's code-point string order
  // ---------------------------------------------------------------------

  predicate IntLt(a: int, b: int) {
    a < b
  }

  lemma IntLtIsStrictTotalOrder()
    ensures StrictTotalOrder(IntLt)
  {
  }

  /** Python's `a < b` on `str`: lexicographic on code points, a proper prefix first. */
  predicate StrLt(a: string, b: string) {
    if |a| == 0 then |b| > 0
    else if |b| == 0 then false
    else if a[0] != b[0] then a[0] < b[0]
    else StrLt(a[1..], b[1..])
  }

  lemma {:induction false} StrLtIrreflexive(a: string)
    ensures !StrLt(a, a)
  {
    if |a| > 0 {
      StrLtIrreflexive(a[1..]);
    }
  }

  lemma {:induction false} StrLtTransitive(a: string, b: string, c: string)
    requires StrLt(a, b) && StrLt(b, c)
    ensures StrLt(a, c)
  {
    if |a| > 0 && |b| > 0 && |c| > 0 && a[0] == b[0] && b[0] == c[0] {
      StrLtTransitive(a[1..], b[1..], c[1..]);
    }
  }

  lemma {:induction false} StrLtTotal(a: string, b: string)
    requires a != b
    ensures StrLt(a, b) || StrLt(b, a)
  {
    if |a| > 0 && |b| > 0 && a[0] == b[0] {
      assert a == [a[0]] + a[1..] && b == [b[0]] + b[1..];
      StrLtTotal(a[1..], b[1..]);
    }
  }

  lemma StrLtIsStrictTotalOrder()
    ensures StrictTotalOrder(StrLt)
  {
    forall a ensures !StrLt(a, a) {
      StrLtIrreflexive(a);
    }
    forall a, b, c | StrLt(a, b) && StrLt(b, c) ensures StrLt(a, c) {
      StrLtTransitive(a, b, c);
    }
    forall a, b | a != b ensures StrLt(a, b) || StrLt(b, a) {
      StrLtTotal(a, b);
    }
  }
}
