/**
 * Whole-table operations shared by the pipeline stages: a boolean-mask
 * selection (`df.loc[mask]`) and `drop_duplicates()` with pandas' default of
 * keeping the first occurrence of each row.
 */
module Seqs {

  /** No element occurs twice. */
  predicate Distinct<T(==)>(s: seq<T>) {
    forall i, j :: 0 <= i < j < |s| ==> s[i] != s[j]
  }

  lemma DistinctCons<T>(x: T, s: seq<T>)
    ensures Distinct([x] + s) <==> x !in s && Distinct(s)
  {
    var t := [x] + s;
    assert t[1..] == s;
    if Distinct(t) {
      forall i, j | 0 <= i < j < |s| ensures s[i] != s[j] {
        assert t[i + 1] == s[i] && t[j + 1] == s[j];
      }
      forall k | 0 <= k < |s| ensures s[k] != x {
        assert t[0] == x && t[k + 1] == s[k];
      }
    }
  }

  /** The elements of `s` that satisfy `p`, in their original order. */
  function Filter<T>(p: T -> bool, s: seq<T>): (r: seq<T>)
    ensures |r| <= |s|
    ensures forall x :: x in r ==> x in s && p(x)
    ensures forall x :: x in s && p(x) ==> x in r
  {
    if |s| == 0 then []
    else
      assert s == [s[0]] + s[1..];
      (if p(s[0]) then [s[0]] else []) + Filter(p, s[1..])
  }

  lemma {:induction false} FilterConcat<T>(p: T -> bool, a: seq<T>, b: seq<T>)
    ensures Filter(p, a + b) == Filter(p, a) + Filter(p, b)
  {
    if |a| > 0 {
      assert (a + b)[0] == a[0];
      assert (a + b)[1..] == a[1..] + b;
      FilterConcat(p, a[1..], b);
    } else {
      assert a + b == b;
    }
  }

  /** An element that fails `p` leaves the selection as if it were absent. */
  lemma FilterSkip<T>(p: T -> bool, a: seq<T>, x: T, b: seq<T>)
    requires !p(x)
    ensures Filter(p, a + [x] + b) == Filter(p, a + b)
  {
    calc {
      Filter(p, a + [x] + b);
      { assert a + [x] + b == a + ([x] + b); }
      Filter(p, a + ([x] + b));
      { FilterConcat(p, a, [x] + b); }
      Filter(p, a) + Filter(p, [x] + b);
      { assert ([x] + b)[1..] == b; }
      Filter(p, a) + Filter(p, b);
      { FilterConcat(p, a, b); }
      Filter(p, a + b);
    }
  }

  /** Selecting by `p` after selecting by a weaker `q` is selecting by `p`. */
  lemma {:induction false} FilterImplied<T>(p: T -> bool, q: T -> bool, s: seq<T>)
    requires forall x :: p(x) ==> q(x)
    ensures Filter(p, Filter(q, s)) == Filter(p, s)
  {
    if |s| > 0 {
      var head := if q(s[0]) then [s[0]] else [];
      FilterConcat(p, head, Filter(q, s[1..]));
      FilterImplied(p, q, s[1..]);
      if q(s[0]) {
        assert Filter(p, head) == if p(s[0]) then [s[0]] else [];
      } else {
        assert Filter(p, head) == [];
      }
    }
  }

  /**
   * `drop_duplicates()`: every element at its first occurrence, later copies
   * dropped, order kept.
   */
  function Dedup<T(==)>(s: seq<T>): (r: seq<T>)
    ensures Distinct(r)
    ensures forall x :: x in r ==> x in s
    ensures forall x :: x in s ==> x in r
    ensures |r| <= |s|
  {
    if |s| == 0 then []
    else
      var init, last := s[..|s| - 1], s[|s| - 1];
      assert s == init + [last];
      if last in init then Dedup(init) else Dedup(init) + [last]
  }

  /** A sequence without repetitions is left as it is. */
  lemma {:induction false} DedupOfDistinct<T>(s: seq<T>)
    requires Distinct(s)
    ensures Dedup(s) == s
  {
    if |s| > 0 {
      var init := s[..|s| - 1];
      assert s == init + [s[|s| - 1]];
      assert Distinct(init) by {
        forall i, j | 0 <= i < j < |init| ensures init[i] != init[j] {
          assert init[i] == s[i] && init[j] == s[j];
        }
      }
      assert s[|s| - 1] !in init by {
        forall k | 0 <= k < |init| ensures init[k] != s[|s| - 1] {
          assert init[k] == s[k];
        }
      }
      DedupOfDistinct(init);
    }
  }

  /** Dropping duplicates twice is dropping them once. */
  lemma DedupIdempotent<T>(s: seq<T>)
    ensures Dedup(Dedup(s)) == Dedup(s)
  {
    DedupOfDistinct(Dedup(s));
  }

  /** Selecting rows commutes with dropping duplicate rows. */
  lemma {:induction false} FilterDedup<T>(p: T -> bool, s: seq<T>)
    ensures Filter(p, Dedup(s)) == Dedup(Filter(p, s))
  {
    if |s| > 0 {
      var init, last := s[..|s| - 1], s[|s| - 1];
      assert s == init + [last];
      FilterDedup(p, init);
      FilterConcat(p, init, [last]);
      assert Filter(p, [last]) == if p(last) then [last] else [] by {
        assert [last][1..] == [];
      }
      if last in init {
        assert Dedup(s) == Dedup(init);
        if p(last) {
          var fs := Filter(p, init) + [last];
          assert fs[..|fs| - 1] == Filter(p, init);
          assert last in Filter(p, init);
        } else {
          assert Filter(p, s) == Filter(p, init);
        }
      } else {
        assert Dedup(s) == Dedup(init) + [last];
        FilterConcat(p, Dedup(init), [last]);
        if p(last) {
          var fs := Filter(p, init) + [last];
          assert fs[..|fs| - 1] == Filter(p, init);
          assert last !in Filter(p, init);
        } else {
          assert Filter(p, s) == Filter(p, init);
        }
      }
    }
  }
}
