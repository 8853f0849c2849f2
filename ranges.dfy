/** Python's `range(lo, hi, step)` with a positive step, and the coverage
    facts the windowed scans rely on. */
module Ranges {

  /** The values `lo, lo + step, lo + 2*step, ...` below `hi`. */
  function Range(lo: nat, hi: nat, step: nat): (r: seq<nat>)
    requires step > 0
    ensures forall k :: 0 <= k < |r| ==> lo <= r[k] < hi
    ensures (hi <= lo) == (r == [])
    decreases hi - lo
  {
    if hi <= lo then [] else [lo] + Range(lo + step, hi, step)
  }

  /** Every value of `[lo, hi)` falls in the window `[s, s + step)` of some
      start `s` of the range: the windows leave no gap. */
  lemma {:induction false} RangeCovers(lo: nat, hi: nat, step: nat, i: nat)
    requires step > 0 && lo <= i < hi
    ensures exists k :: 0 <= k < |Range(lo, hi, step)| && Range(lo, hi, step)[k] <= i < Range(lo, hi, step)[k] + step
    decreases hi - lo
  {
    var r := Range(lo, hi, step);
    if i < lo + step {
      assert r[0] == lo;
    } else {
      RangeCovers(lo + step, hi, step, i);
      var k :| 0 <= k < |Range(lo + step, hi, step)| && Range(lo + step, hi, step)[k] <= i < Range(lo + step, hi, step)[k] + step;
      assert r[k + 1] == Range(lo + step, hi, step)[k];
    }
  }

  lemma MulAtLeast(k: int, d: int)
    requires k >= 1 && d > 0
    ensures k * d >= d
  {
  }

  /** Euclidean division has one quotient and one remainder. */
  lemma ModUnique(x: int, d: int, q: int, r: int)
    requires d > 0 && x == q * d + r && 0 <= r < d
    ensures x % d == r && x / d == q
  {
    var q0, r0 := x / d, x % d;
    assert x == q0 * d + r0;
    if q0 > q {
      MulAtLeast(q0 - q, d);
      assert false;
    } else if q0 < q {
      MulAtLeast(q - q0, d);
      assert false;
    }
  }

  lemma ModShift(a: nat, step: nat)
    requires step > 0
    ensures (a + step) % step == a % step
  {
    var q, r := a / step, a % step;
    assert a + step == (q + 1) * step + r;
    ModUnique(a + step, step, q + 1, r);
  }

  /** No window `[s, s + step)` of the range reaches past `hi`. */
  ghost predicate Fits(lo: nat, hi: nat, step: nat)
    requires step > 0
  {
    forall k :: 0 <= k < |Range(lo, hi, step)| ==> Range(lo, hi, step)[k] + step <= hi
  }

  lemma FitsStep(lo: nat, hi: nat, step: nat)
    requires step > 0 && lo + step <= hi
    ensures Fits(lo, hi, step) <==> Fits(lo + step, hi, step)
  {
    var r, tail := Range(lo, hi, step), Range(lo + step, hi, step);
    assert r == [lo] + tail;
    if Fits(lo + step, hi, step) {
      forall k | 0 <= k < |r| ensures r[k] + step <= hi {
        if k > 0 { assert r[k] == tail[k - 1]; }
      }
    }
    if Fits(lo, hi, step) {
      forall k | 0 <= k < |tail| ensures tail[k] + step <= hi {
        assert r[k + 1] == tail[k];
      }
    }
  }

  lemma ModStep(len: int, step: int)
    requires 0 < step <= len
    ensures (len % step == 0) <==> ((len - step) % step == 0)
  {
    ModShift(len - step, step);
  }

  /** A range shorter than one step has one window, and it overruns. */
  lemma ShortRange(lo: nat, hi: nat, step: nat)
    requires lo < hi < lo + step
    ensures !Fits(lo, hi, step) && (hi - lo) % step != 0
  {
    assert Range(lo, hi, step)[0] == lo;
    ModUnique(hi - lo, step, 0, hi - lo);
  }

  /** No window of the range reaches past `hi` exactly when `step` divides
      the length `hi - lo` of the range. */
  lemma {:induction false} RangeFits(lo: nat, hi: nat, step: nat)
    requires step > 0
    ensures Fits(lo, hi, step) <==> (hi <= lo || (hi - lo) % step == 0)
    decreases hi - lo
  {
    if hi <= lo {
    } else if hi < lo + step {
      ShortRange(lo, hi, step);
    } else {
      FitsStep(lo, hi, step);
      RangeFits(lo + step, hi, step);
      ModStep(hi - lo, step);
    }
  }

  /** `itertools.product(xs, ys)`: all pairs, the first component varying slowest. */
  function Product(xs: seq<nat>, ys: seq<nat>): (r: seq<(nat, nat)>)
    ensures |r| == |xs| * |ys|
    ensures forall k :: 0 <= k < |r| ==> r[k].0 in xs && r[k].1 in ys
  {
    if xs == [] then [] else seq(|ys|, k requires 0 <= k < |ys| => (xs[0], ys[k])) + Product(xs[1..], ys)
  }

  /** Every pair of a component of `xs` and one of `ys` is in the product. */
  lemma {:induction false} ProductHas(xs: seq<nat>, ys: seq<nat>, a: nat, b: nat)
    requires a in xs && b in ys
    ensures (a, b) in Product(xs, ys)
  {
    var j :| 0 <= j < |ys| && ys[j] == b;
    if xs[0] == a {
      assert Product(xs, ys)[j] == (a, b);
    } else {
      ProductHas(xs[1..], ys, a, b);
      var p := Product(xs[1..], ys);
      var k :| 0 <= k < |p| && p[k] == (a, b);
      assert Product(xs, ys)[|ys| + k] == (a, b);
    }
  }
}
