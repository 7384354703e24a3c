/** Pure reference definitions of what the NaN-aware kernels compute, and
    the properties proved about them. A NaN element is missing data; every
    other element is "present". All definitions recurse on the last element,
    which is the order in which the kernels' loops see the input. */
module Reductions {
  import opened Floats

  /** The variance kernels fix their degrees-of-freedom adjustment at zero. */
  const DDOF: nat := 0

  /** Every element is NaN (vacuously true of the empty sequence). */
  predicate IsAllNaN(s: seq<F>) {
    forall i :: 0 <= i < |s| ==> s[i].NaN?
  }

  /** Some element is NaN. */
  predicate HasNaN(s: seq<F>) {
    exists i :: 0 <= i < |s| && s[i].NaN?
  }

  /** No element is infinite; the sum-based kernels are modelled on such inputs. */
  predicate NoInfinities(s: seq<F>) {
    forall i :: 0 <= i < |s| ==> !s[i].PosInf? && !s[i].NegInf?
  }

  /** The present (non-NaN) elements of `s`, in their original order. */
  function Present(s: seq<F>): (p: seq<F>)
    ensures |p| <= |s|
    ensures forall k :: 0 <= k < |p| ==> !p[k].NaN?
  {
    if |s| == 0 then []
    else
      var init := Present(s[..|s| - 1]);
      if s[|s| - 1].NaN? then init else init + [s[|s| - 1]]
  }

  /** The real value of a finite element (0 for the others, which the
      sum-based kernels exclude). */
  function Val(x: F): real {
    if x.Fin? then x.r else 0.0
  }

  /** Sum of the values of `p`, added from the front as the loops do. */
  function Sum(p: seq<F>): real {
    if |p| == 0 then 0.0 else Sum(p[..|p| - 1]) + Val(p[|p| - 1])
  }

  /** The squared deviation of the value of x from m. */
  function SquaredDeviation(x: F, m: real): real {
    var d := Val(x) - m;
    d * d
  }

  /** Sum of the squared deviations of the values of `p` from `m`. */
  function SquaredDeviations(p: seq<F>, m: real): real {
    if |p| == 0 then 0.0
    else SquaredDeviations(p[..|p| - 1], m) + SquaredDeviation(p[|p| - 1], m)
  }

  /** count: the number of present elements. */
  function CountOf(s: seq<F>): nat {
    |Present(s)|
  }

  /** nansum: the sum of the present elements, 0 when there are none. */
  function SumOf(s: seq<F>): F {
    Fin(Sum(Present(s)))
  }

  /** nanmean: the mean of the present elements, NaN when there are none. */
  function MeanOf(s: seq<F>): F {
    var p := Present(s);
    if |p| > 0 then Fin(Sum(p) / (|p| as real)) else NaN
  }

  /** nanvar: the two-pass population variance of the present elements. */
  function VarOf(s: seq<F>): F {
    var p := Present(s);
    if |p| > DDOF then
      var mean := Sum(p) / (|p| as real);
      Fin(SquaredDeviations(p, mean) / ((|p| - DDOF) as real))
    else NaN
  }

  /** nanstd: `sqrt` of the variance, for a square-root function `sqrt`
      that the model leaves uninterpreted. */
  function StdOf(s: seq<F>, sqrt: real -> real): F {
    match VarOf(s)
    case Fin(v) => Fin(sqrt(v))
    case _ => NaN
  }

  // ----- Present -----

  /** Appending one element extends Present by that element unless it is NaN. */
  lemma PresentSnoc(s: seq<F>, x: F)
    ensures Present(s + [x]) == if x.NaN? then Present(s) else Present(s) + [x]
  {
    assert (s + [x])[..|s|] == s;
  }

  lemma {:induction false} PresentAppend(a: seq<F>, b: seq<F>)
    ensures Present(a + b) == Present(a) + Present(b)
  {
    if |b| == 0 {
      assert a + b == a;
    } else {
      var b', x := b[..|b| - 1], b[|b| - 1];
      assert a + b == (a + b') + [x];
      assert b == b' + [x];
      calc {
        Present(a + b);
        { PresentSnoc(a + b', x); }
        if x.NaN? then Present(a + b') else Present(a + b') + [x];
        { PresentAppend(a, b'); }
        if x.NaN? then Present(a) + Present(b') else Present(a) + Present(b') + [x];
        { PresentSnoc(b', x); }
        Present(a) + Present(b);
      }
    }
  }

  /** Every present element is an element of the input. */
  lemma {:induction false} PresentFromInput(s: seq<F>)
    ensures forall k :: 0 <= k < |Present(s)| ==> Present(s)[k] in s
  {
    if |s| > 0 {
      var s' := s[..|s| - 1];
      PresentFromInput(s');
      assert s == s' + [s[|s| - 1]];
      PresentSnoc(s', s[|s| - 1]);
      forall k | 0 <= k < |Present(s')| ensures Present(s')[k] in s {
        var j :| 0 <= j < |s'| && s'[j] == Present(s')[k];
        assert s[j] == s'[j];
      }
    }
  }

  /** A leading NaN is not present: the seed of every group buffer is invisible. */
  lemma PresentSeed(xs: seq<F>)
    ensures Present([NaN] + xs) == Present(xs)
  {
    PresentAppend([NaN], xs);
    assert [NaN][..0] == [];
  }

  /** Present(s) is empty exactly when every element is NaN. */
  lemma {:induction false} PresentEmpty(s: seq<F>)
    ensures Present(s) == [] <==> IsAllNaN(s)
  {
    if |s| > 0 {
      var s' := s[..|s| - 1];
      assert s == s' + [s[|s| - 1]];
      PresentEmpty(s');
      PresentSnoc(s', s[|s| - 1]);
      if IsAllNaN(s) {
        assert IsAllNaN(s') by {
          forall i | 0 <= i < |s'| ensures s'[i].NaN? { assert s'[i] == s[i]; }
        }
      }
      if IsAllNaN(s') && s[|s| - 1].NaN? {
        forall i | 0 <= i < |s| ensures s[i].NaN? {
          if i < |s| - 1 { assert s[i] == s'[i]; }
        }
      }
    }
  }

  /** Without NaNs every element is present. */
  lemma {:induction false} PresentNoNaN(s: seq<F>)
    requires !HasNaN(s)
    ensures Present(s) == s
  {
    if |s| > 0 {
      var s' := s[..|s| - 1];
      assert s == s' + [s[|s| - 1]];
      assert !HasNaN(s') by {
        forall i | 0 <= i < |s'| ensures !s'[i].NaN? { assert s'[i] == s[i]; }
      }
      PresentNoNaN(s');
      PresentSnoc(s', s[|s| - 1]);
    }
  }

  /** Present(s) misses at least one element exactly when s has a NaN. */
  lemma {:induction false} PresentShorter(s: seq<F>)
    ensures |Present(s)| < |s| <==> HasNaN(s)
  {
    if |s| > 0 {
      var s' := s[..|s| - 1];
      assert s == s' + [s[|s| - 1]];
      PresentShorter(s');
      PresentSnoc(s', s[|s| - 1]);
      if HasNaN(s') {
        var i :| 0 <= i < |s'| && s'[i].NaN?;
        assert s[i].NaN?;
      }
      if HasNaN(s) && !s[|s| - 1].NaN? {
        var i :| 0 <= i < |s| && s[i].NaN?;
        assert s'[i].NaN?;
      }
    }
  }

  // ----- allnan and anynan -----

  /** On non-empty input, allnan implies anynan. */
  lemma AllNaNImpliesHasNaN(s: seq<F>)
    requires |s| > 0 && IsAllNaN(s)
    ensures HasNaN(s)
  {
    assert s[0].NaN?;
  }

  /** anynan is not the negation of allnan: `[NaN]` makes both true. */
  lemma HasNaNNotComplementOfAllNaN()
    ensures IsAllNaN([NaN]) && HasNaN([NaN])
  {
    assert [NaN][0].NaN?;
  }

  // ----- nanmax, nanmin and their arg variants -----

  /** Two present elements that are both >= every present element are
      equal: the contracts of nanmax and nanargmax pin a single value. */
  lemma ExtremumUnique(s: seq<F>, i: int, j: int)
    requires 0 <= i < |s| && 0 <= j < |s| && !s[i].NaN? && !s[j].NaN?
    requires forall k :: 0 <= k < |s| && !s[k].NaN? ==> Ge(s[i], s[k])
    requires forall k :: 0 <= k < |s| && !s[k].NaN? ==> Ge(s[j], s[k])
    ensures s[i] == s[j]
  {
    Trichotomy(s[i], s[j]);
  }

  // ----- count -----

  /** count is between 0 and |s|; it is |s| exactly when there is no NaN
      and 0 exactly when every element is NaN. */
  lemma CountBounds(s: seq<F>)
    ensures 0 <= CountOf(s) <= |s|
    ensures CountOf(s) == |s| <==> !HasNaN(s)
    ensures CountOf(s) == 0 <==> IsAllNaN(s)
  {
    PresentShorter(s);
    PresentEmpty(s);
  }

  // ----- nansum -----

  lemma SumSnoc(p: seq<F>, x: F)
    ensures Sum(p + [x]) == Sum(p) + Val(x)
  {
    assert (p + [x])[..|p|] == p;
  }

  /** One loop step of the kernels: the prefix a[..i + 1] adds a[i] to the
      count and the sum of the present elements unless a[i] is NaN. */
  lemma SumStep(a: seq<F>, i: nat)
    requires i < |a| && NoInfinities(a)
    ensures |Present(a[..i + 1])| == |Present(a[..i])| + (if a[i].NaN? then 0 else 1)
    ensures Sum(Present(a[..i + 1])) == Sum(Present(a[..i])) + (if a[i].NaN? then 0.0 else a[i].r)
  {
    assert a[..i + 1] == a[..i] + [a[i]];
    PresentSnoc(a[..i], a[i]);
    SumSnoc(Present(a[..i]), a[i]);
  }

  /** nansum is 0 when nothing is present, and the plain sum when nothing is NaN. */
  lemma SumOfCases(s: seq<F>)
    ensures IsAllNaN(s) ==> SumOf(s) == Fin(0.0)
    ensures !HasNaN(s) ==> SumOf(s) == Fin(Sum(s))
  {
    PresentEmpty(s);
    if !HasNaN(s) { PresentNoNaN(s); }
  }

  // ----- nanmean -----

  /** nanmean is NaN exactly when nothing is present, and the plain mean when nothing is NaN. */
  lemma MeanOfCases(s: seq<F>)
    ensures MeanOf(s).NaN? <==> IsAllNaN(s)
    ensures !HasNaN(s) && |s| > 0 ==> MeanOf(s) == Fin(Sum(s) / (|s| as real))
  {
    PresentEmpty(s);
    if !HasNaN(s) { PresentNoNaN(s); }
  }

  lemma {:induction false} SumBounds(p: seq<F>, lo: real, hi: real)
    requires forall k :: 0 <= k < |p| ==> lo <= Val(p[k]) <= hi
    ensures (|p| as real) * lo <= Sum(p) <= (|p| as real) * hi
  {
    if |p| > 0 {
      var init := p[..|p| - 1];
      SumBounds(init, lo, hi);
      var n := |init| as real;
      assert (|p| as real) * lo == n * lo + lo;
      assert (|p| as real) * hi == n * hi + hi;
      assert lo <= Val(p[|p| - 1]) <= hi;
    }
  }

  /** If n * lo <= total <= n * hi with n > 0, the quotient lies in [lo, hi]. */
  lemma QuotientBounds(total: real, n: real, lo: real, hi: real)
    requires n > 0.0 && n * lo <= total <= n * hi
    ensures lo <= total / n <= hi
  {
    var m := total / n;
    assert total == m * n;
  }

  /** Bounds on the finite elements of s bound the values of Present(s). */
  lemma PresentValuesBounded(s: seq<F>, lo: real, hi: real)
    requires NoInfinities(s)
    requires forall i :: 0 <= i < |s| && s[i].Fin? ==> lo <= s[i].r <= hi
    ensures forall k :: 0 <= k < |Present(s)| ==> lo <= Val(Present(s)[k]) <= hi
  {
    var p := Present(s);
    PresentFromInput(s);
    forall k | 0 <= k < |p| ensures lo <= Val(p[k]) <= hi {
      var j :| 0 <= j < |s| && s[j] == p[k];
    }
  }

  /** The mean of the present elements lies between any bounds of their values. */
  lemma MeanBounds(s: seq<F>, lo: real, hi: real)
    requires NoInfinities(s) && !IsAllNaN(s)
    requires forall i :: 0 <= i < |s| && s[i].Fin? ==> lo <= s[i].r <= hi
    ensures MeanOf(s).Fin? && lo <= MeanOf(s).r <= hi
  {
    var p := Present(s);
    PresentEmpty(s);
    PresentValuesBounded(s, lo, hi);
    MeanOfBounded(p, lo, hi);
  }

  lemma MeanOfBounded(p: seq<F>, lo: real, hi: real)
    requires |p| > 0
    requires forall k :: 0 <= k < |p| ==> lo <= Val(p[k]) <= hi
    ensures lo <= Sum(p) / (|p| as real) <= hi
  {
    SumBounds(p, lo, hi);
    QuotientBounds(Sum(p), |p| as real, lo, hi);
  }

  // ----- nanvar / nanstd -----

  lemma SquaredDeviationsSnoc(p: seq<F>, x: F, m: real)
    ensures SquaredDeviations(p + [x], m) == SquaredDeviations(p, m) + SquaredDeviation(x, m)
  {
    assert (p + [x])[..|p|] == p;
  }

  /** One step of the second pass of nanvar. */
  lemma SquaredDeviationsStep(a: seq<F>, i: nat, m: real)
    requires i < |a| && NoInfinities(a)
    ensures SquaredDeviations(Present(a[..i + 1]), m) ==
      SquaredDeviations(Present(a[..i]), m) + (if a[i].NaN? then 0.0 else SquaredDeviation(a[i], m))
  {
    assert a[..i + 1] == a[..i] + [a[i]];
    PresentSnoc(a[..i], a[i]);
    SquaredDeviationsSnoc(Present(a[..i]), a[i], m);
  }

  lemma {:induction false} SquaredDeviationsNonNegative(p: seq<F>, m: real)
    ensures SquaredDeviations(p, m) >= 0.0
  {
    if |p| > 0 {
      SquaredDeviationsNonNegative(p[..|p| - 1], m);
      var d := Val(p[|p| - 1]) - m;
      assert d * d >= 0.0;
      assert SquaredDeviation(p[|p| - 1], m) == d * d;
    }
  }

  /** nanvar and nanstd are NaN exactly when nothing is present; otherwise
      the variance is non-negative. */
  lemma VarOfCases(s: seq<F>, sqrt: real -> real)
    ensures VarOf(s).NaN? <==> IsAllNaN(s)
    ensures StdOf(s, sqrt).NaN? <==> IsAllNaN(s)
    ensures VarOf(s).Fin? || VarOf(s).NaN?
    ensures VarOf(s).Fin? ==> VarOf(s).r >= 0.0
  {
    PresentEmpty(s);
    var p := Present(s);
    if |p| > 0 {
      SquaredDeviationsNonNegative(p, Sum(p) / (|p| as real));
    }
  }

  /** Values that all equal c deviate from c by nothing. */
  lemma {:induction false} SquaredDeviationsConstant(p: seq<F>, c: real)
    requires forall k :: 0 <= k < |p| ==> Val(p[k]) == c
    ensures SquaredDeviations(p, c) == 0.0
  {
    if |p| > 0 {
      SquaredDeviationsConstant(p[..|p| - 1], c);
    }
  }

  /** nanvar is 0 when something is present and every present element is
      the same finite value c. */
  lemma VarOfConstant(s: seq<F>, c: real)
    requires !IsAllNaN(s)
    requires forall i :: 0 <= i < |s| && !s[i].NaN? ==> s[i] == Fin(c)
    ensures VarOf(s) == Fin(0.0)
  {
    var p := Present(s);
    PresentEmpty(s);
    PresentConstant(s, c);
    MeanOfBounded(p, c, c);
    SquaredDeviationsConstant(p, c);
    VarOfPresent(s);
  }

  /** Unfolds VarOf when something is present. */
  lemma VarOfPresent(s: seq<F>)
    requires |Present(s)| > 0
    ensures var p := Present(s);
      VarOf(s) == Fin(SquaredDeviations(p, Sum(p) / (|p| as real)) / (|p| as real))
  {
  }

  /** If every present element of s is Fin(c), every value of Present(s) is c. */
  lemma PresentConstant(s: seq<F>, c: real)
    requires forall i :: 0 <= i < |s| && !s[i].NaN? ==> s[i] == Fin(c)
    ensures forall k :: 0 <= k < |Present(s)| ==> Val(Present(s)[k]) == c
  {
    var p := Present(s);
    PresentFromInput(s);
    forall k | 0 <= k < |p| ensures Val(p[k]) == c {
      var j :| 0 <= j < |s| && s[j] == p[k];
    }
  }

  // ----- the NaN seed -----

  /** Prepending a NaN changes none of the NaN-aware aggregates. */
  lemma NaNSeedHarmless(xs: seq<F>, sqrt: real -> real)
    ensures CountOf([NaN] + xs) == CountOf(xs)
    ensures SumOf([NaN] + xs) == SumOf(xs)
    ensures MeanOf([NaN] + xs) == MeanOf(xs)
    ensures VarOf([NaN] + xs) == VarOf(xs)
    ensures StdOf([NaN] + xs, sqrt) == StdOf(xs, sqrt)
  {
    PresentSeed(xs);
  }

  /** The NaN-only buffer of an empty group sums to 0 and has NaN mean and variance. */
  lemma SeedOnly(sqrt: real -> real)
    ensures CountOf([NaN]) == 0
    ensures SumOf([NaN]) == Fin(0.0)
    ensures MeanOf([NaN]).NaN? && VarOf([NaN]).NaN? && StdOf([NaN], sqrt).NaN?
  {
    assert [NaN][..0] == [];
  }
}
