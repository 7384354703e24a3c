/** The flat-buffer kernels of numbagg/funcs.py. Each method walks the
    flattened input once (twice for the variance and arg-extremum kernels)
    with the same accumulators, branches and sentinels as the source, and
    its postcondition ties the result to the reference definitions of
    module Reductions or states the promised property outright. */
module Funcs {
  import opened Floats
  import opened Reductions

  /** allnan: true iff every element is NaN; stops at the first present element. */
  method AllNan(a: seq<F>) returns (f: bool)
    ensures f <==> IsAllNaN(a)
  {
    f := true;
    for i := 0 to |a|
      invariant f
      invariant forall j :: 0 <= j < i ==> a[j].NaN?
    {
      if !IsNaN(a[i]) {
        f := false;
        break;
      }
    }
  }

  /** anynan: true iff some element is NaN; stops at the first NaN. */
  method AnyNan(a: seq<F>) returns (f: bool)
    ensures f <==> HasNaN(a)
  {
    f := false;
    for i := 0 to |a|
      invariant !f
      invariant forall j :: 0 <= j < i ==> !a[j].NaN?
    {
      if IsNaN(a[i]) {
        f := true;
        break;
      }
    }
  }

  /** count: the number of present elements. */
  method Count(a: seq<F>) returns (nonMissing: int)
    ensures nonMissing == CountOf(a)
    ensures 0 <= nonMissing <= |a|
  {
    nonMissing := 0;
    for i := 0 to |a|
      invariant nonMissing == |Present(a[..i])|
    {
      assert a[..i + 1] == a[..i] + [a[i]];
      PresentSnoc(a[..i], a[i]);
      if !IsNaN(a[i]) {
        nonMissing := nonMissing + 1;
      }
    }
    assert a[..|a|] == a;
  }

  /** The running sum and count of the present elements of a[..i], the
      first loop shared by nanmean, nanvar and nanstd. */
  method SumAndCount(a: seq<F>) returns (asum: real, count: int)
    requires NoInfinities(a)
    ensures asum == Sum(Present(a)) && count == |Present(a)|
  {
    asum, count := 0.0, 0;
    for i := 0 to |a|
      invariant asum == Sum(Present(a[..i])) && count == |Present(a[..i])|
    {
      assert a[..i + 1] == a[..i] + [a[i]];
      PresentSnoc(a[..i], a[i]);
      SumSnoc(Present(a[..i]), a[i]);
      if !IsNaN(a[i]) {
        asum := asum + a[i].r;
        count := count + 1;
      }
    }
    assert a[..|a|] == a;
  }

  /** nansum: the sum of the present elements (0 when there are none). */
  method NanSum(a: seq<F>) returns (r: F)
    requires NoInfinities(a)
    ensures r == SumOf(a)
  {
    var asum := 0.0;
    for i := 0 to |a|
      invariant asum == Sum(Present(a[..i]))
    {
      SumStep(a, i);
      if !IsNaN(a[i]) {
        asum := asum + a[i].r;
      }
    }
    assert a[..|a|] == a;
    r := Fin(asum);
  }

  /** nanmean: the mean of the present elements, NaN when there are none. */
  method NanMean(a: seq<F>) returns (r: F)
    requires NoInfinities(a)
    ensures r == MeanOf(a)
  {
    var asum, count := SumAndCount(a);
    if count > 0 {
      r := Fin(asum / (count as real));
    } else {
      r := NaN;
    }
  }

  /** The second pass of nanvar and nanstd: the sum of the squared
      deviations of the present elements from `amean`. */
  method SquaredDeviationPass(a: seq<F>, amean: real) returns (asum: real)
    requires NoInfinities(a)
    ensures asum == SquaredDeviations(Present(a), amean)
  {
    asum := 0.0;
    for i := 0 to |a|
      invariant asum == SquaredDeviations(Present(a[..i]), amean)
    {
      SquaredDeviationsStep(a, i, amean);
      if !IsNaN(a[i]) {
        var d := a[i].r - amean;
        assert d * d == SquaredDeviation(a[i], amean);
        asum := asum + d * d;
      }
    }
    assert a[..|a|] == a;
  }

  /** nanvar: two passes, the mean first and then the squared deviations
      from it, divided by the count (ddof fixed at 0); NaN when nothing is present. */
  method NanVar(a: seq<F>) returns (r: F)
    requires NoInfinities(a)
    ensures r == VarOf(a)
  {
    var asum, count := SumAndCount(a);
    if count > DDOF {
      var amean := asum / (count as real);
      var sq := SquaredDeviationPass(a, amean);
      r := Fin(sq / ((count - DDOF) as real));
    } else {
      r := NaN;
    }
  }

  /** nanstd: the square root of nanvar, NaN when nothing is present; the
      square root is the parameter `sqrt`. */
  method NanStd(a: seq<F>, sqrt: real -> real) returns (r: F)
    requires NoInfinities(a)
    ensures r == StdOf(a, sqrt)
  {
    var v := NanVar(a);
    if v.Fin? {
      r := Fin(sqrt(v.r));
    } else {
      r := NaN;
    }
  }

  /** nanargmax: the first index of a largest present element, or the
      sentinel -1 when every element is NaN. The first pass only moves past
      `-inf` on a strictly greater element; when it found none, a second
      pass looks for the first `-inf`. */
  method NanArgMax(a: seq<F>) returns (idx: int)
    ensures idx == -1 <==> IsAllNaN(a)
    ensures idx != -1 ==> 0 <= idx < |a| && !a[idx].NaN?
    ensures idx != -1 ==> forall j :: 0 <= j < |a| && !a[j].NaN? ==> Ge(a[idx], a[j])
    ensures idx != -1 ==> forall j :: 0 <= j < idx && !a[j].NaN? ==> Lt(a[j], a[idx])
  {
    var amax := NegInf;
    idx := -1;
    for i := 0 to |a|
      invariant idx == -1 ==> amax == NegInf
      invariant idx == -1 ==> forall j :: 0 <= j < i ==> a[j].NaN? || a[j] == NegInf
      invariant idx != -1 ==> 0 <= idx < i && amax == a[idx] && Gt(amax, NegInf)
      invariant idx != -1 ==> forall j :: 0 <= j < i && !a[j].NaN? ==> Ge(amax, a[j])
      invariant idx != -1 ==> forall j :: 0 <= j < idx && !a[j].NaN? ==> Lt(a[j], amax)
    {
      if Gt(a[i], amax) {
        forall j | 0 <= j < i && !a[j].NaN? ensures Ge(a[i], a[j]) && Lt(a[j], a[i]) {
          Trichotomy(a[j], amax);
          Trichotomy(a[i], a[j]);
        }
        amax := a[i];
        idx := i;
      } else if !a[i].NaN? {
        Trichotomy(a[i], amax);
      }
    }
    if idx == -1 {
      for i := 0 to |a|
        invariant idx == -1
        invariant forall j :: 0 <= j < i ==> a[j].NaN?
      {
        if Eq(a[i], amax) {
          idx := i;
          break;
        }
      }
    }
  }

  /** nanargmin: the first index of a smallest present element, or the
      sentinel -1 when every element is NaN, symmetric to NanArgMax. */
  method NanArgMin(a: seq<F>) returns (idx: int)
    ensures idx == -1 <==> IsAllNaN(a)
    ensures idx != -1 ==> 0 <= idx < |a| && !a[idx].NaN?
    ensures idx != -1 ==> forall j :: 0 <= j < |a| && !a[j].NaN? ==> Le(a[idx], a[j])
    ensures idx != -1 ==> forall j :: 0 <= j < idx && !a[j].NaN? ==> Gt(a[j], a[idx])
  {
    var amin := PosInf;
    idx := -1;
    for i := 0 to |a|
      invariant idx == -1 ==> amin == PosInf
      invariant idx == -1 ==> forall j :: 0 <= j < i ==> a[j].NaN? || a[j] == PosInf
      invariant idx != -1 ==> 0 <= idx < i && amin == a[idx] && Lt(amin, PosInf)
      invariant idx != -1 ==> forall j :: 0 <= j < i && !a[j].NaN? ==> Le(amin, a[j])
      invariant idx != -1 ==> forall j :: 0 <= j < idx && !a[j].NaN? ==> Gt(a[j], amin)
    {
      if Lt(a[i], amin) {
        forall j | 0 <= j < i && !a[j].NaN? ensures Le(a[i], a[j]) && Gt(a[j], a[i]) {
          Trichotomy(a[j], amin);
          Trichotomy(a[i], a[j]);
        }
        amin := a[i];
        idx := i;
      } else if !a[i].NaN? {
        Trichotomy(a[i], amin);
      }
    }
    if idx == -1 {
      for i := 0 to |a|
        invariant idx == -1
        invariant forall j :: 0 <= j < i ==> a[j].NaN?
      {
        if Eq(a[i], amin) {
          idx := i;
          break;
        }
      }
    }
  }

  /** nanmax: the largest present element (`-inf` included), NaN when every
      element is NaN; `allNan` is the source's "found nothing yet" flag. */
  method NanMax(a: seq<F>) returns (amax: F)
    ensures amax.NaN? <==> IsAllNaN(a)
    ensures !amax.NaN? ==> amax in a
    ensures !amax.NaN? ==> forall j :: 0 <= j < |a| && !a[j].NaN? ==> Ge(amax, a[j])
  {
    amax := NegInf;
    var allNan := true;
    for i := 0 to |a|
      invariant !amax.NaN?
      invariant allNan <==> forall j :: 0 <= j < i ==> a[j].NaN?
      invariant allNan ==> amax == NegInf
      invariant !allNan ==> amax in a[..i]
      invariant forall j :: 0 <= j < i && !a[j].NaN? ==> Ge(amax, a[j])
    {
      if Ge(a[i], amax) {
        forall j | 0 <= j < i && !a[j].NaN? ensures Ge(a[i], a[j]) {
          GeTrans(a[i], amax, a[j]);
        }
        amax := a[i];
        allNan := false;
      } else {
        if !a[i].NaN? { Trichotomy(a[i], amax); }
      }
      assert a[..i + 1] == a[..i] + [a[i]];
    }
    assert a[..|a|] == a;
    if allNan {
      amax := NaN;
    }
  }

  /** nanmin: the smallest present element (`+inf` included), NaN when every
      element is NaN, symmetric to NanMax. */
  method NanMin(a: seq<F>) returns (amin: F)
    ensures amin.NaN? <==> IsAllNaN(a)
    ensures !amin.NaN? ==> amin in a
    ensures !amin.NaN? ==> forall j :: 0 <= j < |a| && !a[j].NaN? ==> Le(amin, a[j])
  {
    amin := PosInf;
    var allNan := true;
    for i := 0 to |a|
      invariant !amin.NaN?
      invariant allNan <==> forall j :: 0 <= j < i ==> a[j].NaN?
      invariant allNan ==> amin == PosInf
      invariant !allNan ==> amin in a[..i]
      invariant forall j :: 0 <= j < i && !a[j].NaN? ==> Le(amin, a[j])
    {
      if Le(a[i], amin) {
        forall j | 0 <= j < i && !a[j].NaN? ensures Le(a[i], a[j]) {
          GeTrans(a[j], amin, a[i]);
        }
        amin := a[i];
        allNan := false;
      } else {
        if !a[i].NaN? { Trichotomy(amin, a[i]); }
      }
      assert a[..i + 1] == a[..i] + [a[i]];
    }
    assert a[..|a|] == a;
    if allNan {
      amin := NaN;
    }
  }
}
