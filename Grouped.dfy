/** The label-grouped reduction of numbagg/grouped.py: `group_func`, built
    by `group_wrapper(func)`, partitions the values by their integer labels
    into per-group buffers seeded with one NaN, and writes `func` of each
    buffer into the caller's output array. */
module Grouped {
  import opened Floats
  import opened Reductions

  /** `zip(labels, values)` stops at the shorter of the two. */
  function ZipLength(labels: seq<int>, values: seq<F>): nat {
    if |labels| <= |values| then |labels| else |values|
  }

  /** The positions below n whose label is g, in increasing order. */
  function Positions(labels: seq<int>, n: nat, g: int): seq<int>
    requires n <= |labels|
  {
    if n == 0 then []
    else Positions(labels, n - 1, g) + (if labels[n - 1] == g then [n - 1] else [])
  }

  /** The values at those positions, in order of appearance. */
  function Members(labels: seq<int>, values: seq<F>, n: nat, g: int): seq<F>
    requires n <= |labels| && n <= |values|
  {
    if n == 0 then []
    else Members(labels, values, n - 1, g) + (if labels[n - 1] == g then [values[n - 1]] else [])
  }

  /** The values the loop over `zip(labels, values)` appends to group g. */
  function GroupValues(labels: seq<int>, values: seq<F>, g: int): seq<F> {
    Members(labels, values, ZipLength(labels, values), g)
  }

  /** The buffer `grouped[g]` that `func` receives: the NaN seed, then the group's values. */
  function Group(labels: seq<int>, values: seq<F>, g: int): seq<F> {
    [NaN] + GroupValues(labels, values, g)
  }

  /** What the caller must guarantee for `grouped[l]` to be in range: a
      label that `zip` reaches and that is not negative is below the
      number of groups. */
  predicate LabelsInRange(labels: seq<int>, values: seq<F>, size: int) {
    forall k :: 0 <= k < |labels| && k < |values| && labels[k] >= 0 ==> labels[k] < size
  }

  /** No value that lands in a group is infinite: the grouped instances of
      the sum-based kernels are modelled on such inputs. */
  predicate GroupedValuesFinite(labels: seq<int>, values: seq<F>) {
    forall k :: 0 <= k < |labels| && k < |values| && labels[k] >= 0 ==>
      !values[k].PosInf? && !values[k].NegInf?
  }

  /** group_func(values, labels, out) with aggregate `func`. The list of
      lists `grouped` is a local sequence of sequences; `out` is written in
      place, slot by slot. */
  method GroupFunc(values: seq<F>, labels: seq<int>, out: array<F>, func: seq<F> -> F)
    requires LabelsInRange(labels, values, out.Length)
    modifies out
    ensures forall g :: 0 <= g < out.Length ==> out[g] == func(Group(labels, values, g))
  {
    var grouped: seq<seq<F>> := [];
    for i := 0 to out.Length
      invariant |grouped| == i
      invariant forall g :: 0 <= g < i ==> grouped[g] == [NaN]
    {
      grouped := grouped + [[NaN]];
    }

    var n := ZipLength(labels, values);
    for k := 0 to n
      invariant |grouped| == out.Length
      invariant forall g :: 0 <= g < out.Length ==> grouped[g] == [NaN] + Members(labels, values, k, g)
    {
      var l, v := labels[k], values[k];
      if l >= 0 {
        grouped := grouped[l := grouped[l] + [v]];
      }
    }

    for i := 0 to out.Length
      invariant forall g :: 0 <= g < i ==> out[g] == func(grouped[g])
    {
      out[i] := func(grouped[i]);
    }
  }

  /** group_nanmean, with nanmean as the aggregate: the seed drops out, and
      each slot is the mean of its group's values (NaN for an empty group). */
  method GroupNanMean(values: seq<F>, labels: seq<int>, out: array<F>)
    requires LabelsInRange(labels, values, out.Length)
    requires GroupedValuesFinite(labels, values)
    modifies out
    ensures forall g :: 0 <= g < out.Length ==> out[g] == MeanOf(GroupValues(labels, values, g))
  {
    GroupFunc(values, labels, out, MeanOf);
    forall g | 0 <= g < out.Length ensures out[g] == MeanOf(GroupValues(labels, values, g)) {
      NaNSeedHarmless(GroupValues(labels, values, g), x => x);
    }
  }

  /** group_nansum, with nansum as the aggregate: each slot is the sum of
      its group's values (0 for an empty group). */
  method GroupNanSum(values: seq<F>, labels: seq<int>, out: array<F>)
    requires LabelsInRange(labels, values, out.Length)
    requires GroupedValuesFinite(labels, values)
    modifies out
    ensures forall g :: 0 <= g < out.Length ==> out[g] == SumOf(GroupValues(labels, values, g))
  {
    GroupFunc(values, labels, out, SumOf);
    forall g | 0 <= g < out.Length ensures out[g] == SumOf(GroupValues(labels, values, g)) {
      NaNSeedHarmless(GroupValues(labels, values, g), x => x);
    }
  }

  /** group_nanstd, with nanstd as the aggregate: each slot is the standard
      deviation of its group's values (NaN for an empty group). */
  method GroupNanStd(values: seq<F>, labels: seq<int>, out: array<F>, sqrt: real -> real)
    requires LabelsInRange(labels, values, out.Length)
    requires GroupedValuesFinite(labels, values)
    modifies out
    ensures forall g :: 0 <= g < out.Length ==> out[g] == StdOf(GroupValues(labels, values, g), sqrt)
  {
    GroupFunc(values, labels, out, s => StdOf(s, sqrt));
    forall g | 0 <= g < out.Length ensures out[g] == StdOf(GroupValues(labels, values, g), sqrt) {
      NaNSeedHarmless(GroupValues(labels, values, g), sqrt);
    }
  }

  // ----- properties of the partition -----

  /** Positions(labels, n, g) holds exactly the positions below n labelled
      g, each once and in increasing order. */
  lemma {:induction false} PositionsExact(labels: seq<int>, n: nat, g: int)
    requires n <= |labels|
    ensures forall k :: k in Positions(labels, n, g) <==> 0 <= k < n && labels[k] == g
    ensures forall i, j :: 0 <= i < j < |Positions(labels, n, g)| ==>
      Positions(labels, n, g)[i] < Positions(labels, n, g)[j]
  {
    if n > 0 {
      var prev := Positions(labels, n - 1, g);
      PositionsExact(labels, n - 1, g);
      forall i | 0 <= i < |prev| ensures prev[i] < n - 1 {
        assert prev[i] in prev;
      }
    }
  }

  /** The values of a group are the values at its positions, in that order. */
  lemma {:induction false} MembersAtPositions(labels: seq<int>, values: seq<F>, n: nat, g: int)
    requires n <= |labels| && n <= |values|
    ensures |Members(labels, values, n, g)| == |Positions(labels, n, g)|
    ensures forall i :: 0 <= i < |Positions(labels, n, g)| ==>
      0 <= Positions(labels, n, g)[i] < |values| &&
      Members(labels, values, n, g)[i] == values[Positions(labels, n, g)[i]]
  {
    if n > 0 {
      MembersAtPositions(labels, values, n - 1, g);
      PositionsExact(labels, n - 1, g);
    }
  }

  /** A position that zip reaches lands in the buffer of its own label and
      of no other group; a position with a negative label lands in no buffer. */
  lemma PositionLandsOnce(labels: seq<int>, values: seq<F>, k: int)
    requires 0 <= k < ZipLength(labels, values)
    ensures forall g :: g >= 0 ==>
      (k in Positions(labels, ZipLength(labels, values), g) <==> g == labels[k])
    ensures labels[k] < 0 ==> forall g :: g >= 0 ==> k !in Positions(labels, ZipLength(labels, values), g)
  {
    var n := ZipLength(labels, values);
    forall g | g >= 0 ensures k in Positions(labels, n, g) <==> g == labels[k] {
      PositionsExact(labels, n, g);
    }
  }

  /** Positions at or beyond the shorter of labels and values are never
      considered: only the zipped prefixes matter. */
  lemma {:induction false} MembersPrefix(labels: seq<int>, values: seq<F>, n: nat, m: nat, g: int)
    requires n <= m <= |labels| && m <= |values|
    ensures Members(labels, values, n, g) == Members(labels[..m], values[..m], n, g)
  {
    if n > 0 {
      MembersPrefix(labels, values, n - 1, m, g);
    }
  }

  lemma GroupZipTruncation(labels: seq<int>, values: seq<F>, g: int)
    ensures var n := ZipLength(labels, values);
      Group(labels, values, g) == Group(labels[..n], values[..n], g)
  {
    var n := ZipLength(labels, values);
    MembersPrefix(labels, values, n, n, g);
  }

  /** Under GroupedValuesFinite every group buffer is free of infinities,
      which is what the kernels NanSum, NanMean and NanStd require. */
  lemma {:induction false} MembersFinite(labels: seq<int>, values: seq<F>, n: nat, g: int)
    requires n <= |labels| && n <= |values| && g >= 0
    requires GroupedValuesFinite(labels, values)
    ensures NoInfinities([NaN] + Members(labels, values, n, g))
  {
    if n > 0 {
      MembersFinite(labels, values, n - 1, g);
      var init := [NaN] + Members(labels, values, n - 1, g);
      assert [NaN] + Members(labels, values, n, g) ==
        init + (if labels[n - 1] == g then [values[n - 1]] else []);
    }
  }

  /** A group with no values yields 0 under nansum and NaN under nanmean and nanstd. */
  lemma EmptyGroup(labels: seq<int>, values: seq<F>, g: int, sqrt: real -> real)
    requires GroupValues(labels, values, g) == []
    ensures SumOf(Group(labels, values, g)) == Fin(0.0)
    ensures MeanOf(Group(labels, values, g)).NaN?
    ensures StdOf(Group(labels, values, g), sqrt).NaN?
  {
    assert Group(labels, values, g) == [NaN];
    SeedOnly(sqrt);
  }

  /** values [10, 20, 30, 40] with labels [0, 1, 0, -1] and two groups:
      the group means are 20 and 20, and 40 is in no group. */
  lemma MeanExample()
    ensures var values := [Fin(10.0), Fin(20.0), Fin(30.0), Fin(40.0)];
      var labels := [0, 1, 0, -1];
      GroupValues(labels, values, 0) == [Fin(10.0), Fin(30.0)] &&
      GroupValues(labels, values, 1) == [Fin(20.0)] &&
      MeanOf(Group(labels, values, 0)) == Fin(20.0) &&
      MeanOf(Group(labels, values, 1)) == Fin(20.0)
  {
    var values := [Fin(10.0), Fin(20.0), Fin(30.0), Fin(40.0)];
    var labels := [0, 1, 0, -1];
    assert Members(labels, values, 1, 0) == [Fin(10.0)];
    assert Members(labels, values, 2, 0) == [Fin(10.0)];
    assert Members(labels, values, 3, 0) == [Fin(10.0), Fin(30.0)];
    assert GroupValues(labels, values, 0) == [Fin(10.0), Fin(30.0)];
    assert Members(labels, values, 1, 1) == [];
    assert Members(labels, values, 2, 1) == [Fin(20.0)];
    assert Members(labels, values, 3, 1) == [Fin(20.0)];
    assert GroupValues(labels, values, 1) == [Fin(20.0)];
    ExampleMeans();
  }

  /** The two group means of MeanExample, with the seed. */
  lemma ExampleMeans()
    ensures MeanOf([NaN] + [Fin(10.0), Fin(30.0)]) == Fin(20.0)
    ensures MeanOf([NaN] + [Fin(20.0)]) == Fin(20.0)
  {
    var g0 := [Fin(10.0), Fin(30.0)];
    var g1 := [Fin(20.0)];
    NaNSeedHarmless(g0, x => x);
    NaNSeedHarmless(g1, x => x);
    PresentNoNaN(g0);
    PresentNoNaN(g1);
    assert g0[..1] == [Fin(10.0)] && [Fin(10.0)][..0] == [];
    assert Sum(g0) == 40.0;
    assert g1[..0] == [];
    assert Sum(g1) == 20.0;
  }
}
