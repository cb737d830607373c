/**
 * The bookkeeping helpers of libDAI's clamped belief propagation
 * (cbp.cpp): the sorted complement of a set of states, storing a belief
 * vector split into variable and factor beliefs, and the pointwise
 * mixture of two belief vectors.
 */
module Cbp {
  import opened Wrappers
  import opened DaiUtil
  import opened TProbs

  // ---------------------------------------------------------------------
  // complement(xis, n_states)
  // ---------------------------------------------------------------------

  /** The failed `DAI_ASSERT` of `complement`. */
  datatype CbpError = AssertionFailed

  /** Ascending, repeats allowed: how `complement` expects its states. */
  predicate Sorted(xs: seq<nat>) {
    forall a, b :: 0 <= a < b < |xs| ==> xs[a] <= xs[b]
  }

  predicate NoRepeats(xs: seq<nat>) {
    forall a, b :: 0 <= a < b < |xs| ==> xs[a] != xs[b]
  }

  /** The states below `m` that are not in `xis`, in ascending order. */
  function ComplementBelow(xis: seq<nat>, m: nat): (r: seq<nat>)
    ensures forall x: nat :: x in r <==> x < m && x !in xis
    ensures StrictlyIncreasing(r)
    ensures forall x :: x in r ==> x < m
  {
    if m == 0 then []
    else
      var r := ComplementBelow(xis, m - 1);
      if m - 1 in xis then r
      else
        AppendAbove(r, m - 1);
        r + [m - 1]
  }

  /** A value above every element of an ascending sequence may be put after it. */
  lemma AppendAbove(r: seq<nat>, x: nat)
    requires StrictlyIncreasing(r)
    requires forall y :: y in r ==> y < x
    ensures StrictlyIncreasing(r + [x])
  {
    var s := r + [x];
    forall a, b | 0 <= a < b < |s|
      ensures s[a] < s[b]
    {
      assert s[a] in r;
    }
  }

  /** The distinct states of `xis` below `m`. */
  function Below(xis: seq<nat>, m: nat): set<nat> {
    set x | x in xis && x < m
  }

  /** Every state below `m` is in the complement or among the states of `xis`, never both. */
  lemma {:induction false} ComplementCount(xis: seq<nat>, m: nat)
    ensures |ComplementBelow(xis, m)| + |Below(xis, m)| == m
  {
    if m > 0 {
      ComplementCount(xis, m - 1);
      if m - 1 in xis {
        assert Below(xis, m) == Below(xis, m - 1) + {m - 1};
      } else {
        assert Below(xis, m) == Below(xis, m - 1);
      }
    }
  }

  function Elems(xs: seq<nat>): set<nat> {
    set x | x in xs
  }

  /** A sequence has at most as many distinct values as entries, and exactly as many when it has no repeats. */
  lemma {:induction false} ElemsCount(xs: seq<nat>)
    ensures |Elems(xs)| <= |xs|
    ensures |Elems(xs)| == |xs| <==> NoRepeats(xs)
  {
    if xs != [] {
      var init := xs[..|xs| - 1];
      var last := xs[|xs| - 1];
      ElemsCount(init);
      assert Elems(xs) == Elems(init) + {last};
      if last in init {
        assert Elems(xs) == Elems(init);
        RepeatedLast(xs);
      } else {
        NoRepeatsSnoc(xs);
      }
    }
  }

  /** A last entry that occurs earlier is a repeat. */
  lemma RepeatedLast(xs: seq<nat>)
    requires xs != [] && xs[|xs| - 1] in xs[..|xs| - 1]
    ensures !NoRepeats(xs)
  {
    var init := xs[..|xs| - 1];
    var a :| 0 <= a < |init| && init[a] == xs[|xs| - 1];
    assert xs[a] == xs[|xs| - 1];
  }

  /** A new last entry adds no repeat. */
  lemma NoRepeatsSnoc(xs: seq<nat>)
    requires xs != [] && xs[|xs| - 1] !in xs[..|xs| - 1]
    ensures NoRepeats(xs) <==> NoRepeats(xs[..|xs| - 1])
  {
    var init := xs[..|xs| - 1];
    if NoRepeats(init) {
      forall a, b | 0 <= a < b < |xs|
        ensures xs[a] != xs[b]
      {
        if b == |xs| - 1 {
          assert xs[a] == init[a];
        } else {
          assert xs[a] == init[a] && xs[b] == init[b];
        }
      }
    }
    if NoRepeats(xs) {
      assert forall a, b :: 0 <= a < b < |init| ==> init[a] == xs[a] && init[b] == xs[b];
    }
  }

  /** A subset as large as its superset is the whole superset. */
  lemma SubsetSameSize<T>(a: set<T>, b: set<T>)
    requires a <= b && |a| == |b|
    ensures a == b
  {
    if a != b {
      var x :| x in b && x !in a;
      SubsetCard(a, b - {x});
    }
  }

  /**
   * The size check of `complement` passes exactly when `xis` holds no state
   * twice and none outside `[0, n_states)`.
   */
  lemma ComplementSizeIff(xis: seq<nat>, n: nat)
    ensures |xis| + |ComplementBelow(xis, n)| == n <==> NoRepeats(xis) && forall x :: x in xis ==> x < n
  {
    ComplementCount(xis, n);
    ElemsCount(xis);
    var below, elems := Below(xis, n), Elems(xis);
    SubsetCard(below, elems);
    if |xis| + |ComplementBelow(xis, n)| == n {
      SubsetSameSize(below, elems);
      assert forall x :: x in xis ==> x in below;
    }
    if NoRepeats(xis) && forall x :: x in xis ==> x < n {
      assert below == elems;
    }
  }

  lemma SubsetCard<T>(a: set<T>, b: set<T>)
    requires a <= b
    ensures |a| <= |b|
  {
    assert b == a + (b - a);
  }

  /**
   * `complement(xis, n_states)`: the states of `[0, n_states)` not in the
   * sorted `xis`, found by one pass that advances `j` through `xis`. The
   * closing `DAI_ASSERT` fails unless the two counts add up to `n_states`.
   */
  method Complement(xis: seq<nat>, n: nat) returns (r: Result<seq<nat>, CbpError>)
    requires Sorted(xis)
    ensures r.Success? <==> NoRepeats(xis) && forall x :: x in xis ==> x < n
    ensures r.Success? ==> r.value == ComplementBelow(xis, n)
    ensures r.Failure? ==> r.error == AssertionFailed
  {
    var cmp: seq<nat> := [];
    var j := 0;
    for xi := 0 to n
      invariant j <= |xis|
      invariant forall k :: 0 <= k < j ==> xis[k] < xi
      invariant cmp == ComplementBelow(xis, xi)
    {
      while j < |xis| && xis[j] < xi
        invariant j <= |xis|
        invariant forall k :: 0 <= k < j ==> xis[k] < xi
      {
        j := j + 1;
      }
      if j >= |xis| || xis[j] > xi {
        assert xi !in xis by {
          forall k | 0 <= k < |xis|
            ensures xis[k] != xi
          {
            if k >= j {
              assert xis[j] <= xis[k];
            }
          }
        }
        cmp := cmp + [xi];
      } else {
        assert xis[j] == xi;
      }
    }
    ComplementSizeIff(xis, n);
    if |xis| + |cmp| != n {
      return Failure(AssertionFailed);
    }
    return Success(cmp);
  }

  // ---------------------------------------------------------------------
  // Beliefs
  // ---------------------------------------------------------------------

  /** A factor: its variables (by label) and its table of values. */
  datatype Factor = Factor(vars: seq<int>, values: seq<real>)

  /** A variable of the factor graph: its label `id` and its number of states. */
  datatype Var = Var(id: int, states: nat)

  /**
   * `f.fill(1); f.normalize()`: the factor over the same variables with all
   * entries equal and summing to one. `normalize` throws `NOT_NORMALIZABLE`
   * when the sum is zero, which for a table of ones means an empty table.
   */
  function Uniformized(f: Factor): (r: Result<Factor, ProbError>)
    ensures r.Failure? <==> f.values == []
    ensures r.Failure? ==> r.error == NotNormalizable
    ensures r.Success? ==>
      r.value.vars == f.vars && |r.value.values| == |f.values| && Total(r.value.values) == 1.0
    ensures r.Success? ==>
      forall k :: 0 <= k < |r.value.values| ==> r.value.values[k] == r.value.values[0]
  {
    if f.values == [] then Failure(NotNormalizable)
    else
      var n := |f.values|;
      var ones := seq(n, _ => 1.0);
      TotalConstant(ones, 1.0);
      var z := Total(ones);
      var values := seq(n, _ => 1.0 / z);
      TotalConstant(values, 1.0 / z);
      Success(Factor(f.vars, values))
  }

  /**
   * `Factor(v).normalized()`: the belief over `v` alone, uniform over its
   * states. `Factor(v)` is already uniform, so normalising it gives what
   * filling it with ones and normalising gives.
   */
  function VarBelief(v: Var): (r: Result<Factor, ProbError>)
    ensures r.Failure? <==> v.states == 0
    ensures r.Success? ==>
      r.value.vars == [v.id] && |r.value.values| == v.states && Total(r.value.values) == 1.0
  {
    Uniformized(Factor([v.id], seq(v.states, k requires 0 <= k < v.states => 1.0 / v.states as real)))
  }

  /** Every variable has a state and every factor table an entry. */
  predicate Normalizable(vars: seq<Var>, factors: seq<Factor>) {
    (forall i :: 0 <= i < |vars| ==> vars[i].states > 0) &&
    (forall i :: 0 <= i < |factors| ==> factors[i].values != [])
  }

  /** Beliefs built by `VarBelief` and `Uniformized` sit on their own variables and sum to one. */
  lemma BeliefsNormalised(vars: seq<Var>, factors: seq<Factor>, bv: seq<Factor>, bf: seq<Factor>)
    requires |bv| == |vars| && |bf| == |factors|
    requires forall i :: 0 <= i < |vars| ==> VarBelief(vars[i]) == Success(bv[i])
    requires forall i :: 0 <= i < |factors| ==> Uniformized(factors[i]) == Success(bf[i])
    ensures forall i :: 0 <= i < |vars| ==> bv[i].vars == [vars[i].id] && Total(bv[i].values) == 1.0
    ensures forall i :: 0 <= i < |factors| ==> bf[i].vars == factors[i].vars && Total(bf[i].values) == 1.0
  {
    forall i | 0 <= i < |vars|
      ensures bv[i].vars == [vars[i].id] && Total(bv[i].values) == 1.0
    {
      assert VarBelief(vars[i]).Success?;
    }
    forall i | 0 <= i < |factors|
      ensures bf[i].vars == factors[i].vars && Total(bf[i].values) == 1.0
    {
      assert Uniformized(factors[i]).Success?;
    }
  }

  /** The belief state of a CBP object over a factor graph. */
  class CbpBeliefs {
    const vars: seq<Var>
    const factors: seq<Factor>
    var beliefsV: seq<Factor>
    var beliefsF: seq<Factor>
    var logZ: real

    /** The object over the graph's variables and factors; `Construct` fills its beliefs. */
    constructor (vars: seq<Var>, factors: seq<Factor>)
      ensures this.vars == vars && this.factors == factors
    {
      this.vars := vars;
      this.factors := factors;
    }

    /**
     * `construct()`: one uniform normalised belief per variable, then one per
     * factor, the factor's table filled with ones and normalised. A variable
     * with no states or an empty factor table makes `normalize` throw.
     */
    method Construct() returns (r: Result<(), ProbError>)
      modifies this`beliefsV, this`beliefsF
      ensures r.Failure? <==> !Normalizable(vars, factors)
      ensures r.Failure? ==> r.error == NotNormalizable
      ensures r.Success? ==> |beliefsV| == |vars| && |beliefsF| == |factors|
      ensures r.Success? ==> forall i :: 0 <= i < |vars| ==>
        VarBelief(vars[i]) == Success(beliefsV[i]) &&
        beliefsV[i].vars == [vars[i].id] && Total(beliefsV[i].values) == 1.0
      ensures r.Success? ==> forall i :: 0 <= i < |factors| ==>
        Uniformized(factors[i]) == Success(beliefsF[i]) &&
        beliefsF[i].vars == factors[i].vars && Total(beliefsF[i].values) == 1.0
    {
      beliefsV := [];
      for i := 0 to |vars|
        invariant |beliefsV| == i
        invariant forall k :: 0 <= k < i ==> vars[k].states > 0 && VarBelief(vars[k]) == Success(beliefsV[k])
      {
        var b := VarBelief(vars[i]);
        if b.Failure? {
          return Failure(b.error);
        }
        beliefsV := beliefsV + [b.value];
      }
      ghost var vs := beliefsV;
      beliefsF := [];
      for i := 0 to |factors|
        invariant beliefsV == vs
        invariant |beliefsF| == i
        invariant forall k :: 0 <= k < i ==> factors[k].values != [] && Uniformized(factors[k]) == Success(beliefsF[k])
      {
        var f := Uniformized(factors[i]);
        if f.Failure? {
          return Failure(f.error);
        }
        beliefsF := beliefsF + [f.value];
      }
      BeliefsNormalised(vars, factors, beliefsV, beliefsF);
      return Success(());
    }

    /**
     * `setBeliefs(bs, logZ)`: the previous beliefs are dropped; the first
     * `nrVars` entries of `bs` become the variable beliefs and the next
     * `nrFactors` the factor beliefs, in order; `logZ` is stored as given.
     */
    method SetBeliefs(bs: seq<Factor>, newLogZ: real)
      requires |bs| >= |vars| + |factors|
      modifies this`beliefsV, this`beliefsF, this`logZ
      ensures beliefsV + beliefsF == bs[..|vars| + |factors|]
      ensures |beliefsV| == |vars| && |beliefsF| == |factors|
      ensures logZ == newLogZ
    {
      var i := 0;
      beliefsV := [];
      beliefsF := [];
      while i < |vars|
        invariant i <= |vars| && beliefsV == bs[..i] && beliefsF == []
      {
        beliefsV := beliefsV + [bs[i]];
        i := i + 1;
      }
      while i < |vars| + |factors|
        invariant |vars| <= i <= |vars| + |factors|
        invariant beliefsV == bs[..|vars|] && beliefsF == bs[|vars|..i]
      {
        beliefsF := beliefsF + [bs[i]];
        i := i + 1;
      }
      assert bs[..|vars| + |factors|] == bs[..|vars|] + bs[|vars|..|vars| + |factors|];
      logZ := newLogZ;
    }
  }

  /**
   * `mixBeliefs(p, b, c)`: fails its `DAI_ASSERT` unless both vectors have
   * one length, and otherwise mixes them entry by entry. `mix(x, y)` stands
   * for `x.normalized() * p + y.normalized() * (1 - p)`.
   */
  method MixBeliefs(b: seq<Factor>, c: seq<Factor>, mix: (Factor, Factor) -> Factor)
    returns (r: Result<seq<Factor>, CbpError>)
    ensures r.Success? <==> |b| == |c|
    ensures r.Failure? ==> r.error == AssertionFailed
    ensures r.Success? ==> |r.value| == |b| && forall i :: 0 <= i < |b| ==> r.value[i] == mix(b[i], c[i])
  {
    if |b| != |c| {
      return Failure(AssertionFailed);
    }
    var out := [];
    for i := 0 to |b|
      invariant |out| == i
      invariant forall k :: 0 <= k < i ==> out[k] == mix(b[k], c[k])
    {
      out := out + [mix(b[i], c[i])];
    }
    return Success(out);
  }
}
