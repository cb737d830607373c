/**
 * The structural part of libDAI's TProb (prob.h): a vector of reals with
 * pointwise transforms, in-place pointwise operations, accumulation,
 * normalisation, `argmax` and the L1, L-infinity and total-variation
 * distances. Entries are Dafny reals; the logarithmic, exponential and
 * power transforms and IEEE infinities are not part of this model.
 */
module TProbs {
  import opened Wrappers
  import opened DaiUtil

  // ---------------------------------------------------------------------
  // Scalar function objects
  // ---------------------------------------------------------------------

  function Plus(x: real, y: real): real { x + y }

  function Id(x: real): real { x }

  /** `fo_max`: the first argument when it is larger, the second otherwise. */
  function Max(x: real, y: real): (r: real)
    ensures r >= x && r >= y
    ensures r == x || r == y
  {
    if x > y then x else y
  }

  /** `fo_absdiff`. */
  function AbsDiff(x: real, y: real): (r: real)
    ensures r >= 0.0
    ensures r == x - y || r == y - x
  {
    Abs(x - y)
  }

  /** `fo_divides0`: `x / y`, except that dividing by zero gives zero. */
  function Divides0(x: real, y: real): (r: real)
    ensures y == 0.0 ==> r == 0.0
    ensures y != 0.0 ==> r * y == x
  {
    if y == 0.0 then 0.0 else x / y
  }

  // ---------------------------------------------------------------------
  // Transforms and folds over vectors
  // ---------------------------------------------------------------------

  /** `pwUnaryTr(op)`: a new vector, built entry by entry from the front. */
  function PwUnaryTr(s: seq<real>, op: real -> real): (r: seq<real>)
    ensures |r| == |s|
    ensures forall i :: 0 <= i < |s| ==> r[i] == op(s[i])
  {
    if s == [] then [] else PwUnaryTr(s[..|s| - 1], op) + [op(s[|s| - 1])]
  }

  /** `pwBinaryTr(q, op)`: both vectors of one length, combined entry by entry. */
  function PwBinaryTr(s: seq<real>, q: seq<real>, op: (real, real) -> real): (r: seq<real>)
    requires |s| == |q|
    ensures |r| == |s|
    ensures forall i :: 0 <= i < |s| ==> r[i] == op(s[i], q[i])
  {
    if s == [] then [] else PwBinaryTr(s[..|s| - 1], q[..|q| - 1], op) + [op(s[|s| - 1], q[|q| - 1])]
  }

  /** `operator/(q)`: pointwise quotient, zero wherever the divisor is zero. */
  function Quotient(s: seq<real>, q: seq<real>): (r: seq<real>)
    requires |s| == |q|
    ensures |r| == |s|
    ensures forall i :: 0 <= i < |s| ==> (q[i] == 0.0 ==> r[i] == 0.0) && (q[i] != 0.0 ==> r[i] * q[i] == s[i])
  {
    PwBinaryTr(s, q, Divides0)
  }

  /** `accumulate(init, op1, op2)`: `op1` folded from the front over `op2` of each entry. */
  function Accumulated(init: real, op1: (real, real) -> real, op2: real -> real, s: seq<real>): real {
    if s == [] then init else op1(Accumulated(init, op1, op2, s[..|s| - 1]), op2(s[|s| - 1]))
  }

  /** `sum()`. */
  function Total(s: seq<real>): real {
    Accumulated(0.0, Plus, Id, s)
  }

  /** `maxAbs()`. */
  function LargestAbs(s: seq<real>): real {
    Accumulated(0.0, Max, Abs, s)
  }

  /** A vector whose entries all equal `c` sums to its length times `c`. */
  lemma {:induction false} TotalConstant(s: seq<real>, c: real)
    requires forall i :: 0 <= i < |s| ==> s[i] == c
    ensures Total(s) == |s| as real * c
  {
    if s != [] {
      TotalConstant(s[..|s| - 1], c);
    }
  }

  /** Dividing every entry by `z` divides the sum by `z`. */
  lemma {:induction false} TotalScaled(s: seq<real>, t: seq<real>, z: real)
    requires z != 0.0 && |t| == |s|
    requires forall i :: 0 <= i < |s| ==> t[i] == s[i] / z
    ensures Total(t) == Total(s) / z
  {
    if s != [] {
      TotalScaled(s[..|s| - 1], t[..|t| - 1], z);
      var a, x := Total(s[..|s| - 1]), s[|s| - 1];
      assert Total(t) == a / z + x / z;
    }
  }

  /**
   * `maxAbs()` is zero or the absolute value of some entry, and no entry
   * has a larger absolute value.
   */
  lemma {:induction false} LargestAbsBounds(s: seq<real>)
    ensures LargestAbs(s) >= 0.0
    ensures forall i :: 0 <= i < |s| ==> Abs(s[i]) <= LargestAbs(s)
    ensures LargestAbs(s) == 0.0 || exists i :: 0 <= i < |s| && LargestAbs(s) == Abs(s[i])
  {
    if s != [] {
      var init := s[..|s| - 1];
      LargestAbsBounds(init);
      assert forall i :: 0 <= i < |init| ==> s[i] == init[i];
    }
  }

  /** `maxAbs()` is zero exactly when every entry is zero. */
  lemma LargestAbsZeroIff(s: seq<real>)
    ensures LargestAbs(s) == 0.0 <==> forall i :: 0 <= i < |s| ==> s[i] == 0.0
  {
    LargestAbsBounds(s);
  }

  /** Dividing every entry by a positive `z` divides `maxAbs()` by `z`. */
  lemma {:induction false} LargestAbsScaled(s: seq<real>, t: seq<real>, z: real)
    requires z > 0.0 && |t| == |s|
    requires forall i :: 0 <= i < |s| ==> t[i] == s[i] / z
    ensures LargestAbs(t) == LargestAbs(s) / z
  {
    if s != [] {
      LargestAbsScaled(s[..|s| - 1], t[..|t| - 1], z);
      var a, x := LargestAbs(s[..|s| - 1]), s[|s| - 1];
      AbsScaled(x, z);
      MaxScaled(a, Abs(x), z);
    }
  }

  /** Dividing by a positive number keeps the order of two numbers. */
  lemma DivPreservesOrder(a: real, b: real, z: real)
    requires z > 0.0 && a < b
    ensures a / z < b / z
  {
    var d := (b - a) / z;
    assert d * z == b - a;
    assert b / z - a / z == d;
  }

  lemma AbsScaled(x: real, z: real)
    requires z > 0.0
    ensures Abs(x / z) == Abs(x) / z
  {
    if x < 0.0 {
      DivPreservesOrder(x, 0.0, z);
    } else if x > 0.0 {
      DivPreservesOrder(0.0, x, z);
    }
  }

  lemma MaxScaled(a: real, b: real, z: real)
    requires z > 0.0
    ensures Max(a / z, b / z) == Max(a, b) / z
  {
    if a < b {
      DivPreservesOrder(a, b, z);
    } else if b < a {
      DivPreservesOrder(b, a, z);
    }
  }

  // ---------------------------------------------------------------------
  // Distances
  // ---------------------------------------------------------------------

  /** The distance measures modelled here. */
  datatype DistType = DistL1 | DistLInf | DistTV

  /** `innerProduct(q, init, op1, op2)`: `op1` folded from the front over `op2` of each pair. */
  function InnerProduct(s: seq<real>, q: seq<real>, init: real, op1: (real, real) -> real, op2: (real, real) -> real): real
    requires |s| == |q|
  {
    if s == [] then init
    else op1(InnerProduct(s[..|s| - 1], q[..|q| - 1], init, op1, op2), op2(s[|s| - 1], q[|q| - 1]))
  }

  /** `dist(p, q, dt)`. */
  function Dist(p: seq<real>, q: seq<real>, dt: DistType): real
    requires |p| == |q|
  {
    match dt
    case DistL1 => InnerProduct(p, q, 0.0, Plus, AbsDiff)
    case DistLInf => InnerProduct(p, q, 0.0, Max, AbsDiff)
    case DistTV => InnerProduct(p, q, 0.0, Plus, AbsDiff) / 2.0
  }

  /**
   * The L-infinity distance is zero or the difference at some position,
   * and no position differs by more.
   */
  lemma {:induction false} LInfBounds(p: seq<real>, q: seq<real>)
    requires |p| == |q|
    ensures Dist(p, q, DistLInf) >= 0.0
    ensures forall i :: 0 <= i < |p| ==> AbsDiff(p[i], q[i]) <= Dist(p, q, DistLInf)
    ensures Dist(p, q, DistLInf) == 0.0 || exists i :: 0 <= i < |p| && Dist(p, q, DistLInf) == AbsDiff(p[i], q[i])
  {
    if p != [] {
      var p', q' := p[..|p| - 1], q[..|q| - 1];
      LInfBounds(p', q');
      assert forall i :: 0 <= i < |p'| ==> p[i] == p'[i] && q[i] == q'[i];
    }
  }

  lemma MulMonotone(n: real, a: real, b: real)
    requires n >= 0.0 && a <= b
    ensures n * a <= n * b
  {
  }

  /** The L1 distance is at least the L-infinity distance. */
  lemma {:induction false} LInfBelowL1(p: seq<real>, q: seq<real>)
    requires |p| == |q|
    ensures 0.0 <= Dist(p, q, DistLInf) <= Dist(p, q, DistL1)
  {
    if p != [] {
      LInfBelowL1(p[..|p| - 1], q[..|q| - 1]);
    }
  }

  /** The L1 distance is at most the length times the L-infinity distance. */
  lemma {:induction false} L1BelowLengthTimesLInf(p: seq<real>, q: seq<real>)
    requires |p| == |q|
    ensures Dist(p, q, DistL1) <= |p| as real * Dist(p, q, DistLInf)
  {
    if p != [] {
      var p', q' := p[..|p| - 1], q[..|q| - 1];
      L1BelowLengthTimesLInf(p', q');
      var inf', d := Dist(p', q', DistLInf), AbsDiff(p[|p| - 1], q[|q| - 1]);
      var m := Max(inf', d);
      assert Dist(p, q, DistLInf) == m;
      assert Dist(p, q, DistL1) == Dist(p', q', DistL1) + d;
      MulMonotone(|p'| as real, inf', m);
      assert |p| as real * m == |p'| as real * m + m;
    }
  }

  /** The total-variation distance is half the L1 distance. */
  lemma TVHalfL1(p: seq<real>, q: seq<real>)
    requires |p| == |q|
    ensures Dist(p, q, DistTV) * 2.0 == Dist(p, q, DistL1)
  {
  }

  /** Every distance is zero between a vector and itself. */
  lemma {:induction false} DistSelf(p: seq<real>, dt: DistType)
    ensures Dist(p, p, dt) == 0.0
  {
    if p != [] {
      DistSelf(p[..|p| - 1], dt);
      DistSelf(p[..|p| - 1], DistL1);
    }
  }

  /** Every distance is symmetric. */
  lemma {:induction false} DistSymmetric(p: seq<real>, q: seq<real>, dt: DistType)
    requires |p| == |q|
    ensures Dist(p, q, dt) == Dist(q, p, dt)
  {
    if p != [] {
      DistSymmetric(p[..|p| - 1], q[..|q| - 1], dt);
      DistSymmetric(p[..|p| - 1], q[..|q| - 1], DistL1);
      AbsNegate(p[|p| - 1] - q[|q| - 1]);
    }
  }

  /** The L1 distance satisfies the triangle inequality. */
  lemma {:induction false} L1Triangle(p: seq<real>, q: seq<real>, r: seq<real>)
    requires |p| == |q| == |r|
    ensures Dist(p, r, DistL1) <= Dist(p, q, DistL1) + Dist(q, r, DistL1)
  {
    if p != [] {
      L1Triangle(p[..|p| - 1], q[..|q| - 1], r[..|r| - 1]);
      AbsTriangle(p[|p| - 1] - q[|q| - 1], q[|q| - 1] - r[|r| - 1]);
    }
  }

  // ---------------------------------------------------------------------
  // The vector object
  // ---------------------------------------------------------------------

  /** The two ways `normalize` can scale a vector. */
  datatype NormType = NormProb | NormLinf

  /** The error `normalize` raises. */
  datatype ProbError = NotNormalizable

  /** The norm `normalize` divides by: the sum, or the largest absolute value. */
  function NormOf(s: seq<real>, norm: NormType): real {
    match norm
    case NormProb => Total(s)
    case NormLinf => LargestAbs(s)
  }

  /** Dividing a vector by its non-zero norm gives a vector of norm one. */
  lemma NormScaled(s: seq<real>, t: seq<real>, norm: NormType)
    requires NormOf(s, norm) != 0.0 && |t| == |s|
    requires forall i :: 0 <= i < |s| ==> t[i] == s[i] / NormOf(s, norm)
    ensures NormOf(t, norm) == 1.0
  {
    var z := NormOf(s, norm);
    assert z / z == 1.0;
    match norm {
      case NormProb =>
        TotalScaled(s, t, z);
      case NormLinf =>
        LargestAbsBounds(s);
        LargestAbsScaled(s, t, z);
    }
  }

  class TProb {
    /** The wrapped vector `_p`. */
    var p: seq<real>

    /** The default constructor: an empty vector. */
    constructor ()
      ensures p == []
    {
      p := [];
    }

    /** `TProb(n)`: the uniform distribution over `n` outcomes. */
    constructor Uniform(n: nat)
      ensures |p| == n
      ensures forall i :: 0 <= i < n ==> p[i] * n as real == 1.0
      ensures n > 0 ==> Total(p) == 1.0
    {
      var v := seq(n, i requires 0 <= i < n => 1.0 / n as real);
      if n > 0 {
        TotalConstant(v, 1.0 / n as real);
      }
      p := v;
    }

    /** `TProb(n, p)`: `n` entries, each equal to `x`. */
    constructor Filled(n: nat, x: real)
      ensures |p| == n && forall i :: 0 <= i < n ==> p[i] == x
      ensures Total(p) == n as real * x
    {
      var v := seq(n, i => x);
      TotalConstant(v, x);
      p := v;
    }

    /** `fill(x)`: every entry becomes `x`; the length stays. */
    method Fill(x: real)
      modifies this`p
      ensures |p| == |old(p)| && forall i :: 0 <= i < |p| ==> p[i] == x
    {
      p := seq(|p|, i => x);
    }

    /** `accumulate(init, op1, op2)`: one loop step per entry, front to back. */
    method Accumulate(init: real, op1: (real, real) -> real, op2: real -> real) returns (t: real)
      ensures t == Accumulated(init, op1, op2, p)
    {
      t := init;
      for i := 0 to |p|
        invariant t == Accumulated(init, op1, op2, p[..i])
      {
        assert p[..i + 1][..i] == p[..i];
        t := op1(t, op2(p[i]));
      }
      assert p[..|p|] == p;
    }

    /** `sum()`. */
    method Sum() returns (t: real)
      ensures t == Total(p)
    {
      t := Accumulate(0.0, Plus, Id);
    }

    /** `maxAbs()`: zero when every entry is zero, otherwise the largest absolute value of an entry. */
    method MaxAbs() returns (t: real)
      ensures t == LargestAbs(p)
      ensures t >= 0.0 && forall i :: 0 <= i < |p| ==> Abs(p[i]) <= t
      ensures t == 0.0 || exists i :: 0 <= i < |p| && t == Abs(p[i])
    {
      t := Accumulate(0.0, Max, Abs);
      LargestAbsBounds(p);
    }

    /**
     * `argmax()`: the index of the first largest entry, and that entry.
     * It reads the first entry, so the vector must not be empty.
     */
    method Argmax() returns (arg: nat, max: real)
      requires |p| > 0
      ensures arg < |p| && max == p[arg]
      ensures forall i :: 0 <= i < |p| ==> p[i] <= max
      ensures forall i :: 0 <= i < arg ==> p[i] < max
    {
      max := p[0];
      arg := 0;
      for i := 1 to |p|
        invariant arg < i && max == p[arg]
        invariant forall j :: 0 <= j < i ==> p[j] <= max
        invariant forall j :: 0 <= j < arg ==> p[j] < max
      {
        if p[i] > max {
          max := p[i];
          arg := i;
        }
      }
    }

    /** `pwUnaryOp(op)`: every entry replaced by `op` of itself. */
    method PwUnaryOp(op: real -> real)
      modifies this`p
      ensures p == PwUnaryTr(old(p), op)
    {
      p := PwUnaryTr(p, op);
    }

    /** `pwBinaryOp(q, op)`: every entry combined with the entry of `q` at its position. */
    method PwBinaryOp(q: seq<real>, op: (real, real) -> real)
      requires |q| == |p|
      modifies this`p
      ensures p == PwBinaryTr(old(p), q, op)
    {
      p := PwBinaryTr(p, q, op);
    }

    /** `operator+=(x)`: adds `x` to each entry; adding zero leaves the vector as it is. */
    method AddScalar(x: real)
      modifies this`p
      ensures |p| == |old(p)| && forall i :: 0 <= i < |p| ==> p[i] == old(p)[i] + x
      ensures x == 0.0 ==> p == old(p)
    {
      if x != 0.0 {
        PwUnaryOp(y => y + x);
      }
    }

    /** `operator*=(x)`: multiplies each entry by `x`; multiplying by one leaves the vector as it is. */
    method MulScalar(x: real)
      modifies this`p
      ensures |p| == |old(p)| && forall i :: 0 <= i < |p| ==> p[i] == old(p)[i] * x
      ensures x == 1.0 ==> p == old(p)
    {
      if x != 1.0 {
        PwUnaryOp(y => y * x);
      }
    }

    /** `operator/=(x)`: divides each entry by the non-zero scalar `x`. */
    method DivScalar(x: real)
      requires x != 0.0
      modifies this`p
      ensures |p| == |old(p)| && forall i :: 0 <= i < |p| ==> p[i] == old(p)[i] / x
    {
      if x != 1.0 {
        PwUnaryOp(y => y / x);
      }
    }

    /** `operator/=(q)`: pointwise division, giving zero wherever `q` is zero. */
    method DivAssign(q: seq<real>)
      requires |q| == |p|
      modifies this`p
      ensures |p| == |old(p)|
      ensures forall i :: 0 <= i < |p| ==>
        (q[i] == 0.0 ==> p[i] == 0.0) && (q[i] != 0.0 ==> p[i] * q[i] == old(p)[i])
    {
      PwBinaryOp(q, Divides0);
    }

    /** `divide(q)`: plain pointwise division; every divisor must be non-zero here. */
    method Divide(q: seq<real>)
      requires |q| == |p| && forall i :: 0 <= i < |q| ==> q[i] != 0.0
      modifies this`p
      ensures |p| == |old(p)| && forall i :: 0 <= i < |p| ==> p[i] == old(p)[i] / q[i]
    {
      var v := p;
      p := seq(|v|, i requires 0 <= i < |v| => v[i] / q[i]);
    }

    /**
     * `normalize(norm)`: with Z the sum (NORMPROB) or the largest absolute
     * value (NORMLINF), fails with NOT_NORMALIZABLE when Z is zero and
     * otherwise divides every entry by Z and returns Z, after which the
     * chosen norm is one.
     */
    method Normalize(norm: NormType) returns (r: Result<real, ProbError>)
      modifies this`p
      ensures r.Failure? <==> NormOf(old(p), norm) == 0.0
      ensures r.Failure? ==> r.error == NotNormalizable && p == old(p)
      ensures r.Success? ==>
        r.value == NormOf(old(p), norm) && |p| == |old(p)| && NormOf(p, norm) == 1.0 &&
        forall i :: 0 <= i < |p| ==> p[i] == old(p)[i] / r.value
    {
      var z := 0.0;
      match norm {
        case NormProb => z := Sum();
        case NormLinf => z := MaxAbs();
      }
      if z == 0.0 {
        return Failure(NotNormalizable);
      }
      ghost var p0 := p;
      DivScalar(z);
      NormScaled(p0, p, norm);
      return Success(z);
    }
  }
}
