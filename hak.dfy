/**
 * The helpers of libDAI's HAK algorithm (hak.cpp): the two in-place
 * clamping passes over a factor's table, and `setProperties`, which reads
 * the algorithm's options from a property set.
 */
module Hak {
  import opened Wrappers

  // ---------------------------------------------------------------------
  // makePositive / makeZero
  // ---------------------------------------------------------------------

  /** One entry after `makePositive`: raised to `epsilon` when strictly between 0 and `epsilon`. */
  function PositiveEntry(x: real, epsilon: real): real {
    if 0.0 < x && x < epsilon then epsilon else x
  }

  /** One entry after `makeZero`: set to 0 when strictly between `-epsilon` and `epsilon`. */
  function ZeroedEntry(x: real, epsilon: real): real {
    if x < epsilon && x > -epsilon then 0.0 else x
  }

  /**
   * `makePositive` leaves no entry strictly between 0 and `epsilon`, keeps
   * every entry at most 0 or at least `epsilon`, and a second pass changes
   * nothing.
   */
  lemma PositiveEntryProperties(x: real, epsilon: real)
    ensures !(0.0 < PositiveEntry(x, epsilon) < epsilon)
    ensures x <= 0.0 || x >= epsilon ==> PositiveEntry(x, epsilon) == x
    ensures 0.0 < x < epsilon ==> PositiveEntry(x, epsilon) == epsilon
    ensures PositiveEntry(PositiveEntry(x, epsilon), epsilon) == PositiveEntry(x, epsilon)
  {
  }

  /**
   * `makeZero` leaves no non-zero entry strictly between `-epsilon` and
   * `epsilon`, keeps every other entry, and a second pass changes nothing.
   */
  lemma ZeroedEntryProperties(x: real, epsilon: real)
    ensures ZeroedEntry(x, epsilon) == 0.0 || !(-epsilon < ZeroedEntry(x, epsilon) < epsilon)
    ensures !(-epsilon < x < epsilon) ==> ZeroedEntry(x, epsilon) == x
    ensures ZeroedEntry(ZeroedEntry(x, epsilon), epsilon) == ZeroedEntry(x, epsilon)
  {
  }

  /** `makePositive(f, epsilon)`: the factor's table, overwritten entry by entry. */
  method MakePositive(f: array<real>, epsilon: real)
    modifies f
    ensures forall t :: 0 <= t < f.Length ==> f[t] == PositiveEntry(old(f[t]), epsilon)
    ensures forall t :: 0 <= t < f.Length ==> !(0.0 < f[t] < epsilon)
  {
    for t := 0 to f.Length
      invariant forall u :: 0 <= u < t ==> f[u] == PositiveEntry(old(f[u]), epsilon)
      invariant forall u :: t <= u < f.Length ==> f[u] == old(f[u])
    {
      if 0.0 < f[t] && f[t] < epsilon {
        f[t] := epsilon;
      }
    }
  }

  /** `makeZero(f, epsilon)`: the factor's table, overwritten entry by entry. */
  method MakeZero(f: array<real>, epsilon: real)
    modifies f
    ensures forall t :: 0 <= t < f.Length ==> f[t] == ZeroedEntry(old(f[t]), epsilon)
    ensures forall t :: 0 <= t < f.Length ==> f[t] == 0.0 || !(-epsilon < f[t] < epsilon)
  {
    for t := 0 to f.Length
      invariant forall u :: 0 <= u < t ==> f[u] == ZeroedEntry(old(f[u]), epsilon)
      invariant forall u :: t <= u < f.Length ==> f[u] == old(f[u])
    {
      if f[t] < epsilon && f[t] > -epsilon {
        f[t] := 0.0;
      }
    }
  }

  // ---------------------------------------------------------------------
  // setProperties
  // ---------------------------------------------------------------------

  /** How HAK chooses its clusters. */
  datatype ClustersType = Min | Bethe | Delta | Loop

  /** How HAK initialises its beliefs. */
  datatype InitType = Uniform | Random

  /** A property value, already of the type it is read as. */
  datatype PropValue =
    | RealValue(r: real)
    | NatValue(n: nat)
    | BoolValue(b: bool)
    | ClustersValue(c: ClustersType)
    | InitValue(i: InitType)

  /** A property set: option names and their values. */
  type PropertySet = map<string, PropValue>

  /** Why `setProperties` stops: a failed `DAI_ASSERT`, or a value of the wrong type. */
  datatype HakError = AssertionFailed | BadValue(key: string)

  /** The five options `setProperties` asserts to be present. */
  predicate HasRequiredKeys(opts: PropertySet) {
    "tol" in opts && "maxiter" in opts && "verbose" in opts && "doubleloop" in opts && "clusters" in opts
  }

  /** Every option present has the type it is read as. */
  predicate WellTyped(opts: PropertySet) {
    ("tol" in opts ==> opts["tol"].RealValue?) &&
    ("maxiter" in opts ==> opts["maxiter"].NatValue?) &&
    ("verbose" in opts ==> opts["verbose"].NatValue?) &&
    ("doubleloop" in opts ==> opts["doubleloop"].BoolValue?) &&
    ("clusters" in opts ==> opts["clusters"].ClustersValue?) &&
    ("loopdepth" in opts ==> opts["loopdepth"].NatValue?) &&
    ("damping" in opts ==> opts["damping"].RealValue?) &&
    ("init" in opts ==> opts["init"].InitValue?)
  }

  /** The properties of a HAK object. */
  class HakProperties {
    var tol: real
    var maxiter: nat
    var verbose: nat
    var doubleloop: bool
    var clusters: ClustersType
    var loopdepth: nat
    var damping: real
    var init: InitType

    constructor ()
    {
    }

    /**
     * `setProperties(opts)`: asserts that the five required options are
     * present, reads them, requires `loopdepth` unless the clusters are not
     * LOOP, and gives `damping` and `init` their defaults when absent.
     */
    method SetProperties(opts: PropertySet) returns (r: Result<(), HakError>)
      modifies this
      ensures !HasRequiredKeys(opts) ==> r == Failure(AssertionFailed) && unchanged(this)
      ensures r.Success? <==>
        HasRequiredKeys(opts) && WellTyped(opts) &&
        ("loopdepth" in opts || opts["clusters"].c != Loop)
      ensures r.Success? ==>
        tol == opts["tol"].r && maxiter == opts["maxiter"].n && verbose == opts["verbose"].n &&
        doubleloop == opts["doubleloop"].b && clusters == opts["clusters"].c &&
        ("loopdepth" in opts ==> loopdepth == opts["loopdepth"].n) &&
        ("loopdepth" !in opts ==> loopdepth == old(loopdepth)) &&
        damping == (if "damping" in opts then opts["damping"].r else 0.0) &&
        init == (if "init" in opts then opts["init"].i else Uniform)
      ensures r.Failure? && HasRequiredKeys(opts) && WellTyped(opts) ==>
        r == Failure(AssertionFailed) && clusters == Loop &&
        tol == opts["tol"].r && maxiter == opts["maxiter"].n && verbose == opts["verbose"].n &&
        doubleloop == opts["doubleloop"].b &&
        damping == old(damping) && init == old(init) && loopdepth == old(loopdepth)
    {
      if "tol" !in opts || "maxiter" !in opts || "verbose" !in opts || "doubleloop" !in opts || "clusters" !in opts {
        return Failure(AssertionFailed);
      }
      if !opts["tol"].RealValue? { return Failure(BadValue("tol")); }
      tol := opts["tol"].r;
      if !opts["maxiter"].NatValue? { return Failure(BadValue("maxiter")); }
      maxiter := opts["maxiter"].n;
      if !opts["verbose"].NatValue? { return Failure(BadValue("verbose")); }
      verbose := opts["verbose"].n;
      if !opts["doubleloop"].BoolValue? { return Failure(BadValue("doubleloop")); }
      doubleloop := opts["doubleloop"].b;
      if !opts["clusters"].ClustersValue? { return Failure(BadValue("clusters")); }
      clusters := opts["clusters"].c;

      if "loopdepth" in opts {
        if !opts["loopdepth"].NatValue? { return Failure(BadValue("loopdepth")); }
        loopdepth := opts["loopdepth"].n;
      } else if clusters == Loop {
        return Failure(AssertionFailed);
      }
      if "damping" in opts {
        if !opts["damping"].RealValue? { return Failure(BadValue("damping")); }
        damping := opts["damping"].r;
      } else {
        damping := 0.0;
      }
      if "init" in opts {
        if !opts["init"].InitValue? { return Failure(BadValue("init")); }
        init := opts["init"].i;
      } else {
        init := Uniform;
      }
      return Success(());
    }
  }
}
