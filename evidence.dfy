/**
 * libDAI's reader of tab-separated evidence files (evidence.cpp).
 *
 * The input stream is modelled by its lines, in order, without their line
 * ends. A file reads as: a header line naming variables by label, one
 * empty line, then one sample line per observation. Reading stops at the
 * first offending line with an error; the samples of the lines before it
 * stay recorded.
 */
module Evidence {
  import opened Wrappers
  import opened Decimal
  import opened DaiUtil

  /** A discrete variable: its label `id` and its number of states. */
  datatype Var = Var(id: nat, states: nat)

  /** One joint observation: the state observed for each variable that has one. */
  type Observation = map<Var, nat>

  /** The `INVALID_EVIDENCE_FILE` errors, one per message. */
  datatype EvidenceError =
    | EmptyHeader
    | UnknownVariable(name: string)
    | ExpectingEmptyLine
    | InvalidFieldCount(lineNumber: nat)
    | InvalidState(field: string, lineNumber: nat)
    | StateTooLarge(field: string, lineNumber: nat)

  // ---------------------------------------------------------------------
  // The factor-graph overload: printed label -> variable
  // ---------------------------------------------------------------------

  /** The map built from the variables in order; a later variable with the same printed label wins. */
  function LabelMap(vars: seq<Var>): (m: map<string, Var>)
    ensures forall k :: 0 <= k < |vars| ==> NatToString(vars[k].id) in m
    ensures forall name :: name in m ==> NatToString(m[name].id) == name
  {
    if vars == [] then map[]
    else
      var v := vars[|vars| - 1];
      LabelMap(vars[..|vars| - 1])[NatToString(v.id) := v]
  }

  /** Every variable the map holds is one of the variables it was built from. */
  lemma {:induction false} LabelMapValues(vars: seq<Var>)
    ensures forall name :: name in LabelMap(vars) ==> LabelMap(vars)[name] in vars
  {
    if vars != [] {
      var init := vars[..|vars| - 1];
      LabelMapValues(init);
      assert forall v :: v in init ==> v in vars;
    }
  }

  /** With distinct labels, every variable is found under its own printed label. */
  lemma {:induction false} LabelMapFindsVariable(vars: seq<Var>, k: nat)
    requires forall i, j :: 0 <= i < j < |vars| ==> vars[i].id != vars[j].id
    requires k < |vars|
    ensures LabelMap(vars)[NatToString(vars[k].id)] == vars[k]
  {
    var last := |vars| - 1;
    var init := vars[..last];
    assert LabelMap(vars) == LabelMap(init)[NatToString(vars[last].id) := vars[last]];
    if k < last {
      var key := NatToString(vars[k].id);
      assert key != NatToString(vars[last].id) by {
        NatToStringRoundTrip(vars[k].id);
        NatToStringRoundTrip(vars[last].id);
      }
      assert forall i, j :: 0 <= i < j < |init| ==> init[i].id != init[j].id by {
        assert forall i :: 0 <= i < |init| ==> init[i] == vars[i];
      }
      LabelMapFindsVariable(init, k);
      assert LabelMap(vars)[key] == LabelMap(init)[key] == init[k] == vars[k];
    }
  }

  /** The loop of evidence.cpp:27-31. */
  method BuildLabelMap(vars: seq<Var>) returns (varMap: map<string, Var>)
    ensures varMap == LabelMap(vars)
  {
    varMap := map[];
    for i := 0 to |vars|
      invariant varMap == LabelMap(vars[..i])
    {
      assert vars[..i + 1][..i] == vars[..i];
      varMap := varMap[NatToString(vars[i].id) := vars[i]];
    }
    assert vars[..|vars|] == vars;
  }

  // ---------------------------------------------------------------------
  // Header
  // ---------------------------------------------------------------------

  /** The variables named by header fields, in order; the first unknown name is the error. */
  function NamedVars(fields: seq<string>, varMap: map<string, Var>): (r: Result<seq<Var>, EvidenceError>)
    ensures r.Success? <==> forall k :: 0 <= k < |fields| ==> fields[k] in varMap
    ensures r.Success? ==> |r.value| == |fields| && forall k :: 0 <= k < |fields| ==> r.value[k] == varMap[fields[k]]
    ensures r.Failure? ==> r.error.UnknownVariable? && r.error.name in fields && r.error.name !in varMap
  {
    if fields == [] then Success([])
    else if fields[0] !in varMap then Failure(UnknownVariable(fields[0]))
    else
      match NamedVars(fields[1..], varMap)
      case Failure(e) => Failure(e)
      case Success(rest) => Success([varMap[fields[0]]] + rest)
  }

  /** The header of evidence.cpp:43-55: no field at all is an error of its own. */
  function HeaderVars(header: string, varMap: map<string, Var>): (r: Result<seq<Var>, EvidenceError>)
    ensures header == [] <==> r == Failure(EmptyHeader)
    ensures r.Success? ==> |r.value| == |Tokenize(header)| >= 1
  {
    var fields := Tokenize(header);
    if fields == [] then Failure(EmptyHeader) else NamedVars(fields, varMap)
  }

  /** The loop of evidence.cpp:49-55. */
  method ReadHeader(header: string, varMap: map<string, Var>) returns (r: Result<seq<Var>, EvidenceError>)
    ensures r == HeaderVars(header, varMap)
  {
    var fields := Tokenize(header);
    if fields == [] {
      return Failure(EmptyHeader);
    }
    var vars: seq<Var> := [];
    assert fields[0..] == fields;
    NamedVarsAfterNothing(NamedVars(fields, varMap));
    for k := 0 to |fields|
      invariant NamedVars(fields, varMap) == NamedVarsAfter(vars, NamedVars(fields[k..], varMap))
      invariant |vars| == k
    {
      if fields[k] !in varMap {
        assert fields[k..][0] == fields[k];
        return Failure(UnknownVariable(fields[k]));
      }
      assert fields[k..][1..] == fields[k + 1..];
      NamedVarsAfterAppend(vars, varMap[fields[k]], NamedVars(fields[k + 1..], varMap));
      vars := vars + [varMap[fields[k]]];
    }
    assert fields[|fields|..] == [];
    assert vars + [] == vars;
    return Success(vars);
  }

  /** Prefixes the variables already read to the outcome of the rest of the header. */
  function NamedVarsAfter(done: seq<Var>, r: Result<seq<Var>, EvidenceError>): Result<seq<Var>, EvidenceError>
  {
    match r
    case Failure(e) => Failure(e)
    case Success(rest) => Success(done + rest)
  }

  lemma NamedVarsAfterNothing(r: Result<seq<Var>, EvidenceError>)
    ensures NamedVarsAfter([], r) == r
  {
    if r.Success? {
      assert [] + r.value == r.value;
    }
  }

  lemma NamedVarsAfterAppend(done: seq<Var>, v: Var, r: Result<seq<Var>, EvidenceError>)
    ensures NamedVarsAfter(done, NamedVarsAfter([v], r)) == NamedVarsAfter(done + [v], r)
  {
    if r.Success? {
      assert done + ([v] + r.value) == (done + [v]) + r.value;
    }
  }

  // ---------------------------------------------------------------------
  // Sample lines
  // ---------------------------------------------------------------------

  /**
   * The fields from index `i` on, added to `acc` left to right: an empty
   * field is a missing observation; a field with a non-digit, or whose
   * value is not below the variable's state count, is an error.
   */
  function RowFrom(fields: seq<string>, vars: seq<Var>, i: nat, acc: Observation, lineNumber: nat): (r: Result<Observation, EvidenceError>)
    requires |fields| == |vars| && i <= |vars|
    ensures r.Failure? ==> (r.error.InvalidState? || r.error.StateTooLarge?) && r.error.lineNumber == lineNumber
    decreases |vars| - i
  {
    if i == |vars| then Success(acc)
    else if fields[i] == [] then RowFrom(fields, vars, i + 1, acc, lineNumber)
    else if !AllDigits(fields[i]) then Failure(InvalidState(fields[i], lineNumber))
    else if DigitsValue(fields[i]) >= vars[i].states then Failure(StateTooLarge(fields[i], lineNumber))
    else RowFrom(fields, vars, i + 1, acc[vars[i] := DigitsValue(fields[i])], lineNumber)
  }

  /** A field that the row reader accepts. */
  predicate FieldOk(field: string, v: Var) {
    field == [] || (AllDigits(field) && DigitsValue(field) < v.states)
  }

  /** Every field in columns `lo` up to `hi` is accepted. */
  predicate FieldsOkBetween(fields: seq<string>, vars: seq<Var>, lo: nat, hi: nat)
    requires |fields| == |vars| && hi <= |vars|
  {
    forall l :: lo <= l < hi ==> FieldOk(fields[l], vars[l])
  }

  /** A row is accepted exactly when each of its fields is. */
  lemma {:induction false} RowAcceptedIff(fields: seq<string>, vars: seq<Var>, i: nat, acc: Observation, lineNumber: nat)
    requires |fields| == |vars| && i <= |vars|
    ensures RowFrom(fields, vars, i, acc, lineNumber).Success? <==> FieldsOkBetween(fields, vars, i, |vars|)
    decreases |vars| - i
  {
    if i < |vars| && FieldOk(fields[i], vars[i]) {
      var next := if fields[i] == [] then acc else acc[vars[i] := DigitsValue(fields[i])];
      assert RowFrom(fields, vars, i, acc, lineNumber) == RowFrom(fields, vars, i + 1, next, lineNumber);
      RowAcceptedIff(fields, vars, i + 1, next, lineNumber);
    }
  }

  /** A rejected row's error names its first bad field: a non-digit, or a state too large. */
  lemma {:induction false} RowErrorAtFirstBadField(fields: seq<string>, vars: seq<Var>, i: nat, acc: Observation, lineNumber: nat)
    requires |fields| == |vars| && i <= |vars|
    ensures RowFrom(fields, vars, i, acc, lineNumber).Failure? ==>
      exists k :: i <= k < |vars| && !FieldOk(fields[k], vars[k]) && FieldsOkBetween(fields, vars, i, k) &&
        RowFrom(fields, vars, i, acc, lineNumber).error ==
          (if AllDigits(fields[k]) then StateTooLarge(fields[k], lineNumber) else InvalidState(fields[k], lineNumber))
    decreases |vars| - i
  {
    if i < |vars| {
      if FieldOk(fields[i], vars[i]) {
        var next := if fields[i] == [] then acc else acc[vars[i] := DigitsValue(fields[i])];
        assert RowFrom(fields, vars, i, acc, lineNumber) == RowFrom(fields, vars, i + 1, next, lineNumber);
        RowErrorAtFirstBadField(fields, vars, i + 1, next, lineNumber);
        if RowFrom(fields, vars, i + 1, next, lineNumber).Failure? {
          var k :| i + 1 <= k < |vars| && !FieldOk(fields[k], vars[k]) && FieldsOkBetween(fields, vars, i + 1, k) &&
            RowFrom(fields, vars, i + 1, next, lineNumber).error ==
              (if AllDigits(fields[k]) then StateTooLarge(fields[k], lineNumber) else InvalidState(fields[k], lineNumber));
          assert FieldsOkBetween(fields, vars, i, k);
        }
      } else {
        assert FieldsOkBetween(fields, vars, i, i);
      }
    }
  }

  /**
   * What an accepted row observes: a variable has an entry exactly when
   * some non-empty field is in its column, and the value is the state in
   * the last such field.
   */
  lemma {:induction false} RowContents(fields: seq<string>, vars: seq<Var>, i: nat, acc: Observation, lineNumber: nat, v: Var)
    requires |fields| == |vars| && i <= |vars|
    requires RowFrom(fields, vars, i, acc, lineNumber).Success?
    ensures var obs := RowFrom(fields, vars, i, acc, lineNumber).value;
      (v in obs <==> v in acc || exists k :: i <= k < |vars| && vars[k] == v && fields[k] != [])
    ensures var obs := RowFrom(fields, vars, i, acc, lineNumber).value;
      forall k :: i <= k < |vars| && vars[k] == v && fields[k] != [] && AllDigits(fields[k]) &&
        (forall l :: k < l < |vars| && vars[l] == v ==> fields[l] == [])
        ==> v in obs && obs[v] == DigitsValue(fields[k])
    ensures var obs := RowFrom(fields, vars, i, acc, lineNumber).value;
      (forall k :: i <= k < |vars| && vars[k] == v ==> fields[k] == []) ==>
        (v in obs <==> v in acc) && (v in acc ==> obs[v] == acc[v])
    decreases |vars| - i
  {
    if i < |vars| {
      var next := if fields[i] == [] then acc else acc[vars[i] := DigitsValue(fields[i])];
      RowContents(fields, vars, i + 1, next, lineNumber, v);
    }
  }

  /** One sample line, numbered from 1 after the blank line (evidence.cpp:62-81). */
  function ParseLine(line: string, vars: seq<Var>, lineNumber: nat): (r: Result<Observation, EvidenceError>)
    ensures |Tokenize(line)| != |vars| <==> r == Failure(InvalidFieldCount(lineNumber))
  {
    var fields := Tokenize(line);
    if |fields| != |vars| then Failure(InvalidFieldCount(lineNumber))
    else
      RowFrom(fields, vars, 0, map[], lineNumber)
  }

  /** A row of empty fields observes nothing. */
  lemma AllMissingObservesNothing(line: string, vars: seq<Var>, lineNumber: nat)
    requires |Tokenize(line)| == |vars|
    requires forall k :: 0 <= k < |vars| ==> Tokenize(line)[k] == []
    ensures ParseLine(line, vars, lineNumber) == Success(map[])
  {
    var fields := Tokenize(line);
    RowAcceptedIff(fields, vars, 0, map[], lineNumber);
    var obs := ParseLine(line, vars, lineNumber).value;
    forall v | v in obs
      ensures false
    {
      RowContents(fields, vars, 0, map[], lineNumber, v);
    }
  }

  /** The inner loop of evidence.cpp:70-80, building the observation entry by entry. */
  method ReadSampleLine(line: string, vars: seq<Var>, lineNumber: nat) returns (r: Result<Observation, EvidenceError>)
    ensures r == ParseLine(line, vars, lineNumber)
  {
    var fields := Tokenize(line);
    if |fields| != |vars| {
      return Failure(InvalidFieldCount(lineNumber));
    }
    var sample: Observation := map[];
    for i := 0 to |vars|
      invariant RowFrom(fields, vars, 0, map[], lineNumber) == RowFrom(fields, vars, i, sample, lineNumber)
    {
      if fields[i] != [] {
        if !AllDigits(fields[i]) {
          return Failure(InvalidState(fields[i], lineNumber));
        }
        var state := DigitsValue(fields[i]);
        if state >= vars[i].states {
          return Failure(StateTooLarge(fields[i], lineNumber));
        }
        sample := sample[vars[i] := state];
      }
    }
    return Success(sample);
  }

  /** What reading some lines yields: the samples accepted, then the error that stopped it, if any. */
  datatype Outcome = Outcome(samples: seq<Observation>, error: Option<EvidenceError>)

  function Prefixed(done: seq<Observation>, o: Outcome): Outcome {
    Outcome(done + o.samples, o.error)
  }

  /** The sample lines from `lineNumber` on, read until the end or the first bad line. */
  function Samples(lines: seq<string>, vars: seq<Var>, lineNumber: nat): (o: Outcome)
    ensures |o.samples| <= |lines|
  {
    if lines == [] then Outcome([], None)
    else
      match ParseLine(lines[0], vars, lineNumber)
      case Failure(e) => Outcome([], Some(e))
      case Success(obs) => Prefixed([obs], Samples(lines[1..], vars, lineNumber + 1))
  }

  /**
   * Each accepted line adds exactly one observation, in input order; an
   * error stops reading at the line that caused it and names that line.
   */
  lemma {:induction false} SamplesCount(lines: seq<string>, vars: seq<Var>, lineNumber: nat)
    ensures var o := Samples(lines, vars, lineNumber);
      (o.error.None? ==> |o.samples| == |lines|) && (o.error.Some? ==> |o.samples| < |lines|)
  {
    if lines != [] && ParseLine(lines[0], vars, lineNumber).Success? {
      SamplesCount(lines[1..], vars, lineNumber + 1);
    }
  }

  /** The line that stops reading is the one after the accepted ones, and its error is reported. */
  lemma {:induction false} SamplesStopAtError(lines: seq<string>, vars: seq<Var>, lineNumber: nat)
    requires Samples(lines, vars, lineNumber).error.Some?
    ensures var o := Samples(lines, vars, lineNumber);
      |o.samples| < |lines| && ParseLine(lines[|o.samples|], vars, lineNumber + |o.samples|) == Failure(o.error.value)
  {
    SamplesCount(lines, vars, lineNumber);
    var first := ParseLine(lines[0], vars, lineNumber);
    if first.Success? {
      var rest := Samples(lines[1..], vars, lineNumber + 1);
      SamplesStopAtError(lines[1..], vars, lineNumber + 1);
      var n := |rest.samples|;
      assert |Samples(lines, vars, lineNumber).samples| == n + 1;
      assert lines[1..][n] == lines[n + 1];
    }
  }

  /** The k-th observation is what the k-th sample line reads as. */
  lemma {:induction false} SampleIsItsLine(lines: seq<string>, vars: seq<Var>, lineNumber: nat, k: nat)
    requires k < |Samples(lines, vars, lineNumber).samples|
    ensures ParseLine(lines[k], vars, lineNumber + k) == Success(Samples(lines, vars, lineNumber).samples[k])
  {
    SamplesUnfold(lines, vars, lineNumber);
    if k > 0 {
      SampleIsItsLine(lines[1..], vars, lineNumber + 1, k - 1);
      assert lines[1..][k - 1] == lines[k] && lineNumber + 1 + (k - 1) == lineNumber + k;
    }
  }

  /** A first line that parses contributes the first sample; the rest come from the lines after it. */
  lemma SamplesUnfold(lines: seq<string>, vars: seq<Var>, lineNumber: nat)
    requires Samples(lines, vars, lineNumber).samples != []
    ensures lines != [] && ParseLine(lines[0], vars, lineNumber).Success?
    ensures Samples(lines, vars, lineNumber).samples ==
      [ParseLine(lines[0], vars, lineNumber).value] + Samples(lines[1..], vars, lineNumber + 1).samples
  {
  }

  lemma SamplesAdvance(rows: seq<string>, vars: seq<Var>, k: nat, done: seq<Observation>, obs: Observation)
    requires k < |rows| && ParseLine(rows[k], vars, k + 1) == Success(obs)
    ensures Prefixed(done, Samples(rows[k..], vars, k + 1)) == Prefixed(done + [obs], Samples(rows[k + 1..], vars, k + 2))
  {
    assert rows[k..][0] == rows[k] && rows[k..][1..] == rows[k + 1..];
    var rest := Samples(rows[k + 1..], vars, k + 2);
    assert done + ([obs] + rest.samples) == (done + [obs]) + rest.samples;
  }

  lemma SamplesHalt(rows: seq<string>, vars: seq<Var>, k: nat, done: seq<Observation>, e: EvidenceError)
    requires k < |rows| && ParseLine(rows[k], vars, k + 1) == Failure(e)
    ensures Prefixed(done, Samples(rows[k..], vars, k + 1)) == Outcome(done, Some(e))
  {
    assert rows[k..][0] == rows[k];
    assert done + [] == done;
  }

  /** The whole file, as evidence.cpp:37-83 reads it. A missing line reads as empty. */
  function ReadEvidence(lines: seq<string>, varMap: map<string, Var>): (o: Outcome)
    ensures (lines == [] || lines[0] == []) ==> o == Outcome([], Some(EmptyHeader))
    ensures HeaderVars(if lines == [] then [] else lines[0], varMap).Success? && (|lines| < 2 || lines[1] != []) ==>
      o == Outcome([], Some(ExpectingEmptyLine))
  {
    var header := if lines == [] then [] else lines[0];
    match HeaderVars(header, varMap)
    case Failure(e) => Outcome([], Some(e))
    case Success(vars) =>
      if |lines| < 2 || lines[1] != [] then Outcome([], Some(ExpectingEmptyLine))
      else Samples(lines[2..], vars, 1)
  }

  /** A file that reads without error has one observation per line after the blank line. */
  lemma ReadEvidenceCountsSamples(lines: seq<string>, varMap: map<string, Var>)
    requires ReadEvidence(lines, varMap).error.None?
    ensures |lines| >= 2 && lines[1] == []
    ensures |ReadEvidence(lines, varMap).samples| == |lines| - 2
  {
    var vars := HeaderVars(lines[0], varMap).value;
    SamplesCount(lines[2..], vars, 1);
  }

  /** The store of observations that `addEvidenceTabFile` appends to. */
  class EvidenceSet {
    var samples: seq<Observation>

    constructor ()
      ensures samples == []
    {
      samples := [];
    }

    /**
     * `addEvidenceTabFile(is, varMap)`: appends the observations of the
     * lines read before any error, and reports that error.
     */
    method AddEvidenceTabFile(lines: seq<string>, varMap: map<string, Var>) returns (error: Option<EvidenceError>)
      modifies this`samples
      ensures samples == old(samples) + ReadEvidence(lines, varMap).samples
      ensures error == ReadEvidence(lines, varMap).error
    {
      var header := if lines == [] then [] else lines[0];
      var vars := ReadHeader(header, varMap);
      if vars.Failure? {
        return Some(vars.error);
      }
      if |lines| < 2 || lines[1] != [] {
        return Some(ExpectingEmptyLine);
      }
      var rows := lines[2..];
      ghost var before := samples;
      assert rows[0..] == rows;
      for k := 0 to |rows|
        invariant Prefixed(before, Samples(rows, vars.value, 1)) == Prefixed(samples, Samples(rows[k..], vars.value, k + 1))
      {
        var sample := ReadSampleLine(rows[k], vars.value, k + 1);
        if sample.Failure? {
          SamplesHalt(rows, vars.value, k, samples, sample.error);
          return Some(sample.error);
        }
        SamplesAdvance(rows, vars.value, k, samples, sample.value);
        samples := samples + [sample.value];
      }
      assert rows[|rows|..] == [] && samples + [] == samples;
      return None;
    }

    /** `addEvidenceTabFile(is, fg)`: the same, with each variable of the graph known by its printed label. */
    method AddEvidenceFromGraph(lines: seq<string>, graphVars: seq<Var>) returns (error: Option<EvidenceError>)
      modifies this
      ensures samples == old(samples) + ReadEvidence(lines, LabelMap(graphVars)).samples
      ensures error == ReadEvidence(lines, LabelMap(graphVars)).error
    {
      var varMap := BuildLabelMap(graphVars);
      error := AddEvidenceTabFile(lines, varMap);
    }
  }
}
