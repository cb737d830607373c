/**
 * Column extraction from a training log (scripts/plotData.py).
 *
 * A log is the list of its lines. The first line is a header when its first
 * whitespace-separated token is not a float literal; every following line
 * contributes the token at the requested column, and reading stops at the
 * first line without tokens.
 */
module PlotData {
  import opened Wrappers
  import opened Decimal

  // ---------------------------------------------------------------------
  // Python's str.split() with no separator
  // ---------------------------------------------------------------------

  /** The characters Python 2 treats as whitespace when splitting a str. */
  predicate IsSpace(c: char) {
    c == ' ' || c == '\t' || c == '\n' || c == '\r' || c == '\U{0B}' || c == '\U{0C}'
  }

  predicate NoSpace(w: string) {
    forall k :: 0 <= k < |w| ==> !IsSpace(w[k])
  }

  /** Length of the longest prefix of `s` without whitespace. */
  function WordLength(s: string): (n: nat)
    ensures n <= |s| && NoSpace(s[..n])
    ensures n < |s| ==> IsSpace(s[n])
  {
    if s == [] || IsSpace(s[0]) then 0
    else
      var n := 1 + WordLength(s[1..]);
      assert s[..n] == [s[0]] + s[1..][..n - 1];
      n
  }

  /** `s.split()`: the maximal runs of non-whitespace characters, in order. */
  function Words(s: string): (ws: seq<string>)
    ensures forall k :: 0 <= k < |ws| ==> ws[k] != [] && NoSpace(ws[k])
    ensures NoSpace(s) && s != [] ==> ws == [s]
    decreases |s|
  {
    if s == [] then []
    else if IsSpace(s[0]) then Words(s[1..])
    else
      var n := WordLength(s);
      assert NoSpace(s) ==> n == |s| && s[..n] == s && s[n..] == [];
      [s[..n]] + Words(s[n..])
  }

  /** A line made only of whitespace splits into no tokens. */
  lemma {:induction false} BlankLineHasNoWords(s: string)
    requires forall k :: 0 <= k < |s| ==> IsSpace(s[k])
    ensures Words(s) == []
  {
    if s != [] {
      BlankLineHasNoWords(s[1..]);
    }
  }

  // ---------------------------------------------------------------------
  // isFloat: does Python's float(s) accept s?
  // ---------------------------------------------------------------------

  function Lower(c: char): char {
    if 'A' <= c <= 'Z' then (c as int + 32) as char else c
  }

  /** The words, in any case, that float() accepts besides numerals. */
  predicate IsSpecialWordPrefix(w: string) {
    (|w| <= 8 && w == "infinity"[..|w|]) || (|w| <= 3 && w == "nan"[..|w|])
  }

  /**
   * The states of a scanner for the literals float() accepts: an optional
   * sign, then digits with an optional `.` and fraction (at least one digit
   * in all) and an optional exponent, or one of inf, infinity and nan.
   */
  datatype ScanState =
    | Start        // nothing read
    | Signed       // a sign read
    | IntDigits    // digits, no point yet
    | LeadingPoint // a point with no digit before it and none yet after it
    | Fraction     // a point, and at least one digit somewhere
    | ExpMark      // e or E after a mantissa
    | ExpSign      // the sign of the exponent
    | ExpDigits    // digits of the exponent
    | Word(w: string) // a prefix of one of the special words, lower-cased
    | Dead

  function Step(st: ScanState, c: char): ScanState {
    match st
    case Start | Signed =>
      if IsDigit(c) then IntDigits
      else if c == '.' then LeadingPoint
      else if st == Start && (c == '+' || c == '-') then Signed
      else if IsSpecialWordPrefix([Lower(c)]) then Word([Lower(c)])
      else Dead
    case IntDigits =>
      if IsDigit(c) then IntDigits
      else if c == '.' then Fraction
      else if c == 'e' || c == 'E' then ExpMark
      else Dead
    case LeadingPoint =>
      if IsDigit(c) then Fraction else Dead
    case Fraction =>
      if IsDigit(c) then Fraction
      else if c == 'e' || c == 'E' then ExpMark
      else Dead
    case ExpMark =>
      if IsDigit(c) then ExpDigits
      else if c == '+' || c == '-' then ExpSign
      else Dead
    case ExpSign | ExpDigits =>
      if IsDigit(c) then ExpDigits else Dead
    case Word(w) =>
      if IsSpecialWordPrefix(w + [Lower(c)]) then Word(w + [Lower(c)]) else Dead
    case Dead => Dead
  }

  predicate IsFinal(st: ScanState) {
    st == IntDigits || st == Fraction || st == ExpDigits ||
    st == Word("inf") || st == Word("infinity") || st == Word("nan")
  }

  predicate Accepts(st: ScanState, s: string)
    decreases |s|
  {
    if s == [] then IsFinal(st) else Accepts(Step(st, s[0]), s[1..])
  }

  /** `isFloat(s)`: true exactly when `float(s)` succeeds (scripts/plotData.py:10-15). */
  predicate IsFloat(s: string) {
    Accepts(Start, s)
  }

  /** Once the scanner has failed, no further input is accepted. */
  lemma {:induction false} DeadRejects(s: string)
    ensures !Accepts(Dead, s)
  {
    if s != [] {
      DeadRejects(s[1..]);
    }
  }

  /** Digits keep a numeral in the digit state that accepts. */
  lemma {:induction false} DigitsAccepted(st: ScanState, s: string)
    requires st == IntDigits || st == Fraction || st == ExpDigits
    requires AllDigits(s)
    ensures Accepts(st, s)
  {
    if s != [] {
      DigitsAccepted(Step(st, s[0]), s[1..]);
    }
  }

  /** A plain run of digits is a float. */
  lemma DigitsAreFloat(s: string)
    requires s != [] && AllDigits(s)
    ensures IsFloat(s)
  {
    DigitsAccepted(IntDigits, s[1..]);
  }

  /** The empty string is not a float. */
  lemma EmptyIsNotFloat()
    ensures !IsFloat("")
  {
  }

  /**
   * A token that starts with a letter which can begin neither a number nor
   * one of the words inf, infinity and nan is not a float: such a first line
   * is a header.
   */
  lemma LetterTokenIsNotFloat(s: string)
    requires s != [] && (('a' <= s[0] <= 'z') || ('A' <= s[0] <= 'Z'))
    requires Lower(s[0]) != 'i' && Lower(s[0]) != 'n'
    ensures !IsFloat(s)
  {
    assert "infinity"[..1] == ['i'] && "nan"[..1] == ['n'];
    assert Step(Start, s[0]) == Dead;
    DeadRejects(s[1..]);
  }

  // ---------------------------------------------------------------------
  // readColumnFromFile
  // ---------------------------------------------------------------------

  /**
   * What a line with too few tokens does. The body of the branch at
   * scripts/plotData.py:39 is not part of this model, so both policies are
   * kept: skip the line, or stop reading.
   */
  datatype ShortLine = SkipLine | StopReading

  datatype ReadError =
    | IndexError              // `l_s[0]` on a first line without tokens
    | ValueError(token: string) // `float(token)` on a token that is not a float

  /**
   * Index of the first data line: 1 when the first token of the first line
   * is not a float (a header), 0 otherwise; an error when the first line has
   * no token at all.
   */
  function FirstDataIndex(lines: seq<string>): (r: Result<nat, ReadError>)
    requires lines != []
    ensures r.Failure? <==> Words(lines[0]) == []
    ensures r.Failure? ==> r.error == IndexError
    ensures r.Success? ==> r.value <= 1
    ensures r.Success? ==> (r.value == 1 <==> !IsFloat(Words(lines[0])[0]))
  {
    var ws := Words(lines[0]);
    if ws == [] then Failure(IndexError)
    else if IsFloat(ws[0]) then Success(0) else Success(1)
  }

  /** Prepends the tokens already read to the rest of a read. */
  function Prepend(done: seq<string>, r: Result<seq<string>, ReadError>): Result<seq<string>, ReadError> {
    match r
    case Success(v) => Success(done + v)
    case Failure(e) => Failure(e)
  }

  /**
   * The tokens read from `lines`, all of which are data lines: one per line
   * in order, until the first line without tokens.
   */
  function ExtractColumn(lines: seq<string>, col: nat, policy: ShortLine): Result<seq<string>, ReadError>
    decreases |lines|
  {
    if lines == [] then Success([])
    else
      var ws := Words(lines[0]);
      if ws == [] then Success([])
      else if |ws| <= col then
        match policy
        case StopReading => Success([])
        case SkipLine => ExtractColumn(lines[1..], col, policy)
      else if !IsFloat(ws[col]) then Failure(ValueError(ws[col]))
      else Prepend([ws[col]], ExtractColumn(lines[1..], col, policy))
  }

  /** At most one value is read per line, and every value read is a number. */
  lemma {:induction false} ExtractedValuesAreNumbers(lines: seq<string>, col: nat, policy: ShortLine)
    ensures var r := ExtractColumn(lines, col, policy);
            r.Success? ==> |r.value| <= |lines| && forall k :: 0 <= k < |r.value| ==> IsFloat(r.value[k])
    decreases |lines|
  {
    if lines != [] {
      ExtractedValuesAreNumbers(lines[1..], col, policy);
    }
  }

  /** `readColumnFromFile(col_idx, filename)` on the lines of the file. */
  function ReadColumn(col: nat, lines: seq<string>, policy: ShortLine): Result<seq<string>, ReadError> {
    if lines == [] then Success([])
    else
      match FirstDataIndex(lines)
      case Failure(e) => Failure(e)
      case Success(first) => ExtractColumn(lines[first..], col, policy)
  }

  /** `[0 for x in range(n)]`: `n` placeholder slots. */
  function Placeholders(n: nat): (z: seq<string>)
    ensures |z| == n
  {
    seq(n, _ => "0")
  }

  /** Prepending no values changes no outcome. */
  lemma PrependNothing(r: Result<seq<string>, ReadError>)
    ensures Prepend([], r) == r
  {
    if r.Success? {
      assert [] + r.value == r.value;
    }
  }

  /** Reading stops at the end of the lines, at a line without tokens, or at a short line under `StopReading`. */
  lemma ExtractStops(lines: seq<string>, li: nat, col: nat, policy: ShortLine, done: seq<string>)
    requires li <= |lines|
    requires li == |lines| || Words(lines[li]) == [] || (|Words(lines[li])| <= col && policy == StopReading)
    ensures Prepend(done, ExtractColumn(lines[li..], col, policy)) == Success(done)
  {
    assert done + [] == done;
    if li < |lines| {
      assert lines[li..][0] == lines[li];
    }
  }

  /** A short line under `SkipLine` is passed over. */
  lemma ExtractSkips(lines: seq<string>, li: nat, col: nat, policy: ShortLine, done: seq<string>)
    requires li < |lines| && Words(lines[li]) != [] && |Words(lines[li])| <= col && policy == SkipLine
    ensures Prepend(done, ExtractColumn(lines[li..], col, policy)) == Prepend(done, ExtractColumn(lines[li + 1..], col, policy))
  {
    assert lines[li..][0] == lines[li];
    assert lines[li..][1..] == lines[li + 1..];
  }

  /** A token in the column that is not a number stops reading with a `ValueError`. */
  lemma ExtractRejects(lines: seq<string>, li: nat, col: nat, policy: ShortLine, done: seq<string>)
    requires li < |lines| && col < |Words(lines[li])| && !IsFloat(Words(lines[li])[col])
    ensures Prepend(done, ExtractColumn(lines[li..], col, policy)) == Failure(ValueError(Words(lines[li])[col]))
  {
    assert lines[li..][0] == lines[li];
  }

  /** A number in the column is read, and reading goes on with the next line. */
  lemma ExtractTakes(lines: seq<string>, li: nat, col: nat, policy: ShortLine, done: seq<string>)
    requires li < |lines| && col < |Words(lines[li])| && IsFloat(Words(lines[li])[col])
    ensures Prepend(done, ExtractColumn(lines[li..], col, policy)) ==
            Prepend(done + [Words(lines[li])[col]], ExtractColumn(lines[li + 1..], col, policy))
  {
    var x := Words(lines[li])[col];
    assert lines[li..][0] == lines[li];
    assert lines[li..][1..] == lines[li + 1..];
    match ExtractColumn(lines[li + 1..], col, policy) {
      case Success(v) => assert done + ([x] + v) == done + [x] + v;
      case Failure(_) =>
    }
  }

  /** What one pass of the data loop decides about the current line. */
  datatype LineOutcome = EndOfData | Rejected(token: string) | NextLine

  /**
   * One pass of the data loop of `readColumnFromFile` on line `li`: stop at
   * a line without tokens or (under `StopReading`) a short line, pass over a
   * short line under `SkipLine`, fail on a token that is not a number, and
   * otherwise store the token in the next slot of `objs`.
   */
  method ReadLine(lines: seq<string>, li: nat, col: nat, policy: ShortLine, objs: seq<string>, objIdx: nat)
    returns (outcome: LineOutcome, objs': seq<string>, objIdx': nat)
    requires li < |lines| && objIdx < |objs|
    ensures |objs'| == |objs| && objIdx <= objIdx' <= objIdx + 1
    ensures outcome.EndOfData? ==>
      objIdx' == objIdx && objs' == objs &&
      Prepend(objs[..objIdx], ExtractColumn(lines[li..], col, policy)) == Success(objs[..objIdx])
    ensures outcome.Rejected? ==>
      Prepend(objs[..objIdx], ExtractColumn(lines[li..], col, policy)) == Failure(ValueError(outcome.token))
    ensures outcome.NextLine? ==>
      Prepend(objs[..objIdx], ExtractColumn(lines[li..], col, policy))
      == Prepend(objs'[..objIdx'], ExtractColumn(lines[li + 1..], col, policy))
  {
    objs', objIdx' := objs, objIdx;
    var l := Words(lines[li]);
    if |l| == 0 || (|l| <= col && policy == StopReading) {
      ExtractStops(lines, li, col, policy, objs[..objIdx]);
      return EndOfData, objs', objIdx';
    }
    if |l| <= col {
      ExtractSkips(lines, li, col, policy, objs[..objIdx]);
      return NextLine, objs', objIdx';
    }
    if !IsFloat(l[col]) {
      ExtractRejects(lines, li, col, policy, objs[..objIdx]);
      return Rejected(l[col]), objs', objIdx';
    }
    ExtractTakes(lines, li, col, policy, objs[..objIdx]);
    FillSlot(objs, objIdx, l[col]);
    objs' := objs[objIdx := l[col]];
    objIdx' := objIdx + 1;
    outcome := NextLine;
  }

  /** Filling the next slot extends the filled prefix by the new token. */
  lemma FillSlot(objs: seq<string>, n: nat, x: string)
    requires n < |objs|
    ensures objs[n := x][..n + 1] == objs[..n] + [x]
  {
  }

  /**
   * `readColumnFromFile(col_idx, filename)` on the lines of the file
   * (scripts/plotData.py:17-39): header detection, then the data loop.
   * Returns the values read and the number of slots of `objs`.
   */
  method ReadColumnFromFile(col: nat, lines: seq<string>, policy: ShortLine)
    returns (r: Result<seq<string>, ReadError>, slots: nat)
    ensures r == ReadColumn(col, lines, policy)
    ensures lines == [] ==> r == Success([]) && slots == 0
    ensures r.Success? && lines != [] ==> slots == |lines| - FirstDataIndex(lines).value
    ensures r.Success? ==> |r.value| <= slots
  {
    if |lines| == 0 {
      return Success([]), 0;
    }
    var ws := Words(lines[0]);
    if |ws| == 0 {
      return Failure(IndexError), 0;
    }
    var first := 0;
    if !IsFloat(ws[0]) {
      first := 1;
    }
    assert FirstDataIndex(lines) == Success(first);
    r, slots := ReadDataLines(lines, first, col, policy);
    ExtractedValuesAreNumbers(lines[first..], col, policy);
  }

  /**
   * The loop of scripts/plotData.py:32-39: `objs` is preallocated with one
   * slot per line from `first_idx` on and filled in file order.
   */
  method ReadDataLines(lines: seq<string>, first: nat, col: nat, policy: ShortLine)
    returns (r: Result<seq<string>, ReadError>, slots: nat)
    requires first <= |lines|
    ensures r == ExtractColumn(lines[first..], col, policy)
    ensures slots == |lines| - first
  {
    slots := |lines| - first;
    var objs: seq<string> := Placeholders(slots);
    var objIdx := 0;
    var li := first;
    PrependNothing(ExtractColumn(lines[first..], col, policy));
    while li < |lines|
      invariant first <= li <= |lines|
      invariant |objs| == slots && objIdx <= li - first
      invariant ExtractColumn(lines[first..], col, policy)
             == Prepend(objs[..objIdx], ExtractColumn(lines[li..], col, policy))
    {
      var outcome;
      outcome, objs, objIdx := ReadLine(lines, li, col, policy, objs, objIdx);
      match outcome
      case EndOfData => return Success(objs[..objIdx]), slots;
      case Rejected(token) => return Failure(ValueError(token)), slots;
      case NextLine => li := li + 1;
    }
    ExtractStops(lines, li, col, policy, objs[..objIdx]);
    r := Success(objs[..objIdx]);
  }

  // ---------------------------------------------------------------------
  // Properties of the extraction
  // ---------------------------------------------------------------------

  /** Nothing after the first line without tokens is ever read. */
  lemma {:induction false} StopsAtFirstBlankLine(before: seq<string>, blank: string, after: seq<string>, col: nat, policy: ShortLine)
    requires Words(blank) == []
    ensures ExtractColumn(before + [blank] + after, col, policy) == ExtractColumn(before + [blank], col, policy)
  {
    if before == [] {
      assert ([] + [blank] + after)[0] == blank;
      assert ([] + [blank])[0] == blank;
    } else {
      StopsAtFirstBlankLine(before[1..], blank, after, col, policy);
      assert (before + [blank] + after)[1..] == before[1..] + [blank] + after;
      assert (before + [blank])[1..] == before[1..] + [blank];
      assert (before + [blank] + after)[0] == before[0];
      assert (before + [blank])[0] == before[0];
    }
  }

  /** A line whose requested token exists and is a float. */
  predicate WellFormedLine(line: string, col: nat) {
    var ws := Words(line);
    col < |ws| && IsFloat(ws[col])
  }

  /** On data lines that are all well formed, one value per line, in file order. */
  lemma {:induction false} WellFormedLinesReadInOrder(lines: seq<string>, col: nat, policy: ShortLine)
    requires forall k :: 0 <= k < |lines| ==> WellFormedLine(lines[k], col)
    ensures ExtractColumn(lines, col, policy).Success?
    ensures |ExtractColumn(lines, col, policy).value| == |lines|
    ensures forall k :: 0 <= k < |lines| ==>
              col < |Words(lines[k])| && ExtractColumn(lines, col, policy).value[k] == Words(lines[k])[col]
  {
    if lines != [] {
      WellFormedLinesReadInOrder(lines[1..], col, policy);
      assert WellFormedLine(lines[0], col);
    }
  }

  /** A header line is skipped: the read is that of the remaining lines. */
  lemma HeaderIsSkipped(header: string, body: seq<string>, col: nat, policy: ShortLine)
    requires Words(header) != [] && !IsFloat(Words(header)[0])
    ensures ReadColumn(col, [header] + body, policy) == ExtractColumn(body, col, policy)
  {
    assert ([header] + body)[0] == header;
    assert ([header] + body)[1..] == body;
  }

  /** A first line that starts with a float is data: every line is read. */
  lemma NumericFirstLineIsData(lines: seq<string>, col: nat, policy: ShortLine)
    requires lines != [] && Words(lines[0]) != [] && IsFloat(Words(lines[0])[0])
    ensures ReadColumn(col, lines, policy) == ExtractColumn(lines, col, policy)
  {
  }

  /** The word length of a token followed by a space is the token's length. */
  lemma {:induction false} WordLengthOfToken(a: string, rest: string)
    requires NoSpace(a)
    ensures WordLength(a + [' '] + rest) == |a|
  {
    if a != [] {
      WordLengthOfToken(a[1..], rest);
      assert (a + [' '] + rest)[1..] == a[1..] + [' '] + rest;
    }
  }

  /** Splitting a token, a space and the rest of a line. */
  lemma WordsOfTokenAndRest(a: string, rest: string)
    requires a != [] && NoSpace(a)
    ensures Words(a + [' '] + rest) == [a] + Words(rest)
  {
    var s := a + [' '] + rest;
    WordLengthOfToken(a, rest);
    assert s[..|a|] == a;
    assert s[|a|..] == [' '] + rest;
    assert s[|a|..][1..] == rest;
  }

  /** A numeral of the form d.d is a float. */
  lemma PointNumeralIsFloat(s: string)
    requires |s| == 3 && IsDigit(s[0]) && s[1] == '.' && IsDigit(s[2])
    ensures IsFloat(s)
  {
    assert Accepts(Fraction, s[3..]);
    assert Accepts(Fraction, s[2..]) by { assert s[2..][1..] == s[3..]; }
    assert Accepts(IntDigits, s[1..]) by { assert s[1..][1..] == s[2..]; }
  }
}
