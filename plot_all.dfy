/**
 * Option handling of the plotting driver (scripts/plotAll.py): the column
 * helper, the directory patterns built from the `--dir_name` option, the
 * time window and the output directory.
 */
module PlotAll {
  import opened Wrappers
  import opened Decimal
  import PlotData

  // ---------------------------------------------------------------------
  // column(matrix, i)
  // ---------------------------------------------------------------------

  /** Python's `row[i]`: negative indices count from the end. */
  function PyIndex<T>(row: seq<T>, i: int): (r: Option<T>)
    ensures r.Some? <==> -|row| <= i < |row|
    ensures 0 <= i < |row| ==> r == Some(row[i])
    ensures -|row| <= i < 0 ==> r == Some(row[|row| + i])
  {
    if 0 <= i < |row| then Some(row[i])
    else if -|row| <= i < 0 then Some(row[|row| + i])
    else None
  }

  /** `column(matrix, i)`: `[row[i] for row in matrix]`; None when a row is too short (IndexError). */
  function Column<T>(matrix: seq<seq<T>>, i: int): (r: Option<seq<T>>)
    ensures r.Some? <==> forall k :: 0 <= k < |matrix| ==> PyIndex(matrix[k], i).Some?
    ensures r.Some? ==> |r.value| == |matrix|
    ensures r.Some? ==> forall k :: 0 <= k < |matrix| ==> Some(r.value[k]) == PyIndex(matrix[k], i)
  {
    if matrix == [] then Some([])
    else
      match PyIndex(matrix[0], i)
      case None => None
      case Some(x) =>
        match Column(matrix[1..], i)
        case None => None
        case Some(rest) => Some([x] + rest)
  }

  // ---------------------------------------------------------------------
  // dir_name.split(',') and the '+' rewrite
  // ---------------------------------------------------------------------

  function IndexOf(s: string, c: char): (i: nat)
    ensures i <= |s|
    ensures forall k :: 0 <= k < i ==> s[k] != c
    ensures i < |s| ==> s[i] == c
  {
    if s == [] || s[0] == c then 0 else 1 + IndexOf(s[1..], c)
  }

  /** `s.split(sep)`: the pieces between separators, empty ones included. */
  function Split(s: string, sep: char): (ps: seq<string>)
    ensures |ps| >= 1
    decreases |s|
  {
    var i := IndexOf(s, sep);
    if i == |s| then [s] else [s[..i]] + Split(s[i + 1..], sep)
  }

  /** No piece holds the separator. */
  lemma {:induction false} SplitPiecesLackSeparator(s: string, sep: char)
    ensures forall k :: 0 <= k < |Split(s, sep)| ==> sep !in Split(s, sep)[k]
    decreases |s|
  {
    var i := IndexOf(s, sep);
    if i < |s| {
      SplitPiecesLackSeparator(s[i + 1..], sep);
      SplitAtFirst(s, sep);
      assert sep !in s[..i];
    }
  }

  /** `sep.join(ps)`. */
  function Join(ps: seq<string>, sep: char): string
    requires |ps| >= 1
  {
    if |ps| == 1 then ps[0] else ps[0] + [sep] + Join(ps[1..], sep)
  }

  /** Splitting loses nothing: joining the pieces gives the option back. */
  lemma {:induction false} JoinSplit(s: string, sep: char)
    ensures Join(Split(s, sep), sep) == s
    decreases |s|
  {
    var i := IndexOf(s, sep);
    if i < |s| {
      var rest := s[i + 1..];
      JoinSplit(rest, sep);
      SplitAtFirst(s, sep);
      JoinCons(s[..i], Split(rest, sep), sep);
      CutAt(s, i);
    }
  }

  /** A string is the part before position `i`, the character there, and the part after. */
  lemma CutAt(s: string, i: nat)
    requires i < |s|
    ensures s == s[..i] + [s[i]] + s[i + 1..]
  {
    assert s[i..] == [s[i]] + s[i + 1..];
    assert s == s[..i] + s[i..];
  }

  /** The first piece runs up to the first separator, and the rest is split again. */
  lemma SplitAtFirst(s: string, sep: char)
    requires IndexOf(s, sep) < |s|
    ensures Split(s, sep) == [s[..IndexOf(s, sep)]] + Split(s[IndexOf(s, sep) + 1..], sep)
  {
  }

  /** Joining a piece in front of others puts one separator between them. */
  lemma JoinCons(p: string, rest: seq<string>, sep: char)
    requires |rest| >= 1
    ensures Join([p] + rest, sep) == p + [sep] + Join(rest, sep)
  {
    assert ([p] + rest)[1..] == rest;
  }

  /** Pieces without the separator are recovered by splitting their join. */
  lemma {:induction false} SplitJoin(ps: seq<string>, sep: char)
    requires |ps| >= 1
    requires forall k :: 0 <= k < |ps| ==> sep !in ps[k]
    ensures Split(Join(ps, sep), sep) == ps
  {
    var s := Join(ps, sep);
    var i := IndexOf(s, sep);
    if |ps| == 1 {
    } else {
      SplitJoin(ps[1..], sep);
      var t := ps[0] + [sep] + Join(ps[1..], sep);
      assert forall k :: 0 <= k < |ps[0]| ==> t[k] == ps[0][k];
      assert t[|ps[0]|] == sep;
      assert t[..|ps[0]|] == ps[0];
      assert t[|ps[0]| + 1..] == Join(ps[1..], sep);
    }
  }

  /** `s.replace('+', '.*')`. */
  function ReplacePlus(s: string): (r: string)
    ensures '+' !in r
    ensures '+' !in s ==> r == s
  {
    if s == [] then []
    else (if s[0] == '+' then ".*" else [s[0]]) + ReplacePlus(s[1..])
  }

  function CountOf(s: string, c: char): nat {
    if s == [] then 0 else (if s[0] == c then 1 else 0) + CountOf(s[1..], c)
  }

  /** Each `+` grows the pattern by one character; nothing else changes length. */
  lemma {:induction false} ReplacePlusLength(s: string)
    ensures |ReplacePlus(s)| == |s| + CountOf(s, '+')
  {
    if s != [] {
      ReplacePlusLength(s[1..]);
    }
  }

  /** The rewrite works piece by piece: it commutes with concatenation. */
  lemma {:induction false} ReplacePlusConcat(a: string, b: string)
    ensures ReplacePlus(a + b) == ReplacePlus(a) + ReplacePlus(b)
  {
    if a != [] {
      ReplacePlusConcat(a[1..], b);
      var head := if a[0] == '+' then ".*" else [a[0]];
      assert (a + b)[0] == a[0];
      assert (a + b)[1..] == a[1..] + b;
      assert ReplacePlus(a + b) == head + ReplacePlus(a[1..] + b);
      assert ReplacePlus(a) == head + ReplacePlus(a[1..]);
    } else {
      assert a + b == b;
    }
  }

  /** A pattern is left as it is exactly when it holds no `+`. */
  lemma ReplacePlusUnchangedIff(s: string)
    ensures ReplacePlus(s) == s <==> '+' !in s
  {
    ReplacePlusLength(s);
    if '+' in s {
      var k :| 0 <= k < |s| && s[k] == '+';
      CountPositive(s, k);
    }
  }

  lemma {:induction false} CountPositive(s: string, k: nat)
    requires k < |s| && s[k] == '+'
    ensures CountOf(s, '+') > 0
  {
    if k > 0 {
      CountPositive(s[1..], k - 1);
    }
  }

  /** The loop of scripts/plotAll.py:44-45, rewriting the list in place. */
  method RewriteDirNames(dirNames: array<string>)
    modifies dirNames
    ensures forall d :: 0 <= d < dirNames.Length ==> dirNames[d] == ReplacePlus(old(dirNames[d]))
  {
    for d := 0 to dirNames.Length
      invariant forall e :: 0 <= e < d ==> dirNames[e] == ReplacePlus(old(dirNames[e]))
      invariant forall e :: d <= e < dirNames.Length ==> dirNames[e] == old(dirNames[e])
    {
      dirNames[d] := ReplacePlus(dirNames[d]);
    }
  }

  /**
   * The directory patterns of scripts/plotAll.py:42-45: one per
   * comma-separated piece of the option, each with `+` read as `.*`.
   */
  method DirNamePatterns(dirOption: string) returns (patterns: seq<string>)
    ensures |patterns| == |Split(dirOption, ',')| >= 1
    ensures forall d :: 0 <= d < |patterns| ==> patterns[d] == ReplacePlus(Split(dirOption, ',')[d])
    ensures forall d :: 0 <= d < |patterns| ==> '+' !in patterns[d]
  {
    var pieces := Split(dirOption, ',');
    var dirNames := new string[|pieces|](d requires 0 <= d < |pieces| => pieces[d]);
    RewriteDirNames(dirNames);
    patterns := dirNames[..];
  }

  // ---------------------------------------------------------------------
  // max_delta_time and output_dir
  // ---------------------------------------------------------------------

  /**
   * The value of an option: its default (`0.0` for `--max_delta_time`,
   * which compares equal to 0) or the text given on the command line.
   */
  datatype OptionValue = Default | Given(text: string)

  function StripLeading(s: string): (r: string)
    ensures |r| <= |s| && r == s[|s| - |r|..]
    ensures r != [] ==> !PlotData.IsSpace(r[0])
  {
    if s != [] && PlotData.IsSpace(s[0]) then StripLeading(s[1..]) else s
  }

  function StripTrailing(s: string): (r: string)
    ensures |r| <= |s| && r == s[..|r|]
    ensures r != [] ==> !PlotData.IsSpace(r[|r| - 1])
  {
    if s != [] && PlotData.IsSpace(s[|s| - 1]) then StripTrailing(s[..|s| - 1]) else s
  }

  /** Every character of `s` is whitespace, as `isspace` reads it. */
  predicate AllSpace(s: string) {
    forall k :: 0 <= k < |s| ==> PlotData.IsSpace(s[k])
  }

  /**
   * `int(text)` in base 10, as Python 2 reads it: whitespace, an optional
   * sign, whitespace again, then digits, then trailing whitespace.
   */
  function ParseInt(text: string): Option<int> {
    ParseTrimmed(StripTrailing(StripLeading(text)))
  }

  /** What `int()` reads once the surrounding whitespace is gone: a sign, whitespace, digits. */
  function ParseTrimmed(t: string): Option<int> {
    if t != [] && (t[0] == '+' || t[0] == '-') then
      match ParseDigits(StripLeading(t[1..]))
      case None => None
      case Some(m) => Some(if t[0] == '-' then -(m as int) else m)
    else ParseDigits(t)
  }

  /** A text without a single digit is never a number. */
  lemma ParseIntNeedsDigit(text: string)
    ensures ParseInt(text).Some? ==> exists c :: c in text && IsDigit(c)
  {
    var s := StripLeading(text);
    var t := StripTrailing(s);
    if ParseInt(text).Some? {
      var u := if t != [] && (t[0] == '+' || t[0] == '-') then StripLeading(t[1..]) else t;
      assert ParseDigits(u).Some?;
      assert IsDigit(u[0]) && u[0] in t by {
        if t != [] && (t[0] == '+' || t[0] == '-') { assert u[0] == t[1..][|t| - 1 - |u|]; }
      }
      assert u[0] in s && u[0] in text;
    }
  }

  /** A non-empty run of digits and its value. */
  function ParseDigits(u: string): (r: Option<nat>)
    ensures r.Some? ==> u != [] && IsDigit(u[0])
  {
    if u != [] && AllDigits(u) then Some(DigitsValue(u)) else None
  }

  /** Leading whitespace is skipped whatever follows it. */
  lemma {:induction false} StripLeadingSpaces(lead: string, s: string)
    requires AllSpace(lead)
    ensures StripLeading(lead + s) == StripLeading(s)
  {
    if lead == [] {
      assert lead + s == s;
    } else {
      assert (lead + s)[0] == lead[0];
      assert (lead + s)[1..] == lead[1..] + s;
      StripLeadingSpaces(lead[1..], s);
    }
  }

  /** Trailing whitespace is dropped whatever precedes it. */
  lemma {:induction false} StripTrailingSpaces(s: string, trail: string)
    requires AllSpace(trail)
    ensures StripTrailing(s + trail) == StripTrailing(s)
  {
    if trail == [] {
      assert s + trail == s;
    } else {
      var shorter := trail[..|trail| - 1];
      assert (s + trail)[|s + trail| - 1] == trail[|trail| - 1];
      assert (s + trail)[..|s + trail| - 1] == s + shorter;
      StripTrailingSpaces(s, shorter);
    }
  }

  /** Whitespace around a text that starts and ends with something else does not change what `int()` reads. */
  lemma ParseIntTrims(lead: string, x: string, trail: string)
    requires AllSpace(lead) && AllSpace(trail)
    requires x != [] && !PlotData.IsSpace(x[0]) && !PlotData.IsSpace(x[|x| - 1])
    ensures ParseInt(lead + x + trail) == ParseTrimmed(x)
  {
    assert lead + x + trail == lead + (x + trail);
    StripLeadingSpaces(lead, x + trail);
    assert (x + trail)[0] == x[0];
    assert StripLeading(x + trail) == x + trail;
    StripTrailingSpaces(x, trail);
    assert StripTrailing(x) == x;
  }

  /** Unsigned digits, with any whitespace around them, read as their value. */
  lemma ParseIntUnsigned(lead: string, digits: string, trail: string)
    requires AllSpace(lead) && AllSpace(trail)
    requires digits != [] && AllDigits(digits)
    ensures ParseInt(lead + digits + trail) == Some(DigitsValue(digits))
  {
    assert IsDigit(digits[0]) && IsDigit(digits[|digits| - 1]);
    ParseIntTrims(lead, digits, trail);
  }

  /** A trimmed text that starts with a sign reads as the signed value of the digits after it. */
  lemma ParseTrimmedSigned(t: string, digits: string)
    requires t != [] && (t[0] == '+' || t[0] == '-')
    requires StripLeading(t[1..]) == digits && digits != [] && AllDigits(digits)
    ensures ParseTrimmed(t) == Some(if t[0] == '-' then -(DigitsValue(digits) as int) else DigitsValue(digits))
  {
    assert ParseDigits(digits) == Some(DigitsValue(digits));
  }

  /** What follows a sign character. */
  lemma DropSign(sign: char, rest: string)
    ensures ([sign] + rest)[1..] == rest
  {
  }

  /** After the sign, the whitespace before the digits is skipped. */
  lemma AfterSign(sign: char, gap: string, digits: string)
    requires AllSpace(gap)
    requires digits != [] && IsDigit(digits[0])
    ensures StripLeading(([sign] + (gap + digits))[1..]) == digits
  {
    DropSign(sign, gap + digits);
    StripLeadingSpaces(gap, digits);
  }

  /** A trimmed sign, whitespace and digits read as the signed value of the digits. */
  lemma SignedTrimmed(sign: char, gap: string, digits: string)
    requires AllSpace(gap)
    requires sign == '+' || sign == '-'
    requires digits != [] && AllDigits(digits)
    ensures ParseTrimmed([sign] + (gap + digits))
         == Some(if sign == '-' then -(DigitsValue(digits) as int) else DigitsValue(digits))
  {
    AfterSign(sign, gap, digits);
    ParseTrimmedSigned([sign] + (gap + digits), digits);
  }

  /** The whitespace around a signed number is trimmed away. */
  lemma TrimSigned(lead: string, sign: char, gap: string, digits: string, trail: string)
    requires AllSpace(lead) && AllSpace(trail)
    requires sign == '+' || sign == '-'
    requires digits != [] && AllDigits(digits)
    ensures ParseInt(lead + ([sign] + (gap + digits)) + trail) == ParseTrimmed([sign] + (gap + digits))
  {
    var x := [sign] + (gap + digits);
    assert x[|x| - 1] == digits[|digits| - 1] && IsDigit(digits[|digits| - 1]);
    ParseIntTrims(lead, x, trail);
  }

  /**
   * A sign, whitespace and digits, with whitespace around them, read as the
   * signed value of the digits: Python 2's `int(" - 5 ")` is `-5`.
   */
  lemma ParseIntSigned(lead: string, sign: char, gap: string, digits: string, trail: string)
    requires AllSpace(lead) && AllSpace(gap) && AllSpace(trail)
    requires sign == '+' || sign == '-'
    requires digits != [] && AllDigits(digits)
    ensures ParseInt(lead + ([sign] + (gap + digits)) + trail)
         == Some(if sign == '-' then -(DigitsValue(digits) as int) else DigitsValue(digits))
  {
    SignedTrimmed(sign, gap, digits);
    TrimSigned(lead, sign, gap, digits, trail);
  }

  /** The decimal text of an integer, as `str(n)` writes it. */
  function SignedDecimal(n: int): (s: string)
    ensures s != [] && !PlotData.IsSpace(s[0])
  {
    if n < 0 then "-" + NatToString(-n) else NatToString(n)
  }

  /** `int(str(n)) == n`, with any whitespace around the text. */
  lemma ParseIntRoundTrip(n: int, lead: string, trail: string)
    requires AllSpace(lead) && AllSpace(trail)
    ensures ParseInt(lead + SignedDecimal(n) + trail) == Some(n)
  {
    if n < 0 {
      var d := NatToString(-n);
      NatToStringRoundTrip(-n);
      assert SignedDecimal(n) == ['-'] + ([] + d);
      ParseIntSigned(lead, '-', [], d, trail);
    } else {
      NatToStringRoundTrip(n);
      ParseIntUnsigned(lead, NatToString(n), trail);
    }
  }

  /** `max_delta_time` in minutes (scripts/plotAll.py:28-30); None when `int()` fails. */
  function MaxDeltaTime(v: OptionValue): (r: Option<int>)
    ensures v.Default? ==> r == Some(0)
    ensures r.Some? ==> r.value % 1440 == 0
    ensures v.Given? ==> (r.Some? <==> ParseInt(v.text).Some?)
    ensures v.Given? && r.Some? ==> r.value == 1440 * ParseInt(v.text).value
  {
    match v
    case Default => Some(0)
    case Given(text) =>
      match ParseInt(text)
      case None => None
      case Some(days) => Some(DaysInMinutes(days))
  }

  /** `60 * 24 * days`: whole days, in minutes. */
  function DaysInMinutes(days: int): (m: int)
    ensures m % 1440 == 0 && m / 1440 == days
  {
    var m := 60 * 24 * days;
    assert m == 1440 * days + 0;
    m
  }

  /**
   * A day count printed as `str(days)`, negative or not and with any
   * whitespace around it, gives exactly that many days of minutes.
   */
  lemma MaxDeltaTimeOfPrintedDays(days: int, lead: string, trail: string)
    requires AllSpace(lead) && AllSpace(trail)
    ensures MaxDeltaTime(Given(lead + SignedDecimal(days) + trail)) == Some(1440 * days)
  {
    ParseIntRoundTrip(days, lead, trail);
  }

  /** `output_dir = HOME + '/public_html/' + options.output_dir`. */
  function OutputDir(home: string, outputDir: string): (r: string)
    ensures |r| == |home| + 13 + |outputDir|
    ensures r[..|home|] == home && r[|r| - |outputDir|..] == outputDir
    ensures r[|home|..|home| + 13] == "/public_html/"
  {
    home + "/public_html/" + outputDir
  }
}
