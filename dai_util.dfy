/**
 * The general helpers of libDAI's util.h: `abs`, `concat`, the stream
 * printers for vectors, sets, maps and pairs, and `tokenizeString`.
 *
 * A stream is modelled by the text written to it so far; each printer
 * returns that text extended by what it writes. Elements are printed by
 * a `show` function standing for their own `operator<<`.
 */
module DaiUtil {

  /** `abs(t)`: `t` when it is not below zero, `-t` otherwise. */
  function Abs(t: real): (r: real)
    ensures r >= 0.0
    ensures r == t || r == -t
  {
    if t < 0.0 then -t else t
  }

  /** A number and its negation have the same absolute value. */
  lemma AbsNegate(t: real)
    ensures Abs(-t) == Abs(t)
  {
  }

  /** The triangle inequality, on which the distance bounds of TProb rest. */
  lemma AbsTriangle(a: real, b: real)
    ensures Abs(a + b) <= Abs(a) + Abs(b)
  {
  }

  /** `concat(u, v)`: a new vector holding `u` then `v`. */
  method Concat<T>(u: seq<T>, v: seq<T>) returns (w: seq<T>)
    ensures |w| == |u| + |v|
    ensures w[..|u|] == u && w[|u|..] == v
  {
    w := [];
    for i := 0 to |u|
      invariant w == u[..i]
    {
      w := w + [u[i]];
    }
    for i := 0 to |v|
      invariant w == u + v[..i]
    {
      w := w + [v[i]];
    }
  }

  // ---------------------------------------------------------------------
  // Printing
  // ---------------------------------------------------------------------

  /** The elements printed one after the other, separated by `", "`. */
  function ShowItems<T>(x: seq<T>, show: T -> string): string
  {
    if |x| == 0 then ""
    else if |x| == 1 then show(x[0])
    else ShowItems(x[..|x| - 1], show) + ", " + show(x[|x| - 1])
  }

  /** Printing two non-empty runs one after the other puts one separator between them. */
  lemma {:induction false} ShowItemsConcat<T>(x: seq<T>, y: seq<T>, show: T -> string)
    requires x != [] && y != []
    ensures ShowItems(x + y, show) == ShowItems(x, show) + ", " + ShowItems(y, show)
    decreases |y|
  {
    var xy := x + y;
    assert xy[..|xy| - 1] == x + y[..|y| - 1];
    if |y| == 1 {
      assert xy[..|xy| - 1] == x;
    } else {
      ShowItemsConcat(x, y[..|y| - 1], show);
    }
  }

  /** The text `operator<<` writes for a vector. */
  function ShowVector<T>(x: seq<T>, show: T -> string): (s: string)
    ensures |s| >= 2 && s[0] == '(' && s[|s| - 1] == ')'
    ensures x == [] ==> s == "()"
    ensures |x| == 1 ==> s == "(" + show(x[0]) + ")"
  {
    "(" + ShowItems(x, show) + ")"
  }

  /** `os << x` for a `std::vector`: one loop step per element. */
  method WriteVector<T>(os: string, x: seq<T>, show: T -> string) returns (out: string)
    ensures out == os + ShowVector(x, show)
  {
    out := os + "(";
    for i := 0 to |x|
      invariant out == os + "(" + ShowItems(x[..i], show)
    {
      assert x[..i + 1][..i] == x[..i];
      out := out + (if i != 0 then ", " else "") + show(x[i]);
    }
    assert x[..|x|] == x;
    out := out + ")";
  }

  /**
   * A `std::set` of numbers is walked in ascending order; it is modelled
   * by that walk, a strictly increasing sequence.
   */
  predicate StrictlyIncreasing(r: seq<int>) {
    forall i, j :: 0 <= i < j < |r| ==> r[i] < r[j]
  }

  /** The text `operator<<` writes for a set: its elements in ascending order inside braces. */
  function ShowSet(x: seq<int>, show: int -> string): (s: string)
    requires StrictlyIncreasing(x)
    ensures |s| >= 2 && s[0] == '{' && s[|s| - 1] == '}'
    ensures x == [] ==> s == "{}"
  {
    "{" + ShowItems(x, show) + "}"
  }

  /** `os << x` for a `std::set`. */
  method WriteSet(os: string, x: seq<int>, show: int -> string) returns (out: string)
    requires StrictlyIncreasing(x)
    ensures out == os + ShowSet(x, show)
  {
    out := os + "{";
    for i := 0 to |x|
      invariant out == os + "{" + ShowItems(x[..i], show)
    {
      assert x[..i + 1][..i] == x[..i];
      out := out + (if i != 0 then ", " else "") + show(x[i]);
    }
    assert x[..|x|] == x;
    out := out + "}";
  }

  /**
   * A `std::map` with number keys is walked in ascending key order; it is
   * modelled by that walk, its entries with strictly increasing keys.
   */
  predicate KeysIncreasing<V>(m: seq<(int, V)>) {
    forall i, j :: 0 <= i < j < |m| ==> m[i].0 < m[j].0
  }

  /** The text `operator<<` writes for a map: `{k->v, ...}` in key order. */
  function ShowMap<V>(m: seq<(int, V)>, showKey: int -> string, showValue: V -> string): (s: string)
    requires KeysIncreasing(m)
    ensures |s| >= 2 && s[0] == '{' && s[|s| - 1] == '}'
    ensures m == [] ==> s == "{}"
    ensures |m| == 1 ==> s == "{" + showKey(m[0].0) + "->" + showValue(m[0].1) + "}"
  {
    "{" + ShowItems(m, (e: (int, V)) => showKey(e.0) + "->" + showValue(e.1)) + "}"
  }

  /** `os << x` for a `std::map`. */
  method WriteMap<V>(os: string, m: seq<(int, V)>, showKey: int -> string, showValue: V -> string)
    returns (out: string)
    requires KeysIncreasing(m)
    ensures out == os + ShowMap(m, showKey, showValue)
  {
    var showEntry := (e: (int, V)) => showKey(e.0) + "->" + showValue(e.1);
    out := os + "{";
    for i := 0 to |m|
      invariant out == os + "{" + ShowItems(m[..i], showEntry)
    {
      assert m[..i + 1][..i] == m[..i];
      out := out + (if i != 0 then ", " else "") + showKey(m[i].0) + "->" + showValue(m[i].1);
    }
    assert m[..|m|] == m;
    out := out + "}";
  }

  /** `os << x` for a `std::pair`. */
  function ShowPair<A, B>(x: (A, B), showFirst: A -> string, showSecond: B -> string): (s: string)
    ensures |s| == |showFirst(x.0)| + |showSecond(x.1)| + 4
    ensures s[0] == '(' && s[|s| - 1] == ')'
    ensures s[1..1 + |showFirst(x.0)|] == showFirst(x.0)
    ensures s[1 + |showFirst(x.0)|..3 + |showFirst(x.0)|] == ", "
    ensures s[3 + |showFirst(x.0)|..|s| - 1] == showSecond(x.1)
  {
    "(" + showFirst(x.0) + ", " + showSecond(x.1) + ")"
  }

  /** A pair prints like the two-element vector of its parts. */
  lemma PairPrintsLikeVector<T>(a: T, b: T, show: T -> string)
    ensures ShowPair((a, b), show, show) == ShowVector([a, b], show)
  {
    assert [a, b][..1] == [a];
    assert ShowItems([a, b], show) == show(a) + ", " + show(b);
  }

  // ---------------------------------------------------------------------
  // tokenizeString
  // ---------------------------------------------------------------------

  /** The default delimiters of `tokenizeString`: tab and newline. */
  predicate IsDelimiter(c: char) {
    c == '\t' || c == '\n'
  }

  predicate NoDelimiter(f: string) {
    forall k :: 0 <= k < |f| ==> !IsDelimiter(f[k])
  }

  function FirstDelimiter(s: string): (i: nat)
    ensures i <= |s|
    ensures NoDelimiter(s[..i])
    ensures i < |s| ==> IsDelimiter(s[i])
  {
    if s == [] || IsDelimiter(s[0]) then 0 else 1 + FirstDelimiter(s[1..])
  }

  /**
   * `tokenizeString(s, tokens)`: the fields between delimiters, empty ones
   * kept; the empty string has no field and a delimiter at the very end
   * does not open one.
   */
  function Tokenize(s: string): (ts: seq<string>)
    ensures ts == [] <==> s == []
    ensures forall k :: 0 <= k < |ts| ==> NoDelimiter(ts[k])
    decreases |s|
  {
    if s == [] then []
    else
      var e := FirstDelimiter(s);
      [s[..e]] + (if e == |s| then [] else Tokenize(s[e + 1..]))
  }

  /** Fields joined by tabs. */
  function JoinTabs(fields: seq<string>): string
    requires fields != []
  {
    if |fields| == 1 then fields[0] else fields[0] + "\t" + JoinTabs(fields[1..])
  }

  lemma FirstDelimiterAfterField(f: string, rest: string)
    requires NoDelimiter(f)
    ensures FirstDelimiter(f + "\t" + rest) == |f|
  {
    var s := f + "\t" + rest;
    var i := FirstDelimiter(s);
    assert s[|f|] == '\t';
    assert forall k :: 0 <= k < |f| ==> s[k] == f[k];
  }

  /**
   * Tokenizing a tab-joined row gives its fields back, provided no field
   * holds a delimiter and the last one is not empty.
   */
  lemma {:induction false} TokenizeJoinTabs(fields: seq<string>)
    requires fields != [] && fields[|fields| - 1] != []
    requires forall k :: 0 <= k < |fields| ==> NoDelimiter(fields[k])
    ensures Tokenize(JoinTabs(fields)) == fields
  {
    var s := JoinTabs(fields);
    var f := fields[0];
    if |fields| == 1 {
      assert s[..|s|] == s;
    } else {
      TokenizeJoinTabs(fields[1..]);
      FirstDelimiterAfterField(f, JoinTabs(fields[1..]));
      assert s[..|f|] == f;
      assert s[|f| + 1..] == JoinTabs(fields[1..]);
    }
  }
}
