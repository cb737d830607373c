/**
 * The helpers of the SLIC superpixel driver (superpixel_test.cpp): the
 * file name of a path without its extension, drawing contours around the
 * segments of a label image, and splitting a packed pixel into channels.
 */
module Superpixel {
  import opened Wrappers

  // ---------------------------------------------------------------------
  // getNameFromPathWithoutExtension
  // ---------------------------------------------------------------------

  predicate IsSeparator(c: char) {
    c == '/' || c == '\\'
  }

  predicate IsDot(c: char) {
    c == '.'
  }

  /** `find_last_of`: the last position whose character satisfies `p`, or `None` for `npos`. */
  function FindLastOf(s: string, p: char -> bool): (r: Option<nat>)
    ensures r.None? <==> forall i :: 0 <= i < |s| ==> !p(s[i])
    ensures r.Some? ==> r.value < |s| && p(s[r.value]) &&
                        forall i :: r.value < i < |s| ==> !p(s[i])
  {
    if s == [] then None
    else if p(s[|s| - 1]) then Some(|s| - 1)
    else FindLastOf(s[..|s| - 1], p)
  }

  /** The start of `substr(find_last_of(...) + 1)`: `npos + 1` wraps round to 0. */
  function AfterFound(found: Option<nat>): nat {
    match found
    case None => 0
    case Some(i) => i + 1
  }

  /** Everything after the last `/` or `\`, or the whole path when it has none. */
  function BaseName(path: string): (r: string)
    ensures forall i :: 0 <= i < |r| ==> !IsSeparator(r[i])
    ensures exists k :: 0 <= k <= |path| && r == path[k..] && (k == 0 || IsSeparator(path[k - 1]))
  {
    var found := FindLastOf(path, IsSeparator);
    var k := AfterFound(found);
    assert forall i :: 0 <= i < |path[k..]| ==> path[k..][i] == path[k + i];
    path[k..]
  }

  /** Everything before the last `.`, or the whole name when it has none (`substr(0, npos)`). */
  function DropExtension(name: string): (r: string)
    ensures r <= name
    ensures '.' !in name ==> r == name
    ensures '.' in name ==> |r| < |name| && name[|r|] == '.' && '.' !in name[|r| + 1..]
  {
    match FindLastOf(name, IsDot)
    case None => name
    case Some(i) =>
      name[..i]
  }

  /** `getNameFromPathWithoutExtension(path)`. */
  function NameWithoutExtension(path: string): string {
    DropExtension(BaseName(path))
  }

  /**
   * A path built from a directory, a separator, a name without separators
   * and an extension without dots gives back the name.
   */
  lemma NameOfComposedPath(dir: string, sep: char, name: string, ext: string)
    requires IsSeparator(sep)
    requires forall i :: 0 <= i < |name| ==> !IsSeparator(name[i])
    requires forall i :: 0 <= i < |ext| ==> !IsSeparator(ext[i])
    requires '.' !in ext
    ensures NameWithoutExtension(dir + [sep] + name + ['.'] + ext) == name
  {
    var base := name + ['.'] + ext;
    assert dir + [sep] + name + ['.'] + ext == dir + [sep] + base;
    NoSeparatorInFileName(name, ext);
    BaseNameAfterSeparator(dir, sep, base);
    DropExtensionAfterDot(name, ext);
  }

  /** A name and an extension without separators make a file name without separators. */
  lemma NoSeparatorInFileName(name: string, ext: string)
    requires forall i :: 0 <= i < |name| ==> !IsSeparator(name[i])
    requires forall i :: 0 <= i < |ext| ==> !IsSeparator(ext[i])
    ensures forall i :: 0 <= i < |name + ['.'] + ext| ==> !IsSeparator((name + ['.'] + ext)[i])
  {
    var base := name + ['.'] + ext;
    forall i | 0 <= i < |base|
      ensures !IsSeparator(base[i])
    {
      if i < |name| {
        assert base[i] == name[i];
      } else if i > |name| {
        assert base[i] == ext[i - |name| - 1];
      }
    }
  }

  /** The extension after the last dot is dropped. */
  lemma DropExtensionAfterDot(name: string, ext: string)
    requires '.' !in ext
    ensures DropExtension(name + ['.'] + ext) == name
  {
    var base := name + ['.'] + ext;
    forall i | |name| < i < |base|
      ensures !IsDot(base[i])
    {
      assert base[i] == ext[i - |name| - 1];
    }
    FindLastOfAt(base, IsDot, |name|);
    assert base[..|name|] == name;
  }

  /** The last position satisfying `p` is the one with none after it. */
  lemma FindLastOfAt(s: string, p: char -> bool, k: nat)
    requires k < |s| && p(s[k])
    requires forall i :: k < i < |s| ==> !p(s[i])
    ensures FindLastOf(s, p) == Some(k)
  {
  }

  /** After a separator, a part without separators is the base name. */
  lemma BaseNameAfterSeparator(dir: string, sep: char, base: string)
    requires IsSeparator(sep)
    requires forall i :: 0 <= i < |base| ==> !IsSeparator(base[i])
    ensures BaseName(dir + [sep] + base) == base
  {
    var path := dir + [sep] + base;
    assert path[|dir|] == sep;
    forall i | |dir| < i < |path|
      ensures !IsSeparator(path[i])
    {
      assert path[i] == base[i - |dir| - 1];
    }
    FindLastOfAt(path, IsSeparator, |dir|);
    assert path[|dir| + 1..] == base;
  }

  /** A name without separators and dots is its own result. */
  lemma BareNameUnchanged(name: string)
    requires forall i :: 0 <= i < |name| ==> !IsSeparator(name[i])
    requires '.' !in name
    ensures NameWithoutExtension(name) == name
  {
    assert FindLastOf(name, IsSeparator) == None;
  }

  // ---------------------------------------------------------------------
  // DrawContoursAroundSegments
  // ---------------------------------------------------------------------

  /** The eight neighbour offsets, in the order they are visited. */
  const DX: seq<int> := [-1, -1, 0, 1, 1, 1, 0, -1]
  const DY: seq<int> := [0, -1, -1, -1, 0, 1, 1, 1]

  /** The row-major index of the first pixel of row `j`, counted row by row. */
  function RowStart(j: nat, width: nat): nat {
    if j == 0 then 0 else RowStart(j - 1, width) + width
  }

  /** `RowStart` is the product `j * width` that the code computes. */
  lemma {:induction false} RowStartIsProduct(j: nat, width: nat)
    ensures RowStart(j, width) == j * width
  {
    if j > 0 {
      RowStartIsProduct(j - 1, width);
    }
  }

  /** Rows further down start further on. */
  lemma {:induction false} RowStartMonotone(j: nat, j2: nat, width: nat)
    requires j <= j2
    ensures RowStart(j, width) <= RowStart(j2, width)
  {
    if j < j2 {
      RowStartMonotone(j, j2 - 1, width);
    }
  }

  /** The index of pixel `(x, y)` lies inside a `width` by `height` image. */
  lemma IndexBound(x: nat, y: nat, width: nat, height: nat)
    requires x < width && y < height
    ensures RowStart(y, width) + x < RowStart(height, width)
  {
    RowStartMonotone(y + 1, height, width);
  }

  /** The neighbour in direction `i` of pixel `(k, j)`, when it lies inside the image. */
  function Neighbour(width: nat, height: nat, j: nat, k: nat, i: nat): (r: Option<nat>)
    requires i < 8
    ensures r.Some? ==> r.value < RowStart(height, width)
  {
    var x := k + DX[i];
    var y := j + DY[i];
    if 0 <= x < width && 0 <= y < height then
      IndexBound(x, y, width, height);
      Some(RowStart(y, width) + x)
    else None
  }

  /** Whether neighbour `i` of pixel `(k, j)` is inside the image, not taken, and labelled differently. */
  predicate Differs(labels: seq<int>, width: nat, height: nat, taken: seq<bool>, j: nat, k: nat, i: nat)
    requires j < height && k < width && i < 8
    requires |labels| == RowStart(height, width) && |taken| == |labels|
  {
    match Neighbour(width, height, j, k, i)
    case None => false
    case Some(index) =>
      IndexBound(k, j, width, height);
      !taken[index] && labels[RowStart(j, width) + k] != labels[index]
  }

  /** How many of the first `n` neighbours `Differs` counts (`np`). */
  function CountDiffering(labels: seq<int>, width: nat, height: nat, taken: seq<bool>, j: nat, k: nat, n: nat): (c: nat)
    requires j < height && k < width && n <= 8
    requires |labels| == RowStart(height, width) && |taken| == |labels|
    ensures c <= n
  {
    if n == 0 then 0
    else CountDiffering(labels, width, height, taken, j, k, n - 1) +
         (if Differs(labels, width, height, taken, j, k, n - 1) then 1 else 0)
  }

  /** The `istaken` flags once the first `j` rows have been visited. */
  function TakenRows(labels: seq<int>, width: nat, height: nat, j: nat): (r: seq<bool>)
    requires |labels| == RowStart(height, width) && j <= height
    ensures |r| == |labels|
    ensures forall q :: RowStart(j, width) <= q < |r| ==> !r[q]
    decreases j, 0, 0
  {
    if j == 0 then seq(|labels|, _ => false)
    else TakenInRow(labels, width, height, j - 1, width)
  }

  /**
   * The `istaken` flags once the rows before `j` and the first `k` pixels
   * of row `j` have been visited: a pixel is taken when more than one of
   * its neighbours differed at the moment it was visited.
   */
  function TakenInRow(labels: seq<int>, width: nat, height: nat, j: nat, k: nat): (r: seq<bool>)
    requires |labels| == RowStart(height, width) && j < height && k <= width
    ensures |r| == |labels|
    ensures forall q :: RowStart(j, width) + k <= q < |r| ==> !r[q]
    decreases j, 1, k
  {
    if k == 0 then TakenRows(labels, width, height, j)
    else
      var prev := TakenInRow(labels, width, height, j, k - 1);
      IndexBound(k - 1, j, width, height);
      prev[RowStart(j, width) + k - 1 := CountDiffering(labels, width, height, prev, j, k - 1, 8) > 1]
  }

  /** Visiting pixel `(k, j)` decides its flag and nothing else. */
  lemma VisitStep(labels: seq<int>, width: nat, height: nat, j: nat, k: nat)
    requires |labels| == RowStart(height, width) && j < height && k < width
    ensures RowStart(j, width) + k < |labels|
    ensures TakenInRow(labels, width, height, j, k + 1) ==
            TakenInRow(labels, width, height, j, k)[RowStart(j, width) + k :=
              CountDiffering(labels, width, height, TakenInRow(labels, width, height, j, k), j, k, 8) > 1]
  {
    IndexBound(k, j, width, height);
  }

  /** Within a row, a flag once decided is not changed by later pixels. */
  lemma {:induction false} SettledInRow(labels: seq<int>, width: nat, height: nat, j: nat, k: nat, k2: nat, q: int)
    requires |labels| == RowStart(height, width) && j < height && k <= k2 <= width
    requires 0 <= q < RowStart(j, width) + k && q < |labels|
    ensures TakenInRow(labels, width, height, j, k2)[q] == TakenInRow(labels, width, height, j, k)[q]
  {
    if k2 > k {
      SettledInRow(labels, width, height, j, k, k2 - 1, q);
    }
  }

  /** Across rows, a flag once decided is not changed by later rows. */
  lemma {:induction false} SettledRows(labels: seq<int>, width: nat, height: nat, j: nat, j2: nat, q: int)
    requires |labels| == RowStart(height, width) && j <= j2 <= height
    requires 0 <= q < RowStart(j, width) && q < |labels|
    ensures TakenRows(labels, width, height, j2)[q] == TakenRows(labels, width, height, j)[q]
  {
    if j2 > j {
      SettledRows(labels, width, height, j, j2 - 1, q);
      RowStartMonotone(j, j2 - 1, width);
      SettledInRow(labels, width, height, j2 - 1, 0, width, q);
    }
  }

  /**
   * At the end, pixel `(k, j)` is taken exactly when more than one of its
   * in-image neighbours that were not yet taken when it was visited has
   * another label.
   */
  lemma PixelDecision(labels: seq<int>, width: nat, height: nat, j: nat, k: nat)
    requires |labels| == RowStart(height, width) && j < height && k < width
    ensures RowStart(j, width) + k < |labels|
    ensures TakenRows(labels, width, height, height)[RowStart(j, width) + k] <==>
            CountDiffering(labels, width, height, TakenInRow(labels, width, height, j, k), j, k, 8) > 1
  {
    IndexBound(k, j, width, height);
    var q := RowStart(j, width) + k;
    assert RowStart(j + 1, width) == RowStart(j, width) + width;
    SettledRows(labels, width, height, j + 1, height, q);
    assert TakenRows(labels, width, height, j + 1) == TakenInRow(labels, width, height, j, width);
    SettledInRow(labels, width, height, j, k + 1, width, q);
    VisitStep(labels, width, height, j, k);
  }

  /** Flags already taken can only lower the count of differing neighbours. */
  lemma {:induction false} TakingLowersCount(labels: seq<int>, width: nat, height: nat, taken: seq<bool>, j: nat, k: nat, n: nat)
    requires j < height && k < width && n <= 8
    requires |labels| == RowStart(height, width) && |taken| == |labels|
    ensures CountDiffering(labels, width, height, taken, j, k, n) <=
            CountDiffering(labels, width, height, seq(|labels|, _ => false), j, k, n)
  {
    if n > 0 {
      TakingLowersCount(labels, width, height, taken, j, k, n - 1);
    }
  }

  /** A pixel that ends up taken has at least two in-image neighbours with another label. */
  lemma TakenHasTwoBorders(labels: seq<int>, width: nat, height: nat, j: nat, k: nat)
    requires |labels| == RowStart(height, width) && j < height && k < width
    requires RowStart(j, width) + k < |labels|
    requires TakenRows(labels, width, height, height)[RowStart(j, width) + k]
    ensures CountDiffering(labels, width, height, seq(|labels|, _ => false), j, k, 8) > 1
  {
    PixelDecision(labels, width, height, j, k);
    TakingLowersCount(labels, width, height, TakenInRow(labels, width, height, j, k), j, k, 8);
  }

  lemma {:induction false} UniformCountsZero(labels: seq<int>, width: nat, height: nat, taken: seq<bool>, j: nat, k: nat, n: nat)
    requires j < height && k < width && n <= 8
    requires |labels| == RowStart(height, width) && |taken| == |labels|
    requires forall a, b :: 0 <= a < b < |labels| ==> labels[a] == labels[b]
    ensures CountDiffering(labels, width, height, taken, j, k, n) == 0
  {
    if n > 0 {
      UniformCountsZero(labels, width, height, taken, j, k, n - 1);
      match Neighbour(width, height, j, k, n - 1)
      case None =>
      case Some(b) =>
        IndexBound(k, j, width, height);
        var a := RowStart(j, width) + k;
        assert labels[a] == labels[b] by {
          if a < b { } else if b < a { }
        }
    }
  }

  /** An image with a single label gets no contour at all. */
  lemma UniformImageHasNoContours(labels: seq<int>, width: nat, height: nat, j: nat, k: nat)
    requires |labels| == RowStart(height, width) && j < height && k < width
    requires forall a, b :: 0 <= a < b < |labels| ==> labels[a] == labels[b]
    ensures RowStart(j, width) + k < |labels|
    ensures !TakenRows(labels, width, height, height)[RowStart(j, width) + k]
  {
    PixelDecision(labels, width, height, j, k);
    UniformCountsZero(labels, width, height, TakenInRow(labels, width, height, j, k), j, k, 8);
  }

  /** A neighbour inside the image counts when it is not taken and carries another label. */
  lemma InsideNeighbour(labels: seq<int>, width: nat, height: nat, taken: seq<bool>, j: nat, k: nat, i: nat,
                        x: int, y: int, self: int, index: int)
    requires j < height && k < width && i < 8
    requires |labels| == RowStart(height, width) && |taken| == |labels|
    requires x == k + DX[i] && y == j + DY[i] && 0 <= x < width && 0 <= y < height
    requires self == RowStart(j, width) + k && index == y * width + x
    ensures 0 <= self < |labels| && 0 <= index < |labels|
    ensures CountDiffering(labels, width, height, taken, j, k, i + 1) ==
            CountDiffering(labels, width, height, taken, j, k, i) +
            if !taken[index] && labels[self] != labels[index] then 1 else 0
  {
    IndexBound(k, j, width, height);
    IndexBound(x, y, width, height);
    RowStartIsProduct(y, width);
  }

  /** A neighbour outside the image never counts. */
  lemma OutsideNeighbour(labels: seq<int>, width: nat, height: nat, taken: seq<bool>, j: nat, k: nat, i: nat)
    requires j < height && k < width && i < 8
    requires |labels| == RowStart(height, width) && |taken| == |labels|
    requires !(0 <= k + DX[i] < width && 0 <= j + DY[i] < height)
    ensures CountDiffering(labels, width, height, taken, j, k, i + 1) == CountDiffering(labels, width, height, taken, j, k, i)
  {
  }

  /** The image `orig` with every taken pixel painted `color`. */
  function Painted(orig: seq<bv32>, taken: seq<bool>, color: bv32): (r: seq<bv32>)
    requires |taken| == |orig|
    ensures |r| == |orig|
    ensures forall p :: 0 <= p < |r| ==> r[p] == if taken[p] then color else orig[p]
  {
    seq(|orig|, p requires 0 <= p < |orig| => if taken[p] then color else orig[p])
  }

  /** Taking one more pixel paints exactly that pixel. */
  lemma PaintedStep(orig: seq<bv32>, taken: seq<bool>, color: bv32, m: nat)
    requires |taken| == |orig| && m < |orig|
    ensures Painted(orig, taken[m := true], color) == Painted(orig, taken, color)[m := color]
  {
  }

  /**
   * The inner loop of `DrawContoursAroundSegments`: `np`, the number of
   * in-image, not yet taken neighbours of pixel `(k, j)` with another label.
   */
  method CountNeighbours(labels: seq<int>, width: nat, height: nat, istaken: seq<bool>, j: nat, k: nat, mainindex: nat)
    returns (np: nat)
    requires j < height && k < width
    requires |labels| == RowStart(height, width) && |istaken| == |labels|
    requires mainindex == RowStart(j, width) + k
    ensures np == CountDiffering(labels, width, height, istaken, j, k, 8)
    ensures np <= 8
  {
    np := 0;
    for i := 0 to 8
      invariant np == CountDiffering(labels, width, height, istaken, j, k, i)
    {
      var x := k + DX[i];
      var y := j + DY[i];
      if (x >= 0 && x < width) && (y >= 0 && y < height) {
        var index := y * width + x;
        InsideNeighbour(labels, width, height, istaken, j, k, i, x, y, mainindex, index);
        if !istaken[index] {
          if labels[mainindex] != labels[index] {
            np := np + 1;
          }
        }
      } else {
        OutsideNeighbour(labels, width, height, istaken, j, k, i);
      }
    }
  }

  /**
   * `DrawContoursAroundSegments(img, labels, width, height, color)`: visits
   * the pixels row by row, counts the in-image, not yet taken neighbours
   * with another label, and paints the pixel with `color` (and marks it
   * taken) when there are more than one. No other pixel changes.
   */
  method DrawContoursAroundSegments(img: array<bv32>, labels: seq<int>, width: int, height: int, color: bv32)
    requires 0 <= width && 0 <= height
    requires img.Length == width * height && |labels| == width * height
    modifies img
    ensures RowStart(height, width) == |labels|
    ensures img[..] == Painted(old(img[..]), TakenRows(labels, width, height, height), color)
  {
    RowStartIsProduct(height, width);
    var sz := width * height;
    var istaken: seq<bool> := seq(sz, _ => false);
    ghost var orig := img[..];
    var mainindex := 0;
    assert img[..] == Painted(orig, istaken, color);
    for j := 0 to height
      invariant mainindex == RowStart(j, width)
      invariant istaken == TakenRows(labels, width, height, j)
      invariant img[..] == Painted(orig, istaken, color)
    {
      istaken := ContourRow(img, labels, width, height, color, orig, istaken, j, mainindex);
      mainindex := mainindex + width;
    }
  }

  /**
   * One pass of the outer loop of `DrawContoursAroundSegments`: the pixels
   * of row `j`, which starts at `mainindex`, are visited from left to right.
   */
  method ContourRow(img: array<bv32>, labels: seq<int>, width: nat, height: nat, color: bv32,
                    ghost orig: seq<bv32>, istaken: seq<bool>, j: nat, mainindex: nat)
    returns (taken: seq<bool>)
    requires j < height && |labels| == RowStart(height, width) && img.Length == |labels| == |orig|
    requires mainindex == RowStart(j, width)
    requires istaken == TakenRows(labels, width, height, j)
    requires img[..] == Painted(orig, istaken, color)
    modifies img
    ensures taken == TakenRows(labels, width, height, j + 1)
    ensures img[..] == Painted(orig, taken, color)
  {
    taken := istaken;
    var index := mainindex;
    for k := 0 to width
      invariant index == RowStart(j, width) + k
      invariant taken == TakenInRow(labels, width, height, j, k)
      invariant img[..] == Painted(orig, taken, color)
    {
      var np := CountNeighbours(labels, width, height, taken, j, k, index);
      VisitStep(labels, width, height, j, k);
      if np > 1 {
        PaintedStep(orig, taken, color, index);
        taken := taken[index := true];
        img[index] := color;
      }
      index := index + 1;
    }
  }

  // ---------------------------------------------------------------------
  // Channel unpacking in SaveImage
  // ---------------------------------------------------------------------

  /** The three 8-bit channels of a packed pixel: bits 0-7, 8-15 and 16-23. */
  function Channels(pixel: bv32): (bv8, bv8, bv8) {
    ((pixel & 0xff) as bv8, ((pixel >> 8) & 0xff) as bv8, ((pixel >> 16) & 0xff) as bv8)
  }

  /** Packs three channels into the low 24 bits of a pixel. */
  function Pack(c: (bv8, bv8, bv8)): bv32 {
    (c.0 as bv32) | ((c.1 as bv32) << 8) | ((c.2 as bv32) << 16)
  }

  /** Unpacking loses only the top eight bits, and packing is undone by unpacking. */
  lemma ChannelsRoundTrip(pixel: bv32, c: (bv8, bv8, bv8))
    ensures Pack(Channels(pixel)) == pixel & 0xff_ffff
    ensures Channels(Pack(c)) == c
  {
  }

  /**
   * The pixel loop of `SaveImage`: the channels of every packed pixel of a
   * `width` by `height` buffer, in row-major order.
   */
  method UnpackImage(ubuff: array<bv32>, width: int, height: int) returns (out: seq<(bv8, bv8, bv8)>)
    requires 0 <= width && 0 <= height && ubuff.Length == width * height
    ensures |out| == ubuff.Length
    ensures forall idx :: 0 <= idx < |out| ==> out[idx] == Channels(ubuff[idx])
  {
    RowStartIsProduct(height, width);
    out := [];
    var idx := 0;
    for j := 0 to height
      invariant idx == RowStart(j, width) && |out| == idx <= ubuff.Length
      invariant forall q :: 0 <= q < idx ==> out[q] == Channels(ubuff[q])
    {
      for i := 0 to width
        invariant idx == RowStart(j, width) + i && |out| == idx <= ubuff.Length
        invariant forall q :: 0 <= q < idx ==> out[q] == Channels(ubuff[q])
      {
        IndexBound(i, j, width, height);
        out := out + [Channels(ubuff[idx])];
        idx := idx + 1;
      }
    }
  }

  /** Every unpacked pixel packs back to the low 24 bits of the buffer entry. */
  lemma UnpackedPacksBack(ubuff: seq<bv32>, out: seq<(bv8, bv8, bv8)>)
    requires |out| == |ubuff|
    requires forall idx :: 0 <= idx < |out| ==> out[idx] == Channels(ubuff[idx])
    ensures forall idx :: 0 <= idx < |out| ==> Pack(out[idx]) == ubuff[idx] & 0xff_ffff
  {
    forall idx | 0 <= idx < |out|
      ensures Pack(out[idx]) == ubuff[idx] & 0xff_ffff
    {
      ChannelsRoundTrip(ubuff[idx], out[idx]);
    }
  }
}
