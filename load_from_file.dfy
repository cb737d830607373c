/**
 * The feature-file bookkeeping of `F_LoadFromFile` (core/F_LoadFromFile.cpp):
 * reading the list of feature files, building the absolute feature path
 * of a volume, and choosing which loader `init` runs.
 */
module LoadFromFile {
  import opened Wrappers
  import Superpixel

  /** Why loading stops: the list file cannot be opened, or `substr` is given a position past the end. */
  datatype LoadError = CannotOpen | OutOfRange

  /** The loader `init` hands the feature file names to, or what it does instead. */
  datatype Loading =
    | FromTif(files: seq<string>)
    | FromBinary(files: seq<string>)
    | FromText(files: seq<string>)
    | NoFeatures
    | AlreadyLoaded

  /** The non-empty lines of `lines`, in order. */
  function NonEmptyLines(lines: seq<string>): (r: seq<string>)
    ensures |r| <= |lines|
    ensures forall l :: l in r <==> l in lines && l != ""
  {
    if lines == [] then []
    else
      var rest := NonEmptyLines(lines[1..]);
      if lines[0] == "" then rest else [lines[0]] + rest
  }

  /** Appending lines appends their non-empty lines. */
  lemma {:induction false} NonEmptyLinesAppend(a: seq<string>, b: seq<string>)
    ensures NonEmptyLines(a + b) == NonEmptyLines(a) + NonEmptyLines(b)
  {
    if a != [] {
      assert (a + b)[0] == a[0] && (a + b)[1..] == a[1..] + b;
      NonEmptyLinesAppend(a[1..], b);
      if a[0] != "" {
        calc {
          NonEmptyLines(a + b);
          [a[0]] + NonEmptyLines(a[1..] + b);
          [a[0]] + (NonEmptyLines(a[1..]) + NonEmptyLines(b));
          ([a[0]] + NonEmptyLines(a[1..])) + NonEmptyLines(b);
        }
      }
    } else {
      assert a + b == b;
    }
  }

  /** Lines with no empty line among them are kept whole. */
  lemma {:induction false} NonEmptyLinesKeepsAll(lines: seq<string>)
    requires forall i :: 0 <= i < |lines| ==> lines[i] != ""
    ensures NonEmptyLines(lines) == lines
  {
    if lines != [] {
      NonEmptyLinesKeepsAll(lines[1..]);
    }
  }

  /** `rfind(c)`: the last position of `c` in `s`, or `None` for `npos`. */
  function FindLast(s: string, c: char): (r: Option<nat>)
    ensures r.None? <==> c !in s
    ensures r.Some? ==> r.value < |s| && s[r.value] == c && c !in s[r.value + 1..]
  {
    if s == [] then None
    else if s[|s| - 1] == c then Some(|s| - 1)
    else
      var r := FindLast(s[..|s| - 1], c);
      assert s == s[..|s| - 1] + [s[|s| - 1]];
      if r.Some? then
        assert s[r.value + 1..] == s[..|s| - 1][r.value + 1..] + [s[|s| - 1]];
        r
      else r
  }

  /** The last occurrence is the one with no occurrence after it. */
  lemma FindLastAt(s: string, c: char, k: nat)
    requires k < |s| && s[k] == c
    requires forall i :: k < i < |s| ==> s[i] != c
    ensures FindLast(s, c) == Some(k)
  {
    var v := FindLast(s, c).value;
    assert forall i :: v < i < |s| ==> s[i] == s[v + 1..][i - v - 1];
  }

  /**
   * `getAbsoluteFeaturePath(featureFilename, inputDir)`: one trailing `/`
   * is dropped from `inputDir`, and its last component, with the `/` before
   * it, is put between `featureFilename` and a closing `/`. A directory
   * without any other `/` makes `substr(npos)` throw.
   */
  function AbsoluteFeaturePath(featureFilename: string, inputDir: string): (r: Result<string, LoadError>)
    requires |inputDir| > 0
    ensures r.Success? ==> |r.value| > |featureFilename| + 1 && r.value[..|featureFilename|] == featureFilename
    ensures r.Success? ==> r.value[|featureFilename|] == '/' && r.value[|r.value| - 1] == '/'
  {
    var rel := if inputDir[|inputDir| - 1] == '/' then inputDir[..|inputDir| - 1] else inputDir;
    match FindLast(rel, '/')
    case None => Failure(OutOfRange)
    case Some(pos) => Success(featureFilename + rel[pos..] + "/")
  }

  /** The documented example: `("f", "/a/b/")` gives `"f/b/"`. */
  lemma AbsoluteFeaturePathExample()
    ensures AbsoluteFeaturePath("f", "/a/b/") == Success("f/b/")
  {
    var dir := "/a/b/";
    assert dir[4] == '/' && dir[..4] == "/a/b";
    assert FindLast("/a/b", '/') == Some(2) by {
      assert "/a/b"[3] == 'b' && "/a/b"[..3] == "/a/";
      assert "/a/"[2] == '/';
    }
    assert "/a/b"[2..] == "/b";
    assert "f" + "/b" + "/" == "f/b/";
  }

  /**
   * A directory `parent + "/" + name`, with or without one trailing `/`,
   * gives `featureFilename + "/" + name + "/"` when `name` has no `/`.
   */
  lemma AbsoluteFeaturePathOfDir(featureFilename: string, parent: string, name: string, trailing: bool)
    requires |name| > 0 && '/' !in name
    ensures AbsoluteFeaturePath(featureFilename, parent + "/" + name + (if trailing then "/" else "")) ==
            Success(featureFilename + "/" + name + "/")
  {
    TrailingSlashDropped(parent, name, trailing);
    LastSlashBeforeName(parent, name);
    AbsoluteFeaturePathAt(featureFilename, parent + "/" + name + (if trailing then "/" else ""), parent + "/" + name, |parent|);
    SuffixFromSlash(featureFilename, parent, name);
  }

  /** The last `/` of `parent + "/" + name` is the one before `name`, when `name` has none. */
  lemma LastSlashBeforeName(parent: string, name: string)
    requires '/' !in name
    ensures FindLast(parent + "/" + name, '/') == Some(|parent|)
  {
    var rel := parent + "/" + name;
    forall i | |parent| < i < |rel|
      ensures rel[i] != '/'
    {
      assert rel[i] == name[i - |parent| - 1];
    }
    FindLastAt(rel, '/', |parent|);
  }

  /** Cutting `parent + "/" + name` at the `/` keeps `"/" + name`. */
  lemma SuffixFromSlash(featureFilename: string, parent: string, name: string)
    ensures featureFilename + (parent + "/" + name)[|parent|..] + "/" == featureFilename + "/" + name + "/"
  {
    assert (parent + "/" + name)[|parent|..] == "/" + name;
  }

  /** With the trailing `/` dropped, a last `/` at `pos` puts `rel[pos..]` into the path. */
  lemma AbsoluteFeaturePathAt(featureFilename: string, inputDir: string, rel: string, pos: nat)
    requires |inputDir| > 0
    requires rel == if inputDir[|inputDir| - 1] == '/' then inputDir[..|inputDir| - 1] else inputDir
    requires FindLast(rel, '/') == Some(pos)
    ensures AbsoluteFeaturePath(featureFilename, inputDir) == Success(featureFilename + rel[pos..] + "/")
  {
  }

  /** The first step of `getAbsoluteFeaturePath` removes exactly the optional trailing `/`. */
  lemma TrailingSlashDropped(parent: string, name: string, trailing: bool)
    requires |name| > 0 && '/' !in name
    ensures var dir := parent + "/" + name + (if trailing then "/" else "");
            (if dir[|dir| - 1] == '/' then dir[..|dir| - 1] else dir) == parent + "/" + name
  {
    var dir := parent + "/" + name + (if trailing then "/" else "");
    if trailing {
      assert dir[..|dir| - 1] == parent + "/" + name;
    } else {
      assert dir[|dir| - 1] == name[|name| - 1];
    }
  }

  /**
   * The call throws exactly when no `/` comes before the last character of
   * `inputDir` (`"/"`, `"a/"` and `"a"` all throw), and then always with
   * out_of_range.
   */
  lemma AbsoluteFeaturePathFails(featureFilename: string, inputDir: string)
    requires |inputDir| > 0
    ensures AbsoluteFeaturePath(featureFilename, inputDir).Failure? <==> '/' !in inputDir[..|inputDir| - 1]
    ensures AbsoluteFeaturePath(featureFilename, inputDir).Failure? ==>
              AbsoluteFeaturePath(featureFilename, inputDir).error == OutOfRange
  {
    var n := |inputDir|;
    if inputDir[n - 1] != '/' {
      assert inputDir == inputDir[..n - 1] + [inputDir[n - 1]];
      assert '/' in inputDir <==> '/' in inputDir[..n - 1];
    }
  }

  /** The state of an `F_LoadFromFile` feature source. */
  class FeatureSource {
    var featureSize: nat
    var nFeatures: nat
    var featurePath: string
    var initialized: bool

    /** A new source has no features, no path and is not initialised. */
    constructor ()
      ensures featureSize == 0 && nFeatures == 0 && featurePath == "" && !initialized
    {
      featureSize := 0;
      nFeatures := 0;
      featurePath := "";
      initialized := false;
    }

    /**
     * `loadFeatureFilenames(filename, lFeatureFilenames)`: `listFile` holds
     * the lines of the list file, or `None` when it cannot be opened (the
     * program exits). The first line becomes `featurePath`; every later
     * non-empty line is appended to `names`, in order.
     */
    method LoadFeatureFilenames(listFile: Option<seq<string>>, names: seq<string>)
      returns (r: Result<seq<string>, LoadError>)
      modifies this`featurePath
      ensures listFile.None? ==> r == Failure(CannotOpen) && featurePath == old(featurePath)
      ensures listFile.Some? ==> r.Success?
      ensures listFile.Some? ==> featurePath == if listFile.value == [] then "" else listFile.value[0]
      ensures listFile.Some? && listFile.value != [] ==> r.value == names + NonEmptyLines(listFile.value[1..])
      ensures listFile.Some? && listFile.value == [] ==> r.value == names
    {
      if listFile.None? {
        return Failure(CannotOpen);
      }
      var lines := listFile.value;
      if lines == [] {
        featurePath := "";
        return Success(names);
      }
      featurePath := lines[0];
      var out := names;
      var n := 1;
      while n < |lines|
        invariant 1 <= n <= |lines| && featurePath == lines[0]
        invariant out == names + NonEmptyLines(lines[1..n])
      {
        var fn := lines[n];
        NonEmptyLinesAppend(lines[1..n], [fn]);
        assert lines[1..n + 1] == lines[1..n] + [fn];
        if fn != "" {
          out := out + [fn];
        }
        n := n + 1;
      }
      assert lines[1..n] == lines[1..];
      return Success(out);
    }

    /**
     * `init(slice3d, filename, lNodes)`: a no-op once initialised. With
     * feature files listed, the extension of the first picks the TIF, the
     * binary or the text loader; with none, the volume's own name is tried
     * under `featurePath`, then with `.bin` added, and otherwise nothing is
     * loaded. Afterwards the source is initialised. `fileExists` and
     * `getExtension` stand for the file system query and the utility the
     * code calls.
     */
    method Init(volumeName: string, listFile: Option<seq<string>>,
                fileExists: string -> bool, getExtension: string -> string)
      returns (r: Result<Loading, LoadError>)
      modifies this`featurePath, this`initialized
      ensures old(initialized) ==> r == Success(AlreadyLoaded) && featurePath == old(featurePath) && initialized
      ensures !old(initialized) && listFile.None? ==> r == Failure(CannotOpen) && !initialized
      ensures !old(initialized) && listFile.Some? ==> r.Success? && initialized && r.value != AlreadyLoaded
      ensures !old(initialized) && listFile.Some? ==>
        var lines := listFile.value;
        var names := if lines == [] then [] else NonEmptyLines(lines[1..]);
        var featName := Superpixel.NameWithoutExtension(volumeName);
        var full := featurePath + "/" + featName;
        featurePath == (if lines == [] then "" else lines[0]) &&
        (names != [] ==>
          r.value == (if getExtension(names[0]) == "tif" then FromTif(names)
                      else if getExtension(names[0]) == "bin" then FromBinary(names)
                      else FromText(names))) &&
        (names == [] ==>
          r.value == (if fileExists(full) then FromText([featName])
                      else if fileExists(full + ".bin") then FromBinary([featName + ".bin"])
                      else NoFeatures))
    {
      if initialized {
        return Success(AlreadyLoaded);
      }
      var loaded := LoadFeatureFilenames(listFile, []);
      if loaded.Failure? {
        return Failure(loaded.error);
      }
      var names := loaded.value;
      var loading := PickLoader(names, volumeName, fileExists, getExtension);
      initialized := true;
      return Success(loading);
    }

    /**
     * The loader `init` picks for the listed feature files `names`: by the
     * extension of the first, or, with none listed, by which of the
     * volume's own feature files exists under `featurePath`.
     */
    method PickLoader(names: seq<string>, volumeName: string,
                      fileExists: string -> bool, getExtension: string -> string)
      returns (loading: Loading)
      ensures loading != AlreadyLoaded
      ensures names != [] ==>
        loading == (if getExtension(names[0]) == "tif" then FromTif(names)
                    else if getExtension(names[0]) == "bin" then FromBinary(names)
                    else FromText(names))
      ensures names == [] ==>
        var featName := Superpixel.NameWithoutExtension(volumeName);
        var full := featurePath + "/" + featName;
        loading == (if fileExists(full) then FromText([featName])
                    else if fileExists(full + ".bin") then FromBinary([featName + ".bin"])
                    else NoFeatures)
    {
      if |names| == 0 {
        var featName := Superpixel.NameWithoutExtension(volumeName);
        var fullpath := featurePath + "/";
        fullpath := fullpath + featName;
        if fileExists(fullpath) {
          loading := FromText([featName]);
        } else {
          var fullpathWithExt := fullpath + ".bin";
          featName := featName + ".bin";
          if fileExists(fullpathWithExt) {
            loading := FromBinary([featName]);
          } else {
            loading := NoFeatures;
          }
        }
      } else {
        var ext := getExtension(names[0]);
        if ext == "tif" {
          loading := FromTif(names);
        } else if ext == "bin" {
          loading := FromBinary(names);
        } else {
          loading := FromText(names);
        }
      }
    }
  }
}
