/** The shared constants and helpers of the build scripts: the namespace of the
    definition, where a generated file goes, and which files of a directory walk
    are definition files. */
module Header {
  import opened Wrappers
  import Text
  import PosixPath
  import Prov

  const VERSION: string := "0.1"
  const NS_PREFIX: string := "seis_prov"
  const NS_URL: string := "http://seisprov.org/seis_prov/" + VERSION + "/#"

  /** The namespace the documentation is built for is the one the validator looks
      for. */
  lemma NamespaceAgrees()
    ensures NS_URL == Prov.SEIS_PROV_NAMESPACE
    ensures NS_PREFIX + ":" == "seis_prov:"
  {
  }

  const NODE_TYPES: seq<string> := ["activities", "entities", "agents", "examples"]
  const FILE_TYPES: seq<string> := ["xml", "dot", "py", "json", "provn"]
  const QUALIFIERS: seq<string> := ["min", "max"]

  /** The exception a failed `assert` raises. */
  const ASSERTION_ERROR: string := "AssertionError"

  /** `min_or_max.lower() if min_or_max else None`: an absent or empty qualifier is
      no qualifier. */
  function Qualifier(minOrMax: Option<string>): (q: Option<string>)
    ensures q.Some? <==> minOrMax.Some? && minOrMax.value != ""
    ensures q.Some? ==> q.value == Text.Lower(minOrMax.value)
  {
    if minOrMax.Some? && minOrMax.value != "" then Some(Text.Lower(minOrMax.value)) else None
  }

  /** The values `get_filename` accepts, once lower-cased. */
  predicate Allowed(nodeType: string, fileType: string, qualifier: Option<string>) {
    nodeType in NODE_TYPES && fileType in FILE_TYPES && (qualifier.None? || qualifier.value in QUALIFIERS)
  }

  /** The name of the generated file: the stem, the qualifier after `_` when there
      is one, and the file type as extension. */
  function GeneratedName(stem: string, qualifier: Option<string>, fileType: string): (r: string)
    ensures |stem| + |fileType| < |r|
    ensures r[..|stem|] == stem && r[|r| - |fileType| - 1..] == "." + fileType
  {
    if qualifier.Some? then stem + "_" + qualifier.value + "." + fileType
    else stem + "." + fileType
  }

  /** `get_filename`: `generatedDir` is the scripts' `_generated` directory. The
      type names are lower-cased and then asserted to be allowed; the result is the
      input file's stem, renamed for the qualifier and file type, in the
      `<file type>/<node type>` folder below `generatedDir`. */
  function GetFilename(generatedDir: string, filename: string, nodeType: string, fileType: string, minOrMax: Option<string>): (r: Outcome<string>)
    ensures r.Ok? <==> Allowed(Text.Lower(nodeType), Text.Lower(fileType), Qualifier(minOrMax))
    ensures !r.Ok? ==> r == Raised(ASSERTION_ERROR)
  {
    var nodeType := Text.Lower(nodeType);
    var fileType := Text.Lower(fileType);
    var qualifier := Qualifier(minOrMax);
    if nodeType !in NODE_TYPES then Raised(ASSERTION_ERROR)
    else if fileType !in FILE_TYPES then Raised(ASSERTION_ERROR)
    else if qualifier.Some? && qualifier.value !in QUALIFIERS then Raised(ASSERTION_ERROR)
    else
      var stem := PosixPath.Stem(filename);
      var folder := PosixPath.Join(PosixPath.Join(generatedDir, fileType), nodeType);
      Ok(PosixPath.Join(folder, GeneratedName(stem, qualifier, fileType)))
  }

  /** The type names are matched without regard to case: lower-casing them first
      changes nothing. */
  lemma GetFilenameIgnoresCase(generatedDir: string, filename: string, nodeType: string, fileType: string, minOrMax: Option<string>)
    ensures var lowered := if minOrMax.Some? then Some(Text.Lower(minOrMax.value)) else None;
      GetFilename(generatedDir, filename, nodeType, fileType, minOrMax) ==
      GetFilename(generatedDir, filename, Text.Lower(nodeType), Text.Lower(fileType), lowered)
  {
    Text.LowerIdempotent(nodeType);
    Text.LowerIdempotent(fileType);
    if minOrMax.Some? {
      Text.LowerIdempotent(minOrMax.value);
    }
  }

  /** No allowed value holds a '/' or a '.'. */
  lemma AllowedAreNames(nodeType: string, fileType: string, qualifier: Option<string>)
    requires Allowed(nodeType, fileType, qualifier)
    ensures |nodeType| > 0 && '/' !in nodeType
    ensures |fileType| > 0 && '/' !in fileType && '.' !in fileType
    ensures qualifier.Some? ==> '/' !in qualifier.value && '.' !in qualifier.value
  {
  }

  /** A generated file lies in `<generatedDir>/<file type>/<node type>/`, with the
      lower-cased type names, and is named by GeneratedName. */
  lemma GeneratedPath(generatedDir: string, filename: string, nodeType: string, fileType: string, minOrMax: Option<string>)
    requires GetFilename(generatedDir, filename, nodeType, fileType, minOrMax).Ok?
    requires generatedDir != "" && generatedDir[|generatedDir| - 1] != '/'
    ensures var path := GetFilename(generatedDir, filename, nodeType, fileType, minOrMax).value;
      var name := GeneratedName(PosixPath.Stem(filename), Qualifier(minOrMax), Text.Lower(fileType));
      && path == generatedDir + "/" + Text.Lower(fileType) + "/" + Text.Lower(nodeType) + "/" + name
      && PosixPath.Basename(path) == name
  {
    var nt, ft, q := Text.Lower(nodeType), Text.Lower(fileType), Qualifier(minOrMax);
    AllowedAreNames(nt, ft, q);
    var stem := PosixPath.Stem(filename);
    var name := GeneratedName(stem, q, ft);
    assert '/' !in name by {
      if q.Some? {
        assert name == stem + "_" + q.value + "." + ft;
      } else {
        assert name == stem + "." + ft;
      }
      assert forall k :: 0 <= k < |name| ==> name[k] in stem || name[k] in "_." || (q.Some? && name[k] in q.value) || name[k] in ft;
    }
    var folder := PosixPath.Join(PosixPath.Join(generatedDir, ft), nt);
    assert folder == generatedDir + "/" + ft + "/" + nt;
    PosixPath.BasenameOfJoin(folder, name);
  }

  /** `splitext` of the generated name gives back the file type as extension and
      the stem with its qualifier as root, unless the name has neither qualifier
      nor any character but dots before the extension. */
  lemma GeneratedNameParts(stem: string, qualifier: Option<string>, fileType: string)
    requires '/' !in stem && fileType != "" && '/' !in fileType && '.' !in fileType
    requires qualifier.Some? ==> '/' !in qualifier.value && '.' !in qualifier.value
    requires qualifier.Some? || exists k :: 0 <= k < |stem| && stem[k] != '.'
    ensures var root := if qualifier.Some? then stem + "_" + qualifier.value else stem;
      PosixPath.SplitExt(GeneratedName(stem, qualifier, fileType)) == (root, "." + fileType)
  {
    if qualifier.Some? {
      var root := stem + "_" + qualifier.value;
      assert root[|stem|] == '_';
      assert GeneratedName(stem, qualifier, fileType) == root + "." + fileType;
      assert forall k :: 0 <= k < |root| ==> root[k] != '/' by {
        forall k | 0 <= k < |root| ensures root[k] != '/' {
          if k < |stem| {
            assert root[k] == stem[k];
          } else if k > |stem| {
            assert root[k] == qualifier.value[k - |stem| - 1];
          }
        }
      }
      PosixPath.SplitExtOfAppended(root, fileType);
    } else {
      PosixPath.SplitExtOfAppended(stem, fileType);
    }
  }

  /** One file reported by the directory walk: the directory and the file's name. */
  datatype WalkEntry = WalkEntry(dirpath: string, filename: string)

  /** The extension of the name, lower-cased, is ".json". */
  predicate IsJsonName(filename: string) {
    Text.Lower(PosixPath.SplitExt(filename).1) == ".json"
  }

  function FullPath(e: WalkEntry): string {
    PosixPath.Join(e.dirpath, e.filename)
  }

  /** Whether the walk's entry is yielded by `json_files`: a JSON name whose full
      path is not excluded. */
  predicate Yielded(e: WalkEntry, exclude: seq<string>) {
    IsJsonName(e.filename) && FullPath(e) !in exclude
  }

  /** The decision on each entry of the walk. */
  function Marks(walk: seq<WalkEntry>, exclude: seq<string>): (marks: seq<bool>)
    ensures |marks| == |walk|
    ensures forall i :: 0 <= i < |walk| ==> marks[i] == Yielded(walk[i], exclude)
  {
    seq(|walk|, i requires 0 <= i < |walk| => Yielded(walk[i], exclude))
  }

  /** The full paths of the marked entries, in order. */
  function Kept(walk: seq<WalkEntry>, marks: seq<bool>): seq<string>
    requires |marks| == |walk|
    decreases |walk|
  {
    if walk == [] then []
    else
      var n := |walk| - 1;
      Kept(walk[..n], marks[..n]) + (if marks[n] then [FullPath(walk[n])] else [])
  }

  /** The paths `json_files` yields, in the walk's order. */
  function JsonFiles(walk: seq<WalkEntry>, exclude: seq<string>): seq<string> {
    Kept(walk, Marks(walk, exclude))
  }

  lemma {:induction false} KeptSpec(walk: seq<WalkEntry>, marks: seq<bool>)
    requires |marks| == |walk|
    ensures |Kept(walk, marks)| <= |walk|
    ensures forall p :: p in Kept(walk, marks) <==> exists i :: 0 <= i < |walk| && marks[i] && p == FullPath(walk[i])
    decreases |walk|
  {
    if walk != [] {
      var n := |walk| - 1;
      KeptSpec(walk[..n], marks[..n]);
      forall p ensures p in Kept(walk, marks) <==> exists i :: 0 <= i < |walk| && marks[i] && p == FullPath(walk[i]) {
        if p in Kept(walk[..n], marks[..n]) {
          var i :| 0 <= i < n && marks[..n][i] && p == FullPath(walk[..n][i]);
          assert walk[i] == walk[..n][i] && marks[i] == marks[..n][i];
        }
        if exists i :: 0 <= i < |walk| && marks[i] && p == FullPath(walk[i]) {
          var i :| 0 <= i < |walk| && marks[i] && p == FullPath(walk[i]);
          if i < n {
            assert walk[..n][i] == walk[i] && marks[..n][i] == marks[i];
          }
        }
      }
    }
  }

  lemma {:induction false} KeptKeepsOrder(first: seq<WalkEntry>, second: seq<WalkEntry>, m1: seq<bool>, m2: seq<bool>)
    requires |m1| == |first| && |m2| == |second|
    ensures Kept(first + second, m1 + m2) == Kept(first, m1) + Kept(second, m2)
    decreases |second|
  {
    if second == [] {
      assert first + second == first && m1 + m2 == m1;
    } else {
      var n := |second| - 1;
      KeptKeepsOrder(first, second[..n], m1, m2[..n]);
      var whole, marks := first + second, m1 + m2;
      assert whole[..|whole| - 1] == first + second[..n];
      assert marks[..|marks| - 1] == m1 + m2[..n];
      assert whole[|whole| - 1] == second[n] && marks[|marks| - 1] == m2[n];
    }
  }

  /** A path is yielded exactly when it is the full path of a walk entry with a
      JSON name that is not excluded; so no excluded path is ever yielded, and at
      most one path per entry. */
  lemma JsonFilesSpec(walk: seq<WalkEntry>, exclude: seq<string>)
    ensures |JsonFiles(walk, exclude)| <= |walk|
    ensures forall p :: p in JsonFiles(walk, exclude) <==>
      exists i :: 0 <= i < |walk| && IsJsonName(walk[i].filename) && p !in exclude && p == FullPath(walk[i])
    ensures forall p :: p in exclude ==> p !in JsonFiles(walk, exclude)
  {
    KeptSpec(walk, Marks(walk, exclude));
  }

  /** The filter keeps the walk's order: the paths of one part of the walk followed
      by another are those of the first part followed by those of the second. */
  lemma JsonFilesKeepOrder(first: seq<WalkEntry>, second: seq<WalkEntry>, exclude: seq<string>)
    ensures JsonFiles(first + second, exclude) == JsonFiles(first, exclude) + JsonFiles(second, exclude)
  {
    assert Marks(first + second, exclude) == Marks(first, exclude) + Marks(second, exclude);
    KeptKeepsOrder(first, second, Marks(first, exclude), Marks(second, exclude));
  }

  /** A name with a stem that is not only dots and a dot-free extension is a JSON
      name exactly when the extension is "json" in any case. */
  lemma JsonNameByExtension(stem: string, ext: string)
    requires '/' !in stem && '/' !in ext && '.' !in ext
    requires exists k :: 0 <= k < |stem| && stem[k] != '.'
    ensures IsJsonName(stem + "." + ext) <==> Text.Lower(ext) == "json"
  {
    PosixPath.SplitExtOfAppended(stem, ext);
    assert Text.Lower("." + ext) == "." + Text.Lower(ext);
    if Text.Lower("." + ext) == ".json" {
      assert Text.Lower(ext) == Text.Lower("." + ext)[1..];
    }
  }

  /** A name made of dots before ".json", such as ".json" itself, has no extension
      for `splitext` and is not a JSON name. */
  lemma DotNamesAreNotJson(dots: string)
    requires forall k :: 0 <= k < |dots| ==> dots[k] == '.'
    ensures !IsJsonName(dots + ".json")
  {
    var p := dots + ".json";
    var dot := |dots|;
    assert p[dot] == '.';
    forall k | dot < k < |p| ensures p[k] != '.' && p[k] != '/' {
      assert p[k] == "json"[k - dot - 1];
    }
    assert PosixPath.LastIndex(p, '.') == dot;
    forall k | 0 <= k < |p| ensures p[k] != '/' {
      if k < dot { assert p[k] == dots[k]; }
    }
    assert PosixPath.LastIndex(p, '/') == -1;
    assert p[..dot] == dots;
    PosixPath.OnlyDotsSpec(dots);
    assert PosixPath.SplitExt(p).1 == "";
  }
}
