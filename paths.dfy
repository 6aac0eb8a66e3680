/** The parts of Python's `posixpath` that the build scripts use: `basename`,
    `splitext` and `join`. Paths are strings with '/' as separator. */
module PosixPath {

  /** Index of the last occurrence of `c` in `s`, or -1 when there is none. */
  function LastIndex(s: string, c: char): (i: int)
    ensures -1 <= i < |s|
    ensures i >= 0 ==> s[i] == c
    ensures forall k :: i < k < |s| ==> s[k] != c
  {
    if s == [] then -1
    else if s[|s| - 1] == c then |s| - 1
    else LastIndex(s[..|s| - 1], c)
  }

  /** `os.path.basename(p)`: everything after the last '/'. */
  function Basename(p: string): (name: string)
    ensures '/' !in name
  {
    var i := LastIndex(p, '/');
    var name := p[i + 1..];
    assert forall k :: 0 <= k < |name| ==> name[k] != '/' by {
      forall k | 0 <= k < |name| ensures name[k] != '/' {
        assert name[k] == p[i + 1 + k];
      }
    }
    name
  }

  /** `os.path.splitext(p)`: the extension starts at the last '.' after the last '/',
      unless every character between that '/' and the dot is itself a dot (a
      leading-dot name such as ".json" has no extension). */
  function SplitExt(p: string): (string, string) {
    var sep := LastIndex(p, '/');
    var dot := LastIndex(p, '.');
    if dot > sep && !OnlyDots(p[sep + 1..dot]) then (p[..dot], p[dot..])
    else (p, "")
  }

  /** `os.path.splitext(os.path.basename(path))[0]`: the file name without its
      extension. */
  function Stem(path: string): (stem: string)
    ensures '/' !in stem
  {
    var base := Basename(path);
    SplitExtParts(base);
    assert base == SplitExt(base).0 + SplitExt(base).1;
    assert forall k :: 0 <= k < |SplitExt(base).0| ==> SplitExt(base).0[k] == base[k];
    SplitExt(base).0
  }

  /** Every character is a '.' (true of the empty string). */
  predicate OnlyDots(s: string)
    decreases |s|
  {
    s == [] || (s[0] == '.' && OnlyDots(s[1..]))
  }

  lemma {:induction false} OnlyDotsSpec(s: string)
    ensures OnlyDots(s) <==> forall k :: 0 <= k < |s| ==> s[k] == '.'
    decreases |s|
  {
    if s != [] {
      OnlyDotsSpec(s[1..]);
      assert forall k :: 0 < k < |s| ==> s[1..][k - 1] == s[k];
    }
  }

  /** Root and extension always concatenate back to the path; a non-empty extension
      starts with '.' and holds no further '.' or '/'. */
  lemma SplitExtParts(p: string)
    ensures SplitExt(p).0 + SplitExt(p).1 == p
    ensures var e := SplitExt(p).1;
      e == "" || (e[0] == '.' && forall k :: 0 < k < |e| ==> e[k] != '.' && e[k] != '/')
  {
    var sep := LastIndex(p, '/');
    var dot := LastIndex(p, '.');
    if dot > sep && !OnlyDots(p[sep + 1..dot]) {
      var e := p[dot..];
      assert SplitExt(p) == (p[..dot], e);
      assert p[..dot] + e == p;
      forall k | 0 < k < |e| ensures e[k] != '.' && e[k] != '/' {
        assert e[k] == p[dot + k];
      }
    } else {
      assert SplitExt(p) == (p, "");
      assert p + "" == p;
    }
  }

  /** Appending "." + `ext` to a name that is not made of dots only gives a path
      whose extension is exactly that: `splitext` inverts the construction. */
  lemma SplitExtOfAppended(stem: string, ext: string)
    requires '/' !in stem && '/' !in ext && '.' !in ext
    requires exists k :: 0 <= k < |stem| && stem[k] != '.'
    ensures SplitExt(stem + "." + ext) == (stem, "." + ext)
  {
    var p := stem + "." + ext;
    var dot := |stem|;
    assert p[dot] == '.';
    forall k | dot < k < |p| ensures p[k] != '.' && p[k] != '/' {
      assert p[k] == ext[k - dot - 1];
    }
    assert LastIndex(p, '.') == dot;
    forall k | 0 <= k < |p| ensures p[k] != '/' {
      if k < dot { assert p[k] == stem[k]; }
    }
    assert LastIndex(p, '/') == -1;
    var k :| 0 <= k < |stem| && stem[k] != '.';
    assert p[..dot] == stem && p[dot..] == "." + ext;
    OnlyDotsSpec(stem);
  }

  /** `os.path.join(a, b)`. */
  function Join(a: string, b: string): string {
    if |b| > 0 && b[0] == '/' then b
    else if a == "" || a[|a| - 1] == '/' then a + b
    else a + "/" + b
  }

  /** The last component of a joined path is the name that was joined. */
  lemma BasenameOfJoin(a: string, b: string)
    requires '/' !in b
    ensures Basename(Join(a, b)) == b
  {
    var p := Join(a, b);
    var n := |p| - |b|;
    assert p[n..] == b;
    forall k | n <= k < |p| ensures p[k] != '/' {
      assert p[k] == b[k - n];
    }
    if n > 0 {
      assert p[n - 1] == '/';
    }
  }
}
