/** What the self-check of the definition guarantees: the label rule spelled out
    word by word, the verdict on one file, the first rejected file deciding the run,
    and, on success, a combined definition holding every file under its kind with
    every two-letter code used by exactly one file. */
module DefinitionProperties {
  import opened Wrappers
  import opened Schema
  import opened Definitions
  import Text
  import TypeChecks
  import PosixPath

  /** Every check of one file passes. */
  predicate FileAccepted(f: DefinitionFile) {
    && PosixPath.Stem(f.path) == f.data.name
    && f.data.provLabel == ExpectedLabel(f.data.name, f.data.recordType)
    && f.data.recordType in {"entity", "activity", "agent"}
    && Text.NoDuplicates(AttributeNames(f.data.attributes))
  }

  /** No two files share a two-letter code. */
  predicate CodesDistinct(files: seq<DefinitionFile>) {
    forall i, j :: 0 <= i < j < |files| ==> files[i].data.twoLetterCode != files[j].data.twoLetterCode
  }

  predicate UsesCode(files: seq<DefinitionFile>, code: string) {
    exists i :: 0 <= i < |files| && files[i].data.twoLetterCode == code
  }

  /** The paths of the files using `code`, in order. */
  function PathsWithCode(files: seq<DefinitionFile>, code: string): seq<string>
    decreases |files|
  {
    if files == [] then []
    else
      var n := |files| - 1;
      PathsWithCode(files[..n], code) + (if files[n].data.twoLetterCode == code then [files[n].path] else [])
  }

  /** The expected label of a non-agent has the length of the name, and its words
      (split at single spaces) are the name's `_`-separated pieces, capitalised. */
  lemma ExpectedLabelSpelling(name: string, recordType: string)
    requires recordType != "agent"
    ensures |ExpectedLabel(name, recordType)| == |name|
    ensures ' ' !in name ==>
      Text.Split(ExpectedLabel(name, recordType), ' ') == Text.CapitalizeAll(Text.Split(name, '_'))
  {
    var pieces := Text.Split(name, '_');
    var words := Text.CapitalizeAll(pieces);
    Text.SplitJoin(name, '_');
    Text.JoinLengthsAgree(" ", "_", words, pieces);
    if ' ' !in name {
      Text.SplitKeepsOut(name, '_', ' ');
      forall k | 0 <= k < |words| ensures ' ' !in words[k] {
        Text.CapitalizeKeepsOut(pieces[k], ' ');
      }
      Text.SplitOfJoin(words, ' ');
    }
  }

  /** Label of the example documents' entity type: `waveform_trace` is labelled
      "Waveform Trace", and as an agent it could carry any label. */
  lemma WaveformTraceLabel(waveformTrace: string)
    requires waveformTrace == "waveform_trace"
    ensures ExpectedLabel(waveformTrace, "entity") == "Waveform Trace"
    ensures ExpectedLabel(waveformTrace, "agent") == "*"
  {
    var waveform, trace := waveformTrace[..8], waveformTrace[9..];
    LowerWord(waveform, "waveform", "Waveform");
    LowerWord(trace, "trace", "Trace");
    assert waveformTrace == waveform + "_" + trace;
    TwoWordLabel(waveform, trace, "Waveform", "Trace");
  }

  /** Label of the example documents' activity type: `cross_correlate` is labelled
      "Cross Correlate". */
  lemma CrossCorrelateLabel(crossCorrelate: string)
    requires crossCorrelate == "cross_correlate"
    ensures ExpectedLabel(crossCorrelate, "activity") == "Cross Correlate"
  {
    var cross, correlate := crossCorrelate[..5], crossCorrelate[6..];
    CrossCorrelateWords(cross, correlate);
    assert crossCorrelate == cross + "_" + correlate;
    TwoWordLabel(cross, correlate, "Cross", "Correlate");
  }

  lemma CrossCorrelateWords(cross: string, correlate: string)
    requires cross == "cross" && correlate == "correlate"
    ensures '_' !in cross && Text.Capitalize(cross) == "Cross"
    ensures '_' !in correlate && Text.Capitalize(correlate) == "Correlate"
  {
    LowerWord(cross, "cross", "Cross");
    LowerWord(correlate, "correlate", "Correlate");
  }

  /** A lower-case word is capitalised by upper-casing its first letter. */
  lemma LowerWord(w: string, lower: string, upper: string)
    requires w == lower && |lower| > 0 && |upper| == |lower|
    requires forall i :: 0 <= i < |lower| ==> 'a' <= lower[i] <= 'z'
    requires upper[0] == Text.UpperChar(lower[0]) && upper[1..] == lower[1..]
    ensures '_' !in w && Text.Capitalize(w) == upper
  {
    CapitalizeWord(w);
  }

  /** A word with no upper-case letter after its first character is capitalised by
      upper-casing that first character alone. */
  lemma CapitalizeWord(w: string)
    requires |w| > 0 && forall i :: 0 < i < |w| ==> !('A' <= w[i] <= 'Z')
    ensures Text.Capitalize(w) == [Text.UpperChar(w[0])] + w[1..]
  {
    assert Text.Lower(w[1..]) == w[1..];
  }

  /** The label of a two-piece name is the two pieces capitalised, joined by a
      space. */
  lemma TwoWordLabel(first: string, second: string, First: string, Second: string)
    requires '_' !in first && '_' !in second
    requires Text.Capitalize(first) == First && Text.Capitalize(second) == Second
    ensures ExpectedLabel(first + "_" + second, "entity") == First + " " + Second
    ensures ExpectedLabel(first + "_" + second, "activity") == First + " " + Second
  {
    Text.SplitAfterPiece(first, '_', second);
    Text.SplitOfPiece(second, '_');
    assert Text.Split(first + "_" + second, '_') == [first, second];
    assert Text.CapitalizeAll([first, second]) == [First, Second];
    assert [First, Second][1..] == [Second];
    assert Text.Join(" ", [First, Second]) == First + " " + Text.Join(" ", [Second]);
    assert TitleWords(first + "_" + second) == Text.Join(" ", [First, Second]);
  }

  /** The verdict on one file: it passes exactly when every check passes, and a
      failing file fails at its first failing check, in the script's order. */
  lemma FileVerdictSpec(f: DefinitionFile)
    ensures FileVerdict(f).Ok? <==> FileAccepted(f)
    ensures PosixPath.Stem(f.path) != f.data.name ==> FileVerdict(f) == Invalid(NameMessage(f.path, f.data.name))
    ensures PosixPath.Stem(f.path) == f.data.name && f.data.provLabel != ExpectedLabel(f.data.name, f.data.recordType) ==>
      FileVerdict(f) == Invalid(LabelMessage(f.path, f.data.provLabel, ExpectedLabel(f.data.name, f.data.recordType)))
    ensures (PosixPath.Stem(f.path) == f.data.name && f.data.provLabel == ExpectedLabel(f.data.name, f.data.recordType)
             && f.data.recordType !in {"entity", "activity", "agent"}) ==>
      FileVerdict(f) == Raised(TypeChecks.NOT_IMPLEMENTED)
  {
    DuplicatesEmpty(AttributeNames(f.data.attributes));
  }

  /** A file whose other checks pass but which declares an attribute name twice is
      rejected, and the message lists exactly the repeated names. */
  lemma DuplicateAttributesRejected(f: DefinitionFile, i: nat, j: nat)
    requires PosixPath.Stem(f.path) == f.data.name && f.data.provLabel == ExpectedLabel(f.data.name, f.data.recordType)
    requires f.data.recordType in {"entity", "activity", "agent"}
    requires i < j < |f.data.attributes| && f.data.attributes[i].name == f.data.attributes[j].name
    ensures exists names ::
      && FileVerdict(f) == Invalid(DuplicateAttributesMessage(f.path, names))
      && f.data.attributes[i].name in names
      && forall x :: x in names <==>
           exists a, b :: 0 <= a < b < |f.data.attributes| && f.data.attributes[a].name == x && f.data.attributes[b].name == x
  {
    var attrNames := AttributeNames(f.data.attributes);
    var names := Text.Duplicates(attrNames);
    DuplicatesEmpty(attrNames);
    forall x ensures x in names <==>
      exists a, b :: 0 <= a < b < |f.data.attributes| && f.data.attributes[a].name == x && f.data.attributes[b].name == x
    {
      Text.CountAboveOne(attrNames, x);
    }
    assert attrNames[i] == attrNames[j];
    assert FileVerdict(f) == Invalid(DuplicateAttributesMessage(f.path, names));
  }

  /** `set(...)` is empty exactly when no name repeats. */
  lemma DuplicatesEmpty(s: seq<string>)
    ensures Text.Duplicates(s) == [] <==> Text.NoDuplicates(s)
  {
    if !Text.NoDuplicates(s) {
      var i, j :| 0 <= i < j < |s| && s[i] == s[j];
      Text.CountAboveOne(s, s[i]);
      assert s[i] in Text.Duplicates(s);
    }
    if Text.Duplicates(s) != [] {
      var x := Text.Duplicates(s)[0];
      Text.CountAboveOne(s, x);
    }
  }

  /** The file loop passes exactly when every file's verdict does. */
  lemma {:induction false} RunPassesIffAllPass(files: seq<DefinitionFile>, vs: seq<Outcome<Kind>>)
    requires |vs| == |files|
    ensures Run(files, vs).Ok? <==> forall i :: 0 <= i < |vs| ==> vs[i].Ok?
    decreases |files|
  {
    if files != [] {
      var n := |files| - 1;
      RunPassesIffAllPass(files[..n], vs[..n]);
      assert forall i :: 0 <= i < n ==> vs[..n][i] == vs[i];
    }
  }

  /** After the loop, the code table has an entry for exactly the codes in use. */
  lemma {:induction false} RunCodeKeys(files: seq<DefinitionFile>, vs: seq<Outcome<Kind>>)
    requires |vs| == |files| && Run(files, vs).Ok?
    ensures forall c :: c in Run(files, vs).value.codes <==> UsesCode(files, c)
    decreases |files|
  {
    if files != [] {
      var n := |files| - 1;
      var prefix := files[..n];
      RunCodeKeys(prefix, vs[..n]);
      var q := Run(prefix, vs[..n]).value;
      var p := Run(files, vs).value;
      var f := files[n];
      assert p.codes.Keys == q.codes.Keys + {f.data.twoLetterCode};
      forall c ensures c in p.codes <==> UsesCode(files, c) {
        if UsesCode(files, c) && c != f.data.twoLetterCode {
          var i :| 0 <= i < |files| && files[i].data.twoLetterCode == c;
          assert prefix[i] == files[i];
        }
        if UsesCode(prefix, c) {
          var i :| 0 <= i < |prefix| && prefix[i].data.twoLetterCode == c;
          assert files[i] == prefix[i];
        }
      }
    }
  }

  /** After the loop, each code maps to the paths of the files using it, in order. */
  lemma {:induction false} RunCodePaths(files: seq<DefinitionFile>, vs: seq<Outcome<Kind>>)
    requires |vs| == |files| && Run(files, vs).Ok?
    ensures forall c :: c in Run(files, vs).value.codes ==> Run(files, vs).value.codes[c] == PathsWithCode(files, c)
    decreases |files|
  {
    if files != [] {
      var n := |files| - 1;
      var prefix := files[..n];
      RunCodePaths(prefix, vs[..n]);
      RunCodeKeys(prefix, vs[..n]);
      var q := Run(prefix, vs[..n]).value;
      var p := Run(files, vs).value;
      var f := files[n];
      var code := f.data.twoLetterCode;
      assert p.codes == q.codes[code := (if code in q.codes then q.codes[code] else []) + [f.path]];
      SharedPaths(prefix, code);
      forall c | c in p.codes ensures p.codes[c] == PathsWithCode(files, c) {
        assert PathsWithCode(files, c) == PathsWithCode(prefix, c) + (if code == c then [f.path] else []);
      }
    }
  }

  /** The last step of a passing run: the run before it passed, the last file
      passed, and it was committed. */
  lemma LastStep(files: seq<DefinitionFile>, vs: seq<Outcome<Kind>>)
    requires |vs| == |files| && files != [] && Run(files, vs).Ok?
    ensures var n := |files| - 1;
      && Run(files[..n], vs[..n]).Ok? && vs[n].Ok?
      && Run(files, vs).value == Commit(Run(files[..n], vs[..n]).value, files[n], vs[n].value)
  {
  }

  /** After the loop, every entry of a collection is the definition of a file of
      that kind, stored under its own name. */
  lemma {:induction false} RunCollectsFromFiles(files: seq<DefinitionFile>, vs: seq<Outcome<Kind>>)
    requires |vs| == |files| && Run(files, vs).Ok?
    ensures forall k, n :: n in Collection(Run(files, vs).value.collected, k) ==>
      && Collection(Run(files, vs).value.collected, k)[n].name == n
      && exists i :: 0 <= i < |files| && vs[i] == Ok(k) && files[i].data == Collection(Run(files, vs).value.collected, k)[n]
    decreases |files|
  {
    if files != [] {
      var n := |files| - 1;
      var prefix, pvs := files[..n], vs[..n];
      LastStep(files, vs);
      RunCollectsFromFiles(prefix, pvs);
      var q := Run(prefix, pvs).value;
      var p := Run(files, vs).value;
      var f := files[n];
      var kind := vs[n].value;
      assert p.collected == Store(q.collected, kind, f.data);
      forall k, m | m in Collection(p.collected, k)
        ensures Collection(p.collected, k)[m].name == m
        ensures exists i :: 0 <= i < |files| && vs[i] == Ok(k) && files[i].data == Collection(p.collected, k)[m]
      {
        if k == kind && m == f.data.name {
          assert vs[n] == Ok(k);
        } else {
          assert m in Collection(q.collected, k) && Collection(p.collected, k)[m] == Collection(q.collected, k)[m];
          var i :| 0 <= i < |prefix| && pvs[i] == Ok(k) && prefix[i].data == Collection(q.collected, k)[m];
          assert vs[i] == pvs[i] && files[i] == prefix[i];
        }
      }
    }
  }

  /** After the loop, every file passed and its definition has an entry under its
      name in the collection of its kind. */
  lemma {:induction false} RunCollectsEveryFile(files: seq<DefinitionFile>, vs: seq<Outcome<Kind>>)
    requires |vs| == |files| && Run(files, vs).Ok?
    ensures forall i :: 0 <= i < |files| ==>
      vs[i].Ok? && files[i].data.name in Collection(Run(files, vs).value.collected, vs[i].value)
    decreases |files|
  {
    if files != [] {
      var n := |files| - 1;
      var prefix, pvs := files[..n], vs[..n];
      LastStep(files, vs);
      RunCollectsEveryFile(prefix, pvs);
      var q := Run(prefix, pvs).value;
      var p := Run(files, vs).value;
      assert p.collected == Store(q.collected, vs[n].value, files[n].data);
      forall i | 0 <= i < |files|
        ensures vs[i].Ok? && files[i].data.name in Collection(p.collected, vs[i].value)
      {
        if i < n {
          assert vs[i] == pvs[i] && files[i] == prefix[i];
        }
      }
    }
  }

  /** Used in some file exactly when one of the files carries the code. */
  lemma {:induction false} PathsCount(files: seq<DefinitionFile>, code: string)
    ensures |PathsWithCode(files, code)| >= 1 <==> UsesCode(files, code)
    decreases |files|
  {
    if files != [] {
      var n := |files| - 1;
      var prefix := files[..n];
      PathsCount(prefix, code);
      if UsesCode(files, code) && files[n].data.twoLetterCode != code {
        var i :| 0 <= i < |files| && files[i].data.twoLetterCode == code;
        assert prefix[i] == files[i];
      }
      if UsesCode(prefix, code) {
        var i :| 0 <= i < |prefix| && prefix[i].data.twoLetterCode == code;
        assert files[i] == prefix[i];
      }
    }
  }

  /** Used in at least two files exactly when two of the files carry the code. */
  lemma {:induction false} SharedPaths(files: seq<DefinitionFile>, code: string)
    ensures |PathsWithCode(files, code)| >= 2 <==>
      exists i, j :: 0 <= i < j < |files| && files[i].data.twoLetterCode == code && files[j].data.twoLetterCode == code
    ensures |PathsWithCode(files, code)| >= 1 <==> UsesCode(files, code)
    decreases |files|
  {
    PathsCount(files, code);
    if files != [] {
      var n := |files| - 1;
      var prefix := files[..n];
      SharedPaths(prefix, code);
      PathsCount(prefix, code);
      if |PathsWithCode(files, code)| >= 2 {
        if |PathsWithCode(prefix, code)| >= 2 {
          var i, j :| 0 <= i < j < |prefix| && prefix[i].data.twoLetterCode == code && prefix[j].data.twoLetterCode == code;
          assert files[i] == prefix[i] && files[j] == prefix[j];
        } else {
          var i :| 0 <= i < |prefix| && prefix[i].data.twoLetterCode == code;
          assert files[i] == prefix[i];
          assert files[n].data.twoLetterCode == code;
        }
      }
      if exists i, j :: 0 <= i < j < |files| && files[i].data.twoLetterCode == code && files[j].data.twoLetterCode == code {
        var i, j :| 0 <= i < j < |files| && files[i].data.twoLetterCode == code && files[j].data.twoLetterCode == code;
        assert prefix[i] == files[i];
        if j < n {
          assert prefix[j] == files[j];
        } else {
          assert UsesCode(prefix, code);
        }
      }
    }
  }

  /** The file loop passes exactly when every file passes its checks. */
  lemma ProcessPassesIffFilesAccepted(files: seq<DefinitionFile>)
    ensures Process(files).Ok? <==> forall i :: 0 <= i < |files| ==> FileAccepted(files[i])
  {
    var vs := Verdicts(files);
    RunPassesIffAllPass(files, vs);
    forall i | 0 <= i < |files| ensures vs[i].Ok? <==> FileAccepted(files[i]) {
      FileVerdictSpec(files[i]);
    }
  }

  /** After a passing file loop, the code check finds no shared code exactly when
      no two files share one. */
  lemma CodeCheckPassesIffDistinct(files: seq<DefinitionFile>)
    requires Process(files).Ok?
    ensures FirstSharedCode(Process(files).value.order, Process(files).value.codes).None? <==> CodesDistinct(files)
  {
    var vs := Verdicts(files);
    var p := Process(files).value;
    RunCodeKeys(files, vs);
    RunCodePaths(files, vs);
    if CodesDistinct(files) {
      forall c | c in p.order ensures |p.codes[c]| == 1 {
        SharedPaths(files, c);
      }
    } else {
      var i, j :| 0 <= i < j < |files| && files[i].data.twoLetterCode == files[j].data.twoLetterCode;
      var c := files[i].data.twoLetterCode;
      SharedPaths(files, c);
      assert UsesCode(files, c);
      assert c in p.order && |p.codes[c]| != 1;
    }
  }

  /** The run passes exactly when every file passes its checks and no two files
      share a two-letter code. */
  lemma DefinitionsAccepted(files: seq<DefinitionFile>)
    ensures ValidateDefinitions(files).Ok? <==> (forall i :: 0 <= i < |files| ==> FileAccepted(files[i])) && CodesDistinct(files)
  {
    ProcessPassesIffFilesAccepted(files);
    if Process(files).Ok? {
      CodeCheckPassesIffDistinct(files);
    }
  }

  /** On success, the combined definition is the one the file loop collected. */
  lemma ValidatedIsCollected(files: seq<DefinitionFile>, s: SeisProvSchema)
    requires ValidateDefinitions(files) == Ok(s)
    ensures Process(files).Ok? && Process(files).value.collected == s
  {
    var p := Process(files);
    if p.Ok? {
      var shared := FirstSharedCode(p.value.order, p.value.codes);
      assert shared.None?;
    }
  }

  /** On success, every file's definition is in the collection of its kind under
      its name, and every entry of the combined definition comes from a file of
      that kind. */
  lemma CombinedDefinition(files: seq<DefinitionFile>, s: SeisProvSchema)
    requires ValidateDefinitions(files) == Ok(s)
    ensures forall i :: 0 <= i < |files| ==>
      && KindOf(files[i].data.recordType).Ok?
      && files[i].data.name in Collection(s, KindOf(files[i].data.recordType).value)
    ensures forall k, n :: n in Collection(s, k) ==>
      && Collection(s, k)[n].name == n
      && exists i :: 0 <= i < |files| && KindOf(files[i].data.recordType) == Ok(k) && files[i].data == Collection(s, k)[n]
  {
    var vs := Verdicts(files);
    ValidatedIsCollected(files, s);
    RunCollectsFromFiles(files, vs);
    RunCollectsEveryFile(files, vs);
    forall i | 0 <= i < |files|
      ensures KindOf(files[i].data.recordType).Ok?
      ensures files[i].data.name in Collection(s, KindOf(files[i].data.recordType).value)
    {
      PassedKind(files[i]);
    }
    forall k, n | n in Collection(s, k)
      ensures exists i :: 0 <= i < |files| && KindOf(files[i].data.recordType) == Ok(k) && files[i].data == Collection(s, k)[n]
    {
      var i :| 0 <= i < |files| && vs[i] == Ok(k) && files[i].data == Collection(s, k)[n];
      PassedKind(files[i]);
    }
  }

  /** A file that passes its checks is filed under the kind of its type. */
  lemma PassedKind(f: DefinitionFile)
    requires FileVerdict(f).Ok?
    ensures KindOf(f.data.recordType) == FileVerdict(f)
  {
  }

  /** Two files with the same two-letter code make the run fail once every file has
      passed its own checks; the message names a shared code and every file using
      it. */
  lemma SharedCodeRejected(files: seq<DefinitionFile>, i: nat, j: nat)
    requires forall k :: 0 <= k < |files| ==> FileAccepted(files[k])
    requires i < j < |files| && files[i].data.twoLetterCode == files[j].data.twoLetterCode
    ensures exists code ::
      && ValidateDefinitions(files) == Invalid(SharedCodeMessage(code, PathsWithCode(files, code)))
      && |PathsWithCode(files, code)| >= 2
  {
    DefinitionsAccepted(files);
    var vs := Verdicts(files);
    RunPassesIffAllPass(files, vs);
    forall k | 0 <= k < |files| ensures vs[k].Ok? {
      FileVerdictSpec(files[k]);
    }
    var p := Process(files).value;
    RunCodeKeys(files, vs);
    RunCodePaths(files, vs);
    var code := FirstSharedCode(p.order, p.codes).value;
    SharedPaths(files, code);
    assert |p.codes[code]| >= 1;
  }

  /** The first file that fails its checks decides the run: its failure is the
      outcome, whatever the files after it hold. */
  lemma FirstRejectedFileDecides(files: seq<DefinitionFile>, i: nat)
    requires i < |files| && FileVerdict(files[i]).IsFailure()
    requires forall k :: 0 <= k < i ==> FileAccepted(files[k])
    ensures ValidateDefinitions(files) == FileVerdict(files[i]).PropagateFailure()
  {
    var vs := Verdicts(files);
    RunPassesIffAllPass(files[..i], vs[..i]);
    forall k | 0 <= k < i ensures vs[..i][k].Ok? {
      FileVerdictSpec(files[k]);
    }
    RunRejects(files, vs, i);
  }
}
