/** The authoring-time self-check of the SEIS-PROV definition: every definition file
    is checked on its own (name, label, record type, attribute names) and stored
    under its record kind, and at the end no two-letter code may belong to more
    than one file. The result is the combined definition the validator reads.
    Reading and schema-checking the JSON files happen outside this model: the input
    is the sequence of (path, parsed Definition) pairs in the order the directory
    walk yields them. */
module Definitions {
  import opened Wrappers
  import opened Schema
  import Text
  import PosixPath
  import TypeChecks

  /** One definition file: its path as the messages print it, and its contents. */
  datatype DefinitionFile = DefinitionFile(path: string, data: Definition)

  /** The three record kinds, under "entities", "activities" and "agents". */
  datatype Kind = Entities | Activities | Agents

  /** `" ".join(w.capitalize() for w in name.split("_"))` */
  function TitleWords(name: string): string {
    Text.Join(" ", Text.CapitalizeAll(Text.Split(name, '_')))
  }

  /** Agents may carry any label; every other kind has the label spelled out from
      its name. */
  function ExpectedLabel(name: string, recordType: string): string {
    if recordType == "agent" then "*" else TitleWords(name)
  }

  /** The record kind a definition file is stored under; any other type is an
      unimplemented case. */
  function KindOf(recordType: string): (r: Outcome<Kind>)
    ensures r.Ok? <==> recordType in {"entity", "activity", "agent"}
    ensures r.Raised? <==> r == Raised(TypeChecks.NOT_IMPLEMENTED)
  {
    if recordType == "entity" then Ok(Entities)
    else if recordType == "activity" then Ok(Activities)
    else if recordType == "agent" then Ok(Agents)
    else Raised(TypeChecks.NOT_IMPLEMENTED)
  }

  /** The definitions of one kind in the combined definition. */
  function Collection(s: SeisProvSchema, k: Kind): map<string, Definition> {
    match k
    case Entities => s.entities
    case Activities => s.activities
    case Agents => s.agents
  }

  /** `collective[key][d.name] = d`: only the collection of kind `k` changes, and in
      it only the entry for the definition's name. */
  function Store(s: SeisProvSchema, k: Kind, d: Definition): (r: SeisProvSchema)
    ensures Collection(r, k) == Collection(s, k)[d.name := d]
    ensures forall k' :: k' != k ==> Collection(r, k') == Collection(s, k')
  {
    match k
    case Entities => s.(entities := s.entities[d.name := d])
    case Activities => s.(activities := s.activities[d.name := d])
    case Agents => s.(agents := s.agents[d.name := d])
  }

  function AttributeNames(attrs: seq<AttrDef>): (names: seq<string>)
    ensures |names| == |attrs|
    ensures forall i :: 0 <= i < |attrs| ==> names[i] == attrs[i].name
  {
    seq(|attrs|, i requires 0 <= i < |attrs| => attrs[i].name)
  }

  function NameMessage(path: string, name: string): string {
    "File '" + path + "': 'name' attribute '" + name + "' does not correspond to the filename."
  }

  function LabelMessage(path: string, shown: string, expected: string): string {
    "File '" + path + "': 'label' attribute '" + shown + "' is not equal to the expected value '" + expected + "':"
  }

  /** The repeated names are printed as a Python set. */
  function DuplicateAttributesMessage(path: string, names: seq<string>): string {
    "File '" + path + "': Duplicate attributes: {" + Text.QuotedList(names) + "}"
  }

  function SharedCodeMessage(code: string, paths: seq<string>): string {
    "Two letter code '" + code + "' is used in " + Text.NatToString(|paths|) + " files: " + Text.Join(", ", paths)
  }

  /** The checks one file must pass, in source order; on success, the kind it is
      stored under. */
  function FileVerdict(f: DefinitionFile): Outcome<Kind> {
    var d := f.data;
    var name := PosixPath.Stem(f.path);
    if name != d.name then Invalid(NameMessage(f.path, d.name))
    else if ExpectedLabel(name, d.recordType) != d.provLabel then
      Invalid(LabelMessage(f.path, d.provLabel, ExpectedLabel(name, d.recordType)))
    else
      var k :- KindOf(d.recordType);
      var dups := Text.Duplicates(AttributeNames(d.attributes));
      if dups != [] then Invalid(DuplicateAttributesMessage(f.path, dups)) else Ok(k)
  }

  /** The state the file loop builds: `codes` maps each two-letter code to the paths
      of the files using it (a `defaultdict(list)`), `order` lists the codes in order
      of first use (the dictionary's iteration order), `collected` is the combined
      definition. */
  datatype Progress = Progress(codes: map<string, seq<string>>, order: seq<string>, collected: SeisProvSchema)

  const START := Progress(map[], [], SeisProvSchema(map[], map[], map[]))

  /** The state after an accepted file: its path appended under its code, its
      definition stored under its kind. */
  function Commit(p: Progress, f: DefinitionFile, k: Kind): Progress {
    var code := f.data.twoLetterCode;
    var paths := if code in p.codes then p.codes[code] else [];
    Progress(
      p.codes[code := paths + [f.path]],
      if code in p.codes then p.order else p.order + [code],
      Store(p.collected, k, f.data))
  }

  /** The verdict on each file, in order. */
  function Verdicts(files: seq<DefinitionFile>): (vs: seq<Outcome<Kind>>)
    ensures |vs| == |files|
    ensures forall i :: 0 <= i < |files| ==> vs[i] == FileVerdict(files[i])
  {
    seq(|files|, i requires 0 <= i < |files| => FileVerdict(files[i]))
  }

  /** The file loop, given the verdict on each file: the first file that fails its
      checks ends the run. */
  function Run(files: seq<DefinitionFile>, vs: seq<Outcome<Kind>>): (r: Outcome<Progress>)
    requires |vs| == |files|
    ensures r.Ok? ==> (forall c :: c in r.value.order <==> c in r.value.codes) && Text.NoDuplicates(r.value.order)
    decreases |files|
  {
    if files == [] then Ok(START)
    else
      var n := |files| - 1;
      var before := Run(files[..n], vs[..n]);
      if before.IsFailure() then before
      else if vs[n].IsFailure() then vs[n].PropagateFailure()
      else Ok(Commit(before.value, files[n], vs[n].value))
  }

  /** The file loop over the definition files. */
  function Process(files: seq<DefinitionFile>): Outcome<Progress> {
    Run(files, Verdicts(files))
  }

  /** The first code, in order of first use, that more than one file uses. */
  function FirstSharedCode(order: seq<string>, codes: map<string, seq<string>>): (r: Option<string>)
    requires forall c :: c in order ==> c in codes
    ensures r.Some? ==> r.value in order && |codes[r.value]| != 1
    ensures r.None? <==> forall c :: c in order ==> |codes[c]| == 1
  {
    if order == [] then None
    else if |codes[order[0]]| != 1 then Some(order[0])
    else FirstSharedCode(order[1..], codes)
  }

  /** `validate()`: all files, then the two-letter-code check. */
  function ValidateDefinitions(files: seq<DefinitionFile>): Outcome<SeisProvSchema> {
    var p :- Process(files);
    match FirstSharedCode(p.order, p.codes)
    case Some(code) => Invalid(SharedCodeMessage(code, p.codes[code]))
    case None => Ok(p.collected)
  }

  /** The loop over the codes in dictionary order. */
  method FindSharedCode(order: seq<string>, codes: map<string, seq<string>>) returns (r: Option<string>)
    requires forall c :: c in order ==> c in codes
    ensures r == FirstSharedCode(order, codes)
  {
    var k := 0;
    while k < |order|
      invariant 0 <= k <= |order|
      invariant FirstSharedCode(order, codes) == FirstSharedCode(order[k..], codes)
    {
      assert order[k..][1..] == order[k + 1..];
      if |codes[order[k]]| != 1 {
        return Some(order[k]);
      }
      k := k + 1;
    }
    return None;
  }

  /** `validate()` as the script runs it: the file loop, then the loop over the
      codes. */
  method Validate(files: seq<DefinitionFile>) returns (o: Outcome<SeisProvSchema>)
    ensures o == ValidateDefinitions(files)
  {
    var p := CollectDefinitions(files);
    if p.IsFailure() {
      return p.PropagateFailure();
    }
    var shared := FindSharedCode(p.value.order, p.value.codes);
    if shared.Some? {
      return Invalid(SharedCodeMessage(shared.value, p.value.codes[shared.value]));
    }
    return Ok(p.value.collected);
  }

  /** The checks of one file, in source order: name, label, type, attribute
      names. */
  method CheckFile(f: DefinitionFile) returns (v: Outcome<Kind>)
    ensures v == FileVerdict(f)
  {
    var d := f.data;
    var name := PosixPath.Stem(f.path);
    if name != d.name {
      return Invalid(NameMessage(f.path, d.name));
    }
    var expected := ExpectedLabel(name, d.recordType);
    if expected != d.provLabel {
      return Invalid(LabelMessage(f.path, d.provLabel, expected));
    }
    var kind: Kind;
    if d.recordType == "entity" {
      kind := Entities;
    } else if d.recordType == "activity" {
      kind := Activities;
    } else if d.recordType == "agent" {
      kind := Agents;
    } else {
      return Raised(TypeChecks.NOT_IMPLEMENTED);
    }
    var dups := Text.Duplicates(AttributeNames(d.attributes));
    if dups != [] {
      return Invalid(DuplicateAttributesMessage(f.path, dups));
    }
    return Ok(kind);
  }

  /** Files an accepted definition: its path is appended under its two-letter code
      (a new code also joins the order of first use), and the definition is stored
      under its name in the collection of its kind. */
  method FileDefinition(codes: map<string, seq<string>>, order: seq<string>, collected: SeisProvSchema, f: DefinitionFile, kind: Kind)
    returns (codes': map<string, seq<string>>, order': seq<string>, collected': SeisProvSchema)
    ensures Progress(codes', order', collected') == Commit(Progress(codes, order, collected), f, kind)
  {
    var d := f.data;
    var code := d.twoLetterCode;
    var paths := if code in codes then codes[code] else [];
    order' := if code in codes then order else order + [code];
    codes' := codes[code := paths + [f.path]];
    match kind {
      case Entities => collected' := collected.(entities := collected.entities[d.name := d]);
      case Activities => collected' := collected.(activities := collected.activities[d.name := d]);
      case Agents => collected' := collected.(agents := collected.agents[d.name := d]);
    }
  }

  /** The file loop, updating the code table and the combined definition in place.
      The script files a definition's code and stores the definition before it
      checks the type and the attribute names; a failing check raises and the
      partly updated tables are dropped with the exception, so checking the file
      first and then filing it has the same outcome. */
  method CollectDefinitions(files: seq<DefinitionFile>) returns (o: Outcome<Progress>)
    ensures o == Process(files)
  {
    ghost var vs := Verdicts(files);
    var codes: map<string, seq<string>> := map[];
    var order: seq<string> := [];
    var collected := SeisProvSchema(map[], map[], map[]);
    var k := 0;
    assert files[..k] == [] && vs[..k] == [];
    while k < |files|
      invariant 0 <= k <= |files|
      invariant Run(files[..k], vs[..k]) == Ok(Progress(codes, order, collected))
    {
      var f := files[k];
      var v := CheckFile(f);
      assert vs[k] == v;
      if v.IsFailure() {
        RunRejects(files, vs, k);
        return v.PropagateFailure();
      }
      codes, order, collected := FileDefinition(codes, order, collected, f, v.value);
      RunAccepts(files, vs, k);
      k := k + 1;
    }
    assert files[..k] == files && vs[..k] == vs;
    return Ok(Progress(codes, order, collected));
  }

  /** A file that passes its checks after an accepted prefix is committed. */
  lemma RunAccepts(files: seq<DefinitionFile>, vs: seq<Outcome<Kind>>, k: nat)
    requires |vs| == |files| && k < |files| && Run(files[..k], vs[..k]).Ok? && vs[k].Ok?
    ensures Run(files[..k + 1], vs[..k + 1]) == Ok(Commit(Run(files[..k], vs[..k]).value, files[k], vs[k].value))
  {
    assert files[..k + 1][..k] == files[..k] && vs[..k + 1][..k] == vs[..k];
  }

  /** A file that fails its checks after an accepted prefix ends the whole run with
      its own failure. */
  lemma RunRejects(files: seq<DefinitionFile>, vs: seq<Outcome<Kind>>, k: nat)
    requires vs == Verdicts(files) && k < |files| && Run(files[..k], vs[..k]).Ok? && vs[k].IsFailure()
    ensures Process(files) == vs[k].PropagateFailure()
  {
    assert files[..k + 1][..k] == files[..k] && vs[..k + 1][..k] == vs[..k];
    RunStopsAtFailure(files, vs, k + 1);
  }

  /** Once a prefix of the files fails, the whole run fails the same way. */
  lemma {:induction false} RunStopsAtFailure(files: seq<DefinitionFile>, vs: seq<Outcome<Kind>>, n: nat)
    requires |vs| == |files| && n <= |files| && Run(files[..n], vs[..n]).IsFailure()
    ensures Run(files, vs) == Run(files[..n], vs[..n])
    decreases |files| - n
  {
    if n < |files| {
      assert files[..n + 1][..n] == files[..n] && vs[..n + 1][..n] == vs[..n];
      RunStopsAtFailure(files, vs, n + 1);
    } else {
      assert files[..n] == files && vs[..n] == vs;
    }
  }
}
