/** The document level of the validator (validator/seis_prov_validate/validator.py):
    the record loop over a bundle (`_validate_prov_bundle`), the post-parse part of
    `__validate_seis_prov` (format choice, namespace lookup, bundles, duplicate ids),
    and `validate` with its result object. Reading the file, sniffing its format,
    parsing it with the prov library and the PROV-XML schema check are done outside
    the core; their verdicts are inputs here. */
module DocumentValidation {
  import opened Wrappers
  import opened Prov
  import opened Schema
  import opened RecordValidation
  import Text
  import TypeChecks

  /*** The record loop of one bundle. ***/

  /** The ids a step contributes to `id_collector`. */
  function Collected(step: Option<string>): seq<string> {
    match step
    case None => []
    case Some(id) => [id]
  }

  /** `ids` followed by what `o` collects, or the failure of `o`. */
  function Prefixed(ids: seq<string>, o: Outcome<seq<string>>): Outcome<seq<string>> {
    match o
    case Ok(rest) => Ok(ids + rest)
    case Invalid(m) => Invalid(m)
    case Raised(e) => Raised(e)
  }

  lemma PrefixedNothing(o: Outcome<seq<string>>)
    ensures Prefixed([], o) == o
  {
    if o.Ok? {
      assert [] + o.value == o.value;
    }
  }

  lemma PrefixedTwice(a: seq<string>, b: seq<string>, o: Outcome<seq<string>>)
    ensures Prefixed(a, Prefixed(b, o)) == Prefixed(a + b, o)
  {
    if o.Ok? {
      assert a + (b + o.value) == (a + b) + o.value;
    }
  }

  /** The outcome of each record's iteration, in record order. */
  function Steps(records: seq<Record>, schema: SeisProvSchema, ns: Namespace, oracles: Oracles): (r: seq<Outcome<Option<string>>>)
    ensures |r| == |records|
    ensures forall i :: 0 <= i < |records| ==> r[i] == RecordStep(records[i], schema, ns, oracles)
  {
    seq(|records|, i requires 0 <= i < |records| => RecordStep(records[i], schema, ns, oracles))
  }

  /** The record loop over the iterations' outcomes: the collected ids in order, or
      the first failure. */
  function CollectSteps(steps: seq<Outcome<Option<string>>>): Outcome<seq<string>>
    decreases |steps|
  {
    if steps == [] then Ok([])
    else
      var step :- steps[0];
      Prefixed(Collected(step), CollectSteps(steps[1..]))
  }

  /** `_validate_prov_bundle` over the records of one bundle. */
  function BundleIds(records: seq<Record>, schema: SeisProvSchema, ns: Namespace, oracles: Oracles): Outcome<seq<string>> {
    CollectSteps(Steps(records, schema, ns, oracles))
  }

  /** The bundles' ids, bundle after bundle. */
  function BundlesIds(bundles: seq<Bundle>, schema: SeisProvSchema, ns: Namespace, oracles: Oracles): Outcome<seq<string>>
    decreases |bundles|
  {
    if bundles == [] then Ok([])
    else
      var first :- BundleIds(bundles[0].records, schema, ns, oracles);
      Prefixed(first, BundlesIds(bundles[1..], schema, ns, oracles))
  }

  /** `seis_prov_ids`: the root document's ids, then those of each bundle. */
  function DocumentIds(doc: Document, schema: SeisProvSchema, ns: Namespace, oracles: Oracles): Outcome<seq<string>> {
    var root :- BundleIds(doc.records, schema, ns, oracles);
    Prefixed(root, BundlesIds(doc.bundles, schema, ns, oracles))
  }

  /** The record loop, appending to `id_collector`. */
  method ValidateProvBundle(records: seq<Record>, schema: SeisProvSchema, ns: Namespace, oracles: Oracles)
    returns (o: Outcome<seq<string>>)
    ensures o == BundleIds(records, schema, ns, oracles)
  {
    var idCollector: seq<string> := [];
    ghost var steps := Steps(records, schema, ns, oracles);
    var k := 0;
    assert steps[k..] == steps;
    PrefixedNothing(CollectSteps(steps));
    while k < |records|
      invariant 0 <= k <= |records|
      invariant CollectSteps(steps) == Prefixed(idCollector, CollectSteps(steps[k..]))
    {
      assert steps[k..][1..] == steps[k + 1..];
      var step := ValidateRecord(records[k], schema, ns, oracles);
      if step.IsFailure() {
        return step.PropagateFailure();
      }
      PrefixedTwice(idCollector, Collected(step.value), CollectSteps(steps[k + 1..]));
      idCollector := idCollector + Collected(step.value);
      k := k + 1;
    }
    assert steps[k..] == [] && idCollector + [] == idCollector;
    return Ok(idCollector);
  }

  /** The root document, then `seis_prov_ids.extend(...)` for each bundle. */
  method CollectDocumentIds(doc: Document, schema: SeisProvSchema, ns: Namespace, oracles: Oracles)
    returns (o: Outcome<seq<string>>)
    ensures o == DocumentIds(doc, schema, ns, oracles)
  {
    var root := ValidateProvBundle(doc.records, schema, ns, oracles);
    if root.IsFailure() {
      return root;
    }
    var seisProvIds := root.value;
    var k := 0;
    assert doc.bundles[k..] == doc.bundles;
    while k < |doc.bundles|
      invariant 0 <= k <= |doc.bundles|
      invariant DocumentIds(doc, schema, ns, oracles) == Prefixed(seisProvIds, BundlesIds(doc.bundles[k..], schema, ns, oracles))
    {
      assert doc.bundles[k..][1..] == doc.bundles[k + 1..];
      var ids := ValidateProvBundle(doc.bundles[k].records, schema, ns, oracles);
      if ids.IsFailure() {
        return ids;
      }
      PrefixedTwice(seisProvIds, ids.value, BundlesIds(doc.bundles[k + 1..], schema, ns, oracles));
      seisProvIds := seisProvIds + ids.value;
      k := k + 1;
    }
    assert doc.bundles[k..] == [] && seisProvIds + [] == seisProvIds;
    return Ok(seisProvIds);
  }

  /*** The post-parse part of `__validate_seis_prov`. ***/

  datatype FileFormat = Json | Xml

  /** The result of `prov.read` in the chosen format: a document, or the `repr` of
      the exception it raised. */
  datatype Parse = Parsed(doc: Document) | ParseFailed(error: string)

  const NEITHER_FORMAT := "File is neither a valid JSON nor a valid XML file."
  const NO_RECORDS := "File does not contain a single provenance record."
  const NO_SEIS_PROV_RECORDS :=
    "The document is a valid W3C PROV document but not a single SEIS-PROV record has been found."

  function ParseErrorMessage(error: string): string {
    "Could not parse the file with the prov Python library due to: the following PROV error message: " + error
  }

  function XsdErrorMessage(log: seq<string>): string {
    "SEIS-PROV document did not pass validation against the PROV-XML schema:\n\t" + Text.Join("\n\t", log)
  }

  function DuplicatesMessage(duplicates: seq<string>): string {
    "One or more ids have been used more than once: " + Text.QuotedList(duplicates)
  }

  /** The format decision table: neither is an error, both cannot happen (and
      raise), otherwise the one that parsed. */
  function ChooseFormat(isJson: bool, isXml: bool): (r: Outcome<FileFormat>)
    ensures r == Ok(Json) <==> isJson && !isXml
    ensures r == Ok(Xml) <==> !isJson && isXml
    ensures r == Invalid(NEITHER_FORMAT) <==> !isJson && !isXml
    ensures r == Raised(TypeChecks.NOT_IMPLEMENTED) <==> isJson && isXml
  {
    if !isJson && !isXml then Invalid(NEITHER_FORMAT)
    else if isJson && isXml then Raised(TypeChecks.NOT_IMPLEMENTED)
    else if isJson then Ok(Json)
    else Ok(Xml)
  }

  /** The for/else search of `doc.namespaces` for the SEIS-PROV namespace URI. */
  function FindSeisProvNamespace(namespaces: seq<Namespace>): (r: Option<Namespace>)
    ensures r.None? <==> forall n :: n in namespaces ==> n.uri != SEIS_PROV_NAMESPACE
    ensures r.Some? ==> r.value in namespaces && r.value.uri == SEIS_PROV_NAMESPACE
  {
    if namespaces == [] then None
    else if namespaces[0].uri == SEIS_PROV_NAMESPACE then Some(namespaces[0])
    else
      assert forall n :: n in namespaces <==> n == namespaces[0] || n in namespaces[1..];
      FindSeisProvNamespace(namespaces[1..])
  }

  /** The verdict on the collected ids: a warning when there are none, an error
      when some id occurs more than once. Ok holds the warnings issued. */
  function IdsVerdict(ids: seq<string>): (r: Outcome<seq<string>>)
    ensures !r.Raised?
    ensures r.Ok? ==> r.value == (if ids == [] then [NO_SEIS_PROV_RECORDS] else [])
  {
    if ids == [] then Ok([NO_SEIS_PROV_RECORDS])
    else
      var duplicates := Text.Duplicates(ids);
      if duplicates != [] then Invalid(DuplicatesMessage(duplicates)) else Ok([])
  }

  /** Everything after reading the file: Ok(warnings) when the document passes,
      Invalid(message) at the first validation error, Raised(exception) when another
      exception escapes. `read` is `prov.read` in a format and `xsdLog` the error log
      of the PROV-XML schema check (empty when the document passes it). */
  function SeisProvCore(
    isJson: bool, isXml: bool, read: FileFormat -> Parse, xsdLog: Document -> seq<string>,
    schema: SeisProvSchema, oracles: Oracles): (r: Outcome<seq<string>>)
    ensures r.Ok? ==> r.value == [] || r.value == [NO_SEIS_PROV_RECORDS]
    ensures r.Ok? ==>
      && ChooseFormat(isJson, isXml).Ok?
      && read(ChooseFormat(isJson, isXml).value).Parsed?
      && xsdLog(read(ChooseFormat(isJson, isXml).value).doc) == []
      && read(ChooseFormat(isJson, isXml).value).doc.records != []
  {
    var format :- ChooseFormat(isJson, isXml);
    match read(format)
    case ParseFailed(error) => Invalid(ParseErrorMessage(error))
    case Parsed(doc) =>
      if xsdLog(doc) != [] then Invalid(XsdErrorMessage(xsdLog(doc)))
      else if doc.records == [] then Invalid(NO_RECORDS)
      else
        match FindSeisProvNamespace(doc.namespaces)
        case None => Ok([NO_SEIS_PROV_RECORDS])
        case Some(ns) =>
          var ids :- DocumentIds(doc, schema, ns, oracles);
          IdsVerdict(ids)
  }

  /** The for/else loop over `doc.namespaces`. */
  method FindNamespace(namespaces: seq<Namespace>) returns (found: Option<Namespace>)
    ensures found == FindSeisProvNamespace(namespaces)
  {
    var k := 0;
    while k < |namespaces|
      invariant 0 <= k <= |namespaces|
      invariant FindSeisProvNamespace(namespaces) == FindSeisProvNamespace(namespaces[k..])
    {
      assert namespaces[k..][1..] == namespaces[k + 1..];
      if namespaces[k].uri == SEIS_PROV_NAMESPACE {
        return Some(namespaces[k]);
      }
      k := k + 1;
    }
    return None;
  }

  /** `__validate_seis_prov` after the file has been read, with the warnings it
      issues recorded in order. */
  method ValidateSeisProv(
    isJson: bool, isXml: bool, read: FileFormat -> Parse, xsdLog: Document -> seq<string>,
    schema: SeisProvSchema, oracles: Oracles) returns (o: Outcome<seq<string>>)
    ensures o == SeisProvCore(isJson, isXml, read, xsdLog, schema, oracles)
  {
    var fileformat := ChooseFormat(isJson, isXml);
    if fileformat.IsFailure() {
      return fileformat.PropagateFailure();
    }
    var parsed := read(fileformat.value);
    if parsed.ParseFailed? {
      return Invalid(ParseErrorMessage(parsed.error));
    }
    var doc := parsed.doc;
    if xsdLog(doc) != [] {
      return Invalid(XsdErrorMessage(xsdLog(doc)));
    }
    if doc.records == [] {
      return Invalid(NO_RECORDS);
    }
    var found := FindNamespace(doc.namespaces);
    if found.None? {
      return Ok([NO_SEIS_PROV_RECORDS]);
    }
    var ns := found.value;
    var ids := CollectDocumentIds(doc, schema, ns, oracles);
    if ids.IsFailure() {
      return ids;
    }
    var seisProvIds := ids.value;
    if seisProvIds == [] {
      return Ok([NO_SEIS_PROV_RECORDS]);
    }
    var duplicates := Text.Duplicates(seisProvIds);
    if duplicates != [] {
      return Invalid(DuplicatesMessage(duplicates));
    }
    return Ok([]);
  }

  /*** `validate` and its result. ***/

  /** `SeisProvValidationResult`. */
  datatype ValidationResult = ValidationResult(errors: seq<string>, warnings: seq<string>) {
    /** `is_valid`: no error was recorded. */
    predicate IsValid() {
      errors == []
    }
  }

  /** How a call of `validate` ends: it returns a result, or an exception other than
      the validator's own passes through it. */
  datatype Completion = Returned(result: ValidationResult) | Propagated(exception: string)

  /** What `validate` makes of the core's outcome. */
  function Completed(core: Outcome<seq<string>>): (c: Completion)
    ensures c.Returned? <==> !core.Raised?
    ensures c.Returned? ==> (c.result.IsValid() <==> core.Ok?)
    ensures c.Returned? ==> |c.result.errors| <= 1
    ensures c.Returned? ==> c.result.errors == [] || c.result.warnings == []
  {
    match core
    case Ok(warns) => Returned(ValidationResult([], warns))
    case Invalid(message) => Returned(ValidationResult([message], []))
    case Raised(e) => Propagated(e)
  }

  /** `validate`: runs the core, turning the validator's own exception into an
      error and collecting the warnings it issued. */
  method Validate(
    isJson: bool, isXml: bool, read: FileFormat -> Parse, xsdLog: Document -> seq<string>,
    schema: SeisProvSchema, oracles: Oracles) returns (c: Completion)
    ensures c == Completed(SeisProvCore(isJson, isXml, read, xsdLog, schema, oracles))
  {
    var errors: seq<string> := [];
    var warns: seq<string> := [];
    var core := ValidateSeisProv(isJson, isXml, read, xsdLog, schema, oracles);
    match core {
      case Ok(issued) =>
        warns := warns + issued;
      case Invalid(message) =>
        errors := errors + [message];
      case Raised(e) =>
        return Propagated(e);
    }
    return Returned(ValidationResult(errors, warns));
  }
}
