/** What the document level guarantees: the first failing record decides the
    outcome, every collected id comes from a record with a well-formed identifier in
    the SEIS-PROV namespace, duplicate ids are rejected, and `validate` reports at
    most one error and never an error together with a warning. */
module DocumentProperties {
  import opened Wrappers
  import opened Prov
  import opened Schema
  import opened RecordValidation
  import opened DocumentValidation
  import RecordProperties
  import Text
  import IdPattern

  /** The record loop passes exactly when every iteration passes, and every id it
      collects is one an iteration collected. */
  lemma {:induction false} CollectStepsSpec(steps: seq<Outcome<Option<string>>>)
    ensures CollectSteps(steps).Ok? <==> forall i :: 0 <= i < |steps| ==> steps[i].Ok?
    ensures CollectSteps(steps).Ok? ==>
      forall id :: id in CollectSteps(steps).value ==> exists i :: 0 <= i < |steps| && steps[i] == Ok(Some(id))
    decreases |steps|
  {
    if steps != [] {
      CollectStepsSpec(steps[1..]);
      assert forall i :: 0 < i < |steps| ==> steps[1..][i - 1] == steps[i];
      var o := CollectSteps(steps);
      if o.Ok? {
        var rest := CollectSteps(steps[1..]).value;
        assert o.value == Collected(steps[0].value) + rest;
        forall id | id in o.value ensures exists i :: 0 <= i < |steps| && steps[i] == Ok(Some(id)) {
          if id in rest {
            var i :| 0 <= i < |steps[1..]| && steps[1..][i] == Ok(Some(id));
            assert steps[i + 1] == Ok(Some(id));
          } else {
            assert steps[0] == Ok(Some(id));
          }
        }
      }
    }
  }

  /** A failing record loop fails as its first failing iteration does: the first
      error aborts the rest. */
  lemma {:induction false} CollectStepsFirstFailure(steps: seq<Outcome<Option<string>>>, i: nat)
    requires i < |steps| && steps[i].IsFailure()
    requires forall j :: 0 <= j < i ==> steps[j].Ok?
    ensures CollectSteps(steps) == steps[i].PropagateFailure()
    decreases i
  {
    if i > 0 {
      assert forall j :: 0 <= j < i - 1 ==> steps[1..][j] == steps[j + 1];
      CollectStepsFirstFailure(steps[1..], i - 1);
      assert steps[1..][i - 1] == steps[i];
    }
  }

  /** A bundle passes exactly when each of its records passes. */
  lemma BundlePassesIffRecordsPass(records: seq<Record>, schema: SeisProvSchema, ns: Namespace, oracles: Oracles)
    ensures BundleIds(records, schema, ns, oracles).Ok? <==>
      forall i :: 0 <= i < |records| ==> RecordStep(records[i], schema, ns, oracles).Ok?
  {
    CollectStepsSpec(Steps(records, schema, ns, oracles));
  }

  /** A failing bundle fails as its first failing record does. */
  lemma BundleFailsAtFirstFailure(records: seq<Record>, schema: SeisProvSchema, ns: Namespace, oracles: Oracles, i: nat)
    requires i < |records| && RecordStep(records[i], schema, ns, oracles).IsFailure()
    requires forall j :: 0 <= j < i ==> RecordStep(records[j], schema, ns, oracles).Ok?
    ensures BundleIds(records, schema, ns, oracles) == RecordStep(records[i], schema, ns, oracles).PropagateFailure()
  {
    CollectStepsFirstFailure(Steps(records, schema, ns, oracles), i);
  }

  /** Every id collected from a bundle is the local part of a record identifier in
      the namespace, and has the identifier format of that record's Definition. */
  lemma BundleIdsWellFormed(records: seq<Record>, schema: SeisProvSchema, ns: Namespace, oracles: Oracles, id: string)
    requires BundleIds(records, schema, ns, oracles).Ok? && id in BundleIds(records, schema, ns, oracles).value
    ensures exists r ::
      && r in records && r.identifier.Some? && InNamespace(r.identifier.value, ns)
      && r.identifier.value.local == id
      && exists d :: Classify(r, RecordProperties.Attrs(r), schema, ns) == Ok(Resolved(d)) && IdPattern.IdMatches(id, d.twoLetterCode)
  {
    var steps := Steps(records, schema, ns, oracles);
    CollectStepsSpec(steps);
    var i :| 0 <= i < |steps| && steps[i] == Ok(Some(id));
    RecordProperties.CollectedIdIsWellFormed(records[i], schema, ns, oracles, id);
  }

  /** The document's ids are the bundles' ids, root first: each comes from the root
      records or from the records of one bundle. */
  lemma {:induction false} BundlesIdsCollected(bundles: seq<Bundle>, schema: SeisProvSchema, ns: Namespace, oracles: Oracles, id: string)
    requires BundlesIds(bundles, schema, ns, oracles).Ok? && id in BundlesIds(bundles, schema, ns, oracles).value
    ensures exists k ::
      && 0 <= k < |bundles| && BundleIds(bundles[k].records, schema, ns, oracles).Ok?
      && id in BundleIds(bundles[k].records, schema, ns, oracles).value
    decreases |bundles|
  {
    var first := BundleIds(bundles[0].records, schema, ns, oracles).value;
    if id !in first {
      var rest := BundlesIds(bundles[1..], schema, ns, oracles);
      assert BundlesIds(bundles, schema, ns, oracles).value == first + rest.value;
      BundlesIdsCollected(bundles[1..], schema, ns, oracles, id);
      var k :| 0 <= k < |bundles[1..]| && BundleIds(bundles[1..][k].records, schema, ns, oracles).Ok?
        && id in BundleIds(bundles[1..][k].records, schema, ns, oracles).value;
      assert bundles[1..][k] == bundles[k + 1];
    }
  }

  /** The verdict on a non-empty list of ids: it passes exactly when no id occurs
      twice, and otherwise the error lists every repeated id, each once. */
  lemma IdsVerdictSpec(ids: seq<string>)
    requires ids != []
    ensures IdsVerdict(ids).Ok? <==> Text.NoDuplicates(ids)
    ensures IdsVerdict(ids).Ok? ==> IdsVerdict(ids) == Ok([])
    ensures !IdsVerdict(ids).Ok? ==> IdsVerdict(ids) == Invalid(DuplicatesMessage(Text.Duplicates(ids)))
    ensures forall x :: x in Text.Duplicates(ids) <==> exists i, j :: 0 <= i < j < |ids| && ids[i] == x && ids[j] == x
  {
    forall x ensures x in Text.Duplicates(ids) <==> exists i, j :: 0 <= i < j < |ids| && ids[i] == x && ids[j] == x {
      Text.CountAboveOne(ids, x);
    }
    if !Text.NoDuplicates(ids) {
      var i, j :| 0 <= i < j < |ids| && ids[i] == ids[j];
      assert ids[i] in Text.Duplicates(ids);
    }
    if Text.Duplicates(ids) != [] {
      assert Text.Duplicates(ids)[0] in Text.Duplicates(ids);
    }
  }

  /** One id used twice after another id: the duplicates are exactly that id. */
  lemma OneReusedId(a: string, b: string)
    requires a != b
    ensures Text.Duplicates([a, b, b]) == [b]
  {
    var ids := [a, b, b];
    assert ids[1..] == [b, b] && [b, b][1..] == [b] && [b][1..] == [];
    assert Text.Count([b], b) == 1 && Text.Count([b, b], b) == 2;
    assert Text.Count(ids, a) == 1 && Text.Count(ids, b) == 2;
    assert Text.KeepMultiple([b], ids) == [b];
    assert Text.KeepMultiple([b, b], ids) == [b, b];
    assert Text.KeepMultiple(ids, ids) == [b, b];
    assert Text.Dedup([b]) == [b];
    assert Text.Dedup([b, b]) == [b];
  }

  /** The two agents of the adjoint-source example that share one id make the
      document invalid, and the error names that id. */
  lemma ReusedIdExample()
    ensures IdsVerdict(["sp000_pp_me09234j", "sp000_sa_9dig8ata", "sp000_sa_9dig8ata"]) ==
      Invalid(DuplicatesMessage(["sp000_sa_9dig8ata"]))
  {
    var me, specfem := "sp000_pp_me09234j", "sp000_sa_9dig8ata";
    assert me[6] != specfem[6];
    OneReusedId(me, specfem);

  }

  /** Without a namespace whose URI is the SEIS-PROV one, a parsed, schema-valid
      document with records is a valid result carrying a single warning. */
  lemma MissingNamespaceWarns(
    isJson: bool, isXml: bool, read: FileFormat -> Parse, xsdLog: Document -> seq<string>,
    schema: SeisProvSchema, oracles: Oracles, format: FileFormat)
    requires ChooseFormat(isJson, isXml) == Ok(format)
    requires read(format).Parsed? && xsdLog(read(format).doc) == [] && read(format).doc.records != []
    requires forall n :: n in read(format).doc.namespaces ==> n.uri != SEIS_PROV_NAMESPACE
    ensures Completed(SeisProvCore(isJson, isXml, read, xsdLog, schema, oracles)) ==
      Returned(ValidationResult([], [NO_SEIS_PROV_RECORDS]))
  {
  }

  /** A document that declares the SEIS-PROV namespace but from which no record
      contributes an id is a valid result carrying the single "no records" warning. */
  lemma NoRecordsFoundWarns(
    isJson: bool, isXml: bool, read: FileFormat -> Parse, xsdLog: Document -> seq<string>,
    schema: SeisProvSchema, oracles: Oracles, format: FileFormat, ns: Namespace)
    requires ChooseFormat(isJson, isXml) == Ok(format)
    requires read(format).Parsed? && xsdLog(read(format).doc) == [] && read(format).doc.records != []
    requires FindSeisProvNamespace(read(format).doc.namespaces) == Some(ns)
    requires DocumentIds(read(format).doc, schema, ns, oracles) == Ok([])
    ensures Completed(SeisProvCore(isJson, isXml, read, xsdLog, schema, oracles)) ==
      Returned(ValidationResult([], [NO_SEIS_PROV_RECORDS]))
  {
  }

  /** A document whose collected ids repeat one is invalid, and its single error
      names every repeated id. */
  lemma DuplicateIdsRejected(
    isJson: bool, isXml: bool, read: FileFormat -> Parse, xsdLog: Document -> seq<string>,
    schema: SeisProvSchema, oracles: Oracles, format: FileFormat, ns: Namespace, ids: seq<string>, i: nat, j: nat)
    requires ChooseFormat(isJson, isXml) == Ok(format)
    requires read(format).Parsed? && xsdLog(read(format).doc) == [] && read(format).doc.records != []
    requires FindSeisProvNamespace(read(format).doc.namespaces) == Some(ns)
    requires DocumentIds(read(format).doc, schema, ns, oracles) == Ok(ids)
    requires i < j < |ids| && ids[i] == ids[j]
    ensures Completed(SeisProvCore(isJson, isXml, read, xsdLog, schema, oracles)) ==
      Returned(ValidationResult([DuplicatesMessage(Text.Duplicates(ids))], []))
    ensures ids[i] in Text.Duplicates(ids)
  {
    IdsVerdictSpec(ids);
  }
}
