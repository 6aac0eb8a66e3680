/** What the record loop of `_validate_prov_bundle` guarantees: which records are
    left alone, which combinations are errors, which branches cannot be reached,
    and what holds of every record whose id is collected. */
module RecordProperties {
  import opened Wrappers
  import opened Prov
  import opened Schema
  import opened RecordValidation
  import Text
  import TypeChecks
  import IdPattern

  /** `attrs` as the loop body first binds it. */
  function Attrs(r: Record): seq<Attr> {
    AttrUnion(r.attributes, r.extraAttributes)
  }

  /** The record's prov:type values. */
  function ProvTypes(r: Record): seq<Value> {
    ValuesOf(Attrs(r), PROV_TYPE)
  }

  /** A record the validator looks at: its id or one of its prov:types is in `ns`. */
  predicate InScope(r: Record, ns: Namespace) {
    IdInNamespace(r.identifier, ns) || AnyTypeInNamespace(ProvTypes(r), ns) == Ok(true)
  }

  /*** The prov:type scan. ***/

  /** The scan finds a type in the namespace exactly when one counts and every type
      before it is inspectable and does not count; it answers False exactly when no
      type counts and each is inspectable; otherwise it raises. */
  lemma ScanSpec(types: seq<Value>, ns: Namespace)
    ensures AnyTypeInNamespace(types, ns) == Ok(true) <==>
      exists i :: 0 <= i < |types| && TypeInNamespace(types[i], ns) == Some(true)
        && forall j :: 0 <= j < i ==> TypeInNamespace(types[j], ns) == Some(false)
    ensures AnyTypeInNamespace(types, ns) == Ok(false) <==>
      forall i :: 0 <= i < |types| ==> TypeInNamespace(types[i], ns) == Some(false)
    ensures AnyTypeInNamespace(types, ns).Ok? || AnyTypeInNamespace(types, ns) == Raised(NO_NAMESPACE)
  {
    var vs := TypeVerdicts(types, ns);
    TypeChecks.FirstMatchSpec(vs);
    TypeChecks.FirstMatchRejectsAll(vs);
  }

  /** How each kind of prov:type value counts: a str or Literal by its text, a
      qualified name by its namespace URI, anything else cannot be inspected. */
  lemma TypeInNamespaceCases(ns: Namespace, local: string, other: Namespace)
    ensures TypeInNamespace(StrVal(ns.prefix + ":" + local), ns) == Some(true)
    ensures TypeInNamespace(LiteralVal(ns.prefix + ":" + local, "xsd:string"), ns) == Some(true)
    ensures TypeInNamespace(QNameVal(QName(other, local)), ns) == Some(other.uri == ns.uri)
    ensures forall i :: TypeInNamespace(IntVal(i), ns).None?
    ensures TypeInNamespace(UriVal(ns.uri + local), ns).None?
  {
    assert (ns.prefix + ":" + local)[..|ns.prefix + ":"|] == ns.prefix + ":";
  }

  /*** Records outside SEIS-PROV. ***/

  /** A record whose id is not in the namespace and none of whose prov:types is
      contributes no id and no error, whatever its other attributes are. */
  lemma OutOfScopeRecordIsSkipped(r: Record, schema: SeisProvSchema, ns: Namespace, oracles: Oracles)
    requires !IdInNamespace(r.identifier, ns)
    requires forall t :: t in ProvTypes(r) ==> TypeInNamespace(t, ns) == Some(false)
    ensures RecordStep(r, schema, ns, oracles) == Ok(None)
  {
    ScanSpec(ProvTypes(r), ns);
  }

  /** Outside the namespace, a prov:type value that cannot be inspected, met before
      any type in the namespace, raises rather than being passed over. */
  lemma UninspectableTypeRaises(r: Record, schema: SeisProvSchema, ns: Namespace, oracles: Oracles, i: nat)
    requires i < |ProvTypes(r)| && TypeInNamespace(ProvTypes(r)[i], ns).None?
    requires forall j :: 0 <= j < i ==> TypeInNamespace(ProvTypes(r)[j], ns) == Some(false)
    ensures RecordStep(r, schema, ns, oracles) == Raised(NO_NAMESPACE)
  {
    ScanSpec(ProvTypes(r), ns);
  }

  /*** Records in scope: the number of prov:types. ***/

  /** In scope, more than one prov:type is an error. */
  lemma SeveralTypesRejected(r: Record, schema: SeisProvSchema, ns: Namespace, oracles: Oracles)
    requires AnyTypeInNamespace(ProvTypes(r), ns).Ok?
    requires InScope(r, ns) && |ProvTypes(r)| > 1
    ensures RecordStep(r, schema, ns, oracles) == Invalid(TooManyTypesMessage(r.identifier, |ProvTypes(r)|))
  {
  }

  /** In scope, a record without prov:type is always an error: the silent `continue`
      for a type-less record (validator.py:326) is never taken, because without any
      type a record can only be in scope through its id. */
  lemma MissingTypeRejected(r: Record, schema: SeisProvSchema, ns: Namespace, oracles: Oracles)
    requires InScope(r, ns) && |ProvTypes(r)| == 0
    ensures IdInNamespace(r.identifier, ns)
    ensures RecordStep(r, schema, ns, oracles) == Invalid(NoTypeMessage(r.identifier))
  {
    assert TypeVerdicts(ProvTypes(r), ns) == [];
  }

  /** No record is ever skipped for lacking a prov:type. */
  lemma NeverSkippedForMissingType(r: Record, attrs: seq<Attr>, schema: SeisProvSchema, ns: Namespace)
    ensures Classify(r, attrs, schema, ns) != Ok(Skip(NoProvType))
  {
    var types := ValuesOf(attrs, PROV_TYPE);
    if |types| == 0 {
      assert TypeVerdicts(types, ns) == [];
    }
  }

  /** A relation without identifier that passed the count checks is skipped. */
  lemma AnonymousRelationSkipped(r: Record, schema: SeisProvSchema, ns: Namespace, oracles: Oracles)
    requires r.rtype.Relation? && r.identifier.None?
    requires |ProvTypes(r)| == 1 && TypeInNamespace(ProvTypes(r)[0], ns) == Some(true)
    ensures RecordStep(r, schema, ns, oracles) == Ok(None)
  {
    ScanSpec(ProvTypes(r), ns);
  }

  /*** Records in scope: the namespace cross rules. ***/

  /** A prov:type in the namespace needs an id in the namespace. */
  lemma TypeWithoutIdRejected(r: Record, schema: SeisProvSchema, ns: Namespace, oracles: Oracles)
    requires r.rtype.Relation? ==> r.identifier.Some?
    requires !IdInNamespace(r.identifier, ns)
    requires |ProvTypes(r)| == 1 && TypeInNamespace(ProvTypes(r)[0], ns) == Some(true)
    ensures RecordStep(r, schema, ns, oracles) == Invalid(TypeWithoutIdMessage(r.identifier))
  {
    ScanSpec(ProvTypes(r), ns);
  }

  /** An id in the namespace with a prov:type outside it is accepted only for the prov
      Person, SoftwareAgent and Organization types. */
  lemma ForeignTypeRejected(r: Record, schema: SeisProvSchema, ns: Namespace, oracles: Oracles)
    requires IdInNamespace(r.identifier, ns)
    requires |ProvTypes(r)| == 1 && TypeInNamespace(ProvTypes(r)[0], ns) == Some(false)
    requires Archetype(ProvTypes(r)[0]).None?
    ensures RecordStep(r, schema, ns, oracles) == Invalid(ForeignTypeMessage(r.identifier))
  {
    ScanSpec(ProvTypes(r), ns);
  }

  /** The Definition key: the three prov agent types map to their SEIS-PROV names, a
      str type in the namespace loses its "<prefix>:"; any other prefix is an error. */
  lemma TypeKeyCases(ns: Namespace, key: string, s: string)
    ensures TypeKey(QNameVal(PERSON), ns) == Ok("person")
    ensures TypeKey(QNameVal(SOFTWARE_AGENT), ns) == Ok("software_agent")
    ensures TypeKey(QNameVal(ORGANIZATION), ns) == Ok("organization")
    ensures TypeKey(StrVal(ns.prefix + ":" + key), ns) == Ok(key)
    ensures !Text.StartsWith(s, ns.prefix + ":") ==>
      TypeKey(StrVal(s), ns) == Invalid(NotPrefixedMessage(s, ns.prefix + ":"))
  {
    var t := ns.prefix + ":" + key;
    assert t[..|ns.prefix + ":"|] == ns.prefix + ":";
    assert t[|ns.prefix + ":"|..] == key;
  }

  /*** The branches that cannot be reached. ***/

  /** The `NotImplementedError` of validator.py:359 is never raised by the loop body
      before the Definition lookup. */
  lemma NoImpossibleCombination(r: Record, attrs: seq<Attr>, schema: SeisProvSchema, ns: Namespace)
    ensures Classify(r, attrs, schema, ns) != Raised(TypeChecks.NOT_IMPLEMENTED)
  {
  }

  /** A record that reaches the Definition always has its id in the namespace. */
  lemma ResolvedRecordHasNamespaceId(r: Record, attrs: seq<Attr>, schema: SeisProvSchema, ns: Namespace, d: Definition)
    requires Classify(r, attrs, schema, ns) == Ok(Resolved(d))
    ensures IdInNamespace(r.identifier, ns)
    ensures |ValuesOf(attrs, PROV_TYPE)| == 1
    ensures exists key ::
      && TypeKey(ValuesOf(attrs, PROV_TYPE)[0], ns) == Ok(key)
      && DefinitionsFor(schema, r.rtype).Ok? && key in DefinitionsFor(schema, r.rtype).value
      && DefinitionsFor(schema, r.rtype).value[key] == d
  {
  }

  /** `record.identifier.localpart` (validator.py:392) never meets a missing
      identifier. */
  lemma NeverLocalpartOfNone(r: Record, schema: SeisProvSchema, ns: Namespace, oracles: Oracles)
    ensures RecordStep(r, schema, ns, oracles) != Raised(NONE_LOCALPART)
  {
    var attrs := Attrs(r);
    var c := Classify(r, attrs, schema, ns);
    if c.Ok? && c.value.Resolved? {
      ResolvedRecordHasNamespaceId(r, attrs, schema, ns, c.value.def);
      ResolvedCheckKeepsIdentifier(r, attrs, c.value.def, ns, oracles);
    }
  }

  /** With an id in the namespace, the checks against the Definition never reach
      `localpart` of a missing identifier. */
  lemma ResolvedCheckKeepsIdentifier(r: Record, attrs: seq<Attr>, d: Definition, ns: Namespace, oracles: Oracles)
    requires IdInNamespace(r.identifier, ns)
    ensures ValidateResolved(r, attrs, d, ns, oracles) != Raised(NONE_LOCALPART)
  {
    var named := NamespaceAttrs(attrs, ns);
    CheckAttributesFirstFailure(named, d, r.identifier, oracles);
    if CheckAttributes(named, d, r.identifier, oracles).IsFailure() {
      var i :| 0 <= i < |named| && CheckAttributes(named, d, r.identifier, oracles) == CheckAttribute(named[i], d, r.identifier, oracles);
      AttributeCheckRaises(named[i], d, r.identifier, oracles);
    }
  }

  /** The exceptions one attribute check can raise. */
  lemma AttributeCheckRaises(a: NamedValue, d: Definition, id: Option<QName>, oracles: Oracles)
    ensures CheckAttribute(a, d, id, oracles).Raised? ==>
      CheckAttribute(a, d, id, oracles).exception in {TypeChecks.NOT_IMPLEMENTED, PATTERN_WITHOUT_STRING, REGEX_ON_NON_STRING}
  {
  }

  /*** The lookups. ***/

  /** A relation with an identifier that gets as far as the lookup is an error. */
  lemma RelationRecordRejected(r: Record, schema: SeisProvSchema, ns: Namespace, oracles: Oracles)
    requires r.rtype.Relation? && IdInNamespace(r.identifier, ns)
    requires |ProvTypes(r)| == 1 && AnyTypeInNamespace(ProvTypes(r), ns).Ok?
    requires AnyTypeInNamespace(ProvTypes(r), ns) == Ok(true) || Archetype(ProvTypes(r)[0]).Some?
    requires TypeKey(ProvTypes(r)[0], ns).Ok?
    ensures RecordStep(r, schema, ns, oracles) == Invalid(BadRecordTypeMessage(r.rtype))
  {
  }

  /** A type key the schema does not know for the record's kind is an error. */
  lemma UnknownTypeRejected(r: Record, schema: SeisProvSchema, ns: Namespace, oracles: Oracles, key: string)
    requires !r.rtype.Relation? && IdInNamespace(r.identifier, ns)
    requires |ProvTypes(r)| == 1 && AnyTypeInNamespace(ProvTypes(r), ns).Ok?
    requires AnyTypeInNamespace(ProvTypes(r), ns) == Ok(true) || Archetype(ProvTypes(r)[0]).Some?
    requires TypeKey(ProvTypes(r)[0], ns) == Ok(key) && key !in DefinitionsFor(schema, r.rtype).value
    ensures RecordStep(r, schema, ns, oracles) == Invalid(UnknownTypeMessage(key, r.rtype))
  {
  }

  /*** Checks against the Definition. ***/

  /** An id in the namespace whose local part does not have the SEIS-PROV format is an
      error naming the id and the expected pattern. */
  lemma BadIdRejected(r: Record, schema: SeisProvSchema, ns: Namespace, oracles: Oracles, d: Definition)
    requires Classify(r, Attrs(r), schema, ns) == Ok(Resolved(d))
    requires r.identifier.Some? && !IdPattern.IdMatches(r.identifier.value.local, d.twoLetterCode)
    ensures RecordStep(r, schema, ns, oracles) == Invalid(BadIdMessage(r.identifier, d.twoLetterCode))
  {
    ResolvedRecordHasNamespaceId(r, Attrs(r), schema, ns, d);
  }

  /** The label rule, for a record with a well-formed id: no label, several labels and
      a label other than the Definition's (unless it is "*") are errors. */
  lemma LabelRule(r: Record, attrs: seq<Attr>, d: Definition, ns: Namespace, oracles: Oracles)
    requires IdInNamespace(r.identifier, ns) && IdPattern.IdMatches(r.identifier.value.local, d.twoLetterCode)
    ensures |ValuesOf(attrs, PROV_LABEL)| == 0 ==>
      ValidateResolved(r, attrs, d, ns, oracles) == Invalid(NoLabelMessage(r.identifier))
    ensures |ValuesOf(attrs, PROV_LABEL)| > 1 ==>
      ValidateResolved(r, attrs, d, ns, oracles) == Invalid(ManyLabelsMessage(r.identifier, |ValuesOf(attrs, PROV_LABEL)|))
    ensures |ValuesOf(attrs, PROV_LABEL)| == 1 && d.provLabel != "*" && ValuesOf(attrs, PROV_LABEL)[0] != StrVal(d.provLabel) ==>
      ValidateResolved(r, attrs, d, ns, oracles) ==
        Invalid(WrongLabelMessage(r.identifier, ValuesOf(attrs, PROV_LABEL)[0], d.provLabel))
  {
  }

  /** Some attribute of `attrs` has a qualified name in `ns` with local part `x`. */
  predicate HasNamespaceAttr(attrs: seq<Attr>, ns: Namespace, x: string) {
    exists a :: a in attrs && a.key.QKey? && InNamespace(a.key.q, ns) && a.key.q.local == x
  }

  /** `available_attributes` holds the local names of the attributes in `ns`. */
  lemma AvailableNames(attrs: seq<Attr>, ns: Namespace)
    ensures forall x :: x in Names(NamespaceAttrs(attrs, ns)) <==> HasNamespaceAttr(attrs, ns, x)
  {
    var named := NamespaceAttrs(attrs, ns);
    var names := Names(named);
    forall x ensures x in names <==> HasNamespaceAttr(attrs, ns, x) {
      if x in names {
        var i :| 0 <= i < |names| && names[i] == x;
        assert named[i] in named;
      }
      if HasNamespaceAttr(attrs, ns, x) {
        var a :| a in attrs && a.key.QKey? && InNamespace(a.key.q, ns) && a.key.q.local == x;
        var nv := NamedValue(x, a.value);
        assert nv in named;
        var i :| 0 <= i < |named| && named[i] == nv;
        assert names[i] == x;
      }
    }
  }

  /** Once the label is right, a missing required attribute of the namespace is an
      error listing every missing name once, in sorted order. */
  lemma MissingRequiredRejected(r: Record, attrs: seq<Attr>, d: Definition, ns: Namespace, oracles: Oracles, ad: AttrDef)
    requires IdInNamespace(r.identifier, ns) && IdPattern.IdMatches(r.identifier.value.local, d.twoLetterCode)
    requires |ValuesOf(attrs, PROV_LABEL)| == 1
    requires d.provLabel == "*" || ValuesOf(attrs, PROV_LABEL)[0] == StrVal(d.provLabel)
    requires ad in d.attributes && ad.required && !HasNamespaceAttr(attrs, ns, ad.name)
    ensures exists missing ::
      && ValidateResolved(r, attrs, d, ns, oracles) == Invalid(MissingMessage(r.identifier, missing))
      && Text.StrictlySorted(missing)
      && ad.name in missing
      && forall x :: x in missing <==>
           (exists e :: e in d.attributes && e.required && e.name == x) && !HasNamespaceAttr(attrs, ns, x)
  {
    AvailableNames(attrs, ns);
    var missing := MissingRequired(d.attributes, Names(NamespaceAttrs(attrs, ns)));
    assert ad.name in missing;
  }

  /** The attribute loop passes exactly when every attribute passes. */
  lemma {:induction false} CheckAttributesPass(named: seq<NamedValue>, d: Definition, id: Option<QName>, oracles: Oracles)
    ensures CheckAttributes(named, d, id, oracles).Ok? <==>
      forall i :: 0 <= i < |named| ==> CheckAttribute(named[i], d, id, oracles).Ok?
    decreases |named|
  {
    if named != [] {
      CheckAttributesPass(named[1..], d, id, oracles);
      assert forall i :: 0 < i < |named| ==> named[1..][i - 1] == named[i];
    }
  }

  /** A failing attribute loop fails as its first failing attribute does. */
  lemma {:induction false} CheckAttributesFirstFailure(named: seq<NamedValue>, d: Definition, id: Option<QName>, oracles: Oracles)
    ensures CheckAttributes(named, d, id, oracles).IsFailure() ==>
      exists i :: 0 <= i < |named| && CheckAttributes(named, d, id, oracles) == CheckAttribute(named[i], d, id, oracles)
    decreases |named|
  {
    if named != [] && CheckAttributes(named, d, id, oracles).IsFailure() {
      if CheckAttribute(named[0], d, id, oracles).IsFailure() {
        assert CheckAttributes(named, d, id, oracles) == CheckAttribute(named[0], d, id, oracles);
      } else {
        CheckAttributesFirstFailure(named[1..], d, id, oracles);
        var i :| 0 <= i < |named[1..]| && CheckAttributes(named[1..], d, id, oracles) == CheckAttribute(named[1..][i], d, id, oracles);
        assert named[1..][i] == named[i + 1];
      }
    }
  }

  /** An attribute of the namespace that the Definition does not declare is an error
      unless the Definition allows other attributes, in which case it is not checked
      at all. */
  lemma UnknownAttributeRule(a: NamedValue, d: Definition, id: Option<QName>, oracles: Oracles)
    requires forall ad :: ad in d.attributes ==> ad.name != a.name
    ensures CheckAttribute(a, d, id, oracles) ==
      if d.otherAttributesAllowed then Ok(()) else Invalid(ExtraAttributeMessage(id, a.name))
  {
  }

  /** A declared attribute whose types are all in the type table passes exactly when
      one of its types accepts the value and, when it has a pattern, the value is a
      str that the pattern matches. */
  lemma KnownAttributeRule(a: NamedValue, d: Definition, ad: AttrDef, id: Option<QName>, oracles: Oracles)
    requires FindAttrDef(d.attributes, a.name) == Some(ad)
    requires forall t :: t in ad.types ==> TypeChecks.Declared(t)
    ensures CheckAttribute(a, d, id, oracles).Ok? <==>
      && (exists t :: t in ad.types && TypeChecks.Checker(t, a.value, oracles.parsers) == Some(true))
      && (ad.pattern.Some? ==> "xsd:string" in ad.types && a.value.StrVal? && oracles.reMatch(ad.pattern.value, a.value.s))
  {
    TypeChecks.DeclaredTypesDecide(a.name, a.value, ad.types, oracles.parsers);
  }

  /*** What every collected id satisfies. ***/

  /** A record whose local part is collected has an identifier in the namespace,
      collects exactly that identifier's local part, and resolved to a Definition
      whose identifier format the local part has. */
  lemma CollectedIdIsWellFormed(r: Record, schema: SeisProvSchema, ns: Namespace, oracles: Oracles, id: string)
    requires RecordStep(r, schema, ns, oracles) == Ok(Some(id))
    ensures r.identifier.Some? && InNamespace(r.identifier.value, ns) && id == r.identifier.value.local
    ensures exists d :: Classify(r, Attrs(r), schema, ns) == Ok(Resolved(d)) && IdPattern.IdMatches(id, d.twoLetterCode)
  {
    var d := Classify(r, Attrs(r), schema, ns).value.def;
    ResolvedRecordHasNamespaceId(r, Attrs(r), schema, ns, d);
  }

  /** A record that passes its Definition has exactly one label, the expected one
      unless the Definition says "*", and every required attribute in the namespace. */
  lemma AcceptedRecordHasLabelAndRequired(r: Record, attrs: seq<Attr>, d: Definition, ns: Namespace, oracles: Oracles, id: string)
    requires ValidateResolved(r, attrs, d, ns, oracles) == Ok(id)
    ensures |ValuesOf(attrs, PROV_LABEL)| == 1
    ensures d.provLabel == "*" || ValuesOf(attrs, PROV_LABEL)[0] == StrVal(d.provLabel)
    ensures forall ad :: ad in d.attributes && ad.required ==> HasNamespaceAttr(attrs, ns, ad.name)
  {
    AvailableNames(attrs, ns);
    var missing := MissingRequired(d.attributes, Names(NamespaceAttrs(attrs, ns)));
    forall ad | ad in d.attributes && ad.required ensures HasNamespaceAttr(attrs, ns, ad.name) {
      assert ad.name !in missing;
    }
  }

  /** In a record that passes its Definition every attribute of the namespace passes
      its checks, and none is undeclared unless the Definition allows others. */
  lemma AcceptedRecordAttributesPass(r: Record, attrs: seq<Attr>, d: Definition, ns: Namespace, oracles: Oracles, id: string)
    requires ValidateResolved(r, attrs, d, ns, oracles) == Ok(id)
    ensures forall nv :: nv in NamespaceAttrs(attrs, ns) ==> CheckAttribute(nv, d, r.identifier, oracles).Ok?
    ensures !d.otherAttributesAllowed ==>
      forall a :: a in attrs && a.key.QKey? && InNamespace(a.key.q, ns) ==>
        exists ad :: ad in d.attributes && ad.name == a.key.q.local
  {
    var named := NamespaceAttrs(attrs, ns);
    assert CheckAttributes(named, d, r.identifier, oracles).Ok?;
    CheckAttributesPass(named, d, r.identifier, oracles);
    forall nv | nv in named ensures CheckAttribute(nv, d, r.identifier, oracles).Ok? {
      var i :| 0 <= i < |named| && named[i] == nv;
    }
    if !d.otherAttributesAllowed {
      forall a | a in attrs && a.key.QKey? && InNamespace(a.key.q, ns)
        ensures exists ad :: ad in d.attributes && ad.name == a.key.q.local
      {
        var nv := NamedValue(a.key.q.local, a.value);
        assert nv in named;
        assert CheckAttribute(nv, d, r.identifier, oracles).Ok?;
      }
    }
  }
}
