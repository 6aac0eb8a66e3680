/** One iteration of the record loop of `_validate_prov_bundle`
    (validator/seis_prov_validate/validator.py:264-459): decides whether a record
    belongs to SEIS-PROV, resolves it to one Definition, and checks it against that
    Definition. Each step ends in an error (the first one aborts the document), in
    a silent skip, or in the identifier's local part being collected. */
module RecordValidation {
  import opened Wrappers
  import opened Prov
  import opened Schema
  import Text
  import TypeChecks
  import IdPattern

  /** What the validator cannot compute itself and takes as given:
      `reMatch(p, s)` is `re.match(p, s) is not None` for a schema-authored pattern,
      `parsers` are Python's `float` and `urlparse` on a string. */
  datatype Oracles = Oracles(reMatch: (string, string) -> bool, parsers: TypeChecks.Parsers)

  /** Why a record is passed over without an error. */
  datatype SkipReason =
    | OutOfScope         // neither the id nor any prov:type is in the SEIS-PROV namespace
    | NoProvType         // in scope through its id, but without a prov:type
    | AnonymousRelation  // a relation without identifier

  /** How the first part of the loop body ends for a record that raised no error. */
  datatype Resolution = Skip(reason: SkipReason) | Resolved(def: Definition)

  /** An attribute of the SEIS-PROV namespace by its local name. */
  datatype NamedValue = NamedValue(name: string, value: Value)

  // The Python exceptions that escape the loop (nothing in the core catches them).
  const NO_NAMESPACE := "AttributeError: object has no attribute 'namespace'"
  const NO_STARTSWITH := "AttributeError: object has no attribute 'startswith'"
  const NONE_LOCALPART := "AttributeError: 'NoneType' object has no attribute 'localpart'"
  const PATTERN_WITHOUT_STRING := "Exception"
  const REGEX_ON_NON_STRING := "TypeError: expected string or bytes-like object"

  /*** The messages of the validation errors, one per check. ***/

  function TooManyTypesMessage(id: Option<QName>, n: nat): string {
    "Record '" + IdText(id) + "' has " + Text.NatToString(n) + " prov:type's set. Only one is "
      + "allowed as soon as any prov:type or the record's id is in the SEIS-PROV namespace."
  }

  function NoTypeMessage(id: Option<QName>): string {
    "Record '" + IdText(id) + "' has an id in the SEIS-PROV namespace but no prov:type attribute. "
      + "This is not allowed."
  }

  function TypeWithoutIdMessage(id: Option<QName>): string {
    "Record '" + IdText(id) + "' has a prov:type attribute in the SEIS-PROV namespace but its id "
      + "is not part of the namespace. This is not allowed."
  }

  function ForeignTypeMessage(id: Option<QName>): string {
    "Record '" + IdText(id) + "' has an id in the SEIS-PROV namespace but its prov:type is neither "
      + "in the SEIS-PROV namespace nor is it a person, an organization, or a software agent. "
      + "This is not allowed."
  }

  function NotPrefixedMessage(name: string, prefix: string): string {
    "Record " + name + " does not start with " + prefix
  }

  function BadRecordTypeMessage(t: RecordType): string {
    RecordTypeText(t) + " not a record type that is valid for SEIS-PROV."
  }

  function UnknownTypeMessage(key: string, t: RecordType): string {
    "prov:type '" + key + "' of record type '" + RecordTypeText(t) + "' is not known to SEIS-PROV."
  }

  function BadIdMessage(id: Option<QName>, code: string): string {
    "The local part of the identifier '" + IdText(id) + "' does not match the regular expression '"
      + IdPattern.IdRegex(code) + "' as is required by the standard."
  }

  function NoLabelMessage(id: Option<QName>): string {
    "Record '" + IdText(id) + "' does not have a prov:label set."
  }

  function ManyLabelsMessage(id: Option<QName>, n: nat): string {
    "Record '" + IdText(id) + "' has " + Text.NatToString(n) + " prov:label's set. Only one is allowed."
  }

  function WrongLabelMessage(id: Option<QName>, shown: Value, expected: string): string {
    "Record '" + IdText(id) + "' has label '" + Display(shown) + "' instead of '" + expected + "'."
  }

  function MissingMessage(id: Option<QName>, missing: seq<string>): string {
    "Record '" + IdText(id) + "' misses the following required attributes in the SEIS-PROV "
      + "namespace: " + Text.QuotedList(missing)
  }

  function ExtraAttributeMessage(id: Option<QName>, name: string): string {
    "Record '" + IdText(id) + "' has an additional attribute in the SEIS-PROV namespace: '" + name
      + "'. This is not allowed for this record type."
  }

  function PatternMessage(name: string, id: Option<QName>, v: Value, pattern: string): string {
    "Attribute '" + name + "' in record '" + IdText(id) + "' with the value '" + Display(v)
      + "' does not match the regex '" + pattern + "'."
  }

  /*** Deciding whether a record is in scope. ***/

  /** `record.identifier.namespace == ns`, False without an identifier. */
  predicate IdInNamespace(id: Option<QName>, ns: Namespace) {
    id.Some? && InNamespace(id.value, ns)
  }

  /** One prov:type value as the scan sees it: a str or a Literal counts when its text
      starts with "<prefix>:", a qualified name when its namespace is `ns`; any other
      value has no `namespace` attribute (None: the scan raises). */
  function TypeInNamespace(t: Value, ns: Namespace): Option<bool> {
    match t
    case StrVal(s) => Some(Text.StartsWith(s, ns.prefix + ":"))
    case LiteralVal(raw, _) => Some(Text.StartsWith(raw, ns.prefix + ":"))
    case QNameVal(q) => Some(InNamespace(q, ns))
    case _ => None
  }

  function TypeVerdicts(types: seq<Value>, ns: Namespace): (r: seq<Option<bool>>)
    ensures |r| == |types|
    ensures forall i :: 0 <= i < |types| ==> r[i] == TypeInNamespace(types[i], ns)
  {
    seq(|types|, i requires 0 <= i < |types| => TypeInNamespace(types[i], ns))
  }

  /** The loop over the prov:types that sets `prov_type_in_ns`: it stops at the first
      type in the namespace, and raises at a value it cannot inspect before that. */
  function AnyTypeInNamespace(types: seq<Value>, ns: Namespace): Outcome<bool> {
    match TypeChecks.FirstMatch(TypeVerdicts(types, ns))
    case None => Raised(NO_NAMESPACE)
    case Some(b) => Ok(b)
  }

  /** The three prov agent types that stand in for a SEIS-PROV type. */
  function Archetype(t: Value): Option<string> {
    if t.QNameVal? && SameName(t.q, PERSON) then Some("person")
    else if t.QNameVal? && SameName(t.q, SOFTWARE_AGENT) then Some("software_agent")
    else if t.QNameVal? && SameName(t.q, ORGANIZATION) then Some("organization")
    else None
  }

  /** `assert_ns_and_extract`: the name with its "<prefix>:" removed; only a str has
      `startswith`. */
  function ExtractKey(t: Value, ns: Namespace): (r: Outcome<string>)
    ensures r.Ok? <==> t.StrVal? && Text.StartsWith(t.s, ns.prefix + ":")
    ensures r.Ok? ==> t.s == ns.prefix + ":" + r.value
  {
    var prefix := ns.prefix + ":";
    match t
    case StrVal(s) =>
      if !Text.StartsWith(s, prefix) then Invalid(NotPrefixedMessage(s, prefix))
      else
        assert s == prefix + s[|prefix|..];
        Ok(s[|prefix|..])
    case _ => Raised(NO_STARTSWITH)
  }

  /** The Definition key of a record's single prov:type (validator.py:361-368). */
  function TypeKey(t: Value, ns: Namespace): Outcome<string> {
    match Archetype(t)
    case Some(key) => Ok(key)
    case None => ExtractKey(t, ns)
  }

  /** `json_schema_map[rec_type]`. */
  function DefinitionsFor(schema: SeisProvSchema, t: RecordType): Outcome<map<string, Definition>> {
    match t
    case Entity => Ok(schema.entities)
    case Activity => Ok(schema.activities)
    case Agent => Ok(schema.agents)
    case Relation(_) => Invalid(BadRecordTypeMessage(t))
  }

  /** The loop body up to the Definition lookup (validator.py:277-381). `attrs` is
      the union of the record's two attribute collections. */
  function Classify(r: Record, attrs: seq<Attr>, schema: SeisProvSchema, ns: Namespace): Outcome<Resolution> {
    var idInNs := IdInNamespace(r.identifier, ns);
    var types := ValuesOf(attrs, PROV_TYPE);
    var typeInNs :- AnyTypeInNamespace(types, ns);
    if !idInNs && !typeInNs then Ok(Skip(OutOfScope))
    else if |types| > 1 then Invalid(TooManyTypesMessage(r.identifier, |types|))
    else if |types| == 0 then
      if idInNs then Invalid(NoTypeMessage(r.identifier)) else Ok(Skip(NoProvType))
    else if r.rtype.Relation? && r.identifier.None? then Ok(Skip(AnonymousRelation))
    else if typeInNs && !idInNs then Invalid(TypeWithoutIdMessage(r.identifier))
    else if !typeInNs && idInNs && Archetype(types[0]).None? then Invalid(ForeignTypeMessage(r.identifier))
    else if !typeInNs && !idInNs then Raised(TypeChecks.NOT_IMPLEMENTED)
    else
      var key :- TypeKey(types[0], ns);
      var defs :- DefinitionsFor(schema, r.rtype);
      if key !in defs then Invalid(UnknownTypeMessage(key, r.rtype))
      else Ok(Resolved(defs[key]))
  }

  /*** Checking a resolved record against its Definition. ***/

  /** `definition["label"] != prov_label` is False only for a str equal to it. */
  predicate LabelEquals(expected: string, v: Value) {
    v.StrVal? && v.s == expected
  }

  /** The attributes whose key is a qualified name in `ns`, by local name. */
  function NamespaceAttrs(attrs: seq<Attr>, ns: Namespace): (r: seq<NamedValue>)
    ensures forall nv :: nv in r <==>
      exists a :: a in attrs && a.key.QKey? && InNamespace(a.key.q, ns) && nv == NamedValue(a.key.q.local, a.value)
  {
    if attrs == [] then []
    else
      var rest := NamespaceAttrs(attrs[1..], ns);
      var a := attrs[0];
      assert forall x :: x in attrs <==> x == a || x in attrs[1..];
      if a.key.QKey? && InNamespace(a.key.q, ns) then [NamedValue(a.key.q.local, a.value)] + rest else rest
  }

  function Names(named: seq<NamedValue>): (r: seq<string>)
    ensures |r| == |named|
    ensures forall i :: 0 <= i < |named| ==> r[i] == named[i].name
  {
    seq(|named|, i requires 0 <= i < |named| => named[i].name)
  }

  /** The names of required attributes that are not in `available`, with repeats. */
  function RequiredAbsent(defs: seq<AttrDef>, available: seq<string>): (r: seq<string>)
    ensures forall x :: x in r <==> (exists d :: d in defs && d.required && d.name == x) && x !in available
  {
    if defs == [] then []
    else
      var rest := RequiredAbsent(defs[1..], available);
      assert forall d :: d in defs <==> d == defs[0] || d in defs[1..];
      if defs[0].required && defs[0].name !in available then [defs[0].name] + rest else rest
  }

  /** `sorted(required_attributes.difference(available_attributes))`. */
  function MissingRequired(defs: seq<AttrDef>, available: seq<string>): (r: seq<string>)
    ensures Text.StrictlySorted(r)
    ensures forall x :: x in r <==> (exists d :: d in defs && d.required && d.name == x) && x !in available
  {
    Text.SortedSet(RequiredAbsent(defs, available))
  }

  /** `[i for i in definition["attributes"] if i["name"] == name][0]`, if any. */
  function FindAttrDef(defs: seq<AttrDef>, name: string): (r: Option<AttrDef>)
    ensures r.None? <==> forall d :: d in defs ==> d.name != name
    ensures r.Some? ==> r.value in defs && r.value.name == name
  {
    if defs == [] then None
    else if defs[0].name == name then Some(defs[0])
    else
      assert forall d :: d in defs <==> d == defs[0] || d in defs[1..];
      FindAttrDef(defs[1..], name)
  }

  /** The pattern check of one attribute (validator.py:448-458). */
  function CheckPattern(a: NamedValue, ad: AttrDef, id: Option<QName>, oracles: Oracles): Outcome<()> {
    match ad.pattern
    case None => Ok(())
    case Some(p) =>
      if "xsd:string" !in ad.types then Raised(PATTERN_WITHOUT_STRING)
      else
        match a.value
        case StrVal(s) => if oracles.reMatch(p, s) then Ok(()) else Invalid(PatternMessage(a.name, id, a.value, p))
        case _ => Raised(REGEX_ON_NON_STRING)
  }

  /** One iteration of the attribute loop (validator.py:432-458). */
  function CheckAttribute(a: NamedValue, def: Definition, id: Option<QName>, oracles: Oracles): Outcome<()> {
    match FindAttrDef(def.attributes, a.name)
    case None =>
      if def.otherAttributesAllowed then Ok(()) else Invalid(ExtraAttributeMessage(id, a.name))
    case Some(ad) =>
      var typed :- TypeChecks.CheckValueTypes(a.name, a.value, ad.types, oracles.parsers);
      CheckPattern(a, ad, id, oracles)
  }

  /** The attribute loop: the attributes in order, stopping at the first failure. */
  function CheckAttributes(named: seq<NamedValue>, def: Definition, id: Option<QName>, oracles: Oracles): Outcome<()>
    decreases |named|
  {
    if named == [] then Ok(())
    else
      var first := CheckAttribute(named[0], def, id, oracles);
      if first.IsFailure() then first else CheckAttributes(named[1..], def, id, oracles)
  }

  /** The loop body from the identifier check on (validator.py:383-458), for a
      record resolved to `def`; its result is the collected local part. */
  function ValidateResolved(r: Record, attrs: seq<Attr>, def: Definition, ns: Namespace, oracles: Oracles): Outcome<string> {
    var idInNs := IdInNamespace(r.identifier, ns);
    if idInNs && !IdPattern.IdMatches(r.identifier.value.local, def.twoLetterCode) then
      Invalid(BadIdMessage(r.identifier, def.twoLetterCode))
    else if r.identifier.None? then Raised(NONE_LOCALPART)
    else
      var labels := ValuesOf(attrs, PROV_LABEL);
      if |labels| == 0 then Invalid(NoLabelMessage(r.identifier))
      else if |labels| > 1 then Invalid(ManyLabelsMessage(r.identifier, |labels|))
      else if def.provLabel != "*" && !LabelEquals(def.provLabel, labels[0]) then
        Invalid(WrongLabelMessage(r.identifier, labels[0], def.provLabel))
      else
        var named := NamespaceAttrs(attrs, ns);
        var missing := MissingRequired(def.attributes, Names(named));
        if missing != [] then Invalid(MissingMessage(r.identifier, missing))
        else
          var checked :- CheckAttributes(named, def, r.identifier, oracles);
          Ok(r.identifier.value.local)
  }

  /** One whole iteration of the record loop: Ok(None) for a skipped record,
      Ok(Some(id)) for a record whose local part `id` is collected. */
  function RecordStep(r: Record, schema: SeisProvSchema, ns: Namespace, oracles: Oracles): Outcome<Option<string>> {
    var attrs := AttrUnion(r.attributes, r.extraAttributes);
    var resolution :- Classify(r, attrs, schema, ns);
    match resolution
    case Skip(_) => Ok(None)
    case Resolved(def) =>
      var id :- ValidateResolved(r, attrs, def, ns, oracles);
      Ok(Some(id))
  }

  /*** The loops, as the source runs them. ***/

  /** The prov:type scan (validator.py:289-305). */
  method ScanProvTypes(types: seq<Value>, ns: Namespace) returns (o: Outcome<bool>)
    ensures o == AnyTypeInNamespace(types, ns)
  {
    var k := 0;
    while k < |types|
      invariant 0 <= k <= |types|
      invariant TypeChecks.FirstMatch(TypeVerdicts(types, ns)) == TypeChecks.FirstMatch(TypeVerdicts(types, ns)[k..])
    {
      assert TypeVerdicts(types, ns)[k..][1..] == TypeVerdicts(types, ns)[k + 1..];
      var t := types[k];
      if t.StrVal? {
        if Text.StartsWith(t.s, ns.prefix + ":") {
          return Ok(true);
        }
      } else if t.LiteralVal? {
        if Text.StartsWith(t.raw, ns.prefix + ":") {
          return Ok(true);
        }
      } else if t.QNameVal? {
        if InNamespace(t.q, ns) {
          return Ok(true);
        }
      } else {
        return Raised(NO_NAMESPACE);
      }
      k := k + 1;
    }
    return Ok(false);
  }

  /** The attribute loop (validator.py:431-458). */
  method CheckAttributeValues(named: seq<NamedValue>, def: Definition, id: Option<QName>, oracles: Oracles)
    returns (o: Outcome<()>)
    ensures o == CheckAttributes(named, def, id, oracles)
  {
    var k := 0;
    while k < |named|
      invariant 0 <= k <= |named|
      invariant CheckAttributes(named, def, id, oracles) == CheckAttributes(named[k..], def, id, oracles)
    {
      assert named[k..][1..] == named[k + 1..];
      var name, value := named[k].name, named[k].value;
      var thisDef := FindAttrDef(def.attributes, name);
      if thisDef.None? {
        if !def.otherAttributesAllowed {
          return Invalid(ExtraAttributeMessage(id, name));
        }
      } else {
        var typed := TypeChecks.ValidateType(name, value, thisDef.value.types, oracles.parsers);
        if typed.IsFailure() {
          return typed.PropagateFailure();
        }
        var pattern := CheckPattern(named[k], thisDef.value, id, oracles);
        if pattern.IsFailure() {
          return pattern;
        }
      }
      k := k + 1;
    }
    return Ok(());
  }

  /** The loop body up to the Definition lookup, rebinding `prov_type` as it goes
      (validator.py:277-381). */
  method ResolveRecord(r: Record, attrs: seq<Attr>, schema: SeisProvSchema, ns: Namespace)
    returns (o: Outcome<Resolution>)
    ensures o == Classify(r, attrs, schema, ns)
  {
    var idInNs := IdInNamespace(r.identifier, ns);
    var types := ValuesOf(attrs, PROV_TYPE);
    var scan := ScanProvTypes(types, ns);
    if scan.IsFailure() {
      return scan.PropagateFailure();
    }
    var typeInNs := scan.value;
    if !idInNs && !typeInNs {
      return Ok(Skip(OutOfScope));
    }
    if |types| > 1 {
      return Invalid(TooManyTypesMessage(r.identifier, |types|));
    }
    if |types| == 0 {
      if idInNs {
        return Invalid(NoTypeMessage(r.identifier));
      }
      return Ok(Skip(NoProvType));
    }
    var provType := types[0];
    if r.rtype.Relation? && r.identifier.None? {
      return Ok(Skip(AnonymousRelation));
    }
    if typeInNs {
      if !idInNs {
        return Invalid(TypeWithoutIdMessage(r.identifier));
      }
    } else if idInNs {
      if Archetype(provType).None? {
        return Invalid(ForeignTypeMessage(r.identifier));
      }
    } else {
      return Raised(TypeChecks.NOT_IMPLEMENTED);
    }
    var keyOutcome := TypeKey(provType, ns);
    if keyOutcome.IsFailure() {
      return keyOutcome.PropagateFailure();
    }
    var key := keyOutcome.value;
    var defsOutcome := DefinitionsFor(schema, r.rtype);
    if defsOutcome.IsFailure() {
      return defsOutcome.PropagateFailure();
    }
    if key !in defsOutcome.value {
      return Invalid(UnknownTypeMessage(key, r.rtype));
    }
    return Ok(Resolved(defsOutcome.value[key]));
  }

  /** The loop body from the identifier check on, rebinding `attrs` to the attributes
      of the namespace (validator.py:383-458). */
  method CheckResolved(r: Record, attrs: seq<Attr>, def: Definition, ns: Namespace, oracles: Oracles)
    returns (o: Outcome<string>)
    ensures o == ValidateResolved(r, attrs, def, ns, oracles)
  {
    var idInNs := IdInNamespace(r.identifier, ns);
    if idInNs && !IdPattern.IdMatches(r.identifier.value.local, def.twoLetterCode) {
      return Invalid(BadIdMessage(r.identifier, def.twoLetterCode));
    }
    if r.identifier.None? {
      return Raised(NONE_LOCALPART);
    }
    var collected := r.identifier.value.local;
    var labels := ValuesOf(attrs, PROV_LABEL);
    if |labels| == 0 {
      return Invalid(NoLabelMessage(r.identifier));
    } else if |labels| > 1 {
      return Invalid(ManyLabelsMessage(r.identifier, |labels|));
    }
    if def.provLabel != "*" && !LabelEquals(def.provLabel, labels[0]) {
      return Invalid(WrongLabelMessage(r.identifier, labels[0], def.provLabel));
    }
    var named := NamespaceAttrs(attrs, ns);
    var missing := MissingRequired(def.attributes, Names(named));
    if missing != [] {
      return Invalid(MissingMessage(r.identifier, missing));
    }
    var checked := CheckAttributeValues(named, def, r.identifier, oracles);
    if checked.IsFailure() {
      return checked.PropagateFailure();
    }
    return Ok(collected);
  }

  /** One iteration of the record loop. */
  method ValidateRecord(r: Record, schema: SeisProvSchema, ns: Namespace, oracles: Oracles)
    returns (o: Outcome<Option<string>>)
    ensures o == RecordStep(r, schema, ns, oracles)
  {
    var attrs := AttrUnion(r.attributes, r.extraAttributes);
    var resolution := ResolveRecord(r, attrs, schema, ns);
    if resolution.IsFailure() {
      return resolution.PropagateFailure();
    }
    if resolution.value.Skip? {
      return Ok(None);
    }
    var collected := CheckResolved(r, attrs, resolution.value.def, ns, oracles);
    if collected.IsFailure() {
      return collected.PropagateFailure();
    }
    return Ok(Some(collected.value));
  }
}
