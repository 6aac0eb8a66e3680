/** The parsed W3C PROV document as the validator sees it: namespaces, qualified
    names, attribute values, records and bundles. Parsing is done by the prov
    library; here its results are plain values. */
module Prov {
  import opened Wrappers
  import Text

  /** A namespace; two namespaces are the same when their URIs are. */
  datatype Namespace = Namespace(prefix: string, uri: string)

  /** A qualified name `prefix:local` in a namespace. */
  datatype QName = QName(ns: Namespace, local: string)

  const PROV_URI := "http://www.w3.org/ns/prov#"
  const PROV_NS := Namespace("prov", PROV_URI)
  const PROV_TYPE := QName(PROV_NS, "type")
  const PROV_LABEL := QName(PROV_NS, "label")
  const PERSON := QName(PROV_NS, "Person")
  const SOFTWARE_AGENT := QName(PROV_NS, "SoftwareAgent")
  const ORGANIZATION := QName(PROV_NS, "Organization")

  /** The namespace URI the validator looks for (validator.py:39). */
  const SEIS_PROV_NAMESPACE := "http://seisprov.org/seis_prov/0.1/#"

  predicate InNamespace(q: QName, ns: Namespace) {
    q.ns.uri == ns.uri
  }

  /** Equality of qualified names: same namespace URI and same local part. */
  predicate SameName(a: QName, b: QName) {
    a.ns.uri == b.ns.uri && a.local == b.local
  }

  /** `str(q)`: "prefix:local", or the bare local part when the prefix is empty. */
  function QNameText(q: QName): string {
    if q.ns.prefix == "" then q.local else q.ns.prefix + ":" + q.local
  }

  /** `str(record.identifier)`, where a missing identifier prints as "None". */
  function IdText(id: Option<QName>): string {
    match id
    case None => "None"
    case Some(q) => QNameText(q)
  }

  /** An attribute value as the prov library hands it over, tagged by its Python type.
      Floats and date-times carry their printed form only: their numeric semantics is
      not part of this model. */
  datatype Value =
    | StrVal(s: string)                          // str
    | IntVal(i: int)                             // int
    | BoolVal(b: bool)                           // bool (a subclass of int in Python)
    | FloatVal(text: string)                     // float
    | DateTimeVal(text: string)                  // datetime.datetime
    | LiteralVal(raw: string, dtype: string)     // prov.model.Literal
    | UriVal(uri: string)                        // prov.identifier.Identifier
    | QNameVal(q: QName)                         // prov.identifier.QualifiedName

  /** `str(value)`. */
  function Display(v: Value): string {
    match v
    case StrVal(s) => s
    case IntVal(i) => Text.IntToString(i)
    case BoolVal(b) => if b then "True" else "False"
    case FloatVal(t) => t
    case DateTimeVal(t) => t
    case LiteralVal(raw, dt) => "\"" + raw + "\" %% " + dt
    case UriVal(u) => u
    case QNameVal(q) => QNameText(q)
  }

  /** `type(value)` as Python 3 prints it. */
  function TypeText(v: Value): string {
    match v
    case StrVal(_) => "<class 'str'>"
    case IntVal(_) => "<class 'int'>"
    case BoolVal(_) => "<class 'bool'>"
    case FloatVal(_) => "<class 'float'>"
    case DateTimeVal(_) => "<class 'datetime.datetime'>"
    case LiteralVal(_, _) => "<class 'prov.model.Literal'>"
    case UriVal(_) => "<class 'prov.identifier.Identifier'>"
    case QNameVal(_) => "<class 'prov.identifier.QualifiedName'>"
  }

  /** An attribute key: normally a qualified name. */
  datatype Key = QKey(q: QName) | PlainKey(text: string)

  datatype Attr = Attr(key: Key, value: Value)

  /** `record.get_type()`: the three element kinds, or a relation such as prov:Usage. */
  datatype RecordType = Entity | Activity | Agent | Relation(local: string)

  /** `str(rec_type)` */
  function RecordTypeText(t: RecordType): string {
    match t
    case Entity => "prov:Entity"
    case Activity => "prov:Activity"
    case Agent => "prov:Agent"
    case Relation(l) => "prov:" + l
  }

  /** A record with the prov library's two attribute collections. */
  datatype Record = Record(
    rtype: RecordType,
    identifier: Option<QName>,
    attributes: seq<Attr>,
    extraAttributes: seq<Attr>)

  /** A bundle is a named group of records; the root document holds records, the
      namespaces it declares and its bundles. */
  datatype Bundle = Bundle(records: seq<Record>)

  datatype Document = Document(namespaces: seq<Namespace>, records: seq<Record>, bundles: seq<Bundle>)

  /** `list(set(record.attributes).union(record.extra_attributes))`: every attribute
      of either collection, each (key, value) pair once. */
  function AttrUnion(a: seq<Attr>, b: seq<Attr>): (r: seq<Attr>)
    ensures forall x :: x in r <==> x in a || x in b
    ensures Text.NoDuplicates(r)
    decreases |a| + |b|
  {
    if a == [] && b == [] then []
    else
      var x := if a != [] then a[0] else b[0];
      var rest := if a != [] then AttrUnion(a[1..], b) else AttrUnion([], b[1..]);
      if x in rest then rest else [x] + rest
  }

  /** The values of the attributes whose key is `name`. */
  function ValuesOf(attrs: seq<Attr>, name: QName): (r: seq<Value>)
    ensures |r| <= |attrs|
    ensures forall v :: v in r <==> exists a :: a in attrs && a.key.QKey? && SameName(a.key.q, name) && a.value == v
  {
    if attrs == [] then []
    else
      var rest := ValuesOf(attrs[1..], name);
      var a := attrs[0];
      assert forall x :: x in attrs <==> x == a || x in attrs[1..];
      if a.key.QKey? && SameName(a.key.q, name) then [a.value] + rest else rest
  }
}
