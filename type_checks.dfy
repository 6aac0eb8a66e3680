/** The table of attribute type checkers (TYPE_MAP) and the loop that tries an
    attribute's declared types in order (`_validate_type`). */
module TypeChecks {
  import opened Wrappers
  import opened Prov
  import Text

  /** The keys of TYPE_MAP. */
  datatype XsdType = XsdDouble | XsdDecimal | XsdInteger | XsdPositiveInteger | XsdString | XsdDateTime | XsdAnyUri

  /** The key of each checker in TYPE_MAP. */
  function XsdName(x: XsdType): string {
    match x
    case XsdDouble => "xsd:double"
    case XsdDecimal => "xsd:decimal"
    case XsdInteger => "xsd:integer"
    case XsdPositiveInteger => "xsd:positiveInteger"
    case XsdString => "xsd:string"
    case XsdDateTime => "xsd:dateTime"
    case XsdAnyUri => "xsd:anyURI"
  }

  /** Looking a declared type name up in TYPE_MAP: found exactly when it is the key
      of a checker, and then it is that checker's key. */
  function TypeMapEntry(t: string): (r: Option<XsdType>)
    ensures r.Some? ==> XsdName(r.value) == t
    ensures r.None? ==> forall x :: XsdName(x) != t
  {
    if t == "xsd:double" then Some(XsdDouble)
    else if t == "xsd:decimal" then Some(XsdDecimal)
    else if t == "xsd:integer" then Some(XsdInteger)
    else if t == "xsd:positiveInteger" then Some(XsdPositiveInteger)
    else if t == "xsd:string" then Some(XsdString)
    else if t == "xsd:dateTime" then Some(XsdDateTime)
    else if t == "xsd:anyURI" then Some(XsdAnyUri)
    else None
  }

  predicate Declared(t: string) {
    TypeMapEntry(t).Some?
  }

  /** What Python's parsers do with a string, taken as given: `floatParses(s)` is
      `float(s)` returning normally, `urlParses(s)` is `urlparse(s)` returning
      normally. `urlparse` raises ValueError, for one, when the network location
      holds a '[' without a ']' or a ']' without a '[' (as in "http://["), and
      later Python versions refuse further network locations. */
  datatype Parsers = Parsers(floatParses: string -> bool, urlParses: string -> bool)

  /** `TYPE_MAP[x](v) is True`, with an exception inside the checker read as False. */
  function Accepts(x: XsdType, v: Value, parsers: Parsers): bool {
    match x
    case XsdDouble => v.FloatVal?
    // float(x.value): only a Literal has `.value`
    case XsdDecimal => v.LiteralVal? && parsers.floatParses(v.raw)
    // str(x).isnumeric()
    case XsdInteger =>
      (match v
        case StrVal(s) => Text.IsNumeric(s)
        case IntVal(i) => i >= 0
        case UriVal(u) => Text.IsNumeric(u)
        case QNameVal(q) => Text.IsNumeric(QNameText(q))
        // "True"/"False", a float's repr, a date with '-', a quoted PROV-N literal
        case _ => false)
    // (isinstance(x, int) and int(x) >= 0) or (x.value.isnumeric() and int(x.value) >= 0)
    case XsdPositiveInteger =>
      (match v
        case IntVal(i) => i >= 0
        case BoolVal(_) => true
        case LiteralVal(raw, _) => Text.IsNumeric(raw)
        case _ => false)
    case XsdString => v.StrVal? && v.s != ""
    case XsdDateTime => v.DateTimeVal?
    // urlparse(x) of a str, else urlparse(x.uri): the parse result is a non-empty
    // tuple, so only a ValueError from urlparse, or a value without `.uri`, rejects
    case XsdAnyUri =>
      (match v
        case StrVal(s) => parsers.urlParses(s)
        case UriVal(u) => parsers.urlParses(u)
        // a QualifiedName's uri is its namespace URI followed by its local part
        case QNameVal(q) => parsers.urlParses(q.ns.uri + q.local)
        case _ => false)
  }

  /** `TYPE_MAP[t](v)` for a declared type name `t`: None when `t` is not in the table
      (the loop raises), otherwise the checker's verdict. */
  function Checker(t: string, v: Value, parsers: Parsers): (r: Option<bool>)
    ensures r.None? <==> !Declared(t)
  {
    match TypeMapEntry(t)
    case None => None
    case Some(x) => Some(Accepts(x, v, parsers))
  }

  /** What each declared type's checker says about `v`, in declaration order. */
  function Verdicts(v: Value, types: seq<string>, parsers: Parsers): (r: seq<Option<bool>>)
    ensures |r| == |types|
    ensures forall i :: 0 <= i < |types| ==> r[i] == Checker(types[i], v, parsers)
  {
    seq(|types|, i requires 0 <= i < |types| => Checker(types[i], v, parsers))
  }

  /** The for/else loop of `_validate_type` over the checkers' verdicts: Some(true)
      when a checker accepts (break), Some(false) when the declared types are
      exhausted (else clause), None when an undeclared type name is reached first
      (NotImplementedError). */
  function FirstMatch(verdicts: seq<Option<bool>>): Option<bool>
    decreases |verdicts|
  {
    if verdicts == [] then Some(false)
    else
      match verdicts[0]
      case None => None
      case Some(true) => Some(true)
      case Some(false) => FirstMatch(verdicts[1..])
  }

  const NOT_IMPLEMENTED := "NotImplementedError"

  function BadTypeMessage(name: string, v: Value, types: seq<string>): string {
    "Attribute '" + name + "' has an invalid type '" + TypeText(v) + "'. Valid types: "
      + Text.Join(", ", types)
  }

  /** `_validate_type(name, value, types)` as a value. */
  function CheckValueTypes(name: string, v: Value, types: seq<string>, parsers: Parsers): Outcome<()> {
    match FirstMatch(Verdicts(v, types, parsers))
    case None => Raised(NOT_IMPLEMENTED)
    case Some(true) => Ok(())
    case Some(false) => Invalid(BadTypeMessage(name, v, types))
  }

  /** The loop accepts exactly when some verdict is True and every verdict before it
      is a (known type's) False; it raises exactly when an unknown type comes before
      any True. */
  lemma {:induction false} FirstMatchSpec(vs: seq<Option<bool>>)
    ensures FirstMatch(vs) == Some(true) <==>
      exists i :: 0 <= i < |vs| && vs[i] == Some(true) && forall j :: 0 <= j < i ==> vs[j] == Some(false)
    ensures FirstMatch(vs) == None <==>
      exists i :: 0 <= i < |vs| && vs[i] == None && forall j :: 0 <= j < i ==> vs[j] == Some(false)
    decreases |vs|
  {
    if vs != [] {
      FirstMatchSpec(vs[1..]);
      forall i | 0 < i < |vs| ensures vs[1..][i - 1] == vs[i] { }
      if FirstMatch(vs) == Some(true) && vs[0] != Some(true) {
        var i :| 0 <= i < |vs[1..]| && vs[1..][i] == Some(true) && forall j :: 0 <= j < i ==> vs[1..][j] == Some(false);
        assert vs[i + 1] == Some(true);
      }
      if FirstMatch(vs) == None && vs[0] != None {
        var i :| 0 <= i < |vs[1..]| && vs[1..][i] == None && forall j :: 0 <= j < i ==> vs[1..][j] == Some(false);
        assert vs[i + 1] == None;
      }
      if exists i :: 0 <= i < |vs| && vs[i] == Some(true) && forall j :: 0 <= j < i ==> vs[j] == Some(false) {
        var i :| 0 <= i < |vs| && vs[i] == Some(true) && forall j :: 0 <= j < i ==> vs[j] == Some(false);
        if i > 0 { assert vs[1..][i - 1] == Some(true); }
      }
      if exists i :: 0 <= i < |vs| && vs[i] == None && forall j :: 0 <= j < i ==> vs[j] == Some(false) {
        var i :| 0 <= i < |vs| && vs[i] == None && forall j :: 0 <= j < i ==> vs[j] == Some(false);
        if i > 0 { assert vs[1..][i - 1] == None; }
      }
    }
  }

  /** When every declared type is in the table, the check never raises: the value
      passes exactly when one of the declared types accepts it, and otherwise the
      error names the attribute, the value's type and the declared types. */
  lemma DeclaredTypesDecide(name: string, v: Value, types: seq<string>, parsers: Parsers)
    requires forall t :: t in types ==> Declared(t)
    ensures CheckValueTypes(name, v, types, parsers) ==
      if exists t :: t in types && Checker(t, v, parsers) == Some(true) then Ok(())
      else Invalid(BadTypeMessage(name, v, types))
  {
    var vs := Verdicts(v, types, parsers);
    if exists t :: t in types && Checker(t, v, parsers) == Some(true) {
      var t :| t in types && Checker(t, v, parsers) == Some(true);
      var k :| 0 <= k < |types| && types[k] == t;
      assert vs[k] == Some(true);
      var i := FirstTrue(vs);
      forall j | 0 <= j < i ensures vs[j] == Some(false) {
        assert types[j] in types;
      }
      FirstMatchAtFirstTrue(vs, i);
    } else {
      forall i | 0 <= i < |vs| ensures vs[i] == Some(false) {
        assert types[i] in types;
      }
      FirstMatchAllFalse(vs);
    }
  }

  /** The loop stops at the first True verdict when only Falses come before it. */
  lemma {:induction false} FirstMatchAtFirstTrue(vs: seq<Option<bool>>, i: nat)
    requires i < |vs| && vs[i] == Some(true)
    requires forall j :: 0 <= j < i ==> vs[j] == Some(false)
    ensures FirstMatch(vs) == Some(true)
    decreases i
  {
    if i > 0 {
      FirstMatchAtFirstTrue(vs[1..], i - 1);
    }
  }

  /** When every checker rejects, the loop falls through to its else clause. */
  lemma {:induction false} FirstMatchAllFalse(vs: seq<Option<bool>>)
    requires forall i :: 0 <= i < |vs| ==> vs[i] == Some(false)
    ensures FirstMatch(vs) == Some(false)
    decreases |vs|
  {
    if vs != [] {
      FirstMatchAllFalse(vs[1..]);
    }
  }

  /** The loop falls through exactly when every verdict is a False. */
  lemma {:induction false} FirstMatchRejectsAll(vs: seq<Option<bool>>)
    ensures FirstMatch(vs) == Some(false) <==> forall i :: 0 <= i < |vs| ==> vs[i] == Some(false)
    decreases |vs|
  {
    if vs != [] {
      FirstMatchRejectsAll(vs[1..]);
      assert forall i :: 0 < i < |vs| ==> vs[1..][i - 1] == vs[i];
    }
  }

  /** The position of the first True verdict, when there is one. */
  function FirstTrue(vs: seq<Option<bool>>): (i: nat)
    requires Some(true) in vs
    ensures i < |vs| && vs[i] == Some(true)
    ensures forall j :: 0 <= j < i ==> vs[j] != Some(true)
  {
    if vs[0] == Some(true) then 0 else 1 + FirstTrue(vs[1..])
  }

  /** An undeclared type name is a programming error, not a validation error: it
      raises as soon as the loop reaches it. */
  lemma UndeclaredTypeRaises(name: string, v: Value, types: seq<string>, parsers: Parsers, i: nat)
    requires i < |types| && !Declared(types[i])
    requires forall j :: 0 <= j < i ==> Checker(types[j], v, parsers) == Some(false)
    ensures CheckValueTypes(name, v, types, parsers) == Raised(NOT_IMPLEMENTED)
  {
    var vs := Verdicts(v, types, parsers);
    FirstMatchSpec(vs);
    assert vs[i] == None;
  }

  /** xsd:positiveInteger accepts 0, and both booleans. */
  lemma PositiveIntegerAcceptsZero(parsers: Parsers)
    ensures Accepts(XsdPositiveInteger, IntVal(0), parsers)
    ensures forall b :: Accepts(XsdPositiveInteger, BoolVal(b), parsers)
  {
  }

  /** xsd:anyURI accepts a str exactly when `urlparse` returns normally on it: the
      parse result is never falsy, so a string is refused only through the
      exception `urlparse` raises. */
  lemma AnyUriAcceptsParsedStrings(parsers: Parsers)
    ensures forall s :: Accepts(XsdAnyUri, StrVal(s), parsers) <==> parsers.urlParses(s)
  {
  }

  /** A str on which `urlparse` raises, such as "http://[", has an invalid type for
      an attribute declared only as xsd:anyURI: the bare `except` turns the
      ValueError into a rejection, and the else clause reports it. */
  lemma UnparsableUriRejected(name: string, s: string, parsers: Parsers)
    requires !parsers.urlParses(s)
    ensures CheckValueTypes(name, StrVal(s), ["xsd:anyURI"], parsers) ==
      Invalid(BadTypeMessage(name, StrVal(s), ["xsd:anyURI"]))
  {
    var vs := Verdicts(StrVal(s), ["xsd:anyURI"], parsers);
    assert vs == [Some(false)];
    assert FirstMatch(vs) == FirstMatch(vs[1..]);
  }

  /** `_validate_type`: tries the declared types in order and stops at the first that
      accepts the value. */
  method ValidateType(name: string, v: Value, types: seq<string>, parsers: Parsers)
    returns (o: Outcome<()>)
    ensures o == CheckValueTypes(name, v, types, parsers)
  {
    var k := 0;
    while k < |types|
      invariant 0 <= k <= |types|
      invariant FirstMatch(Verdicts(v, types, parsers)) == FirstMatch(Verdicts(v, types, parsers)[k..])
    {
      assert Verdicts(v, types, parsers)[k..][1..] == Verdicts(v, types, parsers)[k + 1..];
      var verdict := Checker(types[k], v, parsers);
      if verdict.None? {
        return Raised(NOT_IMPLEMENTED);
      }
      if verdict.value {
        return Ok(());
      }
      k := k + 1;
    }
    return Invalid(BadTypeMessage(name, v, types));
  }
}
