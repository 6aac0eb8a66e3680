/** The SEIS-PROV definition: one Definition per record subtype, as written in the
    definition JSON files and collected into the schema the validator reads. */
module Schema {
  import opened Wrappers

  /** One attribute of a Definition. `types` are declared type names such as
      "xsd:string"; `pattern` is a regular expression the value must match. */
  datatype AttrDef = AttrDef(
    name: string,
    required: bool,
    types: seq<string>,
    description: string,
    pattern: Option<string>)

  /** One record subtype. `recordType` is "entity", "activity" or "agent" in a
      well-formed file; `provLabel` is the exact expected prov:label or "*" for any. */
  datatype Definition = Definition(
    name: string,
    recordType: string,
    provLabel: string,
    description: string,
    twoLetterCode: string,
    attributes: seq<AttrDef>,
    otherAttributesAllowed: bool)

  /** The schema the validator reads: subtype name to Definition, per record kind. */
  datatype SeisProvSchema = SeisProvSchema(
    entities: map<string, Definition>,
    activities: map<string, Definition>,
    agents: map<string, Definition>)
}
