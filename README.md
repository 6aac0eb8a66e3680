# SEIS-PROV validator and definition tooling in Dafny

SEIS-PROV is a W3C PROV profile for seismological provenance. Its definition is a
set of JSON "Definitions" (one per entity, activity or agent type, each with a
name, a label, a two-letter code and typed attributes). This project models:

- the record validator (`validator/seis_prov_validate/validator.py`): for every
  record of a parsed PROV document and of its bundles, whether it belongs to the
  SEIS-PROV namespace, which Definition it resolves to, and the checks against
  that Definition (identifier format `^sp\d{3,5}_<code>_[a-z0-9]{7,12}$`, one
  label, required attributes, unknown attributes, attribute types and patterns);
  then the duplicate-id check across the document, and `validate`'s result with
  its errors and warnings;
- the self-check of the definition (`definition/validate_definitions.py`): the
  file name, the label derived from the name, the record type, duplicate
  attribute names, and unique two-letter codes; on success the combined
  definition;
- the details document generator (`definition/auto_generating_code/generate_details_doc.py`):
  the fixed-width reStructuredText table of `make_table`, the split of a
  Definition's attributes into a required and an optional table, and the title;
- `header.py`: `get_filename`, the `.json` filter of `json_files`, and `NS_URL`.

Every `_log_error` raises, so validation stops at the first error. Outcomes are
`Ok`, `Invalid(message)` for the validator's own exception (or the definition
script's `ValidationError`), and `Raised(exception)` for any other Python
exception that escapes. Loops of the source are methods proved equal to a
specification function (`ensures o == ...`); the properties are lemmas about
those functions.

Modules: `Wrappers` (Option, Outcome), `Text` (Python string helpers), `PosixPath`
(`basename`, `splitext`, `join`), `Prov` (the parsed PROV document), `Schema` (the
Definitions), `TypeChecks` (`TYPE_MAP`, `_validate_type`), `IdPattern` (the id
format), `RecordValidation` and `RecordProperties` (one record),
`DocumentValidation` and `DocumentProperties` (the document), `Definitions` and
`DefinitionProperties` (the definition self-check), `DetailsDoc`, `Header`.

## Model

| member | source | states |
|---|---|---|
| Prov.AttrUnion | validator/seis_prov_validate/validator.py:278 | The union holds exactly the attributes of either collection, each once. |
| Prov.ValuesOf | validator/seis_prov_validate/validator.py:286 | The collected values are exactly those of attributes keyed by the given qualified name, never more than there are attributes. |
| TypeChecks.Verdicts | validator/seis_prov_validate/validator.py:482-486 | One verdict per declared type, in order, each the TYPE_MAP checker's answer or "not in the table". |
| TypeChecks.ValidateType | validator/seis_prov_validate/validator.py:478-492 | The for/else loop over the declared types returns what CheckValueTypes specifies: accept at the first checker saying True, raise NotImplementedError at an undeclared type reached first, else the invalid-type error. |
| TypeChecks.FirstMatchSpec | validator/seis_prov_validate/validator.py:482-490 | The loop accepts iff some verdict is True with only Falses before it, and raises iff an undeclared type comes with only Falses before it. |
| TypeChecks.FirstMatchAtFirstTrue | validator/seis_prov_validate/validator.py:486-487 | The loop stops at the first True verdict. |
| TypeChecks.FirstMatchAllFalse | validator/seis_prov_validate/validator.py:490-492 | When every checker rejects, the else clause is reached. |
| TypeChecks.FirstMatchRejectsAll | validator/seis_prov_validate/validator.py:482-492 | The else clause is reached iff every verdict is False. |
| TypeChecks.FirstTrue | validator/seis_prov_validate/validator.py:486-487 | The index found holds a True verdict and no earlier verdict is True. |
| TypeChecks.DeclaredTypesDecide | validator/seis_prov_validate/validator.py:478-492 | With only declared types the check never raises: it passes iff some declared type accepts the value, else the error names attribute, value type and types. |
| TypeChecks.UndeclaredTypeRaises | validator/seis_prov_validate/validator.py:483-484 | An undeclared type name reached before any accepting type raises NotImplementedError, not a validation error. |
| TypeChecks.PositiveIntegerAcceptsZero | validator/seis_prov_validate/validator.py:468-470 | xsd:positiveInteger accepts 0 and both booleans. |
| TypeChecks.TypeMapEntry | validator/seis_prov_validate/validator.py:464-475 | A declared type name is found in TYPE_MAP exactly when it is the key of one of the seven checkers, and then it names that checker. |
| TypeChecks.Accepts | validator/seis_prov_validate/validator.py:464-475 | What each TYPE_MAP checker returns True for, an exception read as False: floats, Literals whose value `float` parses, values whose `str` is numeric, non-negative ints, booleans or numeric Literals, non-empty strs, datetimes, and strs, Identifiers or QualifiedNames whose URI `urlparse` parses. |
| TypeChecks.Checker | validator/seis_prov_validate/validator.py:482-486 | The verdict is missing exactly when the type name is not a TYPE_MAP key (the loop raises there). |
| TypeChecks.AnyUriAcceptsParsedStrings | validator/seis_prov_validate/validator.py:473-474 | xsd:anyURI accepts a str exactly when `urlparse` returns normally on it. |
| TypeChecks.UnparsableUriRejected | validator/seis_prov_validate/validator.py:473-492 | A str on which `urlparse` raises ValueError is an invalid type for an attribute declared only xsd:anyURI: the bare `except` swallows the error and the else clause reports it. |
| IdPattern.BuiltIdMatches | validator/seis_prov_validate/validator.py:384-386 | "sp" + 3 to 5 digits + "_" + code + "_" + 7 to 12 of [a-z0-9] always matches the id regex. |
| IdPattern.MatchingIdDecomposes | validator/seis_prov_validate/validator.py:384-386 | Conversely every newline-free matching local part decomposes into such parts. |
| IdPattern.TrailingNewlineAccepted | validator/seis_prov_validate/validator.py:384-386 | Because `$` also matches before a final newline, a well-formed id followed by "\n" is accepted. |
| IdPattern.ExampleIdentifiers | definition/examples/example_adjoint_source.py:18 | "sp000_sa_9dig8ata" and "sp001_sa_9345084" match for code "sa"; the old format "sa_9DIG8A-TA" (examples/example_detailed_processing_chain.py:1) does not. |
| RecordValidation.TypeVerdicts | validator/seis_prov_validate/validator.py:290-305 | One scan verdict per prov:type, in order. |
| RecordValidation.ExtractKey | validator/seis_prov_validate/validator.py:495-503 | `assert_ns_and_extract` succeeds iff the name is a str starting with "<prefix>:", and then the name is that prefix followed by the result. |
| RecordValidation.NamespaceAttrs | validator/seis_prov_validate/validator.py:412-414 | Exactly the attributes keyed by a qualified name in the namespace, by local name. |
| RecordValidation.Names | validator/seis_prov_validate/validator.py:420 | The local names of those attributes, in order. |
| RecordValidation.RequiredAbsent | validator/seis_prov_validate/validator.py:417-422 | A name is listed iff it is a required attribute's name that is not available. |
| RecordValidation.MissingRequired | validator/seis_prov_validate/validator.py:417-422 | The missing required names: strictly sorted (so each once), and exactly the required names not available. |
| RecordValidation.FindAttrDef | validator/seis_prov_validate/validator.py:433-446 | No declaration is found iff none has the name; a found one is declared and has the name. |
| RecordValidation.ScanProvTypes | validator/seis_prov_validate/validator.py:289-305 | The scan loop equals AnyTypeInNamespace: stops at the first type in the namespace, raises at an uninspectable value before it. |
| RecordValidation.CheckAttributeValues | validator/seis_prov_validate/validator.py:431-458 | The attribute loop equals CheckAttributes: attributes in order, first failure wins. |
| RecordValidation.ResolveRecord | validator/seis_prov_validate/validator.py:277-381 | The loop body up to the Definition lookup, rebinding `prov_type`, equals Classify. |
| RecordValidation.CheckResolved | validator/seis_prov_validate/validator.py:383-458 | The loop body from the id check on, rebinding `attrs`, equals ValidateResolved. |
| RecordValidation.ValidateRecord | validator/seis_prov_validate/validator.py:275-459 | One whole iteration of the record loop equals RecordStep. |
| RecordProperties.ScanSpec | validator/seis_prov_validate/validator.py:289-305 | The scan answers True iff some type counts with only non-counting inspectable types before it, False iff no type counts and all are inspectable, and otherwise raises AttributeError. |
| RecordProperties.TypeInNamespaceCases | validator/seis_prov_validate/validator.py:294-305 | A str or Literal counts by its "<prefix>:" text, a qualified name by its namespace URI; other values cannot be inspected. |
| RecordProperties.OutOfScopeRecordIsSkipped | validator/seis_prov_validate/validator.py:280-310 | A record with neither id nor any prov:type in the namespace contributes no id and no error, whatever its other attributes. |
| RecordProperties.UninspectableTypeRaises | validator/seis_prov_validate/validator.py:302-303 | A prov:type value without `namespace` met before any counting type raises AttributeError. |
| RecordProperties.SeveralTypesRejected | validator/seis_prov_validate/validator.py:312-318 | In scope, more than one prov:type is an error naming the record and the count. |
| RecordProperties.MissingTypeRejected | validator/seis_prov_validate/validator.py:319-326 | In scope, zero prov:types is always an error: such a record is in scope through its id, so the `continue` at line 326 is unreachable. |
| RecordProperties.NeverSkippedForMissingType | validator/seis_prov_validate/validator.py:326 | No record is ever skipped by the `continue` at line 326. |
| RecordProperties.AnonymousRelationSkipped | validator/seis_prov_validate/validator.py:329-333 | A relation without identifier that passed the type-count checks is skipped silently. |
| RecordProperties.TypeWithoutIdRejected | validator/seis_prov_validate/validator.py:336-343 | A prov:type in the namespace with an id outside it is an error. |
| RecordProperties.ForeignTypeRejected | validator/seis_prov_validate/validator.py:344-355 | An id in the namespace with a foreign prov:type other than prov Person, SoftwareAgent, Organization is an error. |
| RecordProperties.TypeKeyCases | validator/seis_prov_validate/validator.py:361-368 | The three prov agent types map to person, software_agent, organization; a "<prefix>:key" str maps to key; any other str is the not-prefixed error. |
| RecordProperties.NoImpossibleCombination | validator/seis_prov_validate/validator.py:356-359 | The NotImplementedError at line 359 is never raised. |
| RecordProperties.ResolvedRecordHasNamespaceId | validator/seis_prov_validate/validator.py:370-379 | A record resolved to a Definition has its id in the namespace, exactly one prov:type, and the Definition is the schema entry for its kind and type key. |
| RecordProperties.NeverLocalpartOfNone | validator/seis_prov_validate/validator.py:392 | `record.identifier.localpart` never meets a missing identifier. |
| RecordProperties.ResolvedCheckKeepsIdentifier | validator/seis_prov_validate/validator.py:383-392 | With an id in the namespace the checks after resolution never raise on a missing identifier. |
| RecordProperties.AttributeCheckRaises | validator/seis_prov_validate/validator.py:447-454 | One attribute check can only raise NotImplementedError, the bare Exception of a pattern without xsd:string, or re.match's TypeError. |
| RecordProperties.RelationRecordRejected | validator/seis_prov_validate/validator.py:370-372 | A relation with an identifier that reaches the lookup is "not a record type that is valid". |
| RecordProperties.UnknownTypeRejected | validator/seis_prov_validate/validator.py:375-377 | A type key the schema lacks for the record's kind is an error naming key and kind. |
| RecordProperties.BadIdRejected | validator/seis_prov_validate/validator.py:383-390 | A resolved record whose local part does not match the id regex is an error naming the id and the regex. |
| RecordProperties.LabelRule | validator/seis_prov_validate/validator.py:395-408 | No label, several labels, or (unless the Definition's label is "*") a label other than the Definition's are errors. |
| RecordProperties.AvailableNames | validator/seis_prov_validate/validator.py:412-420 | `available_attributes` holds exactly the local names of attributes in the namespace. |
| RecordProperties.MissingRequiredRejected | validator/seis_prov_validate/validator.py:416-428 | A missing required attribute is an error whose list is sorted, contains it, and is exactly the missing required names. |
| RecordProperties.CheckAttributesPass | validator/seis_prov_validate/validator.py:431-458 | The attribute loop passes iff every attribute passes. |
| RecordProperties.CheckAttributesFirstFailure | validator/seis_prov_validate/validator.py:431-458 | A failing attribute loop fails as one of its attributes does. |
| RecordProperties.UnknownAttributeRule | validator/seis_prov_validate/validator.py:436-444 | An undeclared attribute is an error unless other attributes are allowed, in which case it is not checked at all. |
| RecordProperties.KnownAttributeRule | validator/seis_prov_validate/validator.py:446-458 | A declared attribute passes iff a declared type accepts it and, with a pattern, xsd:string is declared and the str value matches. |
| RecordProperties.CollectedIdIsWellFormed | validator/seis_prov_validate/validator.py:383-392 | A collected id is the local part of an identifier in the namespace and has its Definition's id format. |
| RecordProperties.AcceptedRecordHasLabelAndRequired | validator/seis_prov_validate/validator.py:395-428 | An accepted record has one label, the Definition's unless "*", and every required attribute. |
| RecordProperties.AcceptedRecordAttributesPass | validator/seis_prov_validate/validator.py:431-458 | In an accepted record every namespace attribute passes and none is undeclared unless allowed. |
| DocumentValidation.PrefixedTwice | validator/seis_prov_validate/validator.py:247-249 | Extending the collected ids twice is extending once with both. |
| DocumentValidation.Steps | validator/seis_prov_validate/validator.py:275 | One iteration outcome per record, in order. |
| DocumentValidation.ValidateProvBundle | validator/seis_prov_validate/validator.py:264-459 | The record loop appending to `id_collector` equals BundleIds. |
| DocumentValidation.CollectDocumentIds | validator/seis_prov_validate/validator.py:246-249 | Root then each bundle, extending `seis_prov_ids`, equals DocumentIds. |
| DocumentValidation.ChooseFormat | validator/seis_prov_validate/validator.py:210-218 | JSON iff only JSON, XML iff only XML, the "neither" error iff neither, NotImplementedError iff both. |
| DocumentValidation.FindSeisProvNamespace | validator/seis_prov_validate/validator.py:236-242 | Nothing found iff no namespace has the SEIS-PROV URI; a found one is declared and has it. |
| DocumentValidation.FindNamespace | validator/seis_prov_validate/validator.py:236-242 | The for/else loop equals FindSeisProvNamespace. |
| DocumentValidation.IdsVerdict | validator/seis_prov_validate/validator.py:251-261 | Never raises; when it passes, the only warning is the no-records one, issued exactly when no id was collected (the duplicate rule is IdsVerdictSpec). |
| DocumentValidation.SeisProvCore | validator/seis_prov_validate/validator.py:194-261 | A passing document carries no warning or just the no-records one, and passing needs a chosen format, a successful parse, an empty XSD log and at least one record. |
| DocumentValidation.ValidateSeisProv | validator/seis_prov_validate/validator.py:194-261 | The post-parse core, recording warnings, equals SeisProvCore. |
| DocumentValidation.Completed | validator/seis_prov_validate/validator.py:124-169 | `validate` returns unless a foreign exception escapes; the result is valid iff the core passed; at most one error, and never an error together with a warning. |
| DocumentValidation.Validate | validator/seis_prov_validate/validator.py:144-169 | `validate` equals Completed of the core's outcome. |
| DocumentProperties.CollectStepsSpec | validator/seis_prov_validate/validator.py:275-459 | The record loop passes iff every iteration passes, and each collected id was collected by an iteration. |
| DocumentProperties.CollectStepsFirstFailure | validator/seis_prov_validate/validator.py:110-114 | A failing loop fails as its first failing iteration does. |
| DocumentProperties.BundlePassesIffRecordsPass | validator/seis_prov_validate/validator.py:264-459 | A bundle passes iff each of its records passes. |
| DocumentProperties.BundleFailsAtFirstFailure | validator/seis_prov_validate/validator.py:264-459 | A failing bundle fails as its first failing record does. |
| DocumentProperties.BundleIdsWellFormed | validator/seis_prov_validate/validator.py:383-392 | Every id collected from a bundle is a record's namespace local part with its Definition's format. |
| DocumentProperties.BundlesIdsCollected | validator/seis_prov_validate/validator.py:247-249 | Every id of the bundles comes from one bundle. |
| DocumentProperties.IdsVerdictSpec | validator/seis_prov_validate/validator.py:256-261 | Non-empty ids pass iff no id repeats; otherwise the one error lists exactly the repeated ids. |
| DocumentProperties.OneReusedId | validator/seis_prov_validate/validator.py:257-258 | An id used twice after another id is the only duplicate. |
| DocumentProperties.ReusedIdExample | definition/examples/example_adjoint_source.py:18-29 | The two agents sharing "sp000_sa_9dig8ata" make the ids invalid with an error naming that id. |
| DocumentProperties.MissingNamespaceWarns | validator/seis_prov_validate/validator.py:236-242 | Without the SEIS-PROV namespace a valid document returns no error and one warning. |
| DocumentProperties.NoRecordsFoundWarns | validator/seis_prov_validate/validator.py:251-254 | With the SEIS-PROV namespace declared but no id collected, the document is valid with the single "not a single SEIS-PROV record" warning. |
| DocumentProperties.DuplicateIdsRejected | validator/seis_prov_validate/validator.py:256-261 | A document with a repeated id returns exactly one error, listing the repeated ids. |
| PosixPath.Basename | header.py:47 | The base name holds no '/'. |
| PosixPath.SplitExt | definition/validate_definitions.py:62 | `os.path.splitext`: the root and the extension, which starts at the last '.' after the last '/' unless only dots precede it in the name (its properties are SplitExtParts and SplitExtOfAppended). |
| PosixPath.Join | header.py:49 | `os.path.join` of two components: an absolute second component replaces the first, otherwise a '/' is put between them unless the first ends with one (its property is BasenameOfJoin). |
| PosixPath.Stem | definition/validate_definitions.py:90 | The stem holds no '/'. |
| PosixPath.SplitExtParts | header.py:47 | Root and extension concatenate to the path; an extension starts with '.' and holds no other '.' or '/'. |
| PosixPath.SplitExtOfAppended | header.py:47 | `splitext` inverts appending "." + extension to a name not made only of dots. |
| PosixPath.BasenameOfJoin | header.py:53-57 | The base name of a joined path is the joined name. |
| Header.NamespaceAgrees | header.py:17-19 | `NS_URL` built from VERSION "0.1" equals the validator's namespace (validator.py line 39). |
| Header.Qualifier | header.py:41 | An absent or empty qualifier is none; any other is lower-cased. |
| Header.GetFilename | header.py:38-57 | Succeeds iff the lower-cased node type, file type and qualifier are allowed, else AssertionError. |
| Header.GetFilenameIgnoresCase | header.py:39-41 | Lower-casing the type names first changes nothing. |
| Header.AllowedAreNames | header.py:43-45 | Allowed values are non-empty and hold no '/' (nor '.' for file types and qualifiers). |
| Header.GeneratedPath | header.py:47-57 | The result is generated_dir/file_type/node_type/<stem>[_qualifier].<file_type>, whose base name is that file name. |
| Header.GeneratedNameParts | header.py:53-57 | `splitext` of the generated name gives the stem (with qualifier) and "."+file type back. |
| Header.Marks | header.py:66-72 | One yield decision per walk entry. |
| Header.KeptSpec | header.py:66-73 | Kept paths are exactly the full paths of marked entries, at most one per entry. |
| Header.KeptKeepsOrder | header.py:66-73 | Keeping distributes over concatenation of walks. |
| Header.GeneratedName | header.py:53-57 | The file name `get_filename` builds: it starts with the stem and ends with "." followed by the file type (its inverse under splitext is GeneratedNameParts). |
| Header.JsonFiles | header.py:60-73 | The paths `json_files` yields for a walk, in order: the marked entries' full paths (characterised by JsonFilesSpec and JsonFilesKeepOrder). |
| Header.JsonFilesSpec | definition/validate_definitions.py:53-67 | A path is yielded iff it is an entry's full path with a ".json" extension (any case) and not excluded; excluded paths never are. |
| Header.JsonFilesKeepOrder | header.py:60-73 | The filter keeps the walk's order. |
| Header.JsonNameByExtension | header.py:68 | A name is a JSON name iff its extension lower-cased is "json". |
| Header.DotNamesAreNotJson | header.py:68 | Names like ".json" have no extension for `splitext` and are not yielded. |
| Definitions.KindOf | definition/validate_definitions.py:113-121 | entity, activity, agent are the kinds; any other type raises NotImplementedError. |
| Definitions.Store | definition/validate_definitions.py:122 | Storing changes only the entry for the name in the collection of its kind. |
| Definitions.AttributeNames | definition/validate_definitions.py:125 | The attribute names, in order. |
| Definitions.Verdicts | definition/validate_definitions.py:78-131 | One verdict per file, in order. |
| Definitions.Run | definition/validate_definitions.py:71-131 | After a passing loop the code order lists exactly the codes of the table, each once. |
| Definitions.FirstSharedCode | definition/validate_definitions.py:133-138 | A found code is used by a number of files other than one; none is found iff every code is used once. |
| Definitions.FindSharedCode | definition/validate_definitions.py:133-138 | The loop over the code table equals FirstSharedCode. |
| Definitions.ExpectedLabel | definition/validate_definitions.py:96-101 | "*" for an agent, otherwise the '_'-separated words of the name, capitalised and joined by spaces (spelled out by ExpectedLabelSpelling). |
| Definitions.FileVerdict | definition/validate_definitions.py:89-131 | The checks of one file in source order: name against the file name, label, record type, duplicate attribute names; on success the kind (characterised by FileVerdictSpec). |
| Definitions.CheckFile | definition/validate_definitions.py:89-131 | The checks of one file, in source order, equal FileVerdict. |
| Definitions.FileDefinition | definition/validate_definitions.py:111-122 | Filing appends the path under its code (a new code joins the order) and stores the definition: the Commit step. |
| Definitions.CollectDefinitions | definition/validate_definitions.py:71-131 | The file loop equals Process. |
| Definitions.Validate | definition/validate_definitions.py:70-138 | `validate()` equals ValidateDefinitions. |
| Definitions.RunAccepts | definition/validate_definitions.py:78-131 | A passing file after an accepted prefix is committed. |
| Definitions.RunRejects | definition/validate_definitions.py:89-131 | A failing file after an accepted prefix decides the whole run. |
| Definitions.RunStopsAtFailure | definition/validate_definitions.py:89-131 | Once a prefix fails the whole run fails the same way. |
| DefinitionProperties.ExpectedLabelSpelling | definition/validate_definitions.py:96-101 | A non-agent's expected label is as long as its name, and its words are the name's `_` pieces capitalised. |
| DefinitionProperties.WaveformTraceLabel | definition/examples/example_cross_correlation.py:10-12 | `waveform_trace` is labelled "Waveform Trace"; as an agent, "*". |
| DefinitionProperties.CrossCorrelateLabel | definition/examples/example_cross_correlation.py:41-43 | `cross_correlate` is labelled "Cross Correlate". |
| DefinitionProperties.CapitalizeWord | definition/validate_definitions.py:100-101 | A word with no later upper-case letter capitalises to its first letter upper-cased. |
| DefinitionProperties.TwoWordLabel | definition/validate_definitions.py:100-101 | A two-piece name is labelled with both pieces capitalised, joined by a space. |
| DefinitionProperties.FileVerdictSpec | definition/validate_definitions.py:89-131 | A file passes iff all its checks pass; name, label and type failures give their own outcome, in that order. |
| DefinitionProperties.DuplicateAttributesRejected | definition/validate_definitions.py:124-131 | A repeated attribute name is rejected with a message listing exactly the repeated names. |
| DefinitionProperties.DuplicatesEmpty | definition/validate_definitions.py:126-128 | The duplicate set is empty iff no name repeats. |
| DefinitionProperties.RunPassesIffAllPass | definition/validate_definitions.py:78-131 | The file loop passes iff every file's verdict does. |
| DefinitionProperties.RunCodeKeys | definition/validate_definitions.py:111 | The code table has an entry exactly for the codes in use. |
| DefinitionProperties.RunCodePaths | definition/validate_definitions.py:111 | Each code maps to the paths of the files using it, in order. |
| DefinitionProperties.LastStep | definition/validate_definitions.py:78-131 | A passing run is its passing prefix committed with its last file. |
| DefinitionProperties.RunCollectsFromFiles | definition/validate_definitions.py:113-122 | Every collected entry is under its own name and comes from a file of that kind. |
| DefinitionProperties.RunCollectsEveryFile | definition/validate_definitions.py:113-122 | Every file has an entry under its name in the collection of its kind. |
| DefinitionProperties.PathsCount | definition/validate_definitions.py:111 | A code has at least one path iff a file carries it. |
| DefinitionProperties.SharedPaths | definition/validate_definitions.py:133-138 | A code has two paths iff two files carry it. |
| DefinitionProperties.ProcessPassesIffFilesAccepted | definition/validate_definitions.py:78-131 | The file loop passes iff every file passes its checks. |
| DefinitionProperties.CodeCheckPassesIffDistinct | definition/validate_definitions.py:133-138 | The code check finds nothing iff no two files share a code. |
| DefinitionProperties.DefinitionsAccepted | definition/validate_definitions.py:70-138 | `validate()` passes iff every file passes and all two-letter codes are distinct. |
| DefinitionProperties.ValidatedIsCollected | definition/validate_definitions.py:73-138 | On success the combined definition is the one the loop collected. |
| DefinitionProperties.CombinedDefinition | definition/validate_definitions.py:73-122 | On success each file is under its name in its kind's collection, and every entry comes from such a file. |
| DefinitionProperties.PassedKind | definition/validate_definitions.py:113-121 | A passing file is filed under its type's kind. |
| DefinitionProperties.SharedCodeRejected | definition/validate_definitions.py:133-138 | Two files with one code make the run fail naming a shared code and all its files. |
| DefinitionProperties.FirstRejectedFileDecides | definition/validate_definitions.py:78-131 | The first failing file decides the outcome, whatever follows. |
| DetailsDoc.ColumnWidth | definition/auto_generating_code/generate_details_doc.py:205-206 | A column's width bounds every cell of it, header included, and is attained by one. |
| DetailsDoc.Widths | definition/auto_generating_code/generate_details_doc.py:205-206 | One width per header column, each the column's maximum. |
| DetailsDoc.Pad | definition/auto_generating_code/generate_details_doc.py:208 | `%-<w>s` keeps the cell as prefix, pads with spaces, to length max(w, cell). |
| DetailsDoc.PaddedCells | definition/auto_generating_code/generate_details_doc.py:211 | Each cell padded to its column's width. |
| DetailsDoc.FormatRows | definition/auto_generating_code/generate_details_doc.py:211 | One formatted line per row, in order. |
| DetailsDoc.BorderRuns | definition/auto_generating_code/generate_details_doc.py:209 | One run of `=` per column, as wide as the column. |
| DetailsDoc.TableLines | definition/auto_generating_code/generate_details_doc.py:211-214 | `len(lines)+3` lines: border, header, border, data rows, border. |
| DetailsDoc.Table | definition/auto_generating_code/generate_details_doc.py:196-216 | The text `make_table` returns: the prefix and `*None*` for a header-only table, else the framed lines joined by a newline and the prefix (its properties are EveryLinePrefixed, LinesAligned and CellUnderBorder). |
| DetailsDoc.MakeTable | definition/auto_generating_code/generate_details_doc.py:196-216 | `make_table` with its inserts and append equals Table. |
| DetailsDoc.BordersInserted | definition/auto_generating_code/generate_details_doc.py:212-214 | insert(0), insert(2), append frame the header between two borders and close with a third. |
| DetailsDoc.PaddedToWidth | definition/auto_generating_code/generate_details_doc.py:205-211 | Every padded cell is exactly its column's width. |
| DetailsDoc.LinesAligned | definition/auto_generating_code/generate_details_doc.py:208-214 | Every line of the table is exactly as long as the border. |
| DetailsDoc.CellInLine | definition/auto_generating_code/generate_details_doc.py:208-211 | Column c of a row sits at its start offset, padded to the width, followed by the two-space gap. |
| DetailsDoc.RunInBorder | definition/auto_generating_code/generate_details_doc.py:209 | The border's `=` run for column c sits at the same offset, followed by the gap. |
| DetailsDoc.CellUnderBorder | definition/auto_generating_code/generate_details_doc.py:208-214 | Every cell sits exactly under its border run, gaps under gaps. |
| DetailsDoc.PrefixJoin | definition/auto_generating_code/generate_details_doc.py:216 | Prefix then join with "\n"+prefix is joining the prefixed lines with newlines. |
| DetailsDoc.LinesSingle | definition/auto_generating_code/generate_details_doc.py:211-214 | No line contains a newline when no cell does. |
| DetailsDoc.EveryLinePrefixed | definition/auto_generating_code/generate_details_doc.py:216 | Split at newlines, a table with data is its `len+3` lines, each starting with the prefix. |
| DetailsDoc.DataTableIsNotNone | definition/auto_generating_code/generate_details_doc.py:201-216 | A table with data rows never renders as `*None*`. |
| DetailsDoc.NoneExactlyWhenAbsent | definition/auto_generating_code/generate_details_doc.py:201-202 | An attribute table renders `prefix*None*` iff no attribute belongs to it. |
| DetailsDoc.PartitionAttributes | definition/auto_generating_code/generate_details_doc.py:224-233 | The loop builds the header then the rows of required (optional) attributes, in order. |
| DetailsDoc.Selected | definition/auto_generating_code/generate_details_doc.py:227-233 | The rows of the attributes with the given `required` flag, in order: never more rows than attributes, three cells each. |
| DetailsDoc.SelectedCount | definition/auto_generating_code/generate_details_doc.py:227-233 | The two tables have one data row per attribute. |
| DetailsDoc.SelectedSpec | definition/auto_generating_code/generate_details_doc.py:227-233 | A row is in the required (optional) table iff it is a required (optional) attribute's row. |
| DetailsDoc.SelectedEmpty | definition/auto_generating_code/generate_details_doc.py:227-233 | A table has no data iff no attribute has its flag. |
| DetailsDoc.SelectedKeepsOrder | definition/auto_generating_code/generate_details_doc.py:227-233 | The split keeps the attributes' order. |
| DetailsDoc.PartitionTables | definition/auto_generating_code/generate_details_doc.py:224-225 | Both tables start with the header and have three cells per row. |
| DetailsDoc.Title | definition/auto_generating_code/generate_details_doc.py:235-242 | The section title: "Person", "Software Agent" or "Organization" for those three names, the label otherwise (related to the label rule by TitleFollowsLabelRule). |
| DetailsDoc.SoftwareAgentTitle | definition/auto_generating_code/generate_details_doc.py:237-238 | The fixed "Software Agent" is what the label rule derives from `software_agent`. |
| DetailsDoc.OneWordTitle | definition/auto_generating_code/generate_details_doc.py:235-240 | A lower-case one-word name is titled by capitalising it. |
| DetailsDoc.OneWordAgentTitles | definition/auto_generating_code/generate_details_doc.py:235-240 | "Person" and "Organization" are what the label rule derives from `person` and `organization`. |
| DetailsDoc.TitleFollowsLabelRule | definition/auto_generating_code/generate_details_doc.py:235-242 | For a label-checked Definition the title is the name's capitalised words for entities, activities and the three named agents; other agents get "*". |

## Left out

- File existence checks, opening, format sniffing (lxml/json), `prov.read` parsing and the PROV-XML schema check with its cache: their verdicts (`isJson`, `isXml`, the parse result, the XSD error log) are inputs of the core.
- The JSON-schema self-check of the validator and `jsonschema.validate` in the definition script: the Definitions are taken as already schema-valid values.
- The `warnings` machinery is modelled only as the ordered list of warnings the core issues; `main`, argparse, `sys.exit`, colorama printing and `json.dump` are I/O.
- Floating-point semantics of xsd:double and xsd:decimal: a float is a tagged value and `float(x)` succeeding is an oracle; `urlparse` succeeding is an oracle too; schema-authored regex `pattern`s are an oracle, while the id pattern is spelled out (see IdPattern.IdMatches below).
- TypeChecks.AnyUriAcceptsParsedStrings: states acceptance relative to the `urlparse` oracle only; which strings `urlparse` refuses with ValueError (an unbalanced '[' or ']' in the network location, and the further checks of later Python versions) is not spelled out.
- IdPattern.IdMatches: `\d` is taken as the ASCII digits, while a Python 3 str pattern's `\d` also matches other Unicode decimal digits (such as Arabic-Indic ones), so the model rejects some local parts `re.match` accepts; and the two-letter code, spliced into the pattern unescaped, is assumed to hold no regular expression metacharacters.
- `str.lower`, `str.capitalize` and `isnumeric` are modelled on ASCII letters and digits only.
- Prov.AttrUnion: `list(set(...).union(...))` has an order that depends on string hash randomisation; the model fixes one (the first collection before the second, each attribute at its last occurrence). That order decides outcomes: which prov:type the scope scan meets first (so a record with a SEIS-PROV qualified name and an int among its types is either the too-many-types error or an AttributeError escaping `validate`, see RecordProperties.SeveralTypesRejected and RecordProperties.UninspectableTypeRaises), and which attribute's error is reported first. The lemmas hold for the model's order; no lemma quantifies over every order.
- Set and dictionary iteration order: the duplicate-id and duplicate-attribute messages list each repeated name once, in an order the model fixes (by last occurrence) where Python's set order is unspecified; the lemmas state the content only. The duplicate-attribute message prints the names as Python 3 prints a set of strings. The code table is iterated in order of first use, as Python 3.7 dicts do.
- `os.walk`, `os.makedirs`, `os.path.abspath` and `os.path.relpath`: the walk is an input sequence of (directory, file name) entries whose directories are already absolute and normalised; paths in messages are taken as printed.
- The code-generation scripts and templates (TEMPLATE and DETAILS_TEMPLATE formatting, reading the JSON file in `create_rst_representation`, the usage examples and plots): only `make_table`, the attribute split and the title are modelled.
- DetailsDoc.MakeTable: requires a header row and rows as long as the header; Python would raise IndexError or TypeError for other input, which is not modelled.
- Definitions.CollectDefinitions: the script files a definition's code and stores it before checking the type and the attribute names; the method checks first and then files, which has the same outcome because a failing check raises and the partly updated tables are dropped.
- The test `test_validating_random_xml_file` (validator/seis_prov_validate/test_validator.py:133-141) expects an error when the SEIS-PROV namespace is missing; the code issues a warning and returns, and the model follows the code.
- Python 2 string types: `six.string_types` is modelled as `str` only.
