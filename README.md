# vkgen schema front end and struct patcher, in Dafny

vkgen generates Go types for the VK API from its JSON schema documents
(`objects.json`, `responses.json`, `methods.json`). This project models the
part of it that turns those documents into type expressions, and the part
that rewrites one field of a struct in already generated Go source:

- **Object expressions** (`schema/object.go`). `parseObjectExpression` turns a
  schema node into an `ObjectExpr` by a fixed precedence: description and
  properties first, then `$ref`, then an `allOf` array, then a missing
  `type`, then an `enum` array, and finally a switch on `type` (`oneOf` for
  objects, `items` for arrays). `ParseObjects` folds it over `definitions`.
  `EqualType` and `ObjectDefinition.Equal` compare expressions structurally.
- **References** (`schema/parser.go`, `schema/utils.go`). A `$ref` is kept as
  a closure over the parser. When called, it cuts the pointer into a file
  name, a lookup path and a name. An `objects.json` pointer re-parses the
  node it names, a `responses.json` pointer yields a name-only definition,
  and any other file panics.
- **Responses and methods** (`schema/response.go`, `schema/method.go`):
  extractors that accumulate in document order and stop at the first error.
- **Document kind** (`schema/schema.go`): `DetectSchemaType`.
- **Struct patcher** (`patcher.go`): `PatchStruct` picks a declaration and
  `ChangeField` replaces the type of one of its fields.

## How the model is built

- `json.dfy`: a JSON value is a datatype whose objects are ordered member
  lists, so document order is kept. A gjson result that may not exist is a
  `Node = Option<Json>`. `Get` returns the first member with a key.
  `Elements`, `Entries`, `Text` and `IntOf` play the roles of gjson's
  `Array()`, `ForEach`, `String()` and `Int()`.
- `outcomes.dfy`: a Go `(value, err)` pair is `Parsed(value, err)`. The value
  is kept beside a non-nil error, because the Go callers hand it on. A call
  that may panic returns an `Outcome`: `Return`, `Panic(reason)`, or
  `OutOfFuel` where the Go recursion would go deeper than the model was
  allowed. Every "loop or ForEach with a captured error" is the fold
  `Collect`. `CollectStopsAtFirstFailure` says once what all of them do.
- Each accumulating Go function is given twice. A function states what it
  computes (`ParseObject`, `Definitions`, `ResponseOf`, `Responses`,
  `MethodOf`, `Methods`, `Patched`). A method with the loops of the Go code
  (`ParseObjectExpression`, `ParseObjects`, `ParseResponses`, `ParseMethod`,
  `ParseMethods`, `Patcher.PatchStruct`, ...) is proved to compute exactly
  that function. The lemmas state the properties on the functions.
- A `$ref` closure is a `Thunk(parser, pointer)`, resolved on demand by
  `Equality.Deref`. The parser is an immutable value that holds only the
  objects document. `EqualType` takes a `fuel` bound and spends one unit per
  pair of references followed.
- The patcher is a `class Patcher` whose field `decls` is the declaration
  list of the parsed file. `PatchStruct` reassigns it on success only. The
  Go syntax tree is reduced to declarations, specs, struct fields (names,
  type text, tag) and other type expressions. `go/parser.ParseExpr` is a
  constructor parameter, `parseExpr`, which returns an expression or an
  error message.

Where the intended behaviour and the Go code differ, the model follows the
code:

- `EqualType` runs the Ref, AllOf, OneOf, Enum and Array checks according to
  the receiver's tag only. A plain expression can equal a union while the
  union does not equal it (`EqualityLaws.ReceiverDecides`).
- An `objects.json` pointer to a path that does not exist is not an error.
  The missing node parses to the empty expression with no error.
- `EqualType` does not terminate on cyclic references. A definition that
  refers to itself runs out of any fuel (`Scenarios.LoopNeverSettles`).
- `schema/method.go` calls a package-level `ParseObjectExpression` that is
  not part of this model. It is taken to be the object parser, passed in
  explicitly.

## Model

| member | source | states |
|---|---|---|
| Outcomes.CollectStopsAtFirstFailure | schema/object.go:143-156 | a loop with a captured error keeps the values of the elements before the first failing one, in order, and returns that element's error (none if none fails) |
| Outcomes.FirstFailure | schema/object.go:145-148 | the index where such a loop stops: every earlier element succeeds, the element at it fails |
| Outcomes.CollectKeepsFailure | schema/object.go:145-148 | once the fold has failed on a prefix, extending the input leaves the result unchanged |
| Outcomes.CollectStep | schema/object.go:143-156 | one more element either appends its value or ends the fold with its error |
| Objects.ObjectExpr.Is | schema/object.go:47-49 | with the flags `1 << iota`, the flag test holds exactly for the expression's own tag, and never for the zero flag |
| Objects.DescriptionOf | schema/object.go:162-165 | the description is set exactly when the node has a "description" key |
| Objects.NewParser | schema/parser.go:14-18 | the parser holds the given objects document and nothing else |
| Objects.EnumValueOf | schema/object.go:221-227 | an enum literal is converted as a string, a number or an integer exactly when the declared type is "string", "number" or "integer" |
| Objects.Parser.PropertiesAreCollected | schema/object.go:168-181 | the recursive parse of the properties is the fold over the property entries in document order |
| Objects.Parser.ItemsAreCollected | schema/object.go:198-206 | the recursive parse of union items is the fold over the array elements in order |
| Objects.Parser.ParseObjectExpression | schema/object.go:159-279 | the step-by-step parse returns exactly the expression and error of `ParseObject` |
| Objects.Parser.ParsePropertiesLoop | schema/object.go:167-185 | the ForEach over "properties" with its captured error computes the properties fold |
| Objects.Parser.ParseShapeSteps | schema/object.go:187-216 | the `$ref`, `allOf` and missing-type steps compute the shape of `ParseObject` |
| Objects.Parser.ParseItemsInto | schema/object.go:198-209 | the `allOf` and `oneOf` loops append the parsed items in order and stop at the first error, without setting the tag |
| Objects.Parser.ParseTypedSteps | schema/object.go:217-278 | the enum branch and the type switch compute the typed part of `ParseObject` |
| Objects.ParseEnumSteps | schema/object.go:219-241 | the enum loop and the enumNames loop compute `ParseEnum` |
| Objects.EnumLoop | schema/object.go:220-231 | the loop over the enum literals converts every literal by the declared type, and fails on the first literal under any other type |
| Json.StringsOf | schema/method.go:38-42 | the loops that append the String() of every array element (access token types, required fields, enum names) keep every element, in order |
| Objects.Parser.ParseObject | schema/object.go:159-279 | the description is the node's own whatever fails; a result without error is a Ref exactly when the node has "$ref" |
| Objects.Parser.ParseShape | schema/object.go:187-216 | the "$ref", "allOf" and type steps keep the description and the properties; from an untagged start only "$ref" makes a Ref |
| Objects.Parser.ParseTyped | schema/object.go:217-278 | the enum branch and the type switch keep description, properties, type and reference; they never make a Ref or an AllOf; an Array always has its element and no error |
| Objects.Parser.Definitions | schema/object.go:140-157 | at most one definition per "definitions" entry, named by the entry's key in order; one per entry exactly when there is no error |
| Objects.ParseEnum | schema/object.go:219-241 | the enum branch changes only the tag and the two enum lists; it fails exactly when the type has no conversion and the array is non-empty, with "unsupported enum type" and the tag unchanged; otherwise an Enum with one literal per element |
| Objects.EnumValues | schema/object.go:220-231 | every literal is converted by the declared type; under any other type only an empty array passes, and a failure keeps no literal |
| Objects.Parser.ParseObjects | schema/object.go:140-157 | the ForEach over "definitions" computes `Definitions` |
| ObjectLaws.Unfold | schema/object.go:167-185 | the properties are parsed before anything else, and their error ends the parse with the description and the properties read so far |
| ObjectLaws.PropertiesFirst | schema/object.go:162-185 | the description is kept; properties are in document order, each named by its key; the first failing property's error is returned with the properties before it |
| ObjectLaws.RefWins | schema/object.go:187-194 | a node with "$ref" is a Ref expression with an empty type and a closure over that pointer, with no error, whatever its "allOf", "type" or "enum" |
| ObjectLaws.AllOfBeforeType | schema/object.go:196-209 | without "$ref", an "allOf" array gives one component per element in order, with the AllOf tag; the first failing element ends the parse with its error and without the tag |
| ObjectLaws.NoTypeNoShape | schema/object.go:211-215 | without "$ref", an "allOf" array or "type", the result is untagged, typeless and without error |
| ObjectLaws.EnumBeforeSwitch | schema/object.go:217-241 | an "enum" array makes an Enum whatever the type, literals converted by the declared type; an unsupported type fails exactly when the array is non-empty; enumNames are read in order only when an array |
| ObjectLaws.EnumSteps | schema/object.go:219-241 | the enum branch changes only the tag and the two enum lists, with the same cases as above |
| ObjectLaws.BaseTypes | schema/object.go:243-245 | "integer", "number", "string" and "boolean" without an enum array are Base expressions of that type |
| ObjectLaws.ObjectOneOf | schema/object.go:246-258 | an "object" with a "oneOf" array is a OneOf of its items in order, stopping at the first failing item with its error; without one it is a plain untagged object |
| ObjectLaws.TypedObject | schema/object.go:246-258 | the "object" case of the switch alone, with the same cases |
| ObjectLaws.ArrayNeedsItems | schema/object.go:259-272 | an "array" without "items" fails with "array must have items field"; with items it is an Array of the parsed items, or fails untagged with their error |
| ObjectLaws.TypedArray | schema/object.go:259-272 | the "array" case of the switch alone, with the same cases |
| ObjectLaws.OtherTypes | schema/object.go:273-278 | any other type is recorded, untagged, without error |
| ObjectLaws.ParsedIsWellFormed | schema/object.go:159-279 | every expression parsed without error has a tag that agrees with its fields: a closure exactly for Ref, an element type exactly for Array, members only under their own tag, recursively |
| ObjectLaws.DefinitionsInOrder | schema/object.go:140-157 | definitions are parsed in document order, each named by its key; the first failing one ends the parse with its error and the definitions before it |
| Utils.IndexOf | schema/parser.go:21 | the first position of the character, or -1 when it does not occur |
| Utils.LastIndexOf | schema/parser.go:24 | the last position of the character, or -1 when it does not occur |
| Utils.ReplaceAll | schema/parser.go:28 | every occurrence of the character is replaced and nothing else changes |
| Utils.Split | schema/parser.go:27-33 | the lookup path is cut into segments that hold no separator and join back to the path |
| Utils.SplitJoin | schema/parser.go:27-33 | cutting a joined list of separator-free segments gives the segments back |
| Utils.ReplaceJoin | schema/parser.go:28 | replacing '/' by '.' in segments joined by '/' gives the same segments joined by '.' |
| Utils.ResolveReferenceName | schema/utils.go:5-9 | the name is the suffix after the last '/', holds no '/', is the whole pointer when there is no '/', and is preceded by '/' otherwise |
| Utils.NameOfLastSegment | schema/utils.go:5-9 | a pointer ending in '/' and a segment without '/' is named by that segment |
| References.SplitPointer | schema/parser.go:20-28 | the slicing succeeds exactly when the first '/' is at index 1 or later; the file name is the text before it minus one character; the path segments hold no '/' or '.' and join with '.' back to the text after the first '/' with every '/' made '.'; the name agrees with resolveReferenceName |
| References.PointerRoundTrip | schema/parser.go:20-33 | a pointer built from a file name, a marker, '/' and '/'-joined segments is cut back into exactly that file name, those segments and the last segment as name |
| References.ResolveReference | schema/parser.go:20-48 | resolution panics exactly for a malformed pointer or a file other than objects.json and responses.json; otherwise the definition is named by resolveReferenceName |
| References.ResolveObjectsPointer | schema/parser.go:30-47 | an objects.json pointer yields the parse of the node at its path in the objects document, named by its last segment, with the parse error |
| References.ResolveResponsesPointer | schema/parser.go:34-37 | a responses.json pointer yields the empty expression under its last segment, with no error and no lookup, whatever its segments hold besides '/' |
| References.ObjectsFile | schema/parser.go:20-33 | any pointer whose file part is objects.json resolves to the parse of the node at its dotted path, named by resolveReferenceName, with the parse error |
| References.ResponsesFile | schema/parser.go:34-37 | any pointer whose file part is responses.json resolves to the empty expression named by resolveReferenceName, with no error |
| Equality.Deref | schema/object.go:68-77 | calling a nil closure panics; there is a result exactly when the closure exists and resolution returns without error, and it is the resolved definition; a resolution error panics with its message, a resolution panic with its reason |
| EqualityLaws.FailedDereferencePanics | schema/object.go:68-77 | when the properties agree, a receiver whose reference fails makes EqualType panic with that failure, and so does the other side's failing reference once the receiver's resolves |
| Equality.EqualType | schema/object.go:51-138 | different types or property counts are never equal; "equal" means the same type, the same property names at the same positions, and for an Array receiver element types on both sides |
| Equality.EqualDefinition | schema/object.go:15-21 | definitions with different names are never equal; "equal" means the same name and the same expression type |
| Equality.EqualDefinitions | schema/object.go:61-66 | the properties loop: "equal" means the same names at the same positions |
| Equality.EqualReferences | schema/object.go:68-82 | the Ref check gives a verdict only when both closures resolve (and depth remains); "equal" means the two resolved definitions share a name |
| Equality.EqualResolved | schema/object.go:68-82 | a failure of the receiver's reference is the result, then a failure of the other's; a verdict needs both resolved; "equal" needs the same name |
| Equality.EqualLists | schema/object.go:84-108 | the allOf and oneOf checks: different lengths are never equal; "equal" means the same length and the same types at the same positions |
| EqualityLaws.MoreFuelType | schema/object.go:51-138 | the fuel bound only cuts the recursion off: any verdict or panic reached stays the same with more fuel |
| EqualityLaws.MoreFuelDefinition | schema/object.go:15-21 | the same for ObjectDefinition.Equal |
| EqualityLaws.NeverDifferentFromItself | schema/object.go:51-138 | no expression is found different from itself (the comparison may still panic or not settle) |
| EqualityLaws.RefFreeEqualsItself | schema/object.go:51-138 | a well-formed expression without references equals itself, with no fuel at all |
| EqualityLaws.SameOutline | schema/object.go:53-66 | a true verdict means the same type and the same property names at the same positions |
| EqualityLaws.DefinitionsPairwise | schema/object.go:57-66 | the properties loop is true exactly when every pair at the same position is Equal |
| EqualityLaws.ListsPairwise | schema/object.go:84-108 | the allOf and oneOf checks are true exactly when the lengths agree and every pair at the same position is equal |
| EqualityLaws.TrueVerdict | schema/object.go:51-138 | a true verdict means: every property pair Equal, and the check chosen by the receiver's tag passed (resolved references Equal, unions pairwise equal, same enum literals and names, equal element types) |
| EqualityLaws.DescriptionIgnored | schema/object.go:51-138 | descriptions never affect the comparison |
| EqualityLaws.ReferenceAgainstPlain | schema/object.go:68-77 | a reference compared with an expression without a closure panics once its own reference resolves |
| EqualityLaws.ReceiverDecides | schema/object.go:84-95 | a plain expression equals a union of the same type, but not the other way round |
| Responses.ResponseOf | schema/response.go:38-55 | a missing "properties.response" fails with "properties.response field does not exists"; otherwise the object part is its parse, its error is returned, and required lists its "required" strings in order; every error comes with the zero expression |
| Responses.ParseResponseExpression | schema/response.go:38-55 | the step-by-step parse computes `ResponseOf`, whatever the depth argument |
| Responses.Responses | schema/response.go:19-36 | at most one response per "definitions" entry, named by the entry's key in order; one per entry exactly when there is no error |
| Responses.ParseResponses | schema/response.go:19-36 | the ForEach over "definitions" computes `Responses` |
| Responses.ResponsesInOrder | schema/response.go:19-36 | one response per entry in document order, named by its key; the first failing entry ends the parse with its error and the responses before it |
| Methods.MethodOf | schema/method.go:31-42 | the name comes from "name"; the description is set exactly when "description" exists; the access types are the "access_token_type" strings in order |
| Methods.MethodParts | schema/method.go:44-69 | parameters are parsed in order, each named by its "name", and the first failure returns before any response is read; responses follow in document order up to the first failure |
| Methods.ParseMethod | schema/method.go:31-70 | the step-by-step parse computes `MethodOf` |
| Methods.ParseParameters | schema/method.go:44-53 | the parameter loop computes the parameters fold |
| Methods.ParseMethodResponses | schema/method.go:55-69 | the ForEach over "responses" computes the responses fold |
| Methods.Methods | schema/method.go:18-29 | a failing method leaves no list at all |
| Methods.MethodsAllOrNothing | schema/method.go:18-29 | every element of "methods" gives one definition in order, or the first failing element's error with an empty list |
| Methods.ParseMethods | schema/method.go:18-29 | the loop with its early return computes `Methods` |
| Schema.SchemaType.Name | schema/schema.go:12-18 | only UnknownSchema has the value "unknown" |
| Schema.NamesDiffer | schema/schema.go:12-18 | the four constants have four different values |
| Schema.DetectSchemaType | schema/schema.go:20-36 | a "methods" array gives MethodsSchema whatever the title; otherwise the title "objects" gives ObjectsSchema and "responses" ResponsesSchema; anything else is UnknownSchema |
| Patching.FirstCandidate | patcher.go:26-44 | the first declaration that is a general declaration with exactly one spec, a type spec of that name |
| Patching.ScanFields | patcher.go:75-87 | the field loop stops at the first field without exactly one name, or at the first field with the wanted name, having skipped only single-named other fields |
| Patching.ScanStopsAt | patcher.go:75-87 | the scan stops at the first field it does not skip |
| Patching.ChangedFields | patcher.go:68-90 | the ChangeField closure succeeds exactly when the new type parses and the loop finds the field; then only that field's type changes, to the parsed expression |
| Patching.Patched | patcher.go:25-59 | no candidate gives "struct with name ... not found"; on success there is a candidate, only it changes, and it stays a candidate |
| Patching.PatchedCandidate | patcher.go:46-55 | patching the candidate fails exactly when its type is not a struct or ChangeField fails; on success it is still a struct candidate of that name |
| Patching.Patcher.constructor | patcher.go:12-15 | the patcher holds the given declarations and expression parser |
| Patching.Patcher.PatchStruct | patcher.go:25-59 | the declarations become exactly those of `Patched` on success, and stay unchanged on every error, which is returned |
| Patching.Patcher.ApplyPatch | patcher.go:68-90 | the ChangeField closure: the new fields on success; on failure the error and the fields unchanged |
| PatcherLaws.PatchIsolation | patcher.go:42-55 | on success only the first candidate changes, and in it only the first field with the name, whose type becomes the parsed one; names, tags and every other field stay |
| PatcherLaws.PatchErrors | patcher.go:25-90 | each error exactly when its cause holds: no candidate; a non-struct candidate; a type that does not parse, before any field is read; a field without exactly one name before the target; no field of that name; patch errors wrapped as "patch struct" |
| PatcherLaws.LaterDeclarationsIgnored | patcher.go:42-55 | declarations after the first candidate are never examined |
| PatcherLaws.CandidateKept | patcher.go:26-44 | a patched candidate is still the first candidate |
| PatcherLaws.PatchIdempotent | patcher.go:68-90 | patching the same field to the same type a second time changes nothing |
| PatcherLaws.ChangeOneOfTwoFields | patcher.go:68-90 | changing X of a two-field struct leaves Y, the tags and the other declarations as they were |
| PatcherLaws.GroupedDeclarationSkipped | patcher.go:33-35 | a grouped declaration is never patched, even when it holds a struct of that name |
| Scenarios.ParseFoo | schema/object.go:159-279 | {"type": "object", "properties": {"a": {"type": "integer"}}} is an object with one Base property "a" |
| Scenarios.FooDefinitions | schema/object.go:140-157 | a document with the one definition "Foo" parses to exactly that definition |
| Scenarios.FooEqualsItself | schema/object.go:51-138 | the parsed "Foo" equals itself without following any reference |
| Scenarios.EnumOverString | schema/object.go:219-241 | a "string" with an "enum" array is an Enum of its three strings, not a Base |
| Scenarios.ArrayWithoutItemsFails | schema/object.go:259-263 | {"type": "array"} fails, with the type recorded and no tag |
| Scenarios.PropertyOrderMatters | schema/object.go:57-66 | the same two properties in the other order are not equal |
| Scenarios.LoopResolvesToItself | schema/parser.go:30-47 | a definition whose "$ref" points at itself resolves back to itself |
| Scenarios.SelfReferenceNeverSettles | schema/object.go:68-82 | an expression whose reference resolves to itself never settles when compared with itself |
| Scenarios.LoopNeverSettles | schema/object.go:68-82 | comparing that definition with itself runs out of any fuel: the Go recursion does not return |

## Left out

- main.go: command-line handling, file reading, printing and the gjson path queries it runs are not part of this model.
- downloadSchemeFromURL (schema/schema.go:38-51) reads from the network and is not part of this model.
- NewPatcher and Src (patcher.go:17-21, 61-66) only call go/parser and go/printer; the parsed file is the declaration list given to the `Patcher` constructor.
- go/parser.ParseExpr is a parameter of the patcher (`parseExpr`), not a model of Go expression syntax.
- StructPatcher: patcher.go accepts any function; the model has the one the source builds, ChangeField. Its in-place write through the shared field pointer is modelled as the new field list stored back into the declaration; aliasing of syntax nodes, comments and positions are not modelled.
- gjson: path syntax (escapes, wildcards, queries) is not modelled; a lookup path is a list of segments cut at '.', and an empty segment is looked up as an empty key. `String()` of an object or array, the raw text gjson would return, is modelled as the empty string. JSON numbers are integers; `Int()` of a number is that integer, of a string the integer it spells (0 when it spells none), of true 1.
- Floating point: `Float()` of a "number" enum literal is kept as the integer; reflect.DeepEqual on enum literals is equality of the `EnumValue` datatype, which never equates a number with an integer.
- Go integer widths: `Int()` and slice indices are unbounded integers.
- Equality.EqualType: the recursion through references is bounded by `fuel`; where the Go code would keep recursing, the model returns OutOfFuel.
- nil versus empty slices are not distinguished: a nil list and an empty list are both `[]`.
- The panic message text of a failing closure (Go: the error value given to panic) is modelled as the error's message string; the `fmt.Println(refpath)` that `resolveReference` runs before its "unsupported resolving file" panic (schema/parser.go:39) is console output and is not modelled.
