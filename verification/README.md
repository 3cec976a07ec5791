# What the API contract, the workbook writer, the log filter and their neighbours promise

A Dafny model of the parts of the backend and its scripts whose correctness is an argument rather
than a branch, with proofs of what they promise. `dafny verify dfyconfig.toml` checks all of it.

| module | models |
|---|---|
| `Json`, `Bags`, `Wrappers` | dictionaries, lists and scalars as Python handles them; what a loop over a dictionary gathers, whatever its order |
| `Inlining` | resolving every `$ref` with a cycle cut, and the snapshot of the operations an app calls |
| `Validation`, `InlineMeaning`, `InlineLoosens` | what a schema accepts (JSON Schema 2020-12, the keywords the contract compares), when inlining keeps it, and that inlining only ever accepts more |
| `Compare`, `Reporting` | the comparison of two snapshots: the specification, and the loops that append to one shared report |
| `CompareLaws` | what a silent comparison says, exactly; nothing breaks against itself; breaks decompose by operation |
| `Documents` | how a document is read, with its keys written out: finding an operation, its entry, references, annotations, cycles |
| `Exchanges` | what the report says of one parameter, one body, one response and each keyword, exactly, without the comparison's own helpers |
| `Places`, `Paths` | which lines a comparison reports at a place, exactly; that nested lines point deeper; and when a loss deep inside reaches the report |
| `ResponseSoundness`, `RequestSoundness` | what silence is worth to an installed app |
| `Gaps`, `Unseen`, `Unions`, `InliningGaps` | where it is worth less: inputs the comparison and the inlining do not see, with the guard of each that has one |
| `Ratchet`, `Recording` | check, `--update` and `--release` as a state machine over the recorded snapshot; what each run leaves in it, key by key, and what a history does |
| `Rekeying`, `Retirement`, `Migration` | moving profiles off retired skills, carrying the aliases, marking the skills; what a run leaves, row by row |
| `Columns`, `Sheets`, `SheetText` | column names and cell addresses; a worksheet written as XML and read back; which characters it holds, and what a reader that normalises line ends gets |
| `Filing`, `SheetFrame` | a second reader, which files each cell under the address in its tag; the nesting of the elements, the columns, the pane and the filter |
| `Redaction`, `LogRecords` | the filter every log record passes through; what it writes at each place, with the names written out |
| `Authorization`, `Access` | who may do what, in which organisation; the tables of roles, tiers and capabilities read the other way round, and who is let in in those terms |
| `Baseline`, `BraceScan`, `Recall` | three loops: the ratcheting merge, the brace scan, the recall figures |

A value (a schema, a row, a token) is a datatype. What the program updates in place is a class whose
methods are proved against a function of the old state (`Reporting.Report`, `Ratchet.Contract`,
`Retirement.Database`), and a loop is a method with its invariants, proved against a function whose
properties are the lemmas.

The order of a Python dictionary is not modelled, so a report is compared as a bag of lines. The
regular expressions, `normalise` and the key lower-casing of the log filter are parameters: what is
proved holds for any of them, under the conditions the lemmas name.

## Where the code and its promise part

Each of these is stated for the code as it is, with an input that shows the promise failing and the
exact guard under which it holds where there is one. They are the shapes found, not a claim that there
are no others.

- **`--update`** (`scripts/check_api_contract.py:8-9`) hides no break, as promised: whatever was broken
  before is still reported after (`UpdateForgetsNothing`). It can invent one: the breaks are the same
  before and after exactly when no added entry records a success response as `null`
  (`UpdateHidesNothing`, with the document of `ImproperEntryBreaks`, where a check right after a release
  fails too).
- **The duplicate check of the skill migration** (`scripts/retire_legacy_skills.py:76-88`) is meant to
  see the moves already made. The session does not flush on a query (`api/core/database.py:55`) and the
  only flush is after the loop (`scripts/retire_legacy_skills.py:95`), so it reads the table as it was
  when the phase began. The model follows the code. The two agree, and the unique constraint
  (`api/modules/marketplace/models.py:634`) survives the flush, exactly when no profile holds two
  retired skills of one standard without holding the standard (`IntentMetExactly`,
  `FlushSucceedsExactly`); otherwise nothing is committed. The intended version is sound for every
  table (`IntentIsSound`). Certificates have no such constraint, so there a double move commits two
  rows for one standard (`CertificatesStayUniqueExactly`). `BothSkillsOfOneStandard` is a database for
  each.
- **Null in a response** is seen only through the two-member wrapper (`NullSeenExactly`,
  `NullInWideUnionUnreported`), and not in a list of types (`ListNullExactly`).
- **A response that stops saying what it is** (no type, an array without items, or a cycle marker) is
  silent, and silence keeps the app reading exactly when it still says (`SilentResponseSoundExactly`,
  `LooseResponseUnreported`). A request that starts to say what it takes is silent in the same way
  (`SilentRequestSoundExactly`, `LooseRequestUnreported`).
- **Requests** may stop taking null, fractional numbers, values outside a new enum, or `true` where the
  enum now says `1` (Python calls the two equal), with nothing reported: `NullDroppedUnreported`,
  `NumberNarrowedUnreported`, `EnumAppearedUnreported`, `BooleanSwappedUnreported`; the guards are
  `NullKeptExactly`, `TypeKeptExactly`, `EnumKeptExactly`.
- **Inside a union** a comparison looks at type names only, in requests (`OnlyTypesCompared`) and in
  responses (`ResponseTypesCompared`). A limit put on a member is silent, and keeps every value accepted
  exactly when it is no tighter (`UnionMemberUnreported`, `MemberLimitExactly`); properties taken from a
  member are never reported, and the app keeps reading exactly when none was taken
  (`MemberRemovalUnreported`, `MemberPropertiesExactly`). Unions of any size are safe member by member:
  when each old member is taken in by a new one in silence, and each new one answered by an old one
  (`UnionStaysAccepted`, `UnionStaysReadable`), which is what the soundness theorems ask of a union at any
  depth.
- **Beside the nullable wrapper** no keyword is compared (`BesideWrapperUnseen`, `BesideLimitExactly`).
- **The removal of a response property** (`api/core/contract.py:15-16`), of a schema that is no union, is
  reported exactly when the property is not named `title`, `description`, `default`, `example` or
  `examples` (`RemovalReportedExactly`, `AnnotationNamedRemovalUnreported`). It reaches the report of its
  operation from the end of any path of properties, items and nullable wrappers the comparison walks, with
  nothing on the way cut at a cycle or of a moved type (`NestedRemovalReportedExactly`,
  `NestedRemovalFailsTheCheck`). What the `InstalledApps*` rows promise of a recorded response leaves
  properties with those five names out: inlining strips them from the recorded entry.
- **The keywords of a request property** (`api/core/contract.py:17-18`) are compared exactly when it does
  not have one of those names (`PropertyKeywordsComparedExactly`, `AnnotationNamedSchemaUnseen`); with one,
  a smaller maximum length is silent and a text accepted before is refused
  (`AnnotationNamedLimitUnreported`). Against the document the request promise therefore holds for bodies
  without such a field, or for schemas without such a property (`InstalledAppsSendTheDocument`).
- **Inlining** also drops the schema of such a property (`AnnotationNamedPropertyLost`), constraints
  beside a `$ref` (`RefSiblingLost`), annotation keys inside a dictionary of an enum
  (`EnumValueStripped`), and everything below a reference cycle, where the marker accepts every value
  (`MarkerAcceptsEverything`, `CycleLost`). It only ever accepts more (`InliningOnlyLoosens`), but for enum
  values that are dictionaries, and for a `oneOf` whose members it loosens (`OneOfTightened`). It leaves
  an internal reference behind exactly when some component is itself the bare text of one
  (`InlineLeavesNoRefsExactly`).
- **The workbook round trip** holds for a reader that takes the text as it is (`SheetRoundTrip`). A reader
  that normalises line ends, as section 2.11 of XML 1.0 has it, gets the grid back exactly when no cell
  holds a carriage return (`NormalisedRoundTripExactly`). The text is legal XML, by section 2.2, exactly
  when no cell holds U+FFFE or U+FFFF (`SheetLegalExactly`).

An integer field that becomes a number is not counted as a gap: the comparison widens integers to
numbers on purpose (`api/core/contract.py:118-119`), so `Readable` takes an integer field as one the app
reads as a number. `IntegerWidenedUnreported` shows what that admits.

## Model

| member | source | states |
|---|---|---|
| Inlining.InlineLeavesNoRefs | api/core/contract.py:50-66 | no node at any depth of the inlined document is an internal component reference, for every component graph, self-referential ones included; `Inline` terminates by the names not yet on the stack, then the node |
| Inlining.InlineLeavesNoRefsExactly | api/core/contract.py:56-61 | no document keeps an internal reference, if and only if no component is the bare text of one |
| Inlining.TextComesFromComponents | api/core/contract.py:57-61 | a dictionary or list inlines to bare text only when a component is that text |
| Inlining.LastSegmentOfName | api/core/contract.py:58 | the name read off a reference is the component's name |
| Inlining.TakeSnapshot | api/core/contract.py:69-86 | the snapshot succeeds exactly when every surface key names an operation, records each one inlined, and otherwise reports the first that does not |
| Documents.OperationExactly | api/core/contract.py:69-78 | an operation is what the document has under `paths`, the path and the method in lower case, for each of the seven methods; nothing when any of them is missing |
| Documents.EntryExactly | api/core/contract.py:79-85 | an entry holds the operation's parameters, request body and responses and nothing else, each inlined against `components.schemas`, with the defaults for those that are missing |
| Documents.DictionaryInlined | api/core/contract.py:62-66 | a dictionary that refers to nothing keeps exactly the keys that are none of the five annotations, each value inlined |
| Documents.ReferenceInlined | api/core/contract.py:56-61 | a reference under the component prefix is the component inlined; a name being resolved is cut and marked with its name; an unknown name is the empty schema |
| Validation.EmptyAccepts | api/core/contract.py:61 | the empty schema, which stands for a missing component, accepts every value |
| InlineMeaning.InliningKeepsMeaning | api/core/contract.py:50-66 | at every point of the resolution, a value validates against the inlined schema exactly when it validates with references resolved on demand; asked only of the components actually resolved, and of property names only when the value has a key named like an annotation |
| InlineMeaning.InliningPreservesMeaning | api/core/contract.py:50-66 | the same from an empty stack, whatever the document's other components are, with any fuel that pays for each component once |
| InlineLoosens.InliningLoosens | api/core/contract.py:50-66 | at every point of the resolution, what validates with references resolved on demand validates against the inlined schema: any property names, constraints beside references and reference cycles included |
| InlineLoosens.InliningOnlyLoosens | api/core/contract.py:50-66 | inlining a document's schema only ever accepts more |
| InlineLoosens.PlainLoosens | api/core/contract.py:50-66 | every schema whose meaning inlining keeps for all values is among those it only loosens |
| Reporting.CompareSnapshots | api/core/contract.py:198-231 | the report of the loops is, as a bag, exactly the specified breaks, and empty exactly when there are none; what those are of each exchange is in the `Exchanges` rows |
| Reporting.Operation | api/core/contract.py:201-230 | appends exactly the lines of one operation to what was already reported |
| Reporting.Response | api/core/contract.py:122-143 | appends exactly the lines of a response comparison, and nothing after a type change or at a cycle marker |
| Reporting.Properties | api/core/contract.py:133-141 | appends exactly the lines of every property the app reads, in whatever order the dictionary gives them |
| Reporting.Request | api/core/contract.py:146-177 | appends exactly the lines of a request comparison; which limits, types, values and names give one is in the `Exchanges` rows |
| Reporting.Limits | api/core/contract.py:151-172 | appends exactly the lines about types, enum, the four bounds (`LimitChangedExactly`), the pattern and the required names |
| Reporting.Parameters | api/core/contract.py:184-195 | appends exactly the lines of every parameter of the new table, matched by place and name |
| Reporting.Body | api/core/contract.py:209-218 | appends exactly the lines about the request body: now required, no longer JSON, or the nested comparison (`OneBodyExactly`) |
| Reporting.Responses | api/core/contract.py:220-230 | appends exactly the lines of every recorded status: success removed, no longer JSON, or the nested comparison (`OneResponseExactly`) |
| Exchanges.ResponseSchemasCompared | api/core/contract.py:220-230 | two entries whose `responses[status].content["application/json"].schema` are s and n: every line of their comparison is in the report of the snapshots |
| Exchanges.BodySchemasCompared | api/core/contract.py:209-216 | the same of `requestBody.content["application/json"].schema` and the request comparison |
| Exchanges.OneResponseExactly | api/core/contract.py:220-230 | with that one response and nothing else recorded, the report is the comparison of the two schemas |
| Exchanges.StatusGoneExactly | api/core/contract.py:220-225 | a response that is gone is one line if its status begins with 2, and otherwise none |
| Exchanges.NoJsonExactly | api/core/contract.py:226-228 | a response that no longer gives JSON is one line, whatever its status |
| Exchanges.GoneExactly | api/core/contract.py:201-205 | an operation that is gone is one line |
| Exchanges.OneBodyExactly | api/core/contract.py:209-218 | with one body and nothing else, the report is whether it is now required, and the comparison of the two schemas |
| Exchanges.BodyAppearsOrGoes | api/core/contract.py:209-218 | a body where none was is a line if and only if it is required; one that is gone no longer accepts JSON |
| Exchanges.OneParameterExactly | api/core/contract.py:184-195 | one parameter on each side: the same one if and only if place and name agree; a line if now required, and the comparison of the schemas if it is the same |
| Exchanges.ParameterAppearsOrGoes | api/core/contract.py:184-195 | a new parameter is a line if and only if it is required; one that is gone is none |
| Exchanges.LastCounts | api/core/contract.py:188-189 | of two parameters with one place and name the last counts |
| Exchanges.CutIsSilent | api/core/contract.py:123-148 | where either side is the marker of a cut cycle nothing is compared |
| Exchanges.LimitChangedExactly | api/core/contract.py:158-165 | between two limits there is a line if and only if the new one is lower, for `maxLength` and `maximum`, or higher, for `minLength` and `minimum` |
| Exchanges.LimitAppearsOrGoes | api/core/contract.py:158-165 | a limit where none was is always a line; where none is now, never |
| Exchanges.LimitRefusesExactly | api/core/contract.py:158-165 | a numeric limit is a line if and only if some number meets the old one and not the new |
| Exchanges.TextLimitAlone | api/core/contract.py:146-177 | a text's maximum length changed alone is one line if it got smaller, and otherwise the report is empty |
| Exchanges.ResponseTypeExactly | api/core/contract.py:129-132 | there is a type line if and only if both sides mention types and the new one a type, other than null, that the old one does not cover, an integer covering a number |
| Exchanges.RequestTypeExactly | api/core/contract.py:151-153 | there is a type line if and only if the new side mentions types and covers not every type of the old one, null included |
| Exchanges.TypesMentioned | api/core/contract.py:103-115 | the types mentioned are the schema's own, those of a list, or those of the members of either kind of union |
| Exchanges.WrapperOpens | api/core/contract.py:92-100 | the nullable wrapper, either kind and either order, opens to what it wraps and admits null |
| Exchanges.EnumReportedExactly | api/core/contract.py:154-157 | there is a line about the enum if and only if both sides have one and some old value equals none of the new in Python |
| Exchanges.DemandReportedExactly | api/core/contract.py:170-172 | a name is reported as now required, under the name, if and only if it is required now and was not |
| CompareLaws.ResponseSilent | api/core/contract.py:122-143 | a response comparison is silent if and only if null did not appear, no type moved, no property went or became optional, and everything nested is silent |
| CompareLaws.RequestSilent | api/core/contract.py:146-177 | a request comparison is silent if and only if the types, enum values, bounds, pattern and required names all still admit what they did, and everything nested is silent |
| CompareLaws.NothingGone | api/core/contract.py:154-155 | no enum value is listed as gone if and only if each is still there in Python's equality |
| CompareLaws.ResponseSame | api/core/contract.py:122-143 | no schema breaks against itself in a response |
| CompareLaws.RequestSame | api/core/contract.py:146-177 | no schema breaks against itself in a request |
| CompareLaws.ParametersSame | api/core/contract.py:184-195 | no parameter list breaks against itself, duplicates included |
| CompareLaws.BodySame | api/core/contract.py:209-218 | no request body breaks against itself |
| CompareLaws.ResponsesSame | api/core/contract.py:220-230 | responses break nothing against themselves if and only if no success response is recorded as null |
| CompareLaws.NothingBreaksAgainstItself | api/core/contract.py:198-231 | a snapshot breaks nothing against itself if and only if all its entries are proper |
| CompareLaws.BreaksDecompose | api/core/contract.py:201-205 | breaks decompose by operation: added entries add their own and change no other |
| Places.ResponseReportedHere | api/core/contract.py:125-132 | the lines about a schema's own place are exactly two: can now be null, and type moved from one widened set to the other, each if and only if it did |
| Places.ResponseInsideIsDeeper | api/core/contract.py:133-143 | every line about what lies inside a response schema points deeper than the schema |
| Places.LossIsReported | api/core/contract.py:133-140 | a property the app reads that went, or is no longer always present, is reported under its name, unless a type moved above it |
| Places.LossReportedExactly | api/core/contract.py:133-141 | a property is reported as removed, and as no longer always present, if and only if it is, for names whose place no nested property shares |
| Places.RequestReportedHere | api/core/contract.py:149-167 | the lines about a value's own place are exactly the types and enum values refused, each bound tightened and the pattern, each if and only if it happened |
| Places.RequestInsideIsDeeper | api/core/contract.py:173-177 | every line about what lies inside a request schema points deeper than the schema |
| Places.RequestReportedBelow | api/core/contract.py:173-175 | what is reported at a property's place, but that it is now required, is exactly what its two schemas' comparison reports there |
| Paths.NestedLossReportedExactly | api/core/contract.py:122-143 | at the end of any path of properties, items and wrappers the comparison walks, a property is reported as removed, and as no longer always present, if and only if it is |
| Bags.GatherPick | api/core/contract.py:135-141 | what a loop over a dictionary gathers does not depend on which key comes first |
| ResponseSoundness.WrappedValue | api/core/contract.py:92-100 | a value of the nullable wrapper that is not null is a value of what it wraps |
| ResponseSoundness.SilentResponseIsReadable | api/core/contract.py:122-143 | with nothing reported, every value valid for the new schema is readable by an app built on the old one, at every depth: expected types, no unexpected null, always-present properties there; asked along what the old schema reads, and of unions member by member |
| ResponseSoundness.TypedFollows | api/core/contract.py:122-143 | two schemas of one type at each level are such a pair, whatever new properties there are |
| ResponseSoundness.SilenceComposes | api/core/contract.py:118-143 | two silent steps make a silent step the soundness theorem covers, unions included |
| ResponseSoundness.AdditiveChain | api/core/contract.py:118-143 | any chain of releases, each silent over the one before, is silent end to end |
| RequestSoundness.SilentRequestIsAccepted | api/core/contract.py:146-177 | with nothing reported and the guards for null, integers and enums kept, the new schema accepts every value the old one accepted that uses its declared properties, at every depth, with enums of any values, and of unions member by member |
| RequestSoundness.TypedServes | api/core/contract.py:146-177 | two typed request schemas that keep the guards are such a pair |
| RequestSoundness.TypeKeptExactly | api/core/contract.py:151-153 | a type name that passes the widened comparison keeps its values if and only if it is not a number turned integer |
| RequestSoundness.SameUnlessConfusable | api/core/contract.py:155 | two JSON values Python takes for equal are the same, unless one holds a boolean, a 0 or a 1 at some depth |
| RequestSoundness.EnumKeptExactly | api/core/contract.py:154-157 | an enum with no value reported gone, of any JSON values, admits what was admitted if and only if it did not appear where none was and no old value holding a boolean, a 0 or a 1 is missing from the new |
| RequestSoundness.NullKeptExactly | api/core/contract.py:149-150 | null keeps being accepted if and only if a wrapper is still there |
| RequestSoundness.WrapperTakes | api/core/contract.py:92-100 | the wrapper, `anyOf` or `oneOf` in either order, takes null and every value of what it wraps |
| Gaps.NumberNarrowedUnreported | api/core/contract.py:151-153 | number to integer in a request is silent, and 0.5 is refused |
| Gaps.NullDroppedUnreported | api/core/contract.py:149-150 | an optional request field that stops being optional is silent, and null is refused |
| Gaps.EnumAppearedUnreported | api/core/contract.py:154 | any enum appearing where none was is silent, and some value is refused |
| Gaps.BooleanSwappedUnreported | api/core/contract.py:155 | an enum that swaps `true` for `1` is silent, and `true` is refused; the exact condition is `EnumKeptExactly` |
| Gaps.NullSeenExactly | api/core/contract.py:92-100 | a union that admits null is seen to if and only if it has two members and not both are null |
| Gaps.NullInWideUnionUnreported | api/core/contract.py:122-132 | a union of three that gains null is silent, and the app meets an unguarded null |
| Unseen.SilentResponseSoundExactly | api/core/contract.py:122-143 | for a typed old schema and a new one that is typed, or empty, or an array without items, or a cycle marker: silence keeps every new value readable if and only if the new one is typed |
| Unseen.LooseResponseUnreported | api/core/contract.py:123-143 | a response that drops its type, drops the items of its array, or is cut at a cycle is silent |
| Unseen.SilentRequestSoundExactly | api/core/contract.py:146-177 | for a typed new schema and an old one that is typed with the guards kept, or empty, or an array without items, or a cycle marker: silence keeps every value accepted if and only if the old one was typed |
| Unseen.LooseRequestUnreported | api/core/contract.py:147-177 | a request that starts to ask for a type, or for items of a type, is silent |
| Unseen.OnlyTypesCompared | api/core/contract.py:103-115 | between schemas with no other compared keyword of their own, a request comparison looks at type names only, whatever the members of a union say |
| Unseen.UnionMemberUnreported | api/core/contract.py:146-177 | any length limit put on one member of a union is silent, and some text is refused; the exact condition is `MemberLimitExactly` |
| Unions.ResponseTypesCompared | api/core/contract.py:122-132 | between schemas with no other compared keyword of their own, a response comparison looks at null and type names only, whatever the members of a union say |
| Unions.UnionStaysAccepted | api/core/contract.py:146-177 | unions of any size: if each old member is taken in by a new one, every declared value of an old member stays accepted |
| Unions.UnionStaysReadable | api/core/contract.py:122-143 | unions of any size: if each new member is answered by an old one, every value sent is readable as an old member |
| Unions.MemberLimitExactly | api/core/contract.py:103-115 | a limit changed on a member is silent, and keeps every value accepted if and only if it is no tighter |
| Unions.MemberPropertiesExactly | api/core/contract.py:103-115 | properties taken from a member are silent, and the app keeps reading if and only if none was taken |
| Unions.MemberRemovalUnreported | api/core/contract.py:103-115 | the removal of a member's one property is silent, refused by the old union and read by neither of its members |
| Unseen.ListNullExactly | api/core/contract.py:105-106 | null written into a list of types is silent, and the app keeps reading if and only if it expected null and the type is not an array |
| Unseen.BesideWrapperUnseen | api/core/contract.py:92-100 | no keyword beside the nullable wrapper changes any report, on either side, in responses or requests |
| Unseen.BesideLimitExactly | api/core/contract.py:149-150 | a limit put beside the wrapper is silent, and keeps what was accepted if and only if it is no tighter than the limit inside |
| Unseen.IntegerWidenedUnreported | api/core/contract.py:118-119 | an integer response field that becomes a number is silent, and may hold a fraction |
| InliningGaps.RemovalReportedExactly | api/core/contract.py:62-66 | between two documents, behind any references, the removal of a response property of a schema that is no union, and its becoming optional, is reported if and only if it happened and the property is not named like an annotation |
| InliningGaps.NestedRemovalReportedExactly | api/core/contract.py:62-66 | the same at the end of any path of properties, items and nullable wrappers the comparison walks |
| InliningGaps.PropertyKeywordsComparedExactly | api/core/contract.py:62-66 | what is compared of a request property's own keywords is what is compared of its two schemas, if and only if both documents declare it and it is not named like an annotation |
| InliningGaps.AnnotationNamedSchemaUnseen | api/core/contract.py:62-66 | the schema of a property named like an annotation can be anything: what is recorded is the same |
| InliningGaps.AnnotationNamedLimitUnreported | api/core/contract.py:62-66 | for each of the five names, a smaller maximum length of a request property is silent, and a text accepted before is refused by the document |
| InliningGaps.OneOfTightened | api/core/contract.py:62-66 | loosening one member of a `oneOf` refuses a value the other alone took |
| InliningGaps.AnnotationNamedRemovalUnreported | api/core/contract.py:62-66 | for each of the five names, removing an always-present property is silent, and the app does not find it |
| InliningGaps.EnumValueStripped | api/core/contract.py:62-66 | a dictionary in an enum loses its annotation keys, and the value admitted before is refused |
| InliningGaps.MarkerAcceptsEverything | api/core/contract.py:59-60 | what stands where a cycle is cut accepts every value |
| InliningGaps.CycleLost | api/core/contract.py:59-60 | a list of lists at every depth inlines to a list of anything: a value refused before is accepted |
| InliningGaps.AnnotationNamedPropertyLost | api/core/contract.py:62-66 | a property named like an annotation loses its schema: a value refused before is accepted |
| InliningGaps.RefSiblingLost | api/core/contract.py:56-61 | a constraint beside a reference is dropped: a value refused before is accepted |
| Ratchet.Contract.Execute | scripts/check_api_contract.py:35-85 | the whole program: new snapshot, exit status, and on a check exactly the breaks and the missing operations; what a run records is `UpdateRecords` and `ReleaseRecords` |
| Recording.SnapshotExactly | api/core/contract.py:69-86 | a snapshot is made if and only if every listed operation is found; then it holds the entry of each and no other, and otherwise names the first that is not |
| Recording.UpdateRecords | scripts/check_api_contract.py:59-63 | after an update an operation is recorded if and only if it was or is listed; what was recorded keeps its entry, and what was not holds the document's |
| Recording.ReleaseRecords | scripts/check_api_contract.py:54-57 | after a release exactly the listed operations are recorded, each as the document has it |
| Recording.OthersRecordNothing | scripts/check_api_contract.py:42-48 | a check, and any run that misses an operation, leaves the record as it was |
| Recording.SucceedsExactly | scripts/check_api_contract.py:44-85 | the exit status is 0 if and only if every listed operation is found and, on a check, each is recorded and nothing recorded breaks |
| Recording.CheckAfterUpdate | scripts/check_api_contract.py:59-85 | a check right after an update of the same API passes if and only if nothing recorded before was broken and every added entry is proper |
| Recording.RecordedExactly | scripts/check_api_contract.py:54-63 | over any history without a release, an operation is recorded if and only if it was at the start or some update listed it, with its entry from the start or from the first such update |
| Ratchet.UpdateHidesNothing | scripts/check_api_contract.py:59-63 | the breaks found after an update are the same bag as before it, if and only if every added entry is proper |
| Ratchet.ImproperEntryBreaks | scripts/check_api_contract.py:54-63 | a document and surface whose one entry, added to an empty record, breaks against itself, and whose check right after a release fails |
| Ratchet.UpdateForgetsNothing | scripts/check_api_contract.py:59-63 | against any later API, what was broken before an update is still reported after it |
| Ratchet.CheckAfterRelease | scripts/check_api_contract.py:54-57 | a check right after a release passes if and only if the released entries are proper |
| Ratchet.EntriesStay | scripts/check_api_contract.py:54-63 | over any history without a release, whatever the API and surface were, no recorded entry changes or disappears |
| Ratchet.PassingCoversThePast | scripts/check_api_contract.py:65-85 | a check that passes now means nothing breaks against what was recorded before the history began |
| Ratchet.InstalledAppsKeepReading | scripts/check_api_contract.py:44-85 | over any such history, a passing check means every recorded success response still exists and every value the API may send there is readable by the app as its recorded entry describes it, properties named like an annotation left out |
| Ratchet.EntryHoldsInlined | api/core/contract.py:79-85 | what is recorded of a response is the inlined form of the schema the document writes |
| Ratchet.InstalledAppsReadTheDocument | scripts/check_api_contract.py:44-85 | the same promise with what the API may send judged by the document's own schema, references resolved on demand, with any property names, constraints beside references and cycles in it |
| Ratchet.InstalledAppsKeepSending | scripts/check_api_contract.py:44-85 | over any such history, every request body the recorded app could send, enums of any values and unions included, is accepted by the current entry under the guards |
| Ratchet.EntryHoldsBody | api/core/contract.py:79-85 | what is recorded of a request body is the inlined form of the schema the document writes |
| Ratchet.InstalledAppsSendTheDocument | scripts/check_api_contract.py:44-85 | the same promise with acceptance judged by the document's own schema, references resolved on demand, for bodies without a key named like an annotation or schemas without such a property |
| Ratchet.NothingNewIsDemanded | scripts/check_api_contract.py:44-85 | over any such history, no parameter and no body is required that the recorded app was not already required to send |
| Ratchet.ParametersStayAccepted | scripts/check_api_contract.py:44-85 | over any such history, every value of a recorded parameter is accepted by the current entry |
| Ratchet.ParametersStayAcceptedByTheDocument | scripts/check_api_contract.py:44-85 | and by the parameter's schema as the document writes it |
| Ratchet.ResponseReachesTheReport | api/core/contract.py:220-230 | every line of the comparison of a recorded JSON response is in the report of the snapshot |
| Ratchet.NestedRemovalFailsTheCheck | scripts/check_api_contract.py:65-83 | a property lost, or now optional, at the end of a path the comparison walks in a recorded response fails the check |
| Rekeying.SkillsAreImages | scripts/retire_legacy_skills.py:70-95 | a profile's skills afterwards are exactly the images of its skills before, for any many-to-one map onto standards |
| Rekeying.NoneLeft | scripts/retire_legacy_skills.py:70-95 | no row is left on a mapped curated skill |
| Rekeying.MovingTwice | scripts/retire_legacy_skills.py:18-18 | moving again changes no row and counts none |
| Rekeying.FlushSucceedsExactly | scripts/retire_legacy_skills.py:87-95 | one row for each profile and skill survives the flush if and only if no profile holds two retired skills of one standard without holding the standard |
| Rekeying.IntentMetExactly | scripts/retire_legacy_skills.py:76-88 | the phase does what its comment intends, reading its own updates, under exactly that condition |
| Rekeying.IntentIsSound | scripts/retire_legacy_skills.py:76-88 | the intended version, for every table: one row each, skills are images, nothing left on a retired skill, and a second run changes nothing and counts none |
| Retirement.CertificatesStayUniqueExactly | scripts/retire_legacy_skills.py:70-95 | one certificate for each profile and skill survives if and only if there is no double move among the certificates |
| Retirement.BothSkillsOfOneStandard | scripts/retire_legacy_skills.py:70-95 | a consistent database with both curated skills of one standard: declared, the constraint fails and nothing is committed; certified, it commits two certificates for one standard |
| Retirement.FindTarget | scripts/retire_legacy_skills.py:56-67 | the loop computes the map from curated skill to standard |
| Retirement.TargetIsMapsTo | scripts/retire_legacy_skills.py:56-67 | a skill is in the map if and only if it is curated, its slug is mapped and the import produced the standard, and then it maps to that one |
| Retirement.TargetsAreStandards | scripts/retire_legacy_skills.py:43-67 | no standard is itself retired |
| Retirement.MoveRows | scripts/retire_legacy_skills.py:70-95 | the loop over one table leaves exactly the moved rows and counts the mapped ones |
| Retirement.CarryAliases | scripts/retire_legacy_skills.py:98-127 | the loops add exactly the aliases specified and count them |
| Retirement.CarryOneKeepsUnique | scripts/retire_legacy_skills.py:105-127 | the flush after each skill never meets the unique constraint on skill and surface form |
| Retirement.CarryAdds | scripts/retire_legacy_skills.py:98-127 | after the carrying, a skill has a form if and only if it had it or a mapped skill of its own had it; unique still |
| Retirement.CarryingTwice | scripts/retire_legacy_skills.py:98-127 | carrying again adds nothing |
| Retirement.MarkLegacy | scripts/retire_legacy_skills.py:130-133 | exactly the mapped skills become legacy, and those newly so are counted; which those are is `SkillsAfter` |
| Retirement.Database.Run | scripts/retire_legacy_skills.py:32-135 | the whole script in one transaction: the outcome, the four counts, and all tables changed or none; what the tables hold is in the `Migration` rows |
| Migration.SkillsAfter | scripts/retire_legacy_skills.py:56-67 | every skill is as it was if it is a standard, or the map does not name it, or its standard was not produced; and otherwise legacy |
| Migration.RetiredAreTheChanged | scripts/retire_legacy_skills.py:130-133 | the count of the retired is the number of skills whose source changed |
| Migration.RowsAfter | scripts/retire_legacy_skills.py:70-95 | afterwards the rows are those on no retired skill, unchanged, and those on a retired skill whose profile had no row on the standard, with the standard in its place; certificates likewise |
| Migration.RowIdsStayUnique | scripts/retire_legacy_skills.py:70-95 | no row is doubled |
| Migration.MovedAreTheMapped | scripts/retire_legacy_skills.py:91-94 | the counts of the moved are the numbers of rows that were on a retired skill |
| Migration.FormsAfter | scripts/retire_legacy_skills.py:98-127 | afterwards a skill has a form if and only if it had it or a skill retired onto it had it, and no alias is lost |
| Migration.AliasesAfter | scripts/retire_legacy_skills.py:118-125 | an alias that was not there is a copy of one that was, script included, on the standard of its skill |
| Migration.OutcomeExactly | scripts/retire_legacy_skills.py:52-135 | it commits if and only if some standard was produced and no profile has two rows on skills retired onto one standard it has no row on; with such a profile the constraint stops it |
| Migration.ByNosExactly | scripts/retire_legacy_skills.py:43-51 | the codes looked up are those of the national standards, the last of two with one code counting |
| Retirement.CommitsExactly | scripts/retire_legacy_skills.py:52-135 | it commits if and only if there are standards and the moved rows meet the unique constraint, which they do if and only if there is no double move |
| Retirement.MigrationKeepsConstraints | scripts/retire_legacy_skills.py:70-135 | a committed run leaves every constraint of the database intact |
| Retirement.ProfilesKeepTheirSkills | scripts/retire_legacy_skills.py:70-95 | a committed run loses no profile's standard, declared or certified, and leaves nothing on a retired skill |
| Retirement.StandardsGainTheForms | scripts/retire_legacy_skills.py:98-127 | a committed run puts every form of a retired skill on its standard exactly once and loses no alias |
| Retirement.SecondRunIsIdle | scripts/retire_legacy_skills.py:18-18 | a second run changes nothing and reports four zeros |
| Columns.Col | scripts/xlsx_min.py:22-28 | the loop terminates and returns the name of the column |
| Columns.NameDecodes | scripts/xlsx_min.py:22-28 | a name is letters only and decodes to its column |
| Columns.LettersAreNames | scripts/xlsx_min.py:22-28 | every string of letters is the name of what it decodes to |
| Columns.NamesAreABijection | scripts/xlsx_min.py:22-28 | every non-empty A to Z string names exactly one column |
| Columns.NamesInOrder | scripts/xlsx_min.py:22-28 | columns come in the order of their names, shorter first, then alphabetical, both directions |
| Columns.AddressesDistinct | scripts/xlsx_min.py:53-59 | no two cells of a sheet share an address |
| Sheets.EscapeHasNoMarkup | scripts/xlsx_min.py:18-19 | escaped text holds no angle bracket |
| Sheets.EscapeRoundTrip | scripts/xlsx_min.py:18-19 | unescaping gives the text back with only the stripped control characters gone |
| Sheets.DroppedExactly | scripts/xlsx_min.py:18-19 | wherever it stands, a character is dropped if and only if it is one of the control characters of the expression |
| Sheets.ScanRendered | scripts/xlsx_min.py:43-67 | scanning rendered tags and text gives the same tags and text |
| Sheets.Sheet | scripts/xlsx_min.py:43-67 | the pieces appended to the buffer join to the text of the specified tags |
| Sheets.SheetIsBlock | scripts/xlsx_min.py:43-67 | nothing the writer puts in a tag can end it early, whatever the cells hold |
| Sheets.ReadCell | scripts/xlsx_min.py:55-59 | reading one written cell files exactly its stripped text in the last row |
| Sheets.SheetRoundTrip | scripts/xlsx_min.py:43-67 | for every grid, a reader that takes the text as it is gets the grid with only the stripped control characters gone |
| Filing.SheetFiledByAddress | scripts/xlsx_min.py:53-60 | a reader that files each cell under the address in its tag, if that is in the row it stands in, gets exactly the cells of the grid, each at its row and column with its style's number and its text |
| Filing.StylesByNumber | scripts/xlsx_min.py:31-56 | the number of a cell's style is its place among the formats of the style sheet; without styles the first row is the header and the others normal |
| Filing.AttributesReadBack | scripts/xlsx_min.py:43-67 | the attributes written in a tag are the attributes read from it |
| SheetFrame.SheetNests | scripts/xlsx_min.py:43-67 | every element opened is closed, innermost first, whatever the cells hold |
| SheetFrame.SheetSays | scripts/xlsx_min.py:43-67 | read back, there is one column element for each width in order, a pane frozen under the first row if and only if asked, and a filter if and only if asked and there is a second row, up to the header's last column and the last row |
| SheetText.NormalisedRoundTripExactly | scripts/xlsx_min.py:43-67 | a reader that normalises line ends gets it if and only if no cell holds a carriage return |
| SheetText.NeverReadsReturn | scripts/xlsx_min.py:43-67 | whatever the text, such a reader never gets a carriage return |
| SheetText.SheetOkExactly | scripts/xlsx_min.py:18-19 | for any class of characters that holds printable ASCII, the text of a sheet keeps to it if and only if its stripped cells do |
| SheetText.SheetLegalExactly | scripts/xlsx_min.py:18-19 | the text is legal XML if and only if no cell holds U+FFFE or U+FFFF |
| Redaction.ScrubText | api/core/redaction.py:167-173 | the loop applies every pattern in turn and reports whether any matched |
| Redaction.WalkNode | api/core/redaction.py:185-216 | the recursive walk with its loops computes the specified value and touched flag |
| Redaction.Call | api/core/redaction.py:179-183 | the processor returns the walked record, flagged when touched |
| Redaction.ChangedMeansFlagged | api/core/redaction.py:179-183 | a record not flagged is identical to its input |
| Redaction.RecordKeepsItsKeys | api/core/redaction.py:179-183 | a record keeps exactly its keys, but for the flag added when something was touched |
| Redaction.ShapeIsKept | api/core/redaction.py:194-216 | down to the cap every dictionary keeps its keys, every list and tuple its length, every other value is itself and text is scrubbed |
| Redaction.WalkAlongPath | api/core/redaction.py:185-216 | walking and then following a path clear of denied keys is following the path and then walking |
| Redaction.DeniedIsReplaced | api/core/redaction.py:189-192 | every value under a denied key, down to the cap, is replaced whole, and only null stays |
| Redaction.PastTheCapIsMarked | api/core/redaction.py:186-187 | everything one step past the cap is the marker |
| Redaction.HiddenValuesDoNotShow | api/core/redaction.py:185-216 | records that differ only under denied keys or past the cap are logged the same |
| Redaction.ProcessTwice | api/core/redaction.py:179-216 | with an idempotent text scrubber, applying the processor twice equals applying it once |
| Redaction.StableExactly | api/core/redaction.py:179-216 | the processor is stable on every record if and only if the text scrubber is idempotent |
| LogRecords.DeniedExactly | api/core/redaction.py:189-192 | a key is denied if and only if it is a name that lower-cases to one of the thirty sensitive ones |
| LogRecords.LoggedExactly | api/core/redaction.py:185-216 | down to six steps, the value logged at any place is the marker under a sensitive name unless null, text with the patterns applied, and any other scalar itself; at the seventh step it is the marker |
| LogRecords.FlaggedExactly | api/core/redaction.py:179-183 | the record is flagged if and only if some place in it is past the cap, sensitive and not null, or text a pattern matches |
| LogRecords.PatternsInTurn | api/core/redaction.py:167-173 | the first pattern sees the text as it is and each next one what the ones before left |
| Authorization.AdmittedExactly | api/core/authorization.py:396-430 | a request is admitted if and only if the caller has a membership in a workspace with the slug whose role holds the permission and whose tenant has the capability, and acts there with that role |
| Authorization.GrantIsUnique | api/core/authorization.py:339-349 | at most one membership grants a caller the workspace of a slug |
| Authorization.NeverPersonal | api/core/authorization.py:277-289 | a personal workspace is never acted in: only an employer, a course provider or a training centre is |
| Authorization.MembershipNeverOperates | api/core/authorization.py:207-212 | no membership admits anybody to an operator permission |
| Authorization.RolesHoldNoOperatorPermission | api/core/authorization.py:107-110 | no role string, known or not, yields an operator permission |
| Authorization.OperatorsOperateOnly | api/core/authorization.py:453-515 | an operator acts if and only if staff with a tier that holds the permission, with operator permissions only; support is strictly below admin |
| Authorization.CentresThroughTheirParent | api/core/authorization.py:518-545 | a centre is reached if and only if the caller is entitled in the organisation it belongs to |
| Authorization.AnswersDoNotLeak | api/core/authorization.py:334-430 | two databases that agree on the caller's memberships, the workspaces they name and those workspaces' centres give the same answer, refusals included |
| Access.LetInExactly | api/core/authorization.py:334-430 | a caller is admitted if and only if the tenant has the slug and is an employer, a course provider or a training centre, never personal; the caller is a member with the role; the role is one of those that hold the permission; and the tenant has the capability asked |
| Access.RequireExactly | api/core/authorization.py:396-430 | everybody with a role gets the verdict on that role and its tenant, everybody else the one answer for no such organisation |
| Access.RefusedExactly | api/core/authorization.py:350-357 | the answer is no such organisation if and only if the caller has no role there; that the role forbids it if and only if they have one that does not hold the permission |
| Access.CentreLetInExactly | api/core/authorization.py:518-545 | a centre is reached if and only if the caller has a role in its parent, which is never personal, is allowed there what is asked, and the centre is the parent's |
| Access.RoleTable | api/core/authorization.py:143-212 | a role holds a permission if and only if the table by permission lists it; an unknown role holds none |
| Access.TierTable | api/core/authorization.py:243-256 | the same of the operator tiers |
| Access.CapabilityTable | api/core/authorization.py:316-331 | what an organisation may do, by its kind |
| Access.OperatorLetInExactly | api/core/authorization.py:453-515 | an operator is let in if and only if staff with a tier that holds the permission, and no role holds any permission a tier does |
| Baseline.MergeLog | scripts/merge_target_baseline.py:35-50 | the loop computes the merge, or names the page of the first bad count |
| Baseline.MergesExactly | scripts/merge_target_baseline.py:46-47 | the merge succeeds if and only if every count is a whole number that is not negative, and otherwise names the page of the first that is not |
| Baseline.EndsAtTheLeast | scripts/merge_target_baseline.py:41-49 | a page not named as allowed ends at the least of its baseline and its logged counts; none is dropped, none appears unlogged |
| Baseline.NeverRises | scripts/merge_target_baseline.py:11-12 | a recorded ceiling never rises |
| Baseline.OrderMattersOnlyWhereRaised | scripts/merge_target_baseline.py:41-49 | for any allowed labels, the order of the log changes neither which pages are recorded nor the count of any page not allowed to rise |
| Baseline.OrderDoesNotMatter | scripts/merge_target_baseline.py:41-49 | with no ceiling raised the order of the log does not matter |
| Baseline.MergingInTurn | scripts/merge_target_baseline.py:35-50 | merging two logs in turn equals merging them joined, raised ceilings included |
| Baseline.RaisedEndsAtTheLast | scripts/merge_target_baseline.py:48-49 | a page named as allowed ends at its last logged count, or its baseline when none is logged |
| Baseline.MergingTwice | scripts/merge_target_baseline.py:35-50 | merging the same log again changes nothing |
| BraceScan.FindBlock | scripts/sync_mobile_tokens.py:41-49 | the opener, then the first brace, then the scan: the block, or which of them failed |
| BraceScan.ScanFrom | scripts/sync_mobile_tokens.py:45-48 | the counting loop stays in bounds and stops where the depth first comes back to zero |
| BraceScan.ScanFindsTheMatch | scripts/sync_mobile_tokens.py:45-48 | the scan stops at a brace if and only if it is the matching one: the text before it is balanced |
| BraceScan.BlockIsTheMatch | scripts/sync_mobile_tokens.py:41-49 | the block is the unique balanced text up to the matching brace, and the scan runs off the end if and only if nothing matches |
| BraceScan.NetCounts | scripts/sync_mobile_tokens.py:45-47 | the depth gained over a text is its opening braces less its closing ones |
| BraceScan.NotFoundExactly | scripts/sync_mobile_tokens.py:43-44 | no block is looked for if and only if the opener is nowhere or no brace follows its first place |
| BraceScan.EmbeddedBodyIsFound | scripts/sync_mobile_tokens.py:41-49 | a balanced body embedded after a fresh opener is returned exactly |
| Recall.OverlapIsAtLeast | scripts/benchmark_matching.py:151-155 | the tie-aware count is at least the identity overlap |
| Recall.ShareIsAShare | scripts/benchmark_matching.py:155-156 | the tie-aware share is between 0 and 1 |
| Recall.RegretIsNotNegative | scripts/benchmark_matching.py:157 | regret is never negative |
| Recall.FullOverlapIsPerfect | scripts/benchmark_matching.py:149-158 | sharing the whole top forces a share of 1 and, with results best first, regret 0 |
| Recall.FiguresExactly | scripts/benchmark_matching.py:149-158 | of the first twenty returned: how many ids are among the first twenty of the truth, how many entries are outscored by fewer than twenty of the truth, and what the first scores less than the best |
| Recall.Chunks | scripts/benchmark_matching.py:56-58 | the chunks joined are the list, so each id is visited exactly once, and every chunk but the last is full |

## Left out

- InliningPreservesMeaning: stated for a schema and the components it reaches, with scalar enums, no constraint beside a reference and no reference cycle, and no property named like an annotation unless the value has no such key; `InliningGaps` shows the meaning changing for each. Outside these `InliningOnlyLoosens` gives one direction.
- InliningOnlyLoosens: stated for flat values of the keywords that hold no schema, and for a `oneOf` whose members inlining keeps as they are; `EnumValueStripped` and `OneOfTightened` show the other shapes accepting less.
- SilentResponseIsReadable: stated for schemas of one non-null type at each level the old schema reads, null only through the two-member wrapper, arrays with items and no cycle marker, and for `anyOf` unions answered member by member; `Gaps`, `Unseen` and `Unions` show the other shapes failing. Not covered: a `oneOf` of more than the wrapper, and a union inside the wrapper. The converse is not claimed: a report may name a change no value shows.
- InstalledAppsKeepReading: the app is judged by its recorded entry, from which inlining has stripped properties named `title`, `description`, `default`, `example` or `examples`; their removal is never reported (`RemovalReportedExactly`).
- SilenceComposes: stated for response schemas only; a removed error response is not reported, and a request property dropped in one release may return stricter in the next.
- InstalledAppsReadTheDocument: judges the app by its recorded entry too; stated for a response whose path in the document holds no reference, and a schema inlining only loosens (see `InliningOnlyLoosens`).
- InstalledAppsKeepSending: judges acceptance by the current entry, from which the schemas of properties named `title`, `description`, `default`, `example` or `examples` are stripped; stated under the guards for null, integers and enums, and for values of declared properties.
- InstalledAppsSendTheDocument: says nothing of a body that sends such a property to a schema that declares it; `AnnotationNamedLimitUnreported` shows the promise failing there.
- SheetRoundTrip: the width of a column is passed as the numeral Python prints for it, and a cell as its text; a cell holds no lone surrogate.
- RequireOperator: that a permission no operator holds stops the application at import is modelled as an answer.
- Exceptions Python raises on malformed documents: a key of the wrong type reads as an absent one, lists of types hold strings, parameters have a place and a name.
- The order and wording of report lines, and the notes on widened response enums, which never fail a check.
- Reading the surface file, JSON files, arguments and printing: the recorded snapshot is a map, and reading a written one back gives an equal map.
- Keywords the comparison does not look at: additionalProperties, allOf, format and the rest.
- The columns of skills, rows and aliases the migration does not touch; SQL and the unit of work, which appear as one transaction over values; the printed list of unmapped skills.
- Style names outside the table and style lists shorter than the grid, which stop the sheet writer.
- The workbook archive, its style sheet and content types.
- The patterns, the masking functions, tuples with named fields and anything a structured logger adds after the filter.
- Request routing, sessions, log lines and the sentences of refusals beyond what varies in them.
- Parsing of the log lines of the sweep: a line is blank, or a label and a count, where Python's `true` counts as the whole number 1.
- Colours, spacing and icons of the style sheet.
- Scoring, retrieval, sorting of the truth and timing in the benchmark.
- Seed data, configuration checks and the remaining modules: single-branch checks or plumbing.
