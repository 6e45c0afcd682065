# A verified model of parts of the OSS Review Toolkit (CanvassLabs fork)

This project models six parts of the toolkit in Dafny and proves properties of them:

- **Resolved license information** (`resolved_license_info.dfy`, module `Licenses`).
  - The licenses of a package, with their locations, the path excludes that match each location, and the copyright findings attached to each location.
  - The model covers the filter that drops excluded licenses and excluded copyright findings.
  - It covers lookup by license and by location.
  - It covers grouping copyright findings into resolved copyrights and collecting the copyright statements of a license and of a whole package.
- **The file based scan results storage** (`file_based_storage.dfy`, module `Storages`).
  - This is a cache with one entry per package identifier, at `<type>/<namespace>/<name>/<version>/scan-results.yml`.
  - The class `FileBasedStorage` holds the backend as a map from paths to entries.
  - Reading a missing entry yields an empty container. Reading an unreadable entry yields a failure.
  - Adding a result reads the existing results, appends the new one and writes the container back.
- **The evaluator's rule builder** (`rule.dfy`, module `Evaluator`). The model follows the behaviour its test pins down.
  - `hint`, `warning` and `error` append one violation each to the rule.
  - A `require` block appends its matchers. An entry `-m` adds the negation of `m`, described as `!(` … `)`.
- **ClearlyDefined coordinates and harvest status** (`clearly_defined.dfy`, module `ClearlyDefined`).
  - Coordinates have the text form `type/provider/namespace/name[/revision]`, where `-` stands for a missing namespace.
  - The parser splits at the first four slashes and reports errors in segment order.
  - The model proves both round trips.
  - The harvest status depends on how many tools described a component.
- **The CanvassLabs scanner's output shaping** (`canvass_labs.dfy`, module `Scanners`).
  - The version is read from the scanner's banner.
  - The raw result is partitioned into license and copyright findings, with the 0-based line indices shifted to 1-based.
- **The FossId 0/1 boolean decoder** (`int_boolean_deserializer.dfy`, module `FossId`).

`model.dfy` (module `Model`) holds the shared records: identifiers, text locations, findings, scan summaries and the cache container. `wrappers.dfy` holds `Option` and `Result`.

Where the documentation and the code disagree, the model follows the code:

- **Copyright filtering.** The doc comment of `filterExcluded` (`model/src/main/kotlin/licenses/ResolvedLicenseInfo.kt:100-105`) says a copyright is removed if *all* of its findings are excluded. The code (`:174-181`) removes *each* excluded finding.
  - `Licenses.StatementSurvivesFilter` shows that the two agree at the level of statements.
  - A statement survives exactly when some finding of it is not excluded.
- **Null text in the decoder.** The decoder's doc comment says a null text yields null. The function returns a non-null `Boolean`, so the model is a total function from text to `bool`.

## Model

| member | source | states |
|---|---|---|
| Licenses.IsDetectedExcluded | model/src/main/kotlin/licenses/ResolvedLicenseInfo.kt:137-144 | for a license found only by detection, being detected-excluded is exactly being dropped by the list filter |
| Licenses.IsKept | model/src/main/kotlin/licenses/ResolvedLicenseInfo.kt:257-261 | a license with a declared or concluded source is kept, a license with an unexcluded location is kept, and a license that is not kept was found only by detection |
| Licenses.WithoutExcludedFindings | model/src/main/kotlin/licenses/ResolvedLicenseInfo.kt:178 | the kept copyright findings are a subset of the given ones, and a finding is kept exactly when no path exclude matches it |
| Licenses.FilterExcludedCopyrights | model/src/main/kotlin/licenses/ResolvedLicenseInfo.kt:174-181 | license, original declared licenses and original expressions are unchanged; every location reappears with only its unexcluded copyrights and all other fields unchanged; no other locations appear; no excluded finding remains; there are never more locations than before |
| Licenses.FilterExcludedCopyrightsIdempotent | model/src/main/kotlin/licenses/ResolvedLicenseInfo.kt:174-181 | filtering excluded copyrights twice is filtering them once |
| Licenses.FilterExcludedCopyrightsKeepsExclusion | model/src/main/kotlin/licenses/ResolvedLicenseInfo.kt:174-181 | removing copyright findings changes neither whether the license filter keeps the license nor whether it is detected-excluded |
| Licenses.FilterExcluded | model/src/main/kotlin/licenses/ResolvedLicenseInfo.kt:257-261 | the result is never longer than the input; a license is in it exactly when it is the copyright-filtered form of an input license whose sources differ from {DETECTED} or which has a location without path excludes |
| Licenses.FilterExcludedAppend | model/src/main/kotlin/licenses/ResolvedLicenseInfo.kt:257-261 | filtering a concatenation is concatenating the filtered parts, so the order of the kept licenses is preserved |
| Licenses.FilterExcludedSingle | model/src/main/kotlin/licenses/ResolvedLicenseInfo.kt:257-261 | one license is dropped exactly when DETECTED is its only source and all its locations are excluded, and is otherwise kept with its copyrights filtered |
| Licenses.HumanAssertedLicenseKept | model/src/main/kotlin/licenses/ResolvedLicenseInfo.kt:257-261 | a license with a DECLARED or CONCLUDED source is never dropped |
| Licenses.DroppedIsDetectedExcluded | model/src/main/kotlin/licenses/ResolvedLicenseInfo.kt:142-144 | every license the filter drops is detected-excluded |
| Licenses.DetectedExcludedNotDropped | model/src/main/kotlin/licenses/ResolvedLicenseInfo.kt:142-144 | the converse fails: some license that is both declared and detected, whose only location is excluded, is detected-excluded and still kept |
| Licenses.FilterExcludedInfo | model/src/main/kotlin/licenses/ResolvedLicenseInfo.kt:106 | identifier, license info, copyright garbage and unmatched copyrights are unchanged, and the licenses are the list-filtered licenses |
| Licenses.FindLicense | model/src/main/kotlin/licenses/ResolvedLicenseInfo.kt:66 | none exactly when no license is the requested one; otherwise the element at the first index holding the requested license |
| Licenses.Get | model/src/main/kotlin/licenses/ResolvedLicenseInfo.kt:66 | none exactly when the package has no such license; otherwise one of the package's licenses, equal to the requested one |
| Licenses.FilterByLocation | model/src/main/kotlin/licenses/ResolvedLicenseInfo.kt:92-97 | the result is never longer than the input and holds exactly the input licenses with a location of the given provenance and path |
| Licenses.FilterByLocationAppend | model/src/main/kotlin/licenses/ResolvedLicenseInfo.kt:92-97 | the location filter distributes over concatenation, so it keeps the input order |
| Licenses.Filter | model/src/main/kotlin/licenses/ResolvedLicenseInfo.kt:92-97 | a license is in the result exactly when it is one of the package's licenses with a location of the given provenance and path |
| Licenses.ToMap | model/src/main/kotlin/licenses/ResolvedLicenseInfo.kt:278-279 | the keys are the processed keys plus the unprocessed statements; an unprocessed statement maps to itself alone and wins over a processed entry for the same key |
| Licenses.StatementMap | model/src/main/kotlin/licenses/ResolvedLicenseInfo.kt:263-269 | without processing, every statement is a key that maps to itself alone |
| Licenses.Groups | model/src/main/kotlin/licenses/ResolvedLicenseInfo.kt:271-275 | one resolved copyright per key whose group of findings is non-empty, holding exactly that group |
| Licenses.ToResolvedCopyrights | model/src/main/kotlin/licenses/ResolvedLicenseInfo.kt:263-276 | every resolved copyright has a non-empty subset of the findings, and no two share a statement; without processing, each holds exactly the findings with its statement, and every finding's statement has its resolved copyright |
| Licenses.AllFindings | model/src/main/kotlin/licenses/ResolvedLicenseInfo.kt:152 | exactly the copyright findings of the license's locations |
| Licenses.RetainedFindings | model/src/main/kotlin/licenses/ResolvedLicenseInfo.kt:151-159 | a finding is retained exactly when some location holds it and, if excluded findings are omitted, no path exclude matches it |
| Licenses.ResolvedCopyrights | model/src/main/kotlin/licenses/ResolvedLicenseInfo.kt:151-159 | every resolved copyright holds a non-empty subset of the retained findings; no two share a statement; none holds an excluded finding when excluded findings are omitted; there are none without retained findings |
| Licenses.ResolvedCopyrightsUnprocessed | model/src/main/kotlin/licenses/ResolvedLicenseInfo.kt:151-159 | without processing there is one resolved copyright per distinct retained statement, holding exactly the retained findings with that statement; when excluded findings are omitted, none of its findings is excluded |
| Licenses.Copyrights | model/src/main/kotlin/licenses/ResolvedLicenseInfo.kt:167-168 | without processing, a statement belongs to the license exactly when one of its retained findings has it; without retained findings there is none |
| Licenses.RetainedAfterFilter | model/src/main/kotlin/licenses/ResolvedLicenseInfo.kt:174-181 | all findings of the filtered license are exactly the unexcluded findings of the license |
| Licenses.FilterKeepsUnexcludedCopyrights | model/src/main/kotlin/licenses/ResolvedLicenseInfo.kt:174-181 | the unprocessed statements of the filtered license, excluded ones included, equal those of the license with excluded findings omitted |
| Licenses.StatementSurvivesFilter | model/src/main/kotlin/licenses/ResolvedLicenseInfo.kt:100-105 | after filtering, a statement remains exactly when some finding with it has no path exclude, which is the documented "removed if all findings are excluded" |
| Licenses.HasUnexcludedStatement | model/src/main/kotlin/licenses/ResolvedLicenseInfo.kt:151-156 | a statement is retained when excluded findings are omitted exactly when some unexcluded finding of some location has it |
| Licenses.UnionCopyrights | model/src/main/kotlin/licenses/ResolvedLicenseInfo.kt:74-77 | a statement is in the union exactly when some license has a retained finding with it |
| Licenses.InfoCopyrights | model/src/main/kotlin/licenses/ResolvedLicenseInfo.kt:74-81 | without processing, a statement belongs to the package exactly when a retained finding of one of its licenses has it, so every license's unprocessed statements are included |
| Licenses.InfoCopyrightsIsUnion | model/src/main/kotlin/licenses/ResolvedLicenseInfo.kt:74-81 | without processing, the package's statements are the union of the licenses' unprocessed statements |
| Storages.StoragePath | scanner/src/main/kotlin/storages/FileBasedStorage.kt:112 | the key is the package directory, a slash and `scan-results.yml`, in that order |
| Storages.Read | scanner/src/main/kotlin/storages/FileBasedStorage.kt:54-77 | a missing entry reads as an empty container for the identifier; the read fails exactly when the entry is unreadable, with the message naming coordinates, path and cause; a readable entry gives its container |
| Storages.AddOutcome | scanner/src/main/kotlin/storages/FileBasedStorage.kt:92-109 | success exactly when the write raised nothing; failure exactly for an illegal-argument or I/O exception; any other exception escapes unchanged |
| Storages.FileBasedStorage.constructor | scanner/src/main/kotlin/storages/FileBasedStorage.kt:46-51 | the storage starts over the given backend |
| Storages.FileBasedStorage.ReadInternal | scanner/src/main/kotlin/storages/FileBasedStorage.kt:54-77 | the result is the read of the current backend, as `Storages.Read` characterises |
| Storages.FileBasedStorage.AddInternal | scanner/src/main/kotlin/storages/FileBasedStorage.kt:79-110 | the result is the add outcome for the write's exception; after a successful write the package's key holds the existing results followed by the new one and nothing else changes, and after an exception the backend is unchanged |
| Storages.ReadAfterAdd | scanner/src/main/kotlin/storages/FileBasedStorage.kt:79-110 | after a successful add, reading yields the results read before followed by the new one |
| Storages.AddAfterFailedRead | scanner/src/main/kotlin/storages/FileBasedStorage.kt:80-85 | an add after a failed read stores the new result alone |
| Storages.AddKeepsOtherKeys | scanner/src/main/kotlin/storages/FileBasedStorage.kt:87-93 | an add changes no key other than the package's own |
| Storages.AddAllAppends | scanner/src/main/kotlin/storages/FileBasedStorage.kt:79-110 | one writer adding several results reads back every one of them, in order, after the results that were there before |
| Evaluator.Description | evaluator/src/test/kotlin/RuleTest.kt:108-117 | the description is the condition's text inside one `!(` … `)` per negation |
| Evaluator.Matches | evaluator/src/test/kotlin/RuleTest.kt:100-113 | a matcher matches exactly when its condition holds under an even number of negations or fails under an odd number |
| Evaluator.Declared | evaluator/src/test/kotlin/RuleTest.kt:107-110 | `+m` adds `m` itself; `-m` adds a matcher described as `!(` description of `m` `)` that matches exactly when `m` does not |
| Evaluator.DeclaredAll | evaluator/src/test/kotlin/RuleTest.kt:107-110 | one matcher per entry, in order; `+m` keeps the description and value of `m`; `-m` is described as `!(` description `)` and matches exactly when `m` does not |
| Evaluator.DeclaredPlusMinus | evaluator/src/test/kotlin/RuleTest.kt:107-110 | the block `{ +a; -b }` declares exactly `a` and then the negation of `b` |
| Evaluator.RequirePlusMinusDescriptions | evaluator/src/test/kotlin/RuleTest.kt:107-114 | `require { +a; -b }` declares two matchers, described as `a` is and as `!(` description of `b` `)` |
| Evaluator.RequirePlusMinusMatches | evaluator/src/test/kotlin/RuleTest.kt:107-110 | the requirements of `require { +a; -b }` hold exactly when `a` matches and `b` does not |
| Evaluator.Rule.constructor | evaluator/src/test/kotlin/RuleTest.kt:38-41 | a fresh rule has its name and no violations or matchers |
| Evaluator.Rule.Issue | evaluator/src/test/kotlin/RuleTest.kt:48-57 | appends one violation carrying the rule name, the arguments and the severity; matchers unchanged |
| Evaluator.Rule.Hint | evaluator/src/test/kotlin/RuleTest.kt:44-60 | appends one HINT violation carrying the rule name and the arguments; matchers unchanged |
| Evaluator.Rule.Warning | evaluator/src/test/kotlin/RuleTest.kt:62-78 | appends one WARNING violation carrying the rule name and the arguments; matchers unchanged |
| Evaluator.Rule.Error | evaluator/src/test/kotlin/RuleTest.kt:80-96 | appends one ERROR violation carrying the rule name and the arguments; matchers unchanged |
| Evaluator.Rule.Add | evaluator/src/test/kotlin/RuleTest.kt:108-109 | appends the matcher of one `require` entry; violations unchanged |
| Evaluator.Rule.Require | evaluator/src/test/kotlin/RuleTest.kt:107-115 | appends the matchers of the block in order, as `Evaluator.DeclaredAll` gives them; violations unchanged |
| Evaluator.HintOnFreshRule | evaluator/src/test/kotlin/RuleTest.kt:44-60 | `hint` on a fresh rule records exactly one violation, with severity HINT and the rule's name, package, license, source and message |
| Evaluator.WarningOnFreshRule | evaluator/src/test/kotlin/RuleTest.kt:62-78 | `warning` on a fresh rule records exactly one violation, with severity WARNING and the given fields |
| Evaluator.ErrorOnFreshRule | evaluator/src/test/kotlin/RuleTest.kt:80-96 | `error` on a fresh rule records exactly one violation, with severity ERROR and the given fields |
| Evaluator.AllSeveritiesOnFreshRule | evaluator/src/test/kotlin/RuleTest.kt:44-96 | three calls record three violations in call order that differ only in their severity |
| Evaluator.RequireOnFreshRule | evaluator/src/test/kotlin/RuleTest.kt:98-115 | `require { +m; -n }` on a fresh rule declares exactly two matchers, `m` itself and one described as `!(` description of `n` `)` that matches exactly when `n` does not, and adds no violation |
| ClearlyDefined.GetHarvestStatus | clearly-defined/src/main/kotlin/ClearlyDefinedService.kt:107-112 | not harvested exactly without a tools list, harvested exactly with more than two tools, partially harvested exactly with a list of at most two |
| ClearlyDefined.TypeFromString | clearly-defined/src/main/kotlin/ClearlyDefinedService.kt:367 | a type is found only if its text is the given one, and none is found only if no type has that text |
| ClearlyDefined.ProviderFromString | clearly-defined/src/main/kotlin/ClearlyDefinedService.kt:368 | a provider is found only if its text is the given one, and none is found only if no provider has that text |
| ClearlyDefined.TypeTextRoundTrip | clearly-defined/src/main/kotlin/ClearlyDefinedService.kt:367 | the text of every type parses back to that type and holds no slash |
| ClearlyDefined.ProviderTextRoundTrip | clearly-defined/src/main/kotlin/ClearlyDefinedService.kt:368 | the text of every provider parses back to that provider and holds no slash |
| ClearlyDefined.Split | clearly-defined/src/main/kotlin/ClearlyDefinedService.kt:365 | a split gives at least one and at most `limit` parts |
| ClearlyDefined.JoinSplit | clearly-defined/src/main/kotlin/ClearlyDefinedService.kt:365 | joining the parts of a split with slashes gives back the text |
| ClearlyDefined.SplitJoin | clearly-defined/src/main/kotlin/ClearlyDefinedService.kt:365 | splitting joined parts gives back the parts when no part before the last holds a slash, and the last holds none unless it is the part that takes the rest |
| ClearlyDefined.FromString | clearly-defined/src/main/kotlin/ClearlyDefinedService.kt:364-373 | success exactly with at least four segments and a known type and provider; an unknown type is reported first; with a known type, a text without a slash fails at index 1; then an unknown provider is reported; with a known provider, two or three segments fail at the index of the first missing one; on success the fields are the segments, `-` becomes no namespace, and a fifth segment is the revision |
| ClearlyDefined.ToString | clearly-defined/src/main/kotlin/ClearlyDefinedService.kt:376 | when name and namespace hold no slash, splitting the text at its first four slashes gives back type, provider, namespace or `-`, name, and the revision if there is one, whole |
| ClearlyDefined.ToStringOfParts | clearly-defined/src/main/kotlin/ClearlyDefinedService.kt:376 | coordinates whose fields read as four or five segments print as those segments joined with slashes |
| ClearlyDefined.FromStringToString | clearly-defined/src/main/kotlin/ClearlyDefinedService.kt:364-376 | printing and parsing gives back the coordinates when name and namespace hold no slash and the namespace is not `-`; the revision may hold slashes |
| ClearlyDefined.ToStringFromString | clearly-defined/src/main/kotlin/ClearlyDefinedService.kt:364-376 | every text that parses prints back as itself |
| Scanners.RemovePrefix | scanner/src/main/kotlin/scanners/CanvassLabs.kt:69 | a text starting with the prefix is the prefix followed by the result; any other text is returned as it is |
| Scanners.DropTrailingNonCommas | scanner/src/main/kotlin/scanners/CanvassLabs.kt:69 | the result is a prefix that is empty or ends in a comma, and no comma follows it in the text |
| Scanners.DropLast | scanner/src/main/kotlin/scanners/CanvassLabs.kt:69 | the result is a prefix one character shorter, and the empty text stays empty |
| Scanners.TransformVersion | scanner/src/main/kotlin/scanners/CanvassLabs.kt:69 | the version is a prefix of the prefix-stripped output; with a comma it stops right before the last comma; without one it is empty |
| Scanners.TransformVersionIsUpToLastComma | scanner/src/main/kotlin/scanners/CanvassLabs.kt:69 | the version equals the prefix-stripped output cut at its last comma, as an independent last-comma search finds it, and is empty without a comma |
| Scanners.TransformVersionOfBanner | scanner/src/main/kotlin/scanners/CanvassLabs.kt:69 | `ORTClient version <v>,<rest>` yields `<v>` for any comma-free `<rest>`, even when `<v>` holds commas |
| Scanners.Inc32 | scanner/src/main/kotlin/scanners/CanvassLabs.kt:179-180 | the result is congruent to `x + 1` modulo 2^32 within the 32-bit range, and is `x + 1` below the largest value |
| Scanners.Licenses | scanner/src/main/kotlin/scanners/CanvassLabs.kt:169-184 | every file's license findings are included, and every license finding is some file's |
| Scanners.Copyrights | scanner/src/main/kotlin/scanners/CanvassLabs.kt:186-202 | every file's copyright findings are included, and every copyright finding is some file's |
| Scanners.CollectLicenses | scanner/src/main/kotlin/scanners/CanvassLabs.kt:169-184 | the loop over files and matches collects exactly the license findings of the raw result |
| Scanners.CollectCopyrights | scanner/src/main/kotlin/scanners/CanvassLabs.kt:186-202 | the loop over files and matches collects exactly the copyright findings of the raw result |
| Scanners.GenerateSummary | scanner/src/main/kotlin/scanners/CanvassLabs.kt:151-213 | the summary carries the given times and verification code, one file per raw entry, the license and copyright findings of the matches, and no issues |
| Scanners.FileLicensesExactly | scanner/src/main/kotlin/scanners/CanvassLabs.kt:172-183 | a license finding comes from a file's matches exactly when some non-copyright match of the file yields it |
| Scanners.FileCopyrightsExactly | scanner/src/main/kotlin/scanners/CanvassLabs.kt:189-201 | a copyright finding comes from a file's matches exactly when some copyright match of the file yields it |
| Scanners.LicensesExactly | scanner/src/main/kotlin/scanners/CanvassLabs.kt:169-184 | the license findings are exactly those yielded by the non-copyright matches of some file |
| Scanners.CopyrightsExactly | scanner/src/main/kotlin/scanners/CanvassLabs.kt:186-202 | the copyright findings are exactly those yielded by the copyright matches of some file |
| Scanners.MatchPartition | scanner/src/main/kotlin/scanners/CanvassLabs.kt:169-202 | every copyright match contributes its copyright finding and every other match its license finding |
| Scanners.SummaryLines | scanner/src/main/kotlin/scanners/CanvassLabs.kt:173-198 | every license finding of a summary has the SPDX id of a non-copyright match's type; every copyright finding has a copyright match's found region as statement; both have that match's start and end index plus one as lines |
| FossId.SameLowerAscii | clients/fossid-webapp/src/main/kotlin/api/IntBooleanDeserializer.kt:35 | two characters compare equal ignoring case exactly when they are equal or are the upper- and lower-case forms of one ASCII letter |
| FossId.Deserialize | clients/fossid-webapp/src/main/kotlin/api/IntBooleanDeserializer.kt:31-36 | `0` decodes to false and `1` to true |
| FossId.DeserializeTrueExactly | clients/fossid-webapp/src/main/kotlin/api/IntBooleanDeserializer.kt:31-36 | a text decodes to true exactly when it is `1` or spells `true` with each letter in either case; every other text decodes to false |
| FossId.DeserializeExamples | clients/fossid-webapp/src/main/kotlin/api/IntBooleanDeserializer.kt:33-35 | `0`, `2`, `yes`, the empty text, `false`, `true ` and `10` decode to false; `1`, `true`, `TRUE` and `tRuE` decode to true |

## Left out

- YAML serialization and deserialization of the cache entry are not modelled. An entry is either a stored container or unreadable content with its reason.
- The file storage backend is not part of this model. It is a map from paths to entries, and a write's exception is a parameter of the add.
- A write that raises leaves the backend unchanged in this model. A partial write by the real backend is not modelled.
- Storages.FileBasedStorage.AddInternal: the base `read` wrapper that the add calls is modelled as the internal read itself. That wrapper's own behaviour is not part of this model.
- Concurrent adds to the same package are not modelled. Two writers that read, append and write at once can lose a result (the last writer wins).
- The logging in the storage is left out, because it is I/O.
- `collectMessagesAsString` is the exception's cause text, and `Identifier.toPath` joins the four components with slashes. The file-system escaping that the real path encoding may apply is not modelled.
- Licenses.ToResolvedCopyrights: with processing, the statements processor is a parameter, `Clustering`, because its clustering is not part of this model. Only the `process = false` path is related to the findings exactly.
- The processor receives the set of statements rather than the list in finding order.
- Licenses.InfoCopyrights: with processing, `getAllStatements` is taken to be the processed keys plus the unprocessed statements.
- The order of the resolved copyrights is not modelled; the model returns a set. The order of the list follows the insertion order of the underlying sets, which the model does not fix.
- Locations and copyright findings are sets, as in the source.
- `LicenseView.filter` is left out because it is a call into license views that are not part of this model.
- Licenses.Get: a license is compared as text; SPDX expression equality is not modelled.
- ClearlyDefined.TypeFromString: the enums are not part of the modelled file. The model holds a subset of their constants with lower-case texts, matched exactly, and an unknown text is reported as an error value rather than an exception.
- ClearlyDefined.ProviderFromString: the same as for the types.
- The fields of `Defined` and `Described` other than the tools list are left out, because the harvest status reads nothing else.
- The ClearlyDefined REST methods, the HTTP client and the server URLs are left out, because they are network I/O.
- The CanvassLabs `bootstrap`, `command`, `scanPathInternal`, `getRawResult`, `calculatePackageVerificationCode` and `Instant.now` are left out. They download and unpack archives, spawn processes, read files and read the clock. The times and the verification code are parameters of the summary.
- `getSpdxLicenseIdString` and `relativizePath` are parameters of the shaping (`Scanners.Environment`), because their definitions are not part of this model.
- The raw JSON tree is a list of file entries with typed fields. Missing or mistyped JSON fields are not modelled.
- The findings are sorted sets in the source. The model keeps them as sets, so their sort order is not modelled.
- The rule set, the ORT result the rules run against, and matcher evaluation beyond what the rule test asserts are not part of this model. A matcher is a described condition with a fixed value.
- `howToFix` and the rule's description are left out, because the test does not read them.
- The integration and reporter tests and the FossId build script are left out. They drive downloads, package managers, XML schema validation and the build.
- FossId.Deserialize: the JSON parser is not modelled. The decoder receives the text of the token.
- FossId.LowerAscii: case is folded for ASCII letters only. That is exact for comparing with `true`, because no other character folds to one of its letters.
