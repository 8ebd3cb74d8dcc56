# Models of the Temporal Rust SDK

Dafny models of six parts of the SDK, each proved against what the part is for. `dafny verify dfyconfig.toml` checks
all of it.

1. **The payload compiler** (`crates/common/build.rs`). From protobuf descriptors it computes which message types
   contain payloads and generates a payload visitor and payload-limits validators.
   `GraphSearch` and `PayloadReach` model the search with its three mutable sets. It is sound on every graph. It is not
   always complete: a type that is met while one of its ancestors is being searched may be recorded as containing no
   payloads for good. `ExactIffNoTrap` gives the exact condition and `TwoNodeMiss` the smallest failure.
   `PayloadVisitor`, `PayloadLimits` and `LimitsValidator` give the generated code a meaning as interpreters over
   message trees (`MessageTree`) and compare it with naive traversals of the whole tree. Which descriptors the generated
   code compiles for is proved as well, against the types prost gives to fields (`RustTypes`). The visitor fails for
   payload-bearing repeated `Payloads`, proto3 `optional` and proto2 `required` fields. The validators (`LimitsBuild`)
   fail for more: maps of Memo, Header, SearchAttributes or Failure values, maps whose keys are not strings, and fields
   on a cycle of singular fields, which prost boxes. `Rejections` has the smallest descriptors that fail.
2. **The changelog printer and parser** (`crates/changelog-release-notes/src/lib.rs`, `range.rs`). `Text`, `Headings`
   and `Release` model the fence-aware scanner, section extraction and release assembly; `ReleaseHistory` shows over any
   run of assemblies that history is left alone; `ReleaseEntries` and `RoundTrip` show that reading a release gives back
   what was printed. That law fails for bullets that end in a carriage return: `ParseUndoesPrint` says so exactly, and
   `CarriageReturnIsLost` shows one.
3. **Entry provenance** (`range.rs`). `Similarity` is the rolling-row similarity, `Matching` the exact and greedy
   phases on their arrays, `Groups` the ordered maps, `Provenance` the update and the fold over the commits.
4. **The replaceable client** (`crates/client/src/replaceable.rs`). `ClientProtocol` is the protocol as interleaved
   atomic steps of any number of threads, with a generation that wraps around; `ClientProgress` shows that it never
   gets stuck; `ReplaceableClient` has the objects.
5. **Retries** (`crates/client/src/retry.rs`). `Retry` has the backoff and the error handler as objects, and bounds
   over every sequence of errors.
6. **Pagination and DNS** (`crates/client/src/lib.rs`, `activity.rs`, `schedules.rs`, `dns.rs`). `Pagination` and
   `ActivityPages` refine "concatenate the pages"; `DnsReconcile` is the loop that keeps a balancer in step with DNS.

Where code keeps state, the model keeps it the same way: classes with fields, arrays and loops, each tied by its
`ensures` to a pure function that the theorems are about. `Runs` holds the induction over runs.

Readings of the code that its documentation does not give:

- `update_entries` pairs by text alone, so a text that becomes *more* frequent has copies that count as new.
- `fetch_newer_than` compares generations for equality only; a clone that is exactly 2^32 replacements old is taken as
  current (`StaleAnswer`).
- The re-resolution loop starts from a resolution of its own, not from the one that seeded the channel. What the two
  differ in stays different until DNS changes it.
- The first delay of a backoff is the initial interval even if that is above the maximum interval.

## Model

| member | source | states |
|---|---|---|
| `PayloadReach.PayloadModel.CheckContainsPayload` | crates/common/build.rs:151-202 | the recursive search with its three sets ends on every graph and leaves exactly the marks of the pure search, with the same answer |
| `PayloadReach.PayloadModel.AnyFieldContainsPayload` | crates/common/build.rs:189-196 | the loop over the fields stops at the first field that contains payloads and leaves the marks of the pure search over the field targets |
| `PayloadReach.PayloadModel.FieldContainsPayload` | crates/common/build.rs:204-222 | a scalar field changes nothing and contains nothing; any other field is a search of its map value type or of its own type (`MapValueIs` says which fields are maps, by the names) |
| `PayloadReach.PayloadModel.CheckEvery` | crates/common/build.rs:124-128 | whatever order the names come in, only types that can hold a payload are marked, and without a trap in the type graph exactly the messages that can |
| `PayloadReach.PayloadsHold` | crates/common/build.rs:167-179 | the payload types themselves hold payloads, and `Any` does where it is counted |
| `PayloadReach.HoldsIff` | crates/common/build.rs:189-222 | any other type holds payloads if and only if one of its message fields leads to a type that does, a map field through its values |
| `Descriptors.EntryNameIs` | crates/common/build.rs:556-571 | the entry type of a map is named by the characters of the field name without underscores, in order, with a capital at the start and after each underscore, and then "Entry" |
| `Descriptors.ToMapEntryName` | crates/common/build.rs:556-571 | the loop with its flag for the next capital computes that name |
| `Descriptors.MapValueIs` | crates/common/build.rs:658-679 | a field is a map if and only if its message has a map entry type of that name with a value field; its value type is the type of that field, and its keys are strings if and only if the key field is |
| `PayloadReach.MapOfPayloadsHolds` | crates/common/build.rs:658-679 | a message with a map of payloads, recognised by the name of its entry type, holds payloads |
| `Rejections.SearchAttributesHold` | crates/common/build.rs:556-571 | so does SearchAttributes with its map `indexed_fields` |
| `GraphSearch.MarkedTypesReach` | crates/common/build.rs:151-202 | soundness for every graph and every order: a marked type reaches a payload |
| `GraphSearch.ExactIffNoTrap` | crates/common/build.rs:124-128 | the marks are exact for every order of the names if and only if no leftmost walk through payload-reaching types runs into itself |
| `GraphSearch.TrapBreaksAnOrder` | crates/common/build.rs:163-200 | a trapped walk names an order in which the search records "no" for a type that does contain payloads |
| `GraphSearch.TrapSharesCycle` | crates/common/build.rs:163-200 | such a walk exhibits two different payload-reaching types on one cycle; self-loops never do harm |
| `GraphSearch.NoSharedCycleNoTrap` | crates/common/build.rs:124-128 | if no two different payload-reaching types share a cycle, the search is exact in every order |
| `GraphSearch.TwoNodeMiss` | crates/common/build.rs:163-200 | the smallest miss: two messages that contain each other; one order finds both, the other misses one |
| `GraphSearch.CheckLive` | crates/common/build.rs:151-202 | searching from a payload-reaching type off every trap answers "yes", whatever was marked before |
| `GraphSearch.CheckDead` | crates/common/build.rs:151-202 | searching below a type without payloads answers "no" and only records types without payloads |
| `LimitsBuild.OneLeafPerKey` | crates/common/build.rs:1281-1297 | a key of the policy table stands for one field of one type, so policies cannot be confused |
| `MessageTree.GroupsPartition` | crates/common/build.rs:237-313 | regular fields first and then oneof by oneof covers every field of a message exactly once |
| `PayloadVisitor.NothingInside` | crates/common/build.rs:690-717 | a well-typed message of a type that cannot hold a payload holds none at any depth, so pruning it loses nothing |
| `PayloadVisitor.FieldCannotHold` | crates/common/build.rs:204-222 | no field of a type that cannot hold a payload leads to one |
| `PayloadVisitor.CollectsEverything` | crates/common/build.rs:410-553 | for every well-typed message tree the generated visits push exactly the payloads of the full traversal, each once and under the right path |
| `PayloadVisitor.RegularStep` | crates/common/build.rs:315-348 | a regular field is visited if and only if it can contribute, and contributes exactly what the full traversal finds there |
| `PayloadVisitor.OneofIsGood` | crates/common/build.rs:258-312 | the match over a oneof contributes exactly what its set member holds |
| `PayloadVisitor.VariantsAre` | crates/common/build.rs:282-306 | the variants of a oneof are its members that contain payloads, and the catch-all arm is left out exactly when those are all its members |
| `PayloadVisitor.CompilesIffSupported` | crates/common/build.rs:410-553 | the generated visitor type-checks if and only if no payload-bearing field is a repeated `Payloads`, a proto3 `optional` or a proto2 `required`; boxed fields and the keys of maps do not matter |
| `Rejections.RepeatedPayloadsRejected` | crates/common/build.rs:337-341 | it does not compile for a message with a repeated `Payloads` field |
| `Rejections.OptionalPayloadRejected` | crates/common/build.rs:278-310 | nor for one with a proto3 `optional Payload` |
| `Rejections.RequiredPayloadRejected` | crates/common/build.rs:419-431 | nor for one with a proto2 `required Payload` |
| `PayloadVisitor.SearchIsComplete` | crates/common/build.rs:110-129 | without a trap, the marks are exactly the types that can hold a payload, for either treatment of `Any` |
| `PayloadVisitor.GeneratedVisitorIsExact` | crates/common/build.rs:31-60 | descriptors in, payloads out: search, generate, compile, run; every message yields exactly its payloads, the two hand-written leaf impls included |
| `PayloadLimits.LimitsClosure` | crates/common/build.rs:1086-1119 | the worklist ends and returns exactly the known, marked, non-terminal types that structural fields reach from the roots; it panics if and only if one of them has a map of `Any` |
| `PayloadLimits.EnqueueFields` | crates/common/build.rs:1100-1116 | the inner loop pushes exactly the structural targets of the fields, or meets a map of `Any` |
| `PayloadLimits.EnqueuedIff` | crates/common/build.rs:1100-1116 | a type that is expanded is reached by a field if and only if the field leads to it, through the values if it is a map |
| `PayloadLimits.TerminalIff` | crates/common/build.rs:1154-1169 | the types that are never descended into are exactly those that can be measured |
| `LimitsValidator.ClassifyMeans` | crates/common/build.rs:1121-1152 | what each classification says: skipped fields cannot hold payloads, leaves are measured as their form asks, inner fields hold payloads and are not measured |
| `LimitsValidator.OneofMembersClassify` | crates/common/build.rs:1215-1262 | the oneof loop decides leaf, inner and skip as the classification does |
| `LimitsValidator.GenerateRegular` | crates/common/build.rs:1184-1213 | the loop over the regular fields emits their statements and looks up each leaf path once |
| `LimitsValidator.GenerateArms` | crates/common/build.rs:1221-1248 | the loop over the members of one oneof emits its arms and looks up their leaf paths |
| `LimitsValidator.GenerateOneofs` | crates/common/build.rs:1215-1262 | the loop over the oneofs emits one match per oneof with payload members |
| `LimitsValidator.GenerateImpl` | crates/common/build.rs:1172-1272 | the emitted body, and the leaves of the type looked up on the way |
| `LimitsValidator.PathsAreLeaves` | crates/common/build.rs:1281-1297 | exactly the leaf fields of a type, regular and in oneofs, are looked up in the table |
| `LimitsValidator.GenerateAll` | crates/common/build.rs:1018-1049 | the loop over the types emits the body of each, and accepts if and only if the keys of the table are exactly the leaf paths of those types |
| `LimitsValidator.Validate` | crates/common/build.rs:1410-1422 | on any message, and whatever was generated, the sink's path stack is as it was before |
| `LimitsValidator.ValidatorIsExact` | crates/common/build.rs:1331-1422 | the validator issues a check for every set leaf field with a Validated policy and for no other, each with its location, class, measurement and enforcement |
| `LimitsBuild.ImplAccepted` | crates/common/build.rs:1331-1375 | the impl of a type compiles if and only if every one of its fields fits the code emitted for it |
| `LimitsBuild.ArmsCover` | crates/common/build.rs:1253-1258 | the catch-all arm is left out exactly when the arms cover the oneof |
| `LimitsBuild.ClosureCoversInner` | crates/common/build.rs:1086-1152 | a body descends into a type without an impl exactly at a map of Memo, Header, SearchAttributes or Failure values |
| `LimitsBuild.CompilesIffSupported` | crates/common/build.rs:1172-1422 | the generated validators compile if and only if no type of the closure has, where code is emitted for it, a map of Memo, Header, SearchAttributes or Failure values, a map with keys that are not strings, a boxed field that is descended into, a proto3 `optional`, a proto2 `required`, a repeated field checked as if it were singular, or a field measured by a map that its type lacks |
| `RustTypes.BoxedIff` | crates/common/build.rs:1411-1415 | which fields are boxed, and so make it fail: exactly those by which, through fields that are not repeated, a value would end up inside a value of its own type |
| `Rejections.MapOfMemoRejected` | crates/common/build.rs:1130-1143 | they do not compile for a message with a `map<string, Memo>`, whatever the table says |
| `Rejections.NumberKeysRejected` | crates/common/build.rs:1418-1420 | nor for one with a map from numbers to itself beside a payload |
| `Rejections.BoxedFieldRejected` | crates/common/build.rs:1412-1414 | nor for one that holds itself beside a payload, which prost boxes |
| `LimitsBuild.GeneratedValidatorIsExact` | crates/common/src/payload_limits.rs:38-88 | if the build compiles, every message of every type of the closure restores the path stack and issues exactly the checks the table asks for |
| `LimitsBuild.GenerateValidators` | crates/common/build.rs:961-1049 | close, generate, check the gates: it panics if and only if a type of the closure has a map of `Any`, and otherwise emits the impls of the closure if and only if the keys of the table are exactly the leaf paths of the closure |
| `LimitsBuild.ChecksFromDescriptors` | crates/common/build.rs:961-1049 | descriptors in, checks out: search, close, generate, pass the gates, compile, run; every leaf field has a policy and every message issues exactly the checks the policies ask for |
| `Headings.FindHeadings` | crates/changelog-release-notes/src/lib.rs:136-160 | the scan over the lines finds the headings of the pure scanner, which `HeadingFound`, `HeadingLine`, `MarkerOf` and `MarkerForm` describe by the characters of the lines |
| `Headings.ScanLines` | crates/changelog-release-notes/src/lib.rs:136-160 | the loop that updates offset and fence state computes the pure scan |
| `Headings.ScanConcat` | crates/changelog-release-notes/src/lib.rs:136-160 | a scan may stop at any line and resume with the offset and the fence it had reached |
| `Headings.HeadingsConcat` | crates/changelog-release-notes/src/lib.rs:136-160 | after a part that ends at a line boundary outside fences, the rest is scanned on its own, up to the offset |
| `Headings.HeadingLine` | crates/changelog-release-notes/src/lib.rs:136-160 | every heading found is a line of the text outside every fence, at its offset, with its trimmed value |
| `Headings.HeadingFound` | crates/changelog-release-notes/src/lib.rs:136-160 | every line with the prefix that is met outside fences is found, with its offsets and its trimmed value |
| `Headings.MarkerOf` | crates/changelog-release-notes/src/lib.rs:141-145 | white, three or more backticks or tildes and anything that does not go on with them is a fence of that kind and length, and a bare one if only white follows |
| `Headings.MarkerForm` | crates/changelog-release-notes/src/lib.rs:141-145 | no other line is a fence |
| `Headings.FencedBlockHides` | crates/changelog-release-notes/src/lib.rs:141-151 | by the characters alone: nothing from such a line to the first line of at least as many of its marks and nothing else is a heading |
| `Headings.FenceHides` | crates/changelog-release-notes/src/lib.rs:145-151 | nothing from an opening fence to the line that closes it is a heading; after it the scan goes on as if the block were not there |
| `Headings.UnclosedHides` | crates/changelog-release-notes/src/lib.rs:145-151 | a fence that is never closed hides everything after it |
| `Release.ScanInOrder` | crates/changelog-release-notes/src/lib.rs:136-160 | headings come in order, do not overlap and stay inside the text |
| `Release.SectionBounds` | crates/changelog-release-notes/src/lib.rs:170-186 | a section that is found lies inside the text |
| `Release.BracketVersion` | crates/changelog-release-notes/src/lib.rs:162-168 | the version of a heading in brackets is what they hold |
| `Release.PlainVersion` | crates/changelog-release-notes/src/lib.rs:162-168 | that of any other heading is what precedes the first dash between blanks, or all of it |
| `Release.ReleasesAre` | crates/changelog-release-notes/src/lib.rs:171-174 | release headers are the second-level headings that are `Unreleased` or begin with a bracket |
| `Release.SectionAt` | crates/changelog-release-notes/src/lib.rs:175-185 | the section is that of the first header with the version, and ends at the next release header or with the text |
| `Release.SectionTextIs` | crates/changelog-release-notes/src/lib.rs:188-195 | a release reads as its text without the line breaks around it, ended by one, or as nothing if it is blank |
| `ReleaseHistory.FoundIffNamed` | crates/changelog-release-notes/src/lib.rs:170-186 | a section is found if and only if some header has its version |
| `Release.AssembleRelease` | crates/changelog-release-notes/src/lib.rs:233-275 | the checks in their order and the printed release, as the pure assembly defines them |
| `Release.AssembledText` | crates/changelog-release-notes/src/lib.rs:269-274 | character by character: all of the text up to the title line, a header with the version and the date, the printed categories, and the rest of the text without the line breaks it began with |
| `ReleaseHistory.AssemblyFailsIff` | crates/changelog-release-notes/src/lib.rs:239-251 | assembly fails if and only if the version is empty or has brackets or line breaks, is already released, unreleased notes remain, or there is no title, and the first of these is reported |
| `Release.PrintSections` | crates/changelog-release-notes/src/lib.rs:252-268 | the loop over the categories prints the nonempty ones in their order |
| `ReleaseHistory.HeaderVersion` | crates/changelog-release-notes/src/lib.rs:162-168 | the header of a new release names its version |
| `ReleaseHistory.SectionInSecondPart` | crates/changelog-release-notes/src/lib.rs:170-195 | a release found only in the second of two parts reads the same as in that part alone |
| `ReleaseHistory.BlockHeaders` | crates/changelog-release-notes/src/lib.rs:252-274 | whatever the fragments say, the inserted block has exactly one release header: fences and headings in fragments stay inert |
| `ReleaseHistory.AssemblyKeepsSection` | crates/changelog-release-notes/src/lib.rs:233-275 | assembling a release changes no other release |
| `ReleaseHistory.AssemblyAddsVersion` | crates/changelog-release-notes/src/lib.rs:233-275 | after assembling a version, the changelog has it |
| `ReleaseHistory.AssemblyStaysRegular` | crates/changelog-release-notes/src/lib.rs:233-275 | assembling keeps what precedes the history and leaves a text that can be assembled into again |
| `ReleaseHistory.LineFeedsBreakClean` | crates/changelog-release-notes/src/lib.rs:269-274 | a text with line feeds only always meets the condition on the break before the history |
| `ReleaseHistory.ReassemblyFails` | crates/changelog-release-notes/src/lib.rs:239-244 | at any point of a run, a version is refused as released already if and only if it was there from the start or was assembled before |
| `ReleaseHistory.HistoryIsKept` | crates/changelog-release-notes/src/lib.rs:233-275 | over any run of assemblies, a release that was in the changelog at some point reads the same ever after |
| `ReleaseHistory.RunKeepsEachRelease` | crates/changelog-release-notes/src/lib.rs:233-275 | every release of a run stays exactly as it was assembled |
| `ReleaseHistory.VersionsDiffer` | crates/changelog-release-notes/src/lib.rs:239-244 | no run releases a version twice |
| `ReleaseEntries.SplitCategories` | crates/changelog-release-notes/src/lib.rs:197-224 | text before the first category, and the nonblank bodies between category headings |
| `ReleaseEntries.CategoriesAre` | crates/changelog-release-notes/src/lib.rs:197-224 | the categories are what precedes the first heading, as `Other`, and what stands below each heading up to the next one, in order, each unless it is blank |
| `ReleaseEntries.StripBoomIs` | crates/changelog-release-notes/src/lib.rs:200-207 | exactly the mark of breaking changes is taken off the end of a category heading |
| `ReleaseEntries.CollectBodies` | crates/changelog-release-notes/src/lib.rs:215-222 | the loop over the headings computes the bodies between consecutive headings |
| `ReleaseEntries.ReadEntries` | crates/changelog-release-notes/src/range.rs:32-61 | the entries of a category body |
| `ReleaseEntries.CollectEntries` | crates/changelog-release-notes/src/range.rs:32-61 | the loop that updates the current entry and the fence flag computes the pure entry reader |
| `ReleaseEntries.EntriesKeepLines` | crates/changelog-release-notes/src/range.rs:32-61 | for every body the entries hold every visible line, in order, but for release headings outside fences |
| `ReleaseEntries.BulletBegins` | crates/changelog-release-notes/src/range.rs:40-51 | a line that begins with an asterisk or a dash and a blank, outside fences, begins a new entry |
| `ReleaseEntries.ReleaseEnds` | crates/changelog-release-notes/src/range.rs:39-50 | a release heading outside fences ends an entry and is left out |
| `ReleaseEntries.EntryGoesOn` | crates/changelog-release-notes/src/range.rs:36-53 | every other line, and every line inside a fence, goes on with its entry |
| `ReleaseEntries.TogglesIff` | crates/changelog-release-notes/src/range.rs:37-39 | a fence opens or closes at exactly the lines that begin, after white, with three backticks or tildes |
| `ReleaseEntries.FlushIs` | crates/changelog-release-notes/src/range.rs:41-46 | an entry ends with its last line that is not blank, and there is none without such a line |
| `ReleaseEntries.CategoryEntries` | crates/changelog-release-notes/src/range.rs:32-61 | printed bullets come back as entries of one line each, in order, whatever fence or heading text they hold; empty lines disappear |
| `ReleaseEntries.CutBlocks` | crates/changelog-release-notes/src/lib.rs:188-195 | trimming the extracted section leaves categories that read the same |
| `ReleaseEntries.SectionRead` | crates/changelog-release-notes/src/lib.rs:188-224 | the section cut out of a release splits into its categories again |
| `RoundTrip.SortIsStable` | crates/changelog-release-notes/src/lib.rs:253-255 | fragments are printed in path order, those of one path in the order given, none lost and none added |
| `RoundTrip.OrderedIs` | crates/changelog-release-notes/src/lib.rs:253-255 | the fragments of a category are printed in path order, and those of one path in the order given |
| `Text.TextLeIff` | crates/changelog-release-notes/src/lib.rs:254 | paths are ordered as in a dictionary: a prefix comes first, and else the first difference decides |
| `ReleaseEntries.FragmentBulletsIs` | crates/changelog-release-notes/src/lib.rs:226-231 | a fragment is printed as one bullet for each line that is not blank, in order |
| `RoundTrip.NewSection` | crates/changelog-release-notes/src/lib.rs:170-195 | the new release is found, and its section is what was printed for it |
| `RoundTrip.ReadNewRelease` | crates/changelog-release-notes/src/lib.rs:188-275 | for all fragments, what is read back is, by category and in path order, a dash, a blank and the line for each line that is not blank, up to carriage returns at its end |
| `RoundTrip.ParseUndoesPrint` | crates/changelog-release-notes/src/range.rs:32-61 | parse undoes print if and only if no line that is printed as a bullet ends in a carriage return |
| `RoundTrip.CarriageReturnIsLost` | crates/changelog-release-notes/src/range.rs:32-61 | a failure: the fragment `a` with a carriage return at its end, released into a changelog with a title only, does not come back |
| `RoundTrip.RunReadsBack` | crates/changelog-release-notes/src/lib.rs:233-275 | every release of a run still reads as its fragments' bullets when the run is over |
| `Similarity.ComputeLcs` | crates/changelog-release-notes/src/range.rs:102-113 | the rolling rows compute the table cell of the two whole texts |
| `Similarity.NextRow` | crates/changelog-release-notes/src/range.rs:104-112 | one row of the table from the one before |
| `Similarity.LcsIsLongest` | crates/changelog-release-notes/src/range.rs:99-120 | no common subsequence of the two texts is longer |
| `Similarity.LcsIsReached` | crates/changelog-release-notes/src/range.rs:99-120 | some common subsequence is that long |
| `Similarity.ScoreIs` | crates/changelog-release-notes/src/range.rs:114-119 | the score is twice the length of a longest common subsequence over both lengths, and 1 for two empty texts |
| `Similarity.Utf8Is` | crates/changelog-release-notes/src/range.rs:103-105 | texts are compared as bytes: every character as section 3 of RFC 3629 encodes it |
| `Similarity.JoinedConcat` | crates/changelog-release-notes/src/range.rs:100-101 | the lines of an entry are joined by line feeds |
| `Similarity.ScoreLeIs` | crates/changelog-release-notes/src/range.rs:157 | scores are compared as fractions |
| `Similarity.ScoreMeans` | crates/changelog-release-notes/src/range.rs:114-119 | scores lie between 0 and 1, do not depend on the order, and are 1 exactly for equal texts |
| `Similarity.FullScoreIff` | crates/changelog-release-notes/src/range.rs:99-120 | the same for entries, joined by line feeds and compared as UTF-8 bytes |
| `Similarity.EqualEntriesIff` | crates/changelog-release-notes/src/range.rs:99-120 | for entries as they are read, a score of 1 means equality line by line |
| `Similarity.PassesIff` | crates/changelog-release-notes/src/range.rs:151-153 | the threshold 0.6 means that some common subsequence keeps three tenths of both texts |
| `Similarity.ComputeScore` | crates/changelog-release-notes/src/range.rs:99-120 | the score of two entries |
| `Matching.ExactPhase` | crates/changelog-release-notes/src/range.rs:132-143 | the loop on the arrays `matches` and `used` computes the pure exact phase |
| `Matching.ExactPairs` | crates/changelog-release-notes/src/range.rs:132-143 | exact pairs are one to one and have equal texts |
| `Matching.ExactCounts` | crates/changelog-release-notes/src/range.rs:132-143 | each text is paired exactly as often as the rarer of its two counts, seen from either side |
| `Matching.SortDescends` | crates/changelog-release-notes/src/range.rs:157 | the candidates are looked at from the highest score down, the same candidates as often as before |
| `Matching.SortKeepsTies` | crates/changelog-release-notes/src/range.rs:157 | candidates with equal scores are looked at in the order they were found |
| `Matching.GreedyPhase` | crates/changelog-release-notes/src/range.rs:158-163 | the loop on the arrays computes the pure greedy phase |
| `Matching.GreedyGrows` | crates/changelog-release-notes/src/range.rs:158-163 | the greedy phase undoes no pair, adds only candidates and keeps the pairs one to one |
| `Matching.NoBlockingPair` | crates/changelog-release-notes/src/range.rs:144-163 | every candidate meets a pair that was taken and scores at least as much |
| `Provenance.RowsHave` | crates/changelog-release-notes/src/range.rs:144-156 | the candidates are exactly the free pairs that score at least 0.6 |
| `Provenance.RowsInOrder` | crates/changelog-release-notes/src/range.rs:144-156 | they are found entry by entry, each against the earlier entries in their order |
| `Provenance.PairsAreOneToOne` | crates/changelog-release-notes/src/range.rs:131-163 | the final pairs are one to one and keep all exact pairs |
| `Provenance.NoMissedPair` | crates/changelog-release-notes/src/range.rs:144-163 | two entries that score at least 0.6: one is paired with an equal text, or one is in a pair at least as similar |
| `Provenance.PairsPass` | crates/changelog-release-notes/src/range.rs:151-163 | all pairs score at least 0.6 |
| `Provenance.NewEntryIsIntroduced` | crates/changelog-release-notes/src/range.rs:166-169 | in the updated entries, one that resembles no earlier entry is introduced by the header it stands under |
| `Provenance.OriginIsCarried` | crates/changelog-release-notes/src/range.rs:165-173 | an updated entry has the origin of the entry it is paired with, whether their texts are equal or only alike, and else its own header |
| `Provenance.AlikeArePaired` | crates/changelog-release-notes/src/range.rs:144-163 | two entries that score at least 0.6 and are that much like no others are paired |
| `Provenance.EditedKeepsOrigin` | crates/changelog-release-notes/src/range.rs:215-217 | over any run, an entry that is edited, so that each version is like the one before and has no rival, keeps its origin |
| `Provenance.EditedBaselineNotReported` | crates/changelog-release-notes/src/range.rs:188-234 | so an entry of the baseline that was only edited is not reported |
| `Provenance.CollectCandidates` | crates/changelog-release-notes/src/range.rs:144-156 | the nested loops collect the candidates in row order |
| `Provenance.MatchEntries` | crates/changelog-release-notes/src/range.rs:131-163 | both phases on the arrays give the pure pairing |
| `Provenance.UpdateEntries` | crates/changelog-release-notes/src/range.rs:122-176 | the updated entries are those of the pure update, whose texts `UpdateKeepsCurrent` and whose origins `OriginIsCarried` describe |
| `Groups.BuildHolds` | crates/changelog-release-notes/src/range.rs:164-175 | the ordered map holds exactly the items pushed into it |
| `Groups.BuildSorted` | crates/changelog-release-notes/src/range.rs:164-175 | items that come in header order stay in order, in groups that are in order and not empty |
| `Groups.BuildFlat` | crates/changelog-release-notes/src/range.rs:123-131 | flattening groups and pushing the items again only loses the empty groups |
| `Groups.BuildIs` | crates/changelog-release-notes/src/range.rs:164-175 | whatever order the items come in, the headers are in order and under each stands what came with it, in the order it came |
| `Provenance.UpdateKeepsCurrent` | crates/changelog-release-notes/src/range.rs:164-176 | the new entries are the texts of the snapshot, in its order and under its headers |
| `Provenance.UnchangedSnapshot` | crates/changelog-release-notes/src/range.rs:122-176 | updating with an unchanged snapshot changes nothing but empty categories |
| `Provenance.PairedWithEqual` | crates/changelog-release-notes/src/range.rs:132-143 | a text that did not become more frequent is paired, copy by copy, with itself |
| `Provenance.RunOrigins` | crates/changelog-release-notes/src/range.rs:215-217 | over any run of commits, a text that never becomes more frequent keeps the headers that introduced it |
| `Provenance.UniqueKeepsOrigin` | crates/changelog-release-notes/src/range.rs:215-217 | an entry whose text stays unique keeps the one header that introduced it, whatever headers it is moved under |
| `Provenance.ReportedIff` | crates/changelog-release-notes/src/range.rs:218-234 | a text is reported under a header if and only if that header introduced a copy of it |
| `Provenance.ReportIs` | crates/changelog-release-notes/src/range.rs:218-234 | the report has its headers in order, and under each the entries it introduced, in the order of the last snapshot |
| `Provenance.BaselineNeverReported` | crates/changelog-release-notes/src/range.rs:188-234 | an entry of the baseline that never becomes more frequent is never reported |
| `Provenance.CategorizedEntries` | crates/changelog-release-notes/src/range.rs:188-234 | the fold over the commits and the regrouping, as the pure run defines them |
| `ClientProtocol.StepKeeps` | crates/client/src/replaceable.rs:40-59 | every atomic step of every thread keeps the invariant: one writer and no readers beside it, the shared client current but for its writer, caches and fetched pairs at their place in the history |
| `ClientProtocol.Linearizable` | crates/client/src/replaceable.rs:95-138 | in every interleaving, a client handed out was current at an instant of its call, unless it came from a cached clone that was modified locally or was outdated when the call began |
| `ClientProtocol.FreshIsUpToDate` | crates/client/src/replaceable.rs:48-51 | with fewer than 2^32 replacements since it was fetched, no outdated clone is handed out, and the answer was current when the generation was loaded |
| `ClientProtocol.FetchedPairs` | crates/client/src/replaceable.rs:40-46 | a fetched client and generation are one entry of the replacement history and its position modulo 2^32, taken during the call |
| `ClientProtocol.ReplacementTakesEffect` | crates/client/src/replaceable.rs:53-59 | a replacement takes effect during its call, when the generation is bumped |
| `ClientProtocol.LinearIff` | crates/client/src/replaceable.rs:95-138 | where clients can be told apart, an answer from an untouched cache was current at an instant of the call if and only if it was when the call began |
| `ClientProtocol.StaleAnswer` | crates/client/src/replaceable.rs:48-51 | that bound is real: a run with 2^32 replacements in which an untouched cache answers with a client that was current at no instant of the call |
| `ClientProtocol.CachedIff` | crates/client/src/replaceable.rs:48-51 | a call takes the cached clone if and only if the number of replacements since it was fetched is a multiple of 2^32; an untouched clone is the client of as many replacements ago |
| `ClientProtocol.RunGrows` | crates/client/src/replaceable.rs:111-119 | cached clones are only ever replaced by later ones |
| `ClientProtocol.ReturnDelivers` | crates/client/src/replaceable.rs:95-138 | a refresh leaves what it fetched in its own cache, a clone in the cache of the new instance, and a borrowing call leaves all caches alone |
| `ClientProtocol.ClonesFetch` | crates/client/src/replaceable.rs:121-138 | in every run, a clone is fetched from the shared client and never taken from a cache |
| `ClientProtocol.GenerationsGrow` | crates/client/src/replaceable.rs:111-119 | up to 2^32 clients, the generations of cached clones only grow |
| `ClientProtocol.SeesOwnReplacement` | crates/client/src/replaceable.rs:81-119 | a thread that replaced the client and then calls gets its own client or a later one, unless it is answered from a clone cached before its replacement; where clients can be told apart, exactly then |
| `ClientProtocol.CacheIsStable` | crates/client/src/replaceable.rs:95-119 | in every run, while a call is under way only its own return changes the cached clone of its instance |
| `ClientProgress.NoDeadlock` | crates/client/src/replaceable.rs:40-59 | in every state that keeps the invariant, as long as a thread is not done some thread can take its next step |
| `ClientProgress.EverythingEnds` | crates/client/src/replaceable.rs:40-59 | from each such state there are steps that end all that has begun; every call under way is then answered once and every replacement under way has taken effect once |
| `ClientProgress.CanBeginIff` | crates/client/src/replaceable.rs:81-119 | an idle thread can begin a call if and only if no call under way on the same instance is a refresh, or none at all if it is a refresh itself |
| `ClientProgress.EveryCallIsAnswered` | crates/client/src/replaceable.rs:95-138 | after any run, every thread can still make any call on any instance and have it answered |
| `ReplaceableClient.SharedClientData.Fetch` | crates/client/src/replaceable.rs:40-46 | the latest client and its generation |
| `ReplaceableClient.SharedClientData.FetchNewerThan` | crates/client/src/replaceable.rs:48-51 | nothing if and only if the generation is the given one, otherwise the latest pair |
| `ReplaceableClient.SharedClientData.ReplaceClient` | crates/client/src/replaceable.rs:53-59 | the history grows by the new client and the generation wraps around at 2^32 |
| `ReplaceableClient.SharedReplaceableClient.Clone` | crates/client/src/replaceable.rs:129-138 | a clone starts from the shared client, never from the cached one |
| `ReplaceableClient.SharedReplaceableClient.InnerCow` | crates/client/src/replaceable.rs:95-100 | the cached clone exactly after a multiple of 2^32 replacements, otherwise the latest client; the cache is left alone |
| `ReplaceableClient.SharedReplaceableClient.InnerMutRefreshed` | crates/client/src/replaceable.rs:111-119 | the cache is replaced by the latest client unless a multiple of 2^32 replacements lies between |
| `Retry.JitteredBackoff.NextBackoff` | crates/client/src/retry.rs:183-195 | the next delay and the advanced backoff, over the delays of the exponential sequence |
| `Retry.TonicErrorHandler.Handle` | crates/client/src/retry.rs:272-355 | the decision and the new state, for every call type, error and draw |
| `Retry.JitterBounds` | crates/client/src/retry.rs:160-172 | jitter stays within its factor of the delay and never goes below zero |
| `Retry.JitterIs` | crates/client/src/retry.rs:160-172 | the delay is the base times 1 plus the factor times a number between -1 and 1 that the draw decides, or nothing where that is negative; a factor below 0 counts as 0 |
| `Retry.JitterDraw` | crates/client/src/retry.rs:160-172 | every delay in the range comes from exactly one draw, and the draw in the middle leaves the base as it is |
| `Retry.NthIs` | crates/client/src/retry.rs:129-142 | for all options, the delay number n: the initial interval multiplied n times and capped at the maximum interval, or from the second on just the maximum if the initial interval is not below it |
| `Retry.PolicyDelays` | crates/client/src/retry.rs:61-81 | task polls wait for 0.2 seconds first and throttled calls for one, both doubling up to 10 seconds, with a fifth of jitter and no budget |
| `Retry.DelaysAre` | crates/client/src/retry.rs:183-195 | exactly which delay each retry of a run waits for, for every kind of call: the next of the backoff, after ResourceExhausted at least the next of the throttle, and the maximum interval for an error that only a poll goes on after |
| `Retry.LongerWait` | crates/client/src/retry.rs:337-343 | after ResourceExhausted the longer of the two delays is waited for, and a throttle without a delay adds nothing |
| `Retry.CallGivesUpIff` | crates/client/src/retry.rs:95-127 | from the request on, for every kind of call: after any retried errors it is given up if and only if it has no attempts left, the caller or the message size stops it, the next delay does not end within the budget, or the error is not retried and no poll meets it in its first minute; its own options win over the defaults |
| `Retry.TooLargeIff` | crates/client/src/retry.rs:293-300 | which errors say that a message was too large |
| `Retry.CallReports` | crates/client/src/retry.rs:278-308 | a call that is given up reports its last error, marked if and only if attempts were left and the caller stopped it, or else the message was too large |
| `Retry.AttemptsAreBounded` | crates/client/src/retry.rs:278-280 | over every sequence of errors there are never more attempts than a positive `max_retries` |
| `Retry.ThrottleCap` | crates/client/src/retry.rs:72-81 | a throttled delay is at most 12 seconds |
| `Retry.RetriesWithinBudget` | crates/client/src/retry.rs:272-355 | with a budget, a call that is no task poll retries only within it, or within 12 seconds more after ResourceExhausted |
| `Retry.RetriesAreBounded` | crates/client/src/retry.rs:183-195 | even without a limit on attempts, the number of retries times the least delay is at most the budget |
| `Retry.TaskPollGivesUpIff` | crates/client/src/retry.rs:272-355 | whatever happened before, a worker's task poll gives up if and only if the error is short-circuited or too large, or cannot be retried and comes after the first minute |
| `Pagination.WorkflowStream.PollNext` | crates/client/src/lib.rs:2358-2473 | one step of the stream on its token, buffer, count and flag is the pure step |
| `Pagination.OutputsAre` | crates/client/src/lib.rs:2358-2473 | from any state, the first polls yield what remains of the buffer and the pages, as far as the limit allows |
| `Pagination.ListsThePages` | crates/client/src/lib.rs:2358-2473 | the stream yields exactly the limit-long prefix of the concatenated pages up to the last page, the first empty page or the first error |
| `Pagination.NoFetchInVain` | crates/client/src/lib.rs:2369-2391 | the pages fetched before the last one hold fewer items than the limit |
| `Pagination.ScheduleStream.PollNext` | crates/client/src/schedules.rs:1580-1686 | the stream of schedules takes the same steps without a limit, so it lists all its pages |
| `ActivityPages.ActivityStream.PollNext` | crates/client/src/activity.rs:47-67 | the loop of one poll over any events is the pure poll |
| `ActivityPages.PollKeeps` | crates/client/src/activity.rs:47-67 | one poll loses nothing and repeats nothing, and ends the stream only after the last page |
| `ActivityPages.NothingLost` | crates/client/src/lib.rs:2647-2682 | whatever fails and however often nothing is ready, what was yielded and what is buffered are the pages received, each once and in order |
| `ActivityPages.YieldsEverything` | crates/client/src/lib.rs:2647-2682 | if the server answers often enough, the stream ends, having yielded every item of every page once and in order, empty pages skipped |
| `DnsReconcile.Resolver.RemoveStale` | crates/client/src/dns.rs:234-239 | every address that is gone is removed, or the channel is closed before |
| `DnsReconcile.Resolver.AddNew` | crates/client/src/dns.rs:241-267 | every new address whose endpoint can be built is inserted, or the channel is closed before |
| `DnsReconcile.Resolver.Reconcile` | crates/client/src/dns.rs:211-270 | one pass is a full round if and only if the channel takes all its changes |
| `DnsReconcile.DriftAfterRound` | crates/client/src/dns.rs:211-270 | after a round balancer and believed set differ exactly where they did before and DNS changed nothing, or where a build failed |
| `DnsReconcile.DriftIff` | crates/client/src/dns.rs:204-271 | over any run they differ on an address if and only if they began to at the start or at a failed build and DNS has said nothing new about it since |
| `DnsReconcile.BalancerFollows` | crates/client/src/dns.rs:204-271 | without initial drift and failed builds, the balancer is the last nonempty resolution |
| `DnsReconcile.UnknownStays` | crates/client/src/dns.rs:234-239 | an endpoint the resolver does not know of stays for as long as DNS does not name it |
| `DnsReconcile.SeededStays` | crates/client/src/dns.rs:205-209 | if the resolver's first resolution fails, seeded endpoints that DNS drops are never removed |

## Left out

- Descriptors: collecting messages from files and decoding descriptor bytes is left out; descriptor sets are inputs,
  with the invariants that protobuf guarantees (distinct field names, one label per field, oneof members are neither
  repeated nor maps). There are no `group` fields of proto2: the generators take one for a scalar and would miss the
  payloads in it.
- Code generation: the characters of the emitted Rust are not modelled, only what they mean, and of rustc only whether
  the emitted accesses and calls have the right types; names are taken to resolve. The types are those of prost-build
  with its default options: a singular message field is boxed exactly if its type leads back to the message through
  singular fields.
- LimitsBuild.GenerateValidators: the impls are a map by type name, so the order in which they are printed is left out.
- LimitsValidator.Validate: a check records which content is measured and how; the size arithmetic itself is left out.
- Reading the policy table and finding the service roots are left out; table and roots are inputs.
- Text: offsets count characters and not bytes; the two agree on where every heading and section begins and ends.
- Release.AssembleRelease: the date is a string without line feeds, as every printed date is.
- RoundTrip.ParseUndoesPrint: asks that the history is empty or starts with a release header; prose there becomes part
  of the new release when it is read.
- Similarity.ComputeScore: scores are exact fractions and not floating-point numbers. For texts below 2^26 bytes the
  two order scores alike and agree on the threshold.
- Matching.SortDescends: the standard library's stable sort is a stable insertion sort.
- Snapshots, git and files are left out; a snapshot is an ordered map of entries.
- `update.rs` is left out: it wires files, git and the rollback of created files.
- Formatting links and subjects in `range.rs` is left out: it only puts strings together, and nothing reads them back.
- ClientProtocol.StepKeeps: steps are sequentially consistent and locks are never poisoned; fairness is not modelled.
- ReplaceableClient: the objects are for calls that do not overlap; overlapping calls are in `ClientProtocol`.
- Retry.JitteredBackoff.NextBackoff: the delays are real numbers, so the conversion of the multiplier to 32 bits, the
  resolution of durations and overflow are left out; random draws and clock readings are inputs.
- Retry.TonicErrorHandler.Handle: one clock reading starts both backoffs and the grace period; logging is left out.
- Retry.RetriesAreBounded: asks that each attempt starts when the wait before it is over.
- Pagination.WorkflowStream.PollNext: interceptors, external payloads and codecs are left out; a page either decodes or
  does not.
- ActivityPages.ActivityStream.PollNext: wake-ups are left out; what happens when a request is looked at is an
  input.
- DnsReconcile.Resolver.Reconcile: the balancer is the set its changes leave; connecting, timers and building endpoints
  are left out, and which builds fail is an input.
- RPC plumbing, TLS, proxies, connectors, option builders, error enums and conversions are left out.
