# A verified model of the toolchain's hand-written cores

This project models the parts of malf-toolchain whose correctness rests on an argument rather than on a library,
and proves that argument.

**The artefact store** is content-addressed and create-only. A step's *key* is the hash of a canonical JSON
document of everything the step read; a *record* at the key keeps what the step produced; an *object* is a file
named by its own bytes. `commit` stores a new record or compares an offer with the one already there, and
another writer may win the creation race in between. Modules `ArtefactStore`, `LocalStoreDirectory`,
`Provenance`, `StoreRuns`, `CommitSteps`, `Serve`, `Restore`, `KeyFirst`, `KeyLabels`, `KeyFirstStore`,
`CanonicalJson` and `JsonGrammar` treat it as a protocol: any number of acts interleave one file-system
operation at a time and may crash between any two, the hard link is the atomic step, and SHA-256 is an injective
constructor over bytes. The results hold over every run: nothing is ever rewritten, every content a record
consumed is held by a record created strictly earlier, the audit of any reachable store is clean, a served step
is a passed and counted one, and a commit's exit code speaks truly of the one record at its key.

**The parsers** are loops over characters and bytes. Each loop of the source is a method with its invariants,
proved against a specification function, and the meaning is proved about that function: a round trip with a
printer (`YamlTokens`, `YamlRoundTrip`, `CMakeLayout`, `GateTokens`, `NinjaLayout`, `NinjaVariables`,
`ElfHeaders`, `BuildId`, `DynamicSection`), the exact set of what is accepted (`YamlAccepted`), agreement with a
lexer that reads one character at a time (`CommentLexer`), insensitivity to layout (`YamlLayout`), and soundness
for execution of the dead-branch gate (`DeadBranches`, and `GateText` over the files' own text).

**The graph closures** are depth-first walks and worklists over mutable sets (`RecipeGraph`, `DependencyOrder`,
`DepsGuard`, `Inventory`, over the shared theory in `Closure`). Their results are exactly the reachable nodes, and
in an acyclic graph every node comes after all that it reaches, however far.

Where the source does not keep a promise on every input, a lemma names an input on which it fails and another
says exactly when it holds: `KeyFirst.RecordedContentIsNotEnough` with `OneKeyIff`, and over a store's records
`KeyFirstStore.MixedStoreIsReached` with `OneKeyOfAnyRun`; `YamlLayout.ItemHeadIsNotFound` with
`KeyLineAgreesIff`; `CommentLines.LineCanDrift` with `LineExactIff` and `ColumnExactIff`;
`DeadBranches.MixedChainIsMissed` with `RefusedIffGuarded` and `RefusedIffDead`; and
`NinjaLayout.FormFeedLosesTheEdge` with `EdgeReadIff`. `DynamicSection.ReadersAgreeIff` says when two readers of
one file, which no caller is promised to agree, do.

`dafny verify dfyconfig.toml` checks the whole project.

## Model

| member | source | states |
|---|---|---|
| `ArtefactStore.WithObjects` | artefact_store.py:2726-2747 | storing a set of byte strings adds exactly their digests, each naming its own bytes, and leaves what every held name held |
| `ArtefactStore.AddObjectsValid` | artefact_store.py:2742-2747 | storing objects keeps the store valid, only grows it, and afterwards every one of them is held |
| `ArtefactStore.FillingChangesNoComparedAxis` | artefact_store.py:2779-2784 | storing an output's object and its derived index changes no axis that a rebuild is compared on |
| `ArtefactStore.AgreesIffNoDifference` | artefact_store.py:2795-2805 | the comparison finds no difference exactly when every offered output is recorded and equal on every compared axis, whether or not its object was stored first |
| `ArtefactStore.AgreesOnEveryAxis` | artefact_store.py:2793-2805 | an offer agrees exactly when every output it offers is stored with the stored value on every axis that is neither the entries nor the build-id index nor the field of an offered object |
| `ArtefactStore.EventSays` | artefact_store.py:2801-2814 | an offered output leaves an event exactly when some such axis has not the stored value, and the event names exactly those axes with both their values |
| `ArtefactStore.IdentityTells` | artefact_store.py:2837-2842 | offers of packages are told apart by their content, of object steps by their objects, of verdicts by their findings |
| `ArtefactStore.UnitsAre` | artefact_store.py:2827-2834 | a package's files by path and a verdict's results by their first two columns, the last of equal names |
| `ArtefactStore.NewRecordValid` | artefact_store.py:2769-2790 | the record a commit creates sits at its own inputs' key, names only held objects and, for a package step, keeps its transport |
| `ArtefactStore.MismatchesKeepTheRest` | artefact_store.py:2795-2819 | a comparison touches neither objects nor records and overwrites no earlier mismatch event |
| `LocalStoreDirectory.CreateOnly` | artefact_store.py:2726-2737 | creation succeeds exactly on a free name, which then holds the data, and nothing that was in the directory changes |
| `LocalStoreDirectory.LocalStore.constructor` | artefact_store.py:2721-2724 | a new store is empty and valid |
| `LocalStoreDirectory.LocalStore.PutBytes` | artefact_store.py:2739-2747 | the digest returned names the bytes; corruption is reported exactly when the name was taken by bytes that do not hash to it, which a valid store never holds |
| `LocalStoreDirectory.LocalStore.Fill` | artefact_store.py:2777-2784 | all offered objects end up stored, nothing stored before changes, and every output carries its object's digest and derived fields |
| `LocalStoreDirectory.LocalStore.CompareOutput` | artefact_store.py:2797-2814 | an offered output leaves its mismatch event, with the differing axes and units, exactly when it differs from the recorded one, and an event already there stays |
| `LocalStoreDirectory.LocalStore.Compare` | artefact_store.py:2795-2819 | 0 exactly when every offered output agrees with the stored record on every compared axis, 1 otherwise; one event per differing output, no record changed |
| `LocalStoreDirectory.LocalStore.Store` | artefact_store.py:2776-2819 | on a new key a record is at the key afterwards, its own or the race winner's, and the exit code says whether the offer agrees with that one |
| `LocalStoreDirectory.LocalStore.Commit` | artefact_store.py:2753-2819 | on every path, lost race included: the store stays valid and only grows, a package offer without its transport is refused and changes nothing, otherwise a record is at the key and the exit code is 0 exactly when every offered output is in it with its value on every axis but the entries, the build-id index and the offered objects' fields |
| `LocalStoreDirectory.CommittedWhereNone` | artefact_store.py:2776-2794 | where no record was found, the record afterwards is the rival's if the rival made one and the offer's own, which agrees with it, if not |
| `Provenance.OutputsAtAreTheRecords` | artefact_store.py:1345-1356 | the outputs listed for a configuration are exactly those of the third-party records at the profile and configuration |
| `Provenance.ProducedPackages` | artefact_store.py:1275-1285 | the table holds a content under a package exactly when some create record of that package at the profile recorded it |
| `Provenance.ThirdPartyRecords` | artefact_store.py:1345-1356 | every configuration is given its third-party records' outputs, in listing order, and no others |
| `Provenance.UnrecordedUpstreams` | artefact_store.py:1288-1296 | exactly the upstream labels whose content no record of that package's own step holds |
| `Provenance.ContentAmongIsHeld` | artefact_store.py:1359-1386 | the search of the listed outputs for a content succeeds exactly when a third-party record of that configuration holds it |
| `Provenance.UnheldThirdParty` | artefact_store.py:1359-1386 | exactly the third-party labels whose content none of the listed outputs has |
| `Provenance.FoundNothingIff` | artefact_store.py:1316-1336 | the two searches find nothing exactly when every content the document consumes is held by a stored record |
| `Provenance.AuditUpstreams` | artefact_store.py:1310-1336 | 0 exactly when every create and build record in the listing consumes only contents held by stored records |
| `StoreRuns.StepKeepsInv` | artefact_store.py:2753-2819 | whichever act takes whichever step, a crash included, the store stays valid, its provenance traced, its outcomes truthful, and it only grows |
| `StoreRuns.BeginSound` | artefact_store.py:1520-1592 | an offer made under the guards of a package step consumes only contents that stored records hold, the act's own third-party commits included |
| `StoreRuns.HoldsWhatAgrees` | artefact_store.py:1564-1592 | a third-party commit that returned 0 leaves a record holding the offered content at the offered configuration, even when another act made the record |
| `StoreRuns.LinkKeepsInv` | artefact_store.py:2785-2793 | creating a record puts it after everything it consumed and breaks no other act's ground |
| `StoreRuns.RunKeepsInv` | artefact_store.py:2718-2819 | every state of every interleaved, crashing run satisfies the invariant |
| `StoreRuns.NothingIsRewritten` | artefact_store.py:2726-2737 | between any two points of any run no object, record or mismatch event changes or goes, and each object is named by its bytes and each record sits at its own inputs' key |
| `StoreRuns.ProvenanceIsClosed` | artefact_store.py:1288-1307 | in every run each upstream and third-party content a record names is held by a record created strictly earlier |
| `StoreRuns.ProvenanceIsGrounded` | artefact_store.py:1359-1398 | tracing any record's inputs backward through records that hold them always ends |
| `StoreRuns.RunIsAuditable` | artefact_store.py:1310-1336 | in every reachable store each record's inputs are supported by the records stored |
| `StoreRuns.AuditOfAnyRun` | artefact_store.py:1310-1336 | the audit of any reachable store, enumerated in any order, returns 0 |
| `StoreRuns.StepAgreement` | artefact_store.py:2785-2819 | a step that ends a commit returns 0 exactly when the offer agrees with the record at its key, and changes no record when it returns 1 |
| `StoreRuns.CommitAgreement` | artefact_store.py:2753-2819 | however the run goes on, a commit's exit code is 0 exactly when every offered output is in the one record ever at its key with its value on every axis but the entries, the build-id index and the offered objects' fields, the loser of a creation race included |
| `CommitSteps.GrowthIsTheRivals` | artefact_store.py:2742-2747 | a valid store grown from another and holding an offer's objects is that store with the objects put and the rest merged in |
| `CommitSteps.CreatingStepsAreOneCommit` | artefact_store.py:2775-2793 | look-up, object writes and link among any steps of the other acts leave what one call leaves with the others' work as its rival, and return 0 |
| `CommitSteps.LosingStepsAreOneCommit` | artefact_store.py:2785-2819 | the same for an act whose link found the name taken and that compares after any further steps of the others |
| `CommitSteps.ComparingStepsAreOneCommit` | artefact_store.py:2775-2819 | the same for an act whose look-up found a record: it is the one call made on the later store |
| `Serve.RecordPasses` | artefact_store.py:2516-2521 | a record passes when it is a package's or its first output, in the order the store writes outputs, says pass |
| `Serve.Unservable` | artefact_store.py:2562-2591 | a step is served exactly when no re-judging is asked, its outcome exists and was counted and says pass over exactly the expected records, and each of those is stored, counted and passed; the outcome served is the stored one |
| `Serve.OutcomeTellsTheTruth` | artefact_store.py:2531-2559 | in every reachable store an outcome names only stored records, and says pass exactly when they are the expected ones and every one passed |
| `Serve.ServedIffPassedAndCounted` | artefact_store.py:2562-2591 | in every reachable store a step is servable exactly when its outcome says pass and it and all it names were counted |
| `Serve.ServeDecisionIsFinal` | artefact_store.py:2562-2591 | once an outcome exists at a key, whether it is servable never changes in any continuation of any run |
| `Serve.PackageIsHeld` | artefact_store.py:2762-2774 | every package record of a reachable store keeps a transport whose bytes are held and hash to their name |
| `Serve.ServedPackageIsItsBuilds` | artefact_store.py:1962-1973 | in every reachable store an outcome names a package record exactly when its build is a create, and then the record at its own build key, which keeps a transport held whole |
| `Restore.Choose` | artefact_store.py:1662-1679 | the candidate preferred to all others, if there is one, whatever the listing order, and a candidate whose transport is gone exactly when there is one |
| `Restore.RestoreSources` | artefact_store.py:1644-1680 | CorruptStore exactly when some member has a candidate whose transport is gone; otherwise every member, in order, yields exactly one source, the preferred one, or exactly one finding that says why not |
| `Restore.ChoiceIsUnique` | artefact_store.py:1662-1679 | a member has at most one chosen source |
| `Restore.ChosenIsNoFinding` | artefact_store.py:1651-1680 | no member has both a source and a finding |
| `Restore.AccountIsUnique` | artefact_store.py:1644-1680 | the sources and findings of a restore list do not depend on how the directory is enumerated |
| `Restore.ChosenIsFirstOfSorted` | artefact_store.py:1662-1679 | a source is chosen exactly when sorting the records at its address by configuration and key, and keeping those with a transport, leaves any, and is then the first of these |
| `Restore.RestoreNeverCorrupt` | artefact_store.py:1664-1670 | in a reachable store every candidate's transport is held |
| `Restore.RestoreFromAnyRun` | artefact_store.py:1644-1680 | a restore over any reachable store never raises CorruptStore and accounts for every member |
| `KeyFirst.LabelTests` | artefact_store.py:985-1000 | refused exactly when nodes of one label name two references; otherwise a label is a test requirement exactly when every node bearing it is |
| `KeyFirst.KeyFirstMembers` | artefact_store.py:1172-1205 | refused for doubled labels exactly when there are some, for unrecorded upstreams only when a first-party node has no single recorded content, and otherwise the members of every node |
| `KeyFirst.StepInputs` | artefact_store.py:1010-1045 | refused exactly for doubled labels; ended for a missing target exactly when one is demanded and no node was created; otherwise the inputs of every node, and a created node as the target exactly when there is one |
| `KeyFirst.GatherHolds` | artefact_store.py:1025-1042 | each gathered member is that of the last node bearing its label, and there are no members but those |
| `KeyFirst.TargetAddsItsSource` | artefact_store.py:1022-1036 | wherever the created node stands in the graph it adds its own source and nothing else |
| `KeyFirst.TargetChangesNoFlag` | artefact_store.py:985-1000 | adding the created node to the graph changes no other label's test flag |
| `KeyFirst.KeyBeforeIsKeyAfter` | artefact_store.py:1239-1256 | the document keyed before a step equals the one keyed after it if and only if, label by label, the last node's content is the one the key named |
| `KeyFirst.RecordsGiveOneKey` | artefact_store.py:1208-1236 | where each first-party folder is at its one recorded content and each third-party folder at a recorded content it or its packaged digest stood for, and no configuration has a digest standing for two contents, the two documents are one, test flags included |
| `KeyFirst.MixedGivesTwoKeys` | artefact_store.py:1416-1423 | where a third-party folder stands for two recorded contents, some step that uses only what was recorded is keyed otherwise before than after |
| `KeyFirst.OneKeyIff` | artefact_store.py:1208-1256 | the documents are one for every step that uses what was recorded, if and only if before the step no third-party folder of the graph stands for two recorded contents |
| `KeyFirst.HeldContentIsTheFirst` | artefact_store.py:1416-1423 | the content of the first record the digest stands for, none exactly when it stands for no record |
| `KeyFirst.HeldContentIsFaithfulIff` | artefact_store.py:1416-1423 | every digest a record keeps is answered with that record's own content if and only if no digest stands for two contents |
| `KeyFirst.ThirdPartyAgrees` | artefact_store.py:1190-1195 | where no digest stands for two contents, a folder at a recorded content after the step, and at it or its packaged digest before, is keyed alike |
| `KeyFirst.RecordedContentIsNotEnough` | artefact_store.py:1239-1256 | a folder that never moved, at its own record's content, whose step is keyed otherwise before than after |
| `KeyLabels.PackageOfLabel` | artefact_store.py:1295-1296 | the package read back from a node's label is the node's name |
| `KeyLabels.OneLabelIff` | artefact_store.py:993 | two nodes share a label if and only if they share name and context |
| `KeyLabels.FlagIs` | artefact_store.py:985-1000 | a member's test flag is set exactly when every unskipped node of its name and context is a test requirement |
| `KeyLabels.ConfigurationOfAlias` | artefact_store.py:1345-1356 | the configuration read back from a binary alias is the one the key member names, reference and package id |
| `KeyLabels.BeforeByNode` | artefact_store.py:1184-1201 | the key before a step has exactly one third-party member for each name and context, that of its last node, under `<name>/<context>` |
| `KeyLabels.AfterByNode` | artefact_store.py:1025-1042 | the same of the inputs after the step |
| `KeyLabels.TwoContextsTwoMembers` | artefact_store.py:1032-1042 | third-party nodes of different name or context have different members in both results |
| `KeyFirstStore.RecordedContents` | artefact_store.py:1158-1169 | the table holds a content under a binary alias exactly when some create record at the profile has them both |
| `KeyFirstStore.ReadTables` | artefact_store.py:1179-1180 | of any listing of package records that keep alias and content, the tables the key reads are those of the create records and of the third-party records |
| `KeyFirstStore.ReachedIsShaped` | artefact_store.py:2753-2793 | every package record of a reachable store keeps its alias and content, so the tables of any reachable store can be read |
| `KeyFirstStore.StandsAre` | artefact_store.py:1416-1423 | the judgements a folder's digest stands for are exactly the store's third-party records of its configuration that keep the digest as content or packaged |
| `KeyFirstStore.OneKeyOfAnyRun` | artefact_store.py:1208-1256 | over the tables of any reachable store, the documents are one for every step that uses what the store's records hold, if and only if no third-party folder of the graph stands for records of two contents |
| `KeyFirstStore.KeyNamesHeldContents` | artefact_store.py:1189-1194 | where each third-party folder stands for some record, the key names only contents that third-party records of their configurations hold |
| `KeyFirstStore.MixedStoreIsReached` | artefact_store.py:1416-1423 | a run after which a folder stands for two stored records of different contents |
| `CanonicalJson.Utf8Injective` | artefact_store.py:313-317 | two texts with the same bytes are the same text |
| `CanonicalJson.DigitsAreTheNumber` | artefact_store.py:313-317 | an integer's digits denote it, without a leading zero |
| `CanonicalJson.Unambiguous` | artefact_store.py:313-317 | one accepted value's text cannot be another's, whatever legally follows either in an enclosing value: the texts, the remainders and the values are equal |
| `CanonicalJson.OrderFree` | artefact_store.py:313-317 | equal values have equal texts whatever order their members were inserted in |
| `CanonicalJson.SameBytesIffSameValue` | artefact_store.py:293-321 | two documents that are keyed at all have the same canonical bytes if and only if they are the same JSON value |
| `JsonGrammar.EncodingIsJson` | artefact_store.py:313-317 | the encoding is, by the grammar of RFC 8259, a JSON text of the very value: literals, escapes, digits and separators, no blanks, members in ascending order of their names |
| `JsonGrammar.CanonicalBytesSay` | artefact_store.py:313-317 | the bytes decode, by the table of RFC 3629, to a JSON text of the document |
| `JsonGrammar.CheckIff` | artefact_store.py:293-311 | a document is keyed exactly when nothing in it, at any depth, is a float, an absolute path, a key that is no string or no JSON at all |
| `Sorting.SortForgetsOrder` | artefact_store.py:313-317 | sorting by a total order gives one result for every arrangement of the same elements |
| `Sorting.SortIsOrdered` | artefact_store.py:313-317 | the result of sorting is in order |
| `Sorting.SortIsPermutation` | artefact_store.py:313-317 | the result of sorting holds the same elements as often |
| `YamlSubset.StripComment` | codegen_common.py:95-126 | the loop stops at the first number sign outside quotes, keeps everything before it, and fails on a quote left open, at its line |
| `YamlSubset.ParseScalar` | codegen_common.py:129-174 | the loop unescapes a quoted scalar whole, takes a plain one as it stands, and fails with the source's fault in every other case |
| `YamlSubset.SplitFlowItems` | codegen_common.py:177-219 | the loop splits at the commas outside quotes, which it tells as the comment stripper and the scalar do |
| `YamlSubset.ParseFlowSequence` | codegen_common.py:222-237 | each piece parsed as a scalar, an empty list for empty brackets, nesting refused, the first fault otherwise |
| `YamlSubset.PiecesAlike` | codegen_common.py:177-219 | where a line stands changes only the line a fault names |
| `YamlTokens.PlainClasses` | codegen_common.py:63 | the characters a plain scalar begins with and goes on with, and that none of them ends it |
| `YamlTokens.KeptSpelled` | codegen_common.py:95-126 | the comment stripper passes over every plain, single-quoted and double-quoted scalar whole |
| `YamlTokens.PiecesSpelled` | codegen_common.py:177-219 | the flow splitter does the same |
| `YamlTokens.SpelledReads` | codegen_common.py:129-174 | a scalar written plain, single-quoted or double-quoted, with any blanks around it, reads as itself |
| `YamlTokens.ReadIffSpelled` | codegen_common.py:129-174 | the reader accepts a text exactly when, stripped, it is such a spelling of some scalar, and reads that scalar; every other text is refused |
| `YamlBlocks.LogicalLines` | codegen_common.py:249-259 | the non-empty lines, stripped of comments, with indent and number, or the first fault |
| `YamlBlocks.ParseBlock` | codegen_common.py:262-268 | a block of either kind, on every input, and where it ended |
| `YamlBlocks.ParseMapping` | codegen_common.py:271-298 | the entries at one indent with their nested values, on every input, and where they ended |
| `YamlBlocks.ParseSequence` | codegen_common.py:301-326 | the items at one indent, a `- key:` item read as a mapping over its rewritten head and gathered lines |
| `YamlBlocks.ParseSubsetYaml` | codegen_common.py:329-343 | the document's mapping or a fault, terminating on every input |
| `YamlBlocks.BlockReadsEveryLine` | codegen_common.py:262-326 | a parsed block's tokens are exactly its lines, each read by itself |
| `YamlBlocks.ItemTokens` | codegen_common.py:301-326 | the rewritten head and copied lines of an item are its own lines, the first read as an opening item |
| `YamlBlocks.DocumentReadsEveryLine` | codegen_common.py:249-343 | a parsed document uses every logical line exactly once, in order |
| `YamlLayout.TrailIsNothing` | codegen_common.py:95-126 | trailing spaces and a comment change nothing of a well-quoted line |
| `YamlLayout.DressedLogicalLines` | codegen_common.py:249-259 | adding blank lines, trailing spaces and comments leaves the same logical lines |
| `YamlLayout.DressingChangesNothing` | codegen_common.py:95-343 | a well-quoted document parses to the same tree, or fails alike, when blank lines, trailing spaces and comments are added |
| `YamlLayout.FindKeyLine` | codegen_common.py:346-366 | the first logical line whose part before its colon is the key |
| `YamlLayout.KeyLineFindsMembers` | codegen_common.py:346-366 | in a document that parses, the first line on which the parse reads the key as a member, item heads left out, and none exactly when there is none |
| `YamlLayout.KeyLineAgreesIff` | codegen_common.py:346-366 | over a document that parses, the line found is the first on which the parse reads the key in any position, and none exactly when there is none, if and only if that line is no item's head |
| `YamlLayout.ItemHeadIsNotFound` | codegen_common.py:346-366 | a document whose parse reads a key, as the head of an item, that is not found |
| `YamlRoundTrip.InlineRoundTrip` | codegen_common.py:129-237 | a scalar or flow list written inline, each scalar in any of its spellings, is read back |
| `YamlRoundTrip.QuotedOpensNothing` | codegen_common.py:301-326 | a scalar quoted either way never opens an inline mapping, whatever colons it holds |
| `YamlRoundTrip.PrintedLinesRead` | codegen_common.py:249-259 | printed lines survive comment stripping and are read with their indents |
| `YamlRoundTrip.ItemStands` | codegen_common.py:301-326 | the lines gathered for a printed item are its mapping's own printed lines, all of them and no others |
| `YamlRoundTrip.BlockParses` | codegen_common.py:262-326 | a printed block, wherever it stands, is parsed to itself up to its last line |
| `YamlRoundTrip.ParsePrinted` | codegen_common.py:329-343 | every mapping of the subset, written with two-space indents and each scalar plain where it can be, single-quoted where it can be, or double-quoted, in flow lists too, parses to itself |
| `YamlRoundTrip.EveryTreeIsWritten` | codegen_common.py:129-343 | every tree of the subset can be so written |
| `YamlAccepted.ParsedIsSubset` | codegen_common.py:249-343 | whatever is accepted is of the subset: legal keys, none twice in a mapping, no empty block, no list of lists, scalars of one line and of the document's characters |
| `YamlAccepted.AcceptedIff` | codegen_common.py:329-343 | a tree is some document's parse if and only if it is a mapping of the subset |
| `CMakeText.ParseArgs` | platform_gate.py:89-132 | the arguments up to the matching parenthesis, nested parentheses among them, the position past it and the line there |
| `CMakeText.ParseCommands` | platform_gate.py:60-86 | the commands of a text in order, each with its lower-cased name, its arguments and its line |
| `CMakeLayout.BracketEndAt` | platform_gate.py:50-57 | a bracket argument or comment ends at the first closing bracket of its own level |
| `CMakeLayout.QuotedEndAt` | platform_gate.py:105-115 | a quoted argument ends at its first unescaped quote |
| `CMakeLayout.ArgsRead` | platform_gate.py:89-132 | a legally laid-out argument list reads as its arguments, up to and past its closing parenthesis, with its newlines counted |
| `CMakeLayout.CommandRead` | platform_gate.py:60-86 | a legally laid-out command reads as itself, at its line |
| `CMakeLayout.LayoutReadsBack` | platform_gate.py:60-132 | whatever way a list of commands is legally laid out, with comments, brackets and nesting, the reader returns exactly that list with exact lines |
| `CMakeLayout.LowerIs` | platform_gate.py:60-86 | a command's name is read without its case |
| `PlatformGate.ExpandToken` | platform_gate.py:135-143 | directory words replaced, single-valued variables expanded, and nothing for what does not resolve |
| `PlatformGate.DeclaredIffSet` | platform_gate.py:160-164 | a variable is declared exactly when some command so far sets it |
| `PlatformGate.ResolvesIffSingleValued` | platform_gate.py:149-164 | a variable resolves if and only if the commands so far give it one unconditional value, and then to that value |
| `GateTokens.ReplaceIsPut` | platform_gate.py:135-143 | one replacement puts the value in for every use of its name and changes nothing else |
| `GateTokens.ExpandIsResolved` | platform_gate.py:135-143 | a token written as text and uses expands to its text, the base for either directory word, each resolving variable's value, and every other use as written |
| `GateTokens.NamedIffResolved` | platform_gate.py:175-180 | an argument, in quotes or not, names a file exactly when every use resolves, something is left and no generator expression is, and then the file at the resolved text |
| `GateTokens.VariablesSettle` | platform_gate.py:160-164 | the variables of a file are named once, by identifiers, and no value holds the opening of a use |
| `PlatformGate.Frame.NextBranch` | platform_gate.py:167-169 | an `elseif` adds its condition and moves to it, in place |
| `PlatformGate.Frame.LastBranch` | platform_gate.py:170-171 | an `else` moves past every condition, in place |
| `PlatformGate.Move` | platform_gate.py:165-173 | the conditional commands push, edit in place and pop exactly as the tree of branches does, and no other command touches the stack |
| `PlatformGate.Mentions` | platform_gate.py:146-183 | the loop over mutable frames and variables reports what the specification does, in order |
| `PlatformGate.MentionsAreTheNamed` | platform_gate.py:146-183 | a mention is reported exactly when a non-conditional command names a target by a resolvable argument, with the frames open at that command |
| `PlatformGate.MentionsOfPathAre` | platform_gate.py:212-226 | a file's mentions are exactly those some build file reports of it |
| `PlatformGate.FindGate` | platform_gate.py:227-247 | whether some frame of a mention judges platform words alone and is not taken on the host |
| `PlatformGate.Verdict` | platform_gate.py:227-247 | refused exactly when something mentions the file and a gate stands around every mention |
| `PlatformGate.Gather` | platform_gate.py:212-226 | every file asked about is given its mentions from every build file |
| `PlatformGate.TargetsAreTheAsked` | platform_gate.py:213 | the files asked for are judged once for each resolved path, under a name they were asked for by |
| `PlatformGate.Verdicts` | platform_gate.py:212-247 | one verdict for each resolved path, in the order first asked for, and a cross-compiling database refuses nothing |
| `DeadBranches.BalancedKeepsStack` | platform_gate.py:146-188 | well-nested text leaves the frame stack as it was |
| `DeadBranches.StackIsPath` | platform_gate.py:146-188 | at every simple command the linear stack of frames is the path of enclosing branches, conditions included |
| `DeadBranches.GateIffImpassable` | platform_gate.py:186-209 | a frame of platform words alone is a gate exactly when the host lets no run into its branch |
| `DeadBranches.RunsIffPassable` | platform_gate.py:146-209 | a command executes in some run that agrees with the host if and only if the host lets a run into every frame recorded around it |
| `DeadBranches.RefusedIsDead` | platform_gate.py:146-247 | a refused file is named by no resolvable argument of any command that executes, in any file and any run that agrees with the host on platform words |
| `DeadBranches.GateExactly` | platform_gate.py:186-209 | a frame is a gate exactly when it judges platform words alone and no run that agrees with the host enters it |
| `DeadBranches.RefusedIffGuarded` | platform_gate.py:186-247 | in every well-nested text a file is refused if and only if something names it and, around every command that names it, some branch no run enters judges platform words alone |
| `DeadBranches.MixedChainIsMissed` | platform_gate.py:186-209 | a text in which nothing that names a file runs on the host, and the file is not refused |
| `DeadBranches.GatedIffDead` | platform_gate.py:186-247 | where no chain mixes platform words with others, a mention is gated exactly when its command cannot run |
| `DeadBranches.RefusedIffDead` | platform_gate.py:212-247 | where no chain mixes platform words with others, a file is refused if and only if something names it and nothing that names it can run |
| `DeadBranches.TopLevelAlwaysRuns` | platform_gate.py:146-183 | a command under no `if` executes in every run |
| `DeadBranches.ResolvedIsAlwaysSet` | platform_gate.py:149-164 | a variable that resolves was set by one command that executes in every run |
| `GateText.ParsedIsLaidOut` | platform_gate.py:60-132 | of any legally laid-out files the reader gives the gate exactly the commands they were written with, and their lines |
| `GateText.RefusedTextIsDead` | platform_gate.py:146-247 | what is refused from the text of legally laid-out, well-nested files is named by no command of theirs that executes in any run agreeing with the host |
| `GateText.RefusedTextIffDead` | platform_gate.py:212-247 | where no `if` chain around a naming command mixes platform words with others, a file is refused from the text if and only if something names it and nothing that names it runs |
| `CommentScan.SkipQuotedLoop` | comment_contract_lint.py:183-194 | past the closing quote, or at the newline that ends an unclosed literal, or past the text, a backslash taking the next character with it |
| `CommentScan.NextToken` | comment_contract_lint.py:201-212 | the first position at which the pattern matches, and nothing matches before it |
| `CommentScan.Scan` | comment_contract_lint.py:201-269 | the jumping loop lists the comments and spans of the specification, in order |
| `CommentLexer.LineJumps` | comment_contract_lint.py:247-254 | jumping to the newline is reading a line comment to its end |
| `CommentLexer.BlockJumps` | comment_contract_lint.py:255-268 | jumping to the closing mark is reading a block comment to its end |
| `CommentLexer.QuotedJumps` | comment_contract_lint.py:183-194 | skipping a quoted literal is reading it to its end |
| `CommentLexer.RawTurn` | comment_contract_lint.py:217-233 | a raw string found by its quote is the one that starts at its prefix, up to its own delimiter |
| `CommentLexer.TurnMarks` | comment_contract_lint.py:208-268 | each match marks what the lexer marks up to where the scan goes on |
| `CommentLexer.ScanMarksTheLexersSpans` | comment_contract_lint.py:201-269 | the scan lists exactly the spans that a lexer reading one character at a time lists, literal or comment |
| `CommentLines.SpansInOrder` | comment_contract_lint.py:201-269 | the spans are non-empty, in order and apart |
| `CommentLines.CodeOnly` | comment_contract_lint.py:413-419 | the character list overwritten span by span is the text with the spans blank and the newlines kept |
| `CommentLines.CodeKeepsItsShape` | comment_contract_lint.py:413-419 | the code has the text's length and newlines, and of the rest exactly what the lexer reads as comment or literal is blank |
| `CommentLines.LinesLessLiterals` | comment_contract_lint.py:201-269 | a comment's line is the true one less the newlines inside the ordinary literals before it |
| `CommentLines.LineExactIff` | comment_contract_lint.py:183-269 | a comment's line is exact if and only if no ordinary literal that the character-by-character lexer reads before it holds a newline |
| `CommentLines.ColumnExactIff` | comment_contract_lint.py:201-269 | a comment's column is exact if and only if the last newline before it is in no ordinary literal that lexer reads |
| `CommentLines.LineCanDrift` | comment_contract_lint.py:183-194 | a text whose comment on line 2 is reported on line 1 |
| `ArgumentList.CloseIsUnique` | comment_contract_lint.py:422-439 | an argument list has at most one matching close |
| `ArgumentList.FindOperands` | comment_contract_lint.py:422-439 | none exactly when the list never closes; otherwise the operands tile the list to its matching close and are split at its top-level commas and nowhere else |
| `Closure.Finish` | malf_graph.py:239-256 | finishing a node all of whose edges lead to finished or open nodes keeps the walk's order and closure |
| `Closure.AcyclicOrder` | malf_graph.py:239-256 | in an acyclic graph a walk puts every node after all that it reaches, however far |
| `Closure.ClosedHoldsReached` | malf_graph.py:239-256 | a closed set holds everything its members reach |
| `RecipeGraph.RangeByName` | malf_graph.py:151-187 | a range resolves exactly to the only member of its name, is refused exactly when two share the name, and is otherwise not ours |
| `RecipeGraph.RefParts` | malf_graph.py:176 | a reference is a name and a version about its first slash |
| `RecipeGraph.ResolvesIff` | malf_graph.py:174-190 | a member required exactly is found, what is neither a member nor a range is not ours and never ambiguous, and a range leads to the one member of its name |
| `RecipeGraph.EdgeIff` | malf_graph.py:245-249 | a member has an edge to another exactly when a requirement or test requirement of it is the other, or is a range whose name the other alone bears |
| `RecipeGraph.Walk.Visit` | malf_graph.py:239-256 | on any graph, cyclic or not, a visit finishes exactly what is newly reached, or fails because an ambiguous requirement is reached |
| `RecipeGraph.Deps` | malf_graph.py:190-256 | refused exactly when a member the target reaches has a requirement that is a range whose name two members bear; otherwise each member reached, the target left out, exactly once |
| `RecipeGraph.Members` | malf_graph.py:265-286 | refused exactly when some member has a requirement that is a range whose name two members bear; otherwise every member exactly once |
| `RecipeGraph.DependenciesFirst` | malf_graph.py:190-286 | without cycles every row comes after all the rows it reaches |
| `RecipeGraph.EdgesNameEarlierRows` | malf_graph.py:307-356 | the names of a row's edges are exactly its required members' and, without cycles, each names an earlier row |
| `DependencyOrder.Order.Visit` | artefact_store.py:1506-1513 | a visit leaves its node and all it newly reached seen, dependencies appended first |
| `DependencyOrder.Ordered` | artefact_store.py:1501-1517 | exactly the wanted nodes, each once and, without cycles, after every other wanted node it depends on, through whatever other nodes |
| `ElfBytes.FieldReadsBack` | artefact_store.py:617-656 | a field reads back in the byte order it was written in |
| `ElfBytes.RangeReadsBack` | artefact_store.py:617-656 | a program header's offset and size read back in either class and byte order |
| `ElfHeaders.FileHeaderReads` | artefact_store.py:679-691 | of a file header laid out as the ELF specification has it, in either class and byte order, every field a reader takes is read from its own place |
| `ElfHeaders.ProgramHeaderReads` | consumer_verdict.py:126-140 | the same of a program header: its kind, its address, and the offset and size it covers |
| `ElfHeaders.SectionHeaderReads` | artefact_store.py:692-697 | the same of a section header: its name's place, its kind and its offset |
| `BuildId.WalkNotes` | artefact_store.py:648-655 | the cursor loop finds the first build-id note, nothing, or a file cut short |
| `BuildId.ElfBuildId` | artefact_store.py:617-656 | the loop over headers and notes terminates on every input with the specified outcome |
| `BuildId.NoteReads` | artefact_store.py:649-655 | an encoded note is read as written and the cursor lands on the next, 4-byte padding included |
| `BuildId.BuildIdIsTheFirst` | artefact_store.py:617-656 | of every well-formed linked image of either class and byte order, the descriptor of the first GNU build-id note in program-header order; the error exactly when there is none |
| `DynamicSection.GatherSegments` | consumer_verdict.py:127-140 | the load segments and the last dynamic one, or a file cut short |
| `DynamicSection.ReadTags` | consumer_verdict.py:150-156 | the tags from the start of the segment to its null tag or its end |
| `DynamicSection.ReadNeeds` | consumer_verdict.py:167-179 | the nested loops follow both chains of the version needs to their ends |
| `DynamicSection.ReadDynamic` | consumer_verdict.py:114-180 | every refusal and every reading as specified |
| `DynamicSection.DynamicSeesTheLast` | consumer_verdict.py:127-142 | of several dynamic segments the flag is the last one's |
| `DynamicSection.PublishedSeesAny` | artefact_store.py:706-721 | the published reading reports a runpath exactly when any dynamic segment carries one |
| `DynamicSection.ReadersAgreeIff` | artefact_store.py:706-721 | on a linked image both can read, the two readers agree if and only if its last dynamic segment carries a runpath or none does |
| `DynamicSection.ReadersAgree` | artefact_store.py:706-721 | on a linked image with one dynamic segment that `dynamic` accepts, the published walk over the dynamic segments does not fail and reports a runpath exactly when `dynamic` does |
| `DynamicSection.NeedsRead` | consumer_verdict.py:167-179 | an encoded version-need chain is read whole, whether its count or its last link ends it |
| `DynamicSection.SortedSetIs` | consumer_verdict.py:180 | the version names are each name read, once, in ascending order |
| `DynamicSection.VersionNeedsAreTheChains` | consumer_verdict.py:150-180 | a file whose tags lead to an encoded chain, ended by its count or its last link, is accepted exactly when its needed names can be read, and its version needs are then exactly the chain's names, each once, in order |
| `DynamicSection.NeededAreTheTags` | consumer_verdict.py:162-166 | the needed names of an accepted file are those its DT_NEEDED tags lead to, in the order of the tags |
| `PublishedForm.ReadSections` | artefact_store.py:690-697 | every section header in order, none without a table, or a file cut short |
| `PublishedForm.FindSymbols` | artefact_store.py:699-706 | the lazy search equals the specified one |
| `PublishedForm.CountRunpaths` | artefact_store.py:708-720 | the loops over headers and tags count the dynamic segments that carry a runpath, or find the file cut short |
| `PublishedForm.PublishedDefects` | artefact_store.py:674-721 | the whole reading, on every input |
| `PublishedForm.SymbolsAre` | artefact_store.py:699-706 | a symbol table is reported exactly when one comes before every unreadable name, and the reading fails exactly when an unreadable name comes first |
| `PublishedForm.DefectsAgree` | artefact_store.py:674-721 | beside `dynamic`, on a linked image with one dynamic segment it accepts, the whole published reading fails exactly when its section walk does, and otherwise reports one runpath or none as `dynamic` says |
| `NinjaManifest.LogicalLines` | ninja_deps_guard.py:107-120 | lines ending in an odd number of dollar signs are joined to the next, no other |
| `NinjaManifest.ReadFirstOutput` | ninja_deps_guard.py:123-155 | the loop's first output and rule are the specified ones, or none |
| `NinjaManifest.ReadDepsEdges` | ninja_deps_guard.py:158-171 | the first outputs of the edges whose rule is among the rules, variables bound so far expanded |
| `NinjaLayout.WrapJoins` | ninja_deps_guard.py:107-120 | a line wrapped outside its escapes is joined into itself |
| `NinjaLayout.EdgeReads` | ninja_deps_guard.py:123-155 | an edge's escaped outputs read back to its first output and rule |
| `NinjaLayout.ManifestReads` | ninja_deps_guard.py:107-171 | however a manifest's lines are wrapped, the outputs listed are the first ones of exactly the edges whose rule is among the rules, in order |
| `NinjaVariables.UsesRead` | ninja_deps_guard.py:136-141 | an output written as text and uses, braced or bare, is its text with the values bound so far, an unbound name empty |
| `NinjaVariables.BindingReads` | ninja_deps_guard.py:168-170 | from a top-level binding on its name has its value, less one blank after the equals sign |
| `NinjaVariables.DeclarationBindsNothing` | ninja_deps_guard.py:168-170 | a line that opens a rule, pool, default, include or subninja declaration binds nothing |
| `NinjaVariables.BoundThenUsed` | ninja_deps_guard.py:158-171 | an edge after a binding it uses lists its output with the value bound |
| `NinjaLayout.FirstLogical` | ninja_deps_guard.py:107-120 | the first logical line of a wrapped text, whatever follows it, is the text up to the first character at which a line is split |
| `NinjaLayout.EdgeReadIff` | ninja_deps_guard.py:107-155 | of an edge wrapped in any way, whatever follows it, the reader recovers the first output and the rule from the joined lines if and only if none of its output names holds a character at which a line is split and the rule stands before any such character |
| `NinjaLayout.FormFeedLosesTheEdge` | ninja_deps_guard.py:107-171 | a manifest of one edge, whatever its rule, of which nothing is listed for a form feed in its output's name |
| `DepsGuard.Reader.DepsRules` | ninja_deps_guard.py:63-84 | the rules of exactly the files newly reached, however files include each other |
| `DepsGuard.AllDepsRules` | ninja_deps_guard.py:63-84 | a rule is listed exactly when the manifest or a file it includes, however far, binds `deps` in it |
| `DepsGuard.WordAfterIff` | ninja_deps_guard.py:53-55 | a rule, include or subninja line gives its word exactly when it is the keyword, blanks, one word and blanks |
| `DepsGuard.BindsDepsIff` | ninja_deps_guard.py:54 | a line binds `deps` exactly when it is an indented `deps`, an equals sign with or without blanks about it, and a value |
| `DepsGuard.BuildDir.Guard` | ninja_deps_guard.py:174-218 | 0 leaves no existing output of a `deps` edge without its record; 1 exactly when the records cannot be had or an output cannot be deleted; nothing but outputs without records is deleted |
| `Inventory.ConfiguredDirs` | build_inventory.py:189-230 | the covered directories are exactly those reached from the roots by literal paths, and every unresolved path of a covered directory is reported, no other |
| `Inventory.Lint` | build_inventory.py:233-278 | 2 exactly when no repository declares a project, 1 exactly when some declared project is an orphan |
| `Inventory.ConfiguredGrows` | build_inventory.py:189-230 | resolving more paths only covers more |
| `Inventory.UnresolvedOnlyAddsOrphans` | build_inventory.py:233-278 | whatever more paths were resolved, every orphan then is an orphan now: declining to resolve hides none |

## Left out

- SHA-256 and the JSON of a key are an injective constructor in the store modules; `CanonicalJson` proves the encoding itself loses nothing. Hash collisions are not modelled.
- Timestamps, host names, printed text, exit texts, and the count of denials behind a record's `counted` flag, which is a parameter of each creation.
- Calls of conan, git, docker, cmake, ninja and tar: a graph, a folder's digest, a condition's truth value, a deletion that fails and ninja's listing are inputs.
- LocalStoreDirectory.LocalStore.CompareOutput: the differing units are a set, which the source writes as a sorted list, and a row too short to be named is no unit where the source raises.
- LocalStoreDirectory.LocalStore.Commit: is stated for a valid directory and for the offers its callers make, so `put_bytes` ending the process on a corrupt object is modelled only in `PutBytes`; the work of the other writers reaches one call as one parameter, which `CommitSteps` proves is no loss.
- StoreRuns.StepKeepsInv: acts commit one output a record, as every caller does; deletion of store files from outside, replication and publishing are no steps.
- Restore.Choose: keeps a running best, which `ChosenIsFirstOfSorted` proves to be the first of the sorted candidates; of several whose transports are gone it reports any one.
- Restore.RestoreSources: takes the members as a list already made from the two maps of the restore document, in its order.
- KeyFirst.KeyBeforeIsKeyAfter: is about `conan-create` steps; the `tree=` anchor of a `conan-build` step adds its source in the same way. The members that do not come from the graph (definition, toolchain, profile, system) are computed alike on both sides and are left out.
- KeyLabels.BeforeByNode: is for package names without a slash, the character a label is parted at.
- KeyFirst.StepInputs: the folders returned beside the inputs, used only in messages, are left out.
- KeyFirst.OneKeyIff: is over graphs whose nodes of one binary alias are of one configuration and ours or not together, and whose third-party folders each stand for some record; a folder no record knows is keyed by its own digest, and the step after it is refused for provenance.
- Equality of `1` and `True`, which Python's comparison of document leaves grants, is not granted here.
- CanonicalJson.SameBytesIffSameValue: objects are compared with distinct member names, which every Python dict has; a string that holds a lone surrogate cannot be encoded and has no key.
- YamlRoundTrip.ParsePrinted: scalars are free of newline and tab, and of non-ASCII where the parser asks for ASCII, since the parser refuses those.
- YamlLayout.KeyLineFindsMembers: `key_line`'s documentation says it never disagrees with the parse about what is a key; the heads of `- key:` items are the exception, and the model follows the code.
- CMake's own language beyond `if` chains (loops, functions, `return`, variable evaluation at configure time) is not part of the executions `DeadBranches` quantifies over; a condition is one truth value per place, agreeing with the host where it judges platform words alone.
- GateTokens.NamedIffResolved: is for a base and values without `${` that end in no dollar sign, which a brace after them could make the opening of a use.
- PlatformGate.Verdicts: path resolution on disk and cmake's answer for a branch are functions handed in; a cmake that fails is left out.
- CommentScan.Scan: `str.isalnum` and `str.isdigit` are the ASCII ones.
- CommentLexer.ScanMarksTheLexersSpans: a literal ended by the text's last backslash is given one character less, since the scan lets it end past the text.
- Of comment_contract_lint.py the classification of comments and the other rules are left out, being tables of patterns.
- RecipeGraph.Members: the reading of recipe files, the order of directories, the breaches of test packages and the comma-joined text of a row are left out; `mode_steps` has the same walk and rows.
- BuildId.ElfBuildId: where Python's unpacking raises because the file is cut short, the outcome is `Broken`.
- NinjaLayout.ManifestReads: carriage returns were translated to newlines when the file was read; lines are split where `str.splitlines` splits them, which `EdgeReadIff` shows is more than ninja does. A line that ends in an open escape is no end of an edge to ninja either and no layout here. Blanks that open a continued line are text to the reader, so a name wrapped and indented in its middle is two names here.
- Inventory.ConfiguredDirs: the patterns that find `add_subdirectory` calls in CMake text give the arguments as inputs, and directories are resolved by a function handed in.
- The PE walker, declaration checks, bench judgments, containers, the sandbox, the other lints and the selftests are left out, being wide tables of shallow branches or guarantees of the kernel and the daemon.
