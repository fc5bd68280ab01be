# Gateway verification

Dafny models of the parts of the gateway that have invariants worth proving, and proofs about
them: the hand-written scanner and splitters of the zigbee2mqtt extractor, the converter
database compiler and its validator, the zhaquirks transpiler, the Bluetooth tables and
callback-driven state of the firmware, and the firmware upload.

`dafny verify dfyconfig.toml` checks everything.

## How the modules fit together

**The extractor's scanner.** `Lexer` has the skipping loops and the bracket finder of
`tools/z2m_converter_extract.py`, each a method proved against a function of its input.
`LexerMeaning` says what the functions mean by an independent definition: a pushdown automaton
reads the text one character at a time, and the finder returns the first code position that
closes the nesting. `LexerPrinter` prints trees of brackets, strings, comments and templates,
and the finder undoes the printer. `Definitions` and `ExtendCalls` are the two splitters on
top, each with a printer it undoes.

**The database compiler.** `DeepMerge`, `Duplicates` and `MergeSources` merge two sources by
key; `CombineExtracts` folds any number of extracts. `Profiles` lifts shared behaviour out of
device objects in place, `Packing` cuts lists into files of bounded size, `WriteOutput` puts
the two together, and `Database` proves that reading the files gives the merged devices back
and that the validator's reference check passes. `Build` goes from the two sources to the files:
they hold one device for every key of either source. `Sanitise` is the name trimming, `Text` the
white space that it and the merge strip.

**The transpiler.** `QuirkChains` reads builder chains, `QuirkDevices` builds devices from
clusters, `QuirkProgram` has the syntax tree, call chains and the two passes. A clone compiles
to what its base written out in its place compiles to. `QuirkMeaning` tells what a chain means
from the names and arguments of its calls, `QuirkOffers` what its devices then have.

**The firmware.** `SlotTable` is the array of slots with active flags that evicts the oldest
entry; `Scanner`, `DiscoveryCache` and `Bridge` are instances. What the code does under a mutex
is one step, callbacks and timers are events in any order, and theorems are about every list of
events. `Clock` is the 32-bit millisecond clock, `RssiAverage` the fixed-point average,
`GattCache` and `GattClient` the attribute cache with its callbacks, `GattDiscovery` the
discovery of any peer's services, `BridgeRuns` the runs of the bridge. `ScannerReadings` and
`BridgeReadings` tell from the events alone what entries and entities say.

**The upload.** `OtaClient` is the script with its socket, `OtaProtocol` the script and a
server that behaves as the script's header documents, with bytes under way in both directions.

## Where the code and its promises part

- `tools/merge_z2m_extracts.py:167` says that later inputs win ties; the comparison at line 179
  is strict, so earlier ones do (`CombineExtracts.TieKeepsEarlier`). Annotations grafted on the
  entry kept can save it from a richer later one (`CombineExtracts.OrderMatters`,
  `CombineExtracts.KeptIsRichestExactly`).
- `main/bluetooth/ble_esphome_bridge.h:45` computes entity keys from a device index; the code
  uses the device counter, which unregistering lowers (`BridgeRuns.RegisterCollidesExactly`,
  `BridgeRuns.UnregisterCollides`).
- `main/bluetooth/ble_gatt_client.c:1904-1916` means to stop the search for descriptors before
  the next characteristic, but characteristics reported in ascending order are always searched
  to the end of the service, and the last CCCD found there is stored
  (`GattDiscovery.DiscoveryAnswers`, `GattDiscovery.OwnCccdExactly`,
  `GattDiscovery.NeighbourCccdWins`).
- Discovery callbacks use a pointer to a slot that may have been given to another device
  (`GattClient.LateCallbacksAnswer`); `GattClient.OwnAnswerExactly` tells which answers are the
  connection's own.
- Ages are 32-bit differences with a clock read before the mutex is taken; `Clock.Misleads` is
  the exact condition under which they mislead (`Scanner.PruneJudgesExactly`,
  `Scanner.FreshDevicePruned`, `Bridge.TimeoutJudgesExactly`, `Bridge.FreshBeaconExpires`).
- `deep_merge_dict` is not associative and `sanitise_string` not idempotent; the exact
  conditions are `DeepMerge.AssociativeExactly` and `Sanitise.IdempotentExactly`.
- `tools/z2m_converter_extract.py:2254` trims names to what the firmware's intern pool accepts,
  but counts characters where `main/core/memory/string_intern.c:466-471` counts bytes
  (`Sanitise.CleanIsNotAccepted`); the exact condition is `Sanitise.AcceptedExactly`. The pool also
  takes 128 bytes, which the comment at `tools/merge_converter_dbs.py:34-35` says it rejects.

## Model

| member | source | states |
|---|---|---|
| Lexer.SkipString | tools/z2m_converter_extract.py:1111-1121 | the loop returns the position of the first quote that is not behind a backslash, as given by `StringEnd`, whose meaning is `LexerMeaning.StringJump` |
| Lexer.SkipTemplateLiteral | tools/z2m_converter_extract.py:1124-1155 | the loop with its recursion through `${}` returns the position of the closing backtick, as given by `TemplateEnd`, and terminates |
| Lexer.SkipTemplateExpression | tools/z2m_converter_extract.py:1136-1150 | the inner loop stops on the brace that closes the expression, nested strings and templates skipped |
| Lexer.FindMatching | tools/z2m_converter_extract.py:1158-1203 | the scan returns the closing bracket that `Find` gives, or -1, for braces and for square brackets alike |
| LexerMeaning.StringJump | tools/z2m_converter_extract.py:1111-1121 | skipping a string is letting the character automaton run through it |
| LexerMeaning.TemplateJump | tools/z2m_converter_extract.py:1124-1155 | skipping a template, whatever is nested in its expressions, is letting the automaton run through it |
| LexerMeaning.FindIsScan | tools/z2m_converter_extract.py:1158-1203 | for every text, position and depth the jumping scanner and the automaton find the same bracket |
| LexerMeaning.ScanMeaning | tools/z2m_converter_extract.py:1158-1203 | the automaton's answer is the first position that closes the nesting, and -1 exactly when there is none |
| LexerMeaning.FindIsFirstClose | tools/z2m_converter_extract.py:1158-1203 | for every text and start, a non-negative result is the first code position whose closing bracket takes the depth back to zero; a negative one means that there is none |
| LexerMeaning.FindIsMatch | tools/z2m_converter_extract.py:1158-1203 | from an opening bracket the result is a closing bracket in code, the depth is zero after it and positive everywhere before it |
| LexerPrinter.LiteralRoundTrip | tools/z2m_converter_extract.py:1158-1203 | for every printed tree of nested brackets, strings with escapes, comments and templates with nested expressions, followed by any text, the result is exactly the literal's last character |
| Definitions.SplitDefinitionsArray | tools/z2m_converter_extract.py:1263-1319 | the loop returns the literals that `SplitFrom` gives, with their offsets |
| Definitions.SplitIsOrdered | tools/z2m_converter_extract.py:1263-1319 | on any input the blocks are disjoint increasing pieces of the text, each starting with `{` and ending at its matching `}` |
| Definitions.SplitUndoesPrint | tools/z2m_converter_extract.py:1263-1319 | literals printed with white space, commas and comments between them and closed by `]` come back exactly, in order, with their offsets, whatever follows |
| ExtendCalls.SplitExtendCalls | tools/z2m_converter_extract.py:2172-2218 | the loop over characters returns the pieces that `Split` gives |
| ExtendCalls.ExtractBracketContent | tools/z2m_converter_extract.py:1212-1247 | what lies between a bracket and the one that closes it, or nothing if none does |
| ExtendCalls.NothingIsLost | tools/z2m_converter_extract.py:2172-2218 | joining the pieces with commas gives the input back, less its last character exactly when that is a top-level comma |
| ExtendCalls.PiecesAreAtomic | tools/z2m_converter_extract.py:2172-2218 | no piece can be split further |
| ExtendCalls.SplitUndoesJoin | tools/z2m_converter_extract.py:2172-2218 | splitting joined pieces gives them back exactly when joining keeps them apart |
| ExtendCalls.CallsRoundTrip | tools/z2m_converter_extract.py:1206-1247 | a printed bracket list of calls, comment-free and without `${}`, is extracted whole from any text and split into the printed calls |
| Packing.SplitOversized | tools/merge_converter_dbs.py:543-561 | the parts are a cut of the devices in order, each fits, and no part could have taken the next part's first device |
| Packing.PartLength | tools/merge_converter_dbs.py:543-561 | a part's text is at most 102400 + 13 characters unless it is one device that is over the limit alone |
| Packing.GreedyIsOptimal | tools/merge_converter_dbs.py:543-561 | no other cut of the same devices into parts that fit has fewer parts |
| Packing.GreedyIsUnique | tools/merge_converter_dbs.py:543-561 | cut, order, fit and greed leave exactly one result |
| Packing.BundleSmall | tools/merge_converter_dbs.py:571-604 | bundles are runs of whole manufacturer groups in order, nothing lost, no run with room for the next group, each bundle at most 65536 + 12 characters |
| Profiles.BuildProfiles | tools/merge_converter_dbs.py:214-231 | in place, every device object loses its behaviour for the number of the first equal one; the profiles are the distinct behaviours in first-occurrence order |
| Profiles.FactoringIsLossless | tools/merge_converter_dbs.py:217-229 | a factored device and its profile give the original back, except for a `p` it had before; its other fields are untouched |
| Profiles.SharedExactlyWhenEqual | tools/merge_converter_dbs.py:217-229 | two devices share a number exactly when their behaviours are equal |
| Profiles.NumbersAreDense | tools/merge_converter_dbs.py:217-229 | every number below the count is used, and numbers rise with first occurrence |
| Profiles.WriteProfiles | tools/merge_converter_dbs.py:234-244 | the files are laid out as consecutive runs of 256, numbered, with their first id |
| Profiles.ProfileIsWhereExpected | tools/merge_converter_dbs.py:234-244 | profile p is in file p / 256 at offset p - first |
| Profiles.FilesConcatenate | tools/merge_converter_dbs.py:234-244 | the files hold the profiles in order, once each |
| Profiles.CollectProfileIds | tools/validate_converter_db.py:373-377 | the ids collected are exactly those in some file's range |
| Profiles.KnownIdsAreAll | tools/validate_converter_db.py:373-377 | read in any order, the written files cover exactly the ids from zero up to the number of profiles |
| Profiles.FindDangling | tools/validate_converter_db.py:454-474 | the ids reported are exactly the integer references that no file covers, each with its users in order |
| WriteOutput.FileDevices | tools/merge_converter_dbs.py:506-513 | the same fresh device objects are in the per-manufacturer lists and in the flat list, none twice |
| WriteOutput.WriteManufacturer | tools/merge_converter_dbs.py:529-561 | one file exactly if its text fits, else the greedy parts, that hold the manufacturer's devices in order within the limit |
| WriteOutput.WriteBundles | tools/merge_converter_dbs.py:571-604 | bundles are greedy runs of whole small groups in order, within the limit |
| WriteOutput.PackFiles | tools/merge_converter_dbs.py:520-604 | a manufacturer is bundled exactly when its text is under 4096 characters and has files of its own otherwise; the files hold every device once, each within its size bound |
| WriteOutput.WriteDatabase | tools/merge_converter_dbs.py:483-604 | read through the per-manufacturer lists every device was factored in place, and what is written is the profiles and those devices, packed by size |
| Database.DatabaseIsLossless | tools/merge_converter_dbs.py:483-604 | devices read from the files with their profiles looked up are, as a multiset, the devices that were merged |
| Database.NothingDangles | tools/validate_converter_db.py:454-474 | whatever order the profile files are read in, the reference check on a written database finds nothing |
| Database.WriteAndValidate | tools/validate_converter_db.py:454-474 | writing then validating reports no dangling reference, for every input |
| Build.CleanGroups | tools/merge_converter_dbs.py:506-511 | the groups are taken in the order of their names, each once, and cleaned device by device |
| Build.GroupsAreWanted | tools/merge_converter_dbs.py:406-513 | laid end to end, the groups are what the merge makes of the keys of both sources, each key once |
| Build.BuildDatabase | tools/merge_converter_dbs.py:406-604 | for every two sources and every cleaning, reading the files with their profiles gives, as a multiset, the cleaned merge of each key of either source, once; no file is over its limit and no reference dangles |
| DeepMerge.EmptyIsIdentity | tools/merge_converter_dbs.py:269-277 | the empty tree is a left and right identity |
| DeepMerge.AbsorbedExactly | tools/merge_converter_dbs.py:269-277 | merging gives the overlay back exactly when the base adds nothing to it |
| DeepMerge.MergeWithSelf | tools/merge_converter_dbs.py:269-277 | merging a tree with itself changes nothing |
| DeepMerge.MergeAgain | tools/merge_converter_dbs.py:269-277 | merging the overlay again changes nothing |
| DeepMerge.MergeAtPath | tools/merge_converter_dbs.py:269-277 | at every shared path the result is what either tree has or the merge of what both have |
| DeepMerge.AssociativeExactly | tools/merge_converter_dbs.py:269-277 | for every three trees, merging is associative exactly when they are compatible |
| DeepMerge.NotAssociative | tools/merge_converter_dbs.py:269-277 | a dict, a scalar and a dict under one key merge differently in the two orders |
| Duplicates.Dedup | tools/merge_converter_dbs.py:280-289 | the result has the same keys, only entries of the input and no key twice |
| Duplicates.Deduplicate | tools/zhaquirks_transpiler.py:1637-1658 | the loop with its set of seen keys computes `Dedup`, for converters and for exposes |
| Duplicates.FirstWins | tools/z2m_converter_extract.py:2221-2230 | under every key the entry kept is the input's first |
| Duplicates.DedupInOrder | tools/merge_converter_dbs.py:280-289 | the entries kept are in the order in which their keys first occur |
| Duplicates.DedupEarly | tools/merge_converter_dbs.py:387-399 | removing duplicates of the first list early does not change the result for both |
| MergeSources.LoadSource | tools/merge_converter_dbs.py:353-361 | every device with a model is filed, in order, under its normalised manufacturer |
| MergeSources.MergeTwo | tools/merge_converter_dbs.py:368-403 | the step-by-step copy gives what `MergedExactly` says |
| MergeSources.MergedExactly | tools/merge_converter_dbs.py:368-403 | at every path that both quirks share zhaquirks' value wins unless both are objects, and what one has alone is there; `fz` and `tz` each have z2m's first entry under a key or else zhaquirks' first, in order; every other field is z2m's, or else zhaquirks' unless private; `pri` is 1 and `src` merged |
| MergeSources.ResultIsMerged | tools/merge_converter_dbs.py:419-455 | the output device of a key is the merge of the last device of each source that has it, or the only source's last one |
| MergeSources.NormalizeExactly | tools/merge_converter_dbs.py:247-249 | two names normalise alike exactly when they differ in ASCII case and outer white space at most |
| MergeSources.StripsAround | tools/merge_converter_dbs.py:247-249 | white space around a text is stripped and nothing else |
| MergeSources.MergedEntries | tools/merge_converter_dbs.py:386-396 | under every converter key the merged list's entry is z2m's first, or else zhaquirks' first |
| MergeSources.GroupNameNormalizes | tools/merge_converter_dbs.py:464 | a group's name normalises to its manufacturer, so devices share a group exactly when their normalised manufacturers agree |
| MergeSources.GroupNameExactly | tools/merge_converter_dbs.py:464 | a group is written under the name of z2m's last device of the manufacturer, or zhaquirks' if z2m has none or an empty one |
| MergeSources.MergeOne | tools/merge_converter_dbs.py:444-461 | one turn gives the key's device and counts it in exactly one of three classes |
| MergeSources.MergeAll | tools/merge_converter_dbs.py:406-471 | the loop over keys in any order produces the merge, and counters that are the sizes of the three classes |
| MergeSources.SortGroups | tools/merge_converter_dbs.py:467-469 | each group is sorted by priority, then model |
| MergeSources.MergeIsDetermined | tools/merge_converter_dbs.py:406-471 | the result does not depend on the order in which dictionaries and sets are iterated |
| MergeSources.OneDevicePerKey | tools/merge_converter_dbs.py:438-465 | the output has exactly one device for each normalised manufacturer and model in either source, and no other |
| MergeSources.CountsAreSizes | tools/merge_converter_dbs.py:418-461 | total is the size of the union, and total = z2m_only + zhq_only + merged |
| CombineExtracts.RicherExactly | tools/merge_z2m_extracts.py:86-110 | one entry is richer than another by its datapoints, else by more exposes, else by more exposes that are described, else by more converters, else by a description |
| CombineExtracts.GraftAnnotations | tools/merge_z2m_extracts.py:118-154 | each of the winner's exposes is given exactly the annotation keys that it lacks and that the loser's first expose with the same property has, with their values; the description is the loser's exactly when the winner's is blank and the loser's is not |
| CombineExtracts.GraftAnnotates | tools/merge_z2m_extracts.py:118-154 | grafting from an entry that is not richer only adds annotations that are missing; the `tuya_dp` graft is never reached |
| CombineExtracts.AnnotatesRicher | tools/merge_z2m_extracts.py:86-110 | adding annotations never makes an entry poorer |
| CombineExtracts.AbsorbIsRicher | tools/merge_z2m_extracts.py:174-184 | the entry kept is at least as rich as both, and is one of them with annotations added |
| CombineExtracts.FoldGrafts | tools/merge_z2m_extracts.py:174-184 | one more input is annotated from what was kept if it is richer, and else annotates that |
| CombineExtracts.Combiner.AbsorbExtract | tools/merge_z2m_extracts.py:174-184 | one input folded into the dictionary in place, the invariant kept |
| CombineExtracts.CombineAll | tools/merge_z2m_extracts.py:171-184 | the keys are the union of all inputs' keys, each entry is at least as rich as every input's, is one input's with annotations added, and is the fold of its inputs in order |
| CombineExtracts.TieKeepsEarlier | tools/merge_z2m_extracts.py:179-183 | an input as rich as what is kept only lends it annotations |
| CombineExtracts.KeptIsRichestExactly | tools/merge_z2m_extracts.py:174-184 | the fold keeps a richest input exactly when the first of the richest is richer than the annotated entry it meets |
| CombineExtracts.OrderMatters | tools/merge_z2m_extracts.py:174-184 | three inputs whose order decides which is kept, and of which a poorer one is kept |
| CombineExtracts.GroupByFile | tools/merge_z2m_extracts.py:190-192 | every identity is in exactly one file, that of its manufacturer, once |
| CombineExtracts.CountsAreExact | tools/merge_z2m_extracts.py:198-200 | a file's counts are the counts over the whole database |
| CombineExtracts.BuildIndex | tools/merge_z2m_extracts.py:194-203 | the index has every manufacturer with its file and exact count, and the exact total |
| Sanitise.SanitisedIsClean | tools/merge_converter_dbs.py:47-53 | the result is at most 127 characters, printable, with no white space at its ends |
| Sanitise.UnchangedExactly | tools/merge_converter_dbs.py:47-53 | a string is left alone exactly when it is clean and holds no written-out NUL |
| Sanitise.LeftBehindExactly | tools/merge_converter_dbs.py:47-53 | the result holds a written-out NUL exactly when one pass over the name, skipping whole escapes, unprintable characters and leading white space, spells one with room below the limit |
| Sanitise.IdempotentExactly | tools/merge_converter_dbs.py:47-53 | trimming again changes nothing exactly when that pass over the name spells none |
| Sanitise.NotIdempotent | tools/merge_z2m_extracts.py:53 | a name that trims to a written-out NUL, which trims to nothing |
| Sanitise.SanitisedBytes | tools/merge_converter_dbs.py:47-53 | the bytes left of a name are those that one pass over it counts: escapes, unprintable characters and leading white space skipped, 127 characters at most, a run of white space held back until a character follows |
| Sanitise.AcceptedExactly | main/core/memory/string_intern.c:466-471 | for every name, the pool accepts what trimming leaves exactly when that pass counts at most 128 bytes |
| Sanitise.CleanIsNotAccepted | main/core/memory/string_intern.c:466-471 | a name of n characters that trimming leaves alone is accepted exactly when it has at most 128 - n bytes beyond ASCII; 127 accented letters are left alone and refused |
| QuirkChains.ExtractChainData | tools/zhaquirks_transpiler.py:1048-1217 | the loop over calls adds up what each contributes |
| QuirkChains.ApplyCall | tools/zhaquirks_transpiler.py:1069-1215 | each branch adds its call's contribution and nothing else; `QuirkMeaning` says what that is |
| QuirkMeaning.NamesExactly | tools/zhaquirks_transpiler.py:1069-1165 | every builder method is called by just its names |
| QuirkMeaning.ExtractMeans | tools/zhaquirks_transpiler.py:1048-1217 | a cluster is replaced, removed, implied by a device type or given an entity exactly when some call of the chain says so by its name and arguments; each flag is set exactly when a call with one of its names occurs; models are in order, and a datapoint has its last mapping |
| QuirkChains.ExtractAppend | tools/zhaquirks_transpiler.py:1048-1217 | reading two chains end to end is adding up what each gives, later datapoints overriding |
| QuirkChains.MergeIsConcatenation | tools/zhaquirks_transpiler.py:1220-1245 | merging the data of a base and a clone is reading both chains end to end, except for models and registration |
| QuirkChains.MergeAgreesExactly | tools/zhaquirks_transpiler.py:1220-1245 | they agree altogether exactly when the base names no model and registers only if the clone does |
| QuirkDevices.BuildDevice | tools/zhaquirks_transpiler.py:1548-1634 | the loop over clusters in ascending order builds `Built` |
| QuirkDevices.GatherEntries | tools/zhaquirks_transpiler.py:1566-1597 | the loop collects converters of all functional clusters, and exposes and bindings of those that no light covers |
| QuirkDevices.GatherInputs | tools/zhaquirks_transpiler.py:1266-1282 | a cluster is given exactly when the chain names it or is a Tuya builder's, or when it names none, removes something and what it removes implies the cluster |
| QuirkDevices.DeviceOffers | tools/zhaquirks_transpiler.py:1548-1634 | a device's converter keys are exactly those of its functional clusters, its exposes and bound clusters exactly those that a light does not cover |
| QuirkDevices.UtilityIgnored | tools/zhaquirks_transpiler.py:1568-1570 | cluster sets that differ only in utility clusters build the same device |
| QuirkDevices.ChainDataToDevices | tools/zhaquirks_transpiler.py:1253-1328 | the loop over models gives each model's device in order |
| QuirkDevices.DeviceFlags | tools/zhaquirks_transpiler.py:1263-1328 | a model's device carries its model and manufacturer, the skip flag exactly when the chain skips configuration, the Tuya and Xiaomi flags exactly when the chain stands for those clusters, and the chain's datapoints |
| QuirkDevices.OnlyBehaviourMatters | tools/zhaquirks_transpiler.py:1253-1328 | a model's device depends on neither the chain's own models nor its registration |
| QuirkOffers.InputsMean | tools/zhaquirks_transpiler.py:1266-1287 | the clusters of a chain, told from its calls |
| QuirkOffers.DeviceMeans | tools/zhaquirks_transpiler.py:1253-1328 | for every chain of calls a model has one device or, exactly if there is nothing to say of it, none; its device has under every key the first entry of the least cluster that has one and is not silent beside a light, binds exactly those with a converter, and has just the flags and datapoints that the calls call for |
| QuirkOffers.BuilderMeans | tools/zhaquirks_transpiler.py:1412-1465 | a builder chain gives devices exactly if a call registers it, for the model that its own arguments name and those that its calls name, in order |
| QuirkProgram.UnwrapCallChain | tools/zhaquirks_transpiler.py:1484-1502 | the unwrapping loop and reversal give the calls innermost first |
| QuirkProgram.CollectBases | tools/zhaquirks_transpiler.py:1354-1408 | the first pass collects exactly the unregistered builder chains, the last assignment of a name winning |
| QuirkProgram.CompileStatement | tools/zhaquirks_transpiler.py:1412-1479 | a direct chain, a clone of a known base or neither, compiled as `StatementDevices` says |
| QuirkProgram.ExtractV2Quirks | tools/zhaquirks_transpiler.py:1331-1481 | the two passes give the devices of every direct chain and every clone of a known base, in order |
| QuirkProgram.GraftedChain | tools/zhaquirks_transpiler.py:1484-1502 | a base written in place of the variable a clone starts from has the base's calls, then the clone's |
| QuirkProgram.CloneIsInlining | tools/zhaquirks_transpiler.py:1467-1479 | a clone with its base written out gives the devices of the base's own models, then exactly the clone's |
| QuirkProgram.BaseAddsNothingExactly | tools/zhaquirks_transpiler.py:1376-1408 | the base's own models add no device exactly when the clone does not register, the base names no model or nothing is built |
| QuirkProgram.InliningKeepsDevicesExactly | tools/zhaquirks_transpiler.py:1331-1481 | writing out every base in a program keeps its devices exactly when no base adds any of its own |
| SlotTable.PutRefines | main/bluetooth/ble_scanner.c:833-897 | storing into the slots keeps addresses unique and is storing into a bounded map, which when full forgets one entry of least stamp and changes nothing else |
| SlotTable.KeepRefines | main/bluetooth/ble_scanner.c:642-654 | clearing slots forgets exactly the entries that are not kept |
| SlotTable.SizeIsCount | main/bluetooth/ble_scanner.c:611-614 | the number of active slots is the size of the map |
| SlotTable.Slots.FindOldest | main/bluetooth/ble_scanner.c:867-876 | the loop returns the first slot of least stamp |
| RssiAverage.FitsWithNoRoom | main/bluetooth/ble_scanner.c:818-821 | for all int8 inputs the intermediate is in [-32768, 32512], both reached, so no conversion loses anything |
| RssiAverage.AverageIsBetween | main/bluetooth/ble_scanner.c:814-822 | the new average lies between the old one and the strength received |
| RssiAverage.FixedPoints | main/bluetooth/ble_scanner.c:814-822 | under a constant signal the average stays put exactly at the signal and up to 3 below |
| RssiAverage.Converges | main/bluetooth/ble_scanner.c:814-822 | a constant signal is reached exactly from above and to 3 short from below, in no more steps than the distance |
| Scanner.Tracker.FindOrCreate | main/bluetooth/ble_scanner.c:833-897 | in place, the address's entry, a new one in a free slot, or a new one in the oldest slot, counters included |
| Scanner.Tracker.ProcessAdvertisement | main/bluetooth/ble_scanner.c:785-831 | the array and counters after an advertisement are those of `Step`, whose averages over a run are `ScannerReadings.AverageIsMixed` |
| Scanner.Tracker.PruneStaleDevices | main/bluetooth/ble_scanner.c:631-663 | the loop clears exactly the stale entries and returns their number |
| Scanner.Tracker.ClearDevices | main/bluetooth/ble_scanner.c:616-629 | every slot is cleared and the counters are zero |
| Scanner.Tracker.GetDeviceByMac | main/bluetooth/ble_scanner.c:589-609 | the entry the map holds under the address, or not found |
| Scanner.StepRefines | main/bluetooth/ble_scanner.c:616-897 | every advertisement, prune, clear and reset keeps the invariants and is a step of the bounded map |
| Scanner.RunIsValid | main/bluetooth/ble_scanner.c:616-897 | in every run addresses are unique and the counter is the number of devices, at most the limit |
| Scanner.DevicesAreConserved | main/bluetooth/ble_scanner.c:616-897 | in every run creations since the last clear = live + evicted + pruned, and `unique_devices` is the creations since the last clear or reset, modulo 2^32 |
| Scanner.AverageStaysBetween | main/bluetooth/ble_scanner.c:814-830 | in every run a device's average lies between any bounds on all strengths received since its entry was made, and its counter is their number |
| ScannerReadings.AverageIsMixed | main/bluetooth/ble_scanner.c:814-826 | in every run a held device's average is the last of the averages of all strengths heard since its entry was made, each 77 of 256 parts the strength and 179 the average before, rounded down, restarting when the 32-bit count is zero |
| ScannerReadings.AverageAfterOneMore | main/bluetooth/ble_scanner.c:814-822 | a first strength is the average, and one more is mixed into the average there was |
| ScannerReadings.AverageConverges | main/bluetooth/ble_scanner.c:814-822 | in every run a constant signal brings a held device's average to itself from above and to 3 short from further below, in no more receptions than the distance |
| ScannerReadings.EntryTells | main/bluetooth/ble_scanner.c:996-1016 | in every run an entry says when and how its device was first met and what its last extended advertisement said |
| Scanner.StampIsLastSeen | main/bluetooth/ble_scanner.c:823-824 | in every run a held device's stamp is the time of its last advertisement |
| Scanner.PruneJudgesExactly | main/bluetooth/ble_scanner.c:637-646 | after any run a prune keeps a device just when its last advertisement is not older than the timeout, exactly when the 32-bit age does not mislead |
| Scanner.FreshDevicePruned | main/bluetooth/ble_scanner.c:637-646 | a device seen after the clock was read is pruned at once |
| Scanner.EvictsLongestUnseenExactly | main/bluetooth/ble_scanner.c:867-876 | after any run the device an advertisement pushes out is the longest unseen exactly when none was last heard in an earlier cycle of the clock |
| Clock.JudgesExactly | main/bluetooth/ble_scanner.c:644-646 | a 32-bit age tells whether a timeout has passed exactly when it does not mislead |
| DiscoveryCache.StepRefines | main/bluetooth/ble_gatt_discovery.c:325-334 | every discovery and clear keeps at most one complete result per address and is a step of a map of at most 8 |
| DiscoveryCache.RunIsValid | main/bluetooth/ble_gatt_discovery.c:325-472 | the same in every run |
| DiscoveryCache.LookupAfterDiscovery | main/bluetooth/ble_gatt_discovery.c:406-428 | in every run a lookup right after a cached discovery returns it, other answers are unchanged, and only an entry of least time is lost, only when the cache is full |
| DiscoveryCache.Cache.FindFreeSlot | main/bluetooth/ble_gatt_discovery.c:641-662 | the first slot that is not complete, untouched; if all are, the oldest, cleared |
| DiscoveryCache.Cache.Discovered | main/bluetooth/ble_gatt_discovery.c:320-334 | the array after a discovery is that of `Step` |
| DiscoveryCache.Cache.GetCached | main/bluetooth/ble_gatt_discovery.c:406-428 | the result the map holds, or not found |
| DiscoveryCache.Cache.ClearCached | main/bluetooth/ble_gatt_discovery.c:443-458 | the address is forgotten and nothing else |
| DiscoveryCache.Cache.ClearAllCached | main/bluetooth/ble_gatt_discovery.c:460-472 | everything is forgotten |
| GattCache.CccdAnswers | main/bluetooth/ble_gatt_client.c:1950-1962 | a CCCD becomes the answer for its characteristic if that is cached, and no other answer changes |
| GattCache.ServiceAnswers | main/bluetooth/ble_gatt_client.c:1840-1848 | a new service changes no answer |
| GattCache.CharacteristicAnswers | main/bluetooth/ble_gatt_client.c:1887-1896 | a new characteristic changes an answer exactly when it comes to be found first under its value handle; then there is none |
| GattCache.DescriptorRange | main/bluetooth/ble_gatt_client.c:1904-1914 | the loop computes `DescriptorEnd` |
| GattCache.RangeIsWholeExactly | main/bluetooth/ble_gatt_client.c:1904-1914 | the range is cut exactly when a cached characteristic is defined inside it, short of its end |
| GattCache.AscendingRangeIsWhole | main/bluetooth/ble_gatt_client.c:1904-1914 | reported in ascending order, a characteristic is searched to the end of its service |
| GattDiscovery.RediscoverIsFresh | main/bluetooth/ble_gatt_client.c:667-688 | a discovery of all services starts with nothing cached that could touch any peer's services |
| GattDiscovery.DiscoveryAnswers | main/bluetooth/ble_gatt_client.c:1815-1970 | for every peer with any number of services and characteristics, every order of callbacks and whatever happens elsewhere meanwhile, the final answer of a characteristic that was stored and notifies is the CCCD of the last one of its service, itself or later, that has any; any other has none |
| GattDiscovery.OwnCccdExactly | main/bluetooth/ble_gatt_client.c:1815-1970 | it is its own CCCD exactly when there was room for it and no later characteristic of its service has one |
| GattDiscovery.NeighbourCccdWins | main/bluetooth/ble_gatt_client.c:1815-1970 | a discovery of two services after which the first characteristic that notifies is answered with the second's CCCD |
| GattClient.StepKeepsConsistent | main/bluetooth/ble_gatt_client.c:1815-1970 | every event keeps counts within 16 and 32, entries valid and characteristics within their service's range |
| GattClient.RunIsConsistent | main/bluetooth/ble_gatt_client.c:1815-1970 | the same in every interleaving, late callbacks included |
| GattClient.DescriptorAnswers | main/bluetooth/ble_gatt_client.c:1923-1970 | after a CCCD callback the answer on that connection for that value handle is the CCCD, and every other answer on every connection is unchanged |
| GattClient.AnswersWereReported | main/bluetooth/ble_gatt_client.c:1286-1316 | in every interleaving a non-zero answer was reported to the answering slot since it was last emptied |
| GattClient.AnswersExactly | main/bluetooth/ble_gatt_client.c:1286-1316 | in every interleaving the answer is that of the last CCCD callback that found its characteristic since the slot was emptied or the characteristic shadowed, and nothing if there is none |
| GattClient.LastAcceptedExactly | main/bluetooth/ble_gatt_client.c:1923-1970 | that callback is the one event accepted after which none is accepted and nothing cleared |
| GattClient.OwnAnswerExactly | main/bluetooth/ble_gatt_client.c:1286-1316 | an answer comes from one callback, and is the asking connection's own exactly when that callback was for it |
| GattClient.TimelyAnswers | main/bluetooth/ble_gatt_client.c:1286-1316 | if every callback reaches the slot of its connection, every answer was reported by the connection that asks |
| GattClient.LateCallbacksAnswer | main/bluetooth/ble_gatt_client.c:1815-1970 | with late callbacks a first connection's discovery answers for a second |
| GattClient.Client.AllocateConnection | main/bluetooth/ble_gatt_client.c:1564-1575 | the first unused slot, cleared and in use, or none |
| GattClient.Client.ResetServices | main/bluetooth/ble_gatt_client.c:667-688 | the connection's cache is emptied; refused if the handle is unknown, or if the connection is neither up nor ready |
| GattClient.Client.ServiceCallback | main/bluetooth/ble_gatt_client.c:1815-1862 | a service is added while there is room |
| GattClient.Client.CharacteristicCallback | main/bluetooth/ble_gatt_client.c:1864-1921 | a characteristic is added to the first service whose range holds it, while there is room; a descriptor search starts exactly if it was added and notifies or indicates, and ends where `DescriptorEnd` says |
| GattClient.Client.DescriptorCallback | main/bluetooth/ble_gatt_client.c:1923-1970 | a CCCD is stored with the first characteristic that has the value handle |
| GattClient.Client.FindServiceForChar | main/bluetooth/ble_gatt_client.c:2097-2112 | the first valid service whose range holds the handle |
| GattClient.Client.GetCccdHandle | main/bluetooth/ble_gatt_client.c:1286-1316 | the answer of the first connection in use with the handle |
| Bridge.RunIsTidy | main/bluetooth/ble_esphome_bridge.c:223-322 | in every run, unregistering included, addresses are unique and the counter is the number of devices, at most 30 |
| Bridge.TimeoutExactly | main/bluetooth/ble_esphome_bridge.c:566-604 | exactly the beacons whose age is past the timeout become absent, their presence entities show it, each counts as a change, and nothing else changes |
| Bridge.StampIsLastUpdate | main/bluetooth/ble_esphome_bridge.c:261-545 | in every run a device's stamp is the time of its registration or last accepted update |
| Bridge.TimeoutJudgesExactly | main/bluetooth/ble_esphome_bridge.c:572-584 | after any run the timeout is right about a beacon that is present exactly when its 32-bit age does not mislead |
| Bridge.FreshBeaconExpires | main/bluetooth/ble_esphome_bridge.c:572-584 | a beacon heard of after the clock was read becomes absent at once |
| Bridge.EsphomeBridge.RegisterDevice | main/bluetooth/ble_esphome_bridge.c:223-276 | an unknown device takes the first free slot and the keys that the counter points to; out of memory exactly when it is unknown and there is no slot |
| Bridge.EsphomeBridge.UnregisterDevice | main/bluetooth/ble_esphome_bridge.c:279-322 | the slot is cleared, the counter lowered and the device's entities marked missing |
| Bridge.EsphomeBridge.StartSensor | main/bluetooth/ble_esphome_bridge.c:407-443 | rate limit and first readings, up to where the mutex is given up; it ends there exactly for an unknown device or within the update interval |
| Bridge.EsphomeBridge.FinishSensor | main/bluetooth/ble_esphome_bridge.c:445-509 | the readings are noted and published under the slot's keys; what they amount to over a run is `BridgeReadings.EntitiesShowLastReadings` |
| Bridge.EsphomeBridge.StartBeacon | main/bluetooth/ble_esphome_bridge.c:511-535 | the device found becomes a beacon if beacons are configured |
| Bridge.EsphomeBridge.FinishBeacon | main/bluetooth/ble_esphome_bridge.c:536-564 | a beacon's presence is noted, published and counted if it changed; the status follows |
| Bridge.EsphomeBridge.ProcessPresenceTimeout | main/bluetooth/ble_esphome_bridge.c:566-604 | the loop over slots is `Step`, and the result is the number of beacons that timed out |
| BridgeRuns.StepKeepsGood | main/bluetooth/ble_esphome_bridge.c:223-604 | every event but unregistering and reset keeps slots packed, the parity, and every entity showing its device's last value |
| BridgeRuns.PairedIsCalm | main/bluetooth/ble_esphome_bridge.c:407-564 | while nothing is unregistered, the second half of an update finds the slot that its first half found still active |
| BridgeRuns.PairedRunIsGood | main/bluetooth/ble_esphome_bridge.c:223-604 | in every run without unregistering and reset the key ranges are disjoint, `presence_changes` has the parity of the beacons present, and each device's entities show what its own entry holds |
| BridgeReadings.EntitiesShowLastReadings | main/bluetooth/ble_esphome_bridge.c:407-604 | in every such run the entities of a device show exactly the last temperature, humidity and battery level that its updates carried while it had one, and the last presence or absence since a timeout, and nothing else; its status and signal strength are the last as well |
| BridgeReadings.UnregisterHidesExactly | main/bluetooth/ble_esphome_bridge.c:296-309 | unregistering a device after such a run hides exactly what its entities show |
| BridgeRuns.ParityExactly | main/bluetooth/ble_esphome_bridge.c:279-322 | a step keeps the parity exactly unless it unregisters a beacon that is present or resets while an odd number is |
| BridgeRuns.RunIsAligned | main/bluetooth/ble_esphome_bridge.c:259-260 | in every run key bases are whole multiples of ten above the base |
| BridgeRuns.RegisterCollidesExactly | main/bluetooth/ble_esphome_bridge.c:259-260 | a registration keeps keys disjoint exactly when no device holds the ten that the counter points to |
| BridgeRuns.UnregisterCollides | main/bluetooth/ble_esphome_bridge.c:259-315 | two devices registered, the first unregistered, a third registered: it gets the second's keys |
| OtaClient.Socket.RecvExact | scripts/ota_upload.py:47-54 | however the stream is cut, exactly n bytes in order, or an error exactly when the peer closes before |
| OtaClient.Socket.Greet | scripts/ota_upload.py:98-121 | magic byte and size are sent, and all is well exactly when features and an OK come back |
| OtaClient.Socket.SendFirmware | scripts/ota_upload.py:129-152 | the blocks sent up to the first acknowledgement that is not OK; all of them and success exactly when every block but the last is acknowledged |
| OtaClient.Socket.Upload | scripts/ota_upload.py:98-187 | what is sent for every input, and success exactly when the size and every block are accepted and the end is not refused |
| OtaClient.SuccessSendsAll | scripts/ota_upload.py:98-187 | an upload that succeeds has sent magic byte, size, the image and its hash |
| OtaClient.BoundariesAreCeiling | scripts/ota_upload.py:129-152 | the acknowledgements awaited are ceil(n / 8192) - 1, one for each boundary strictly before the end |
| OtaClient.BigEndianRoundTrip | scripts/ota_upload.py:108-109 | the four size bytes read back as the size |
| OtaProtocol.AnsweredIsDue | scripts/ota_upload.py:4-12 | counting from the bytes alone, the server has answered exactly what is due after any prefix of an upload |
| OtaProtocol.RunIsGood | scripts/ota_upload.py:98-187 | in every interleaving the bytes sent are a prefix of the upload, responses arrive in order and each side is where the counts say |
| OtaProtocol.NeverMoreThanABlock | scripts/ota_upload.py:129-152 | in every interleaving at most 8192 bytes of firmware are unacknowledged |
| OtaProtocol.NoDeadlock | scripts/ota_upload.py:98-187 | before the end one side can always move |
| OtaProtocol.MovesMakeProgress | scripts/ota_upload.py:98-187 | every move that changes anything leaves less to do |
| OtaProtocol.DoneIsDelivered | scripts/ota_upload.py:98-187 | when the client is done the server has the whole upload, the channels are empty and exactly the due acknowledgements were taken |
| OtaProtocol.FairSchedulesFinish | scripts/ota_upload.py:98-187 | every schedule with enough stretches in which both sides move finishes the upload |
| OtaProtocol.EndsWellExactly | scripts/ota_upload.py:98-187 | whatever the schedule, an upload that has ended ended well, everything delivered, exactly when the server answered OK every time |
| OtaProtocol.SendsWhatTheScriptSends | scripts/ota_upload.py:98-187 | in every finished run the bytes sent and the outcome are those of `OtaClient.Socket.Upload` for the same responses |

## Left out

- Regular-expression field extraction in the extractor and everything it reads from a literal's text: heuristics over another project's source.
- `_find_definitions_array` and the keyword search of `extract_bracket_content`: regular expressions that give the scanners their start.
- JSON text: serialisation is a function with a length, injective where signatures are compared; only the fixed wrapper lengths are modelled.
- File names in `write_output`, their collisions, index entries and the counts of 1 that bundled manufacturers get there.
- What `clean_device`, `apply_local_quirks`, `apply_melody_names` and `strip_build_only_fields` change: `Build` takes any rewriting of one device in their place.
- Lower-casing beyond ASCII in manufacturer names.
- Name resolution in the transpiler (imports, constants, cluster tables, datapoint keywords): a call's arguments are given as what they resolve to, and cluster ids are natural numbers.
- V1 quirks of the transpiler: a separate class-based extraction.
- The passthrough of `main` in `merge_converter_dbs.py` when one source is empty.
- FreeRTOS, NimBLE, esp_timer and ESPHome entity calls: mutex sections are steps, callbacks and clock readings are events, a published value is an entry in a map.
- MTU, encryption and reads and writes of the GATT client, which do not touch the attribute cache; a connection's state is there only to say when a rediscovery is refused, and changes freely otherwise.
- Finding a service again that is still cached in `GattDiscovery`, and a peer whose services overlap: `GattClient` covers both.
- Cancelling a discovery and starting another while the first still writes to the shared context: discoveries are taken to end one after the other.
- Bridge counters other than the registrations and presence changes, the RSSI entity and the creation of entities as such.
- Names of tracked devices, and the callbacks that advertisements are passed on to.
- Timeouts and password authentication of the upload, which the script does not do, and a server that closes early in `OtaProtocol`; `OtaClient` has the closed connection.
- `scripts/convert_db.py` and `main/bluetooth/ble_battery_service.c`: the same packer and slot registry in simpler form.
