# Verified model of the update SDK's cores

An over-the-air update SDK keeps its logic in small cores that do no I/O: the native cold-start
round, the decision layer behind it, a JSON document model, streaming digests, a reversible
bytecode transform, crash rollback and a resumable store migration, with a few concurrent
protocols on the JavaScript side. This project states what those cores do as Dafny functions,
writes their loops and objects as methods and classes proved against those functions, and
proves what the SDK relies on: safety and termination over every run of a protocol, round
trips, refinement of fast forms by simple ones, and agreement of the two implementations.

Check everything with `dafny verify dfyconfig.toml`.

| modules | what they model |
|---|---|
| `HbcFields`, `HbcWrapping`, `HbcTransform` | delta coding of bit fields in strided tables, in place, driven by an untrusted layout |
| `RoundEngine`, `RoundStep` | the round as a step function, and as the object that carries one step |
| `RoundRuns`, `RoundSafety`, `RoundResults`, `RoundTime` | what whole rounds keep: one finish, budgets, order, activation, time |
| `NativeRound`, `Decision`, `NativeConfig`, `Urls` | endpoint query, download plan, response decision, configuration |
| `Murmur`, `Utf16`, `Bits32`, `Parity`, `EndpointFallback` | the JavaScript and the native side computing the same thing |
| `FlowJson`, `JsonText`, `JsonNumbers`, `JsonRoundTrip`, `JsonParser`, `JsonPrinter` | the document model, its text form, the parser and the printer |
| `Sha256`, `Crc32` | the digests, against FIPS 180-4 and the division by the polynomial of IEEE 802.3 |
| `EndpointRace`, `NativeConfigSync`, `Activation` | callbacks, timers and settlements in every interleaving |
| `StateCore`, `StoredItems`, `CopyGroups` | crash rollback, store migration, grouped resource copies |

## How it is modelled

Text is a sequence of bytes; a `char` stands for one byte. Numbers of the document model, times
and percentages are exact reals. JSON objects with fixed keys that pass between the steps of a
round are records; requests, responses and configurations stay JSON values. What a request, a
remote list, a hook, a timer or native storage answers is arbitrary: a parameter, an event of a
run or an unconstrained choice.

## Where the code and its comments differ

- The transform is documented as strictly reversible (cpp/patch_core/hbc_transform.h:19-21).
  Both directions apply a section's fields in the same order, so fields of a section that share
  bits need not come back: `HbcTransform.ReversibleRoundTrip`, `HbcTransform.RoundTripIff` and
  the witness `HbcTransform.OverlapBreaksRoundTrip`.
- The migration is documented never to overwrite a key the store already holds
  (cpp/patch_core/stored_items.h:50-52). It does in two cases, a schema version that is no
  plain number and an item held with an empty value: `StoredItems.OverwritesIff`, with the
  witnesses `StoredItems.UnreadableSchemaIsOverwritten` and `StoredItems.EmptyValueIsOverwritten`.
- The configuration is documented to be written again once JavaScript takes it back from the
  host (src/clientNativeConfig.ts:142-144). When the host wrote while a landed call was still
  unsettled, it is not; nor is it after a rejected write that landed. The exact condition, read
  off the state before the call, is `NativeConfigSync.SwitchBackIff`; the witnesses are
  `NativeConfigSync.HostWriteSurvivesSwitchBack` and `NativeConfigSync.StrayWriteDefeatsRevert`.
- An https entry consisting of the scheme and slashes is asked as "https:", which is no https
  URL any more: `NativeRound.QueryStaysHttps` and `NativeRound.BareSchemeIsAsked`.
- Both sides are documented to call the same configurations equivalent
  (src/updateFlowCore.ts:218-222). They do for texts both parse to the same value
  (`Parity.SameEquivalence`). The native parser reads every lone surrogate as U+FFFD and accepts
  raw control characters in strings: `Parity.LoneSurrogatesMerge`, `Parity.ControlCharacterIsRead`.
- Two switches without a launch in between make an unconfirmed version the rollback target:
  `StateCore.RollbackTargetsIff` and `StateCore.TwoSwitchesDefeatRollback`.

## Model

| member | source | states |
|---|---|---|
| HbcTransform.TransformHbcInPlace | cpp/patch_core/hbc_transform.cpp:44-144 | the buffer becomes the specified transform of its old contents exactly when the header and the layout validate, and is left alone otherwise |
| HbcTransform.Validate | cpp/patch_core/hbc_transform.cpp:49-114 | the header, count and section checks accept exactly the well-shaped layouts, before anything is written |
| HbcTransform.ReadCounts | cpp/patch_core/hbc_transform.cpp:65-77 | the header counts are read and bounded as specified |
| HbcTransform.ResolveSections | cpp/patch_core/hbc_transform.cpp:79-114 | the resolved sections are the specified ones, or none when a bound fails |
| HbcTransform.RewriteWord | cpp/patch_core/hbc_transform.cpp:125-141 | one entry of one field: the stored bits are the 32-bit difference to, or sum with, the previous plain value under the mask, which is the one modulo the field |
| HbcWrapping.WrappedIsEncoded | cpp/patch_core/hbc_transform.cpp:122-138 | sum and difference wrapped at 32 bits and masked are the sum and difference modulo the width of the field |
| HbcTransform.RewriteColumn | cpp/patch_core/hbc_transform.cpp:121-141 | one field over all entries is the specified pass, carrying the previous plain value |
| HbcTransform.RewriteSection | cpp/patch_core/hbc_transform.cpp:117-142 | the fields of a section in their order |
| HbcTransform.ResolvedIsLaid | cpp/patch_core/hbc_transform.cpp:79-114 | accepted sections follow each other, four-byte aligned, without overlapping |
| HbcTransform.ResolvedFits | cpp/patch_core/hbc_transform.cpp:79-114 | every word the rewriting touches lies between the header and the end of the sections, inside the buffer |
| HbcTransform.PassUndone | cpp/patch_core/hbc_transform.cpp:121-141 | the opposite pass over one field restores the buffer, whatever the values |
| HbcTransform.PassesCommute | cpp/patch_core/hbc_transform.cpp:121-141 | passes over bit-disjoint fields commute |
| HbcTransform.RewriteUndone | cpp/patch_core/hbc_transform.cpp:117-142 | the same field order in the opposite direction undoes a rewriting of bit-disjoint fields |
| HbcTransform.RewriteUndoneBackwards | cpp/patch_core/hbc_transform.cpp:117-142 | with overlapping fields it takes the reversed field order to undo a rewriting |
| HbcTransform.RewriteUndoneIff | cpp/patch_core/hbc_transform.cpp:117-142 | the same order undoes it exactly when forward and reversed field order agree on the buffer |
| HbcTransform.TransformedKeepsFrame | cpp/patch_core/hbc_transform.cpp:49-142 | length, header and the bytes after the sections are untouched, so the second call validates and resolves identically |
| HbcTransform.RoundTrip | cpp/patch_core/hbc_transform.h:19-21 | for every accepted buffer and every layout with bit-disjoint fields in each section, inverse after forward and forward after inverse restore the buffer byte for byte |
| HbcTransform.ReversibleRoundTrip | cpp/patch_core/hbc_transform.cpp:117-142 | so it is enough that each section is bit-disjoint or lists its fields the same from last to first, as one field twice does |
| HbcTransform.RoundTripIff | cpp/patch_core/hbc_transform.cpp:117-142 | for every layout at all: a buffer survives the round trip if and only if reversing the field order would have given the same transform |
| HbcTransform.ForwardIsDelta | cpp/patch_core/hbc_transform.cpp:117-142 | after the forward transform every field of every entry holds its difference to the previous entry, modulo its width |
| HbcTransform.OverlapBreaksRoundTrip | cpp/patch_core/hbc_transform.cpp:117-142 | fields [0,0,8] and [0,4,8] over the entries 0x018 and 0x000 come back as 0x018 and 0x100 |
| RoundStep.Step.constructor | cpp/update_flow_core/round_engine.cpp:58-72 | a start begins from a blank state whatever came before; the sticky flags are taken over first |
| RoundStep.Step.Run | cpp/update_flow_core/round_engine.cpp:74-97 | every event does what its handler says when the phase expects it, nothing after the end, and an internal error otherwise |
| RoundStep.Step.Finish | cpp/update_flow_core/round_engine.cpp:111-121 | emits the finish and ends the round |
| RoundStep.Step.Begin | cpp/update_flow_core/round_engine.cpp:136-153 | the gate, then the breadcrumb and the request for the launch environment |
| RoundStep.Step.OnEnv | cpp/update_flow_core/round_engine.cpp:155-167 | prepares the round from the environment and asks the first endpoint |
| RoundStep.Step.Query | cpp/update_flow_core/round_engine.cpp:170-196 | settles the query or asks the next endpoint within the budget |
| RoundStep.Step.OnHttp | cpp/update_flow_core/round_engine.cpp:198-202 | hands the response, with its arrival floored to seconds, to the query |
| RoundStep.Step.Respond | cpp/update_flow_core/round_engine.cpp:204-230 | turns the response into a cache commit, an installed check or a failure |
| RoundStep.Step.OnInstalled | cpp/update_flow_core/round_engine.cpp:232-244 | commits an installed version, or opens the incremental window |
| RoundStep.Step.NextAttempt | cpp/update_flow_core/round_engine.cpp:248-293 | the loop finds the attempt the search function finds, or gives up |
| RoundStep.Step.OnDownload | cpp/update_flow_core/round_engine.cpp:295-325 | commits, or moves the cursor to the next mirror, the next strategy or the end |
| RoundStep.Step.CommitCache | cpp/update_flow_core/round_engine.cpp:328-333 | a commit of the response cache only |
| RoundStep.Step.CommitVersion | cpp/update_flow_core/round_engine.cpp:336-355 | a commit of the version with its activation and flags |
| RoundStep.Step.Commit | cpp/update_flow_core/round_engine.cpp:357-369 | one commit that names both generations of the start |
| RoundStep.Step.OnCommitted | cpp/update_flow_core/round_engine.cpp:371-388 | maps the commit outcome to the finish |
| RoundStep.RunStep | cpp/update_flow_core/round_engine.cpp:403-405 | running the step object is the step function |
| RoundRuns.SeekLaws | cpp/update_flow_core/round_engine.cpp:248-293 | the attempt found is not before the cursor, its phase deadline lies ahead, and each window is opened once |
| RoundRuns.AskGood | cpp/update_flow_core/round_engine.cpp:170-196 | asking spends one request and waits for it, settles the response, or ends the round |
| RoundRuns.StepGood | cpp/update_flow_core/round_engine.cpp:74-97 | every event but a start takes an unfinished round strictly down a lexicographic measure over phase, query budget and cursor, and emits the one command the new phase waits on; a finished round emits nothing |
| RoundSafety.OneFinish | cpp/update_flow_core/round_engine.h:72-75 | in every round there is at most one finish, it is the last command, and it is there exactly when the round is over |
| RoundSafety.Budgets | cpp/update_flow_core/round_engine.h:59-71 | at most eight http commands and one commit in a round |
| RoundSafety.NoEndpointTwice | cpp/update_flow_core/round_engine.cpp:170-196 | the URLs of the POST requests a round sends out are pairwise different |
| RoundSafety.NoMirrorTwice | cpp/update_flow_core/round_engine.cpp:248-325 | downloads move strictly forward through the plan: at most one per strategy and mirror, each the one at its cursor |
| RoundSafety.RoundEnds | cpp/update_flow_core/round_engine.cpp:74-97 | every endless stream of events ends the round after finitely many of them |
| RoundResults.RunSafe | cpp/update_flow_core/round_engine.cpp:204-293 | over a whole round no version is checked, fetched or committed that the device runs or rolled back from or whose name could leave its directory; a diff has the running version as origin; nothing is fetched in clear under an https-only configuration; request timeouts are positive and bounded |
| RoundResults.FlagsStick | cpp/update_flow_core/round_engine.cpp:336-369 | once a crash is held or the launch waits, every later version commit activates, and under a crash hold is marked; every commit names the generations of the start |
| RoundResults.FlagsGathered | cpp/update_flow_core/round_engine.cpp:67-71 | the flags of a run are those of its events |
| RoundResults.StepOutstanding | cpp/update_flow_core/round_engine.cpp:357-388 | a step reports a download only for the pending commit, which the adapter said landed, with the activation it reported |
| RoundResults.DownloadedIsCommitted | cpp/update_flow_core/round_engine.h:53-75 | a version is reported as downloaded only straight after a commit of that very version |
| RoundTime.StepSpends | cpp/update_flow_core/round_engine.cpp:121-134 | one step spends no more of the time potential than the wait took, and bounds the next reply within its window and the round deadline |
| RoundTime.RoundTimeBound | cpp/update_flow_core/round_engine.h:27-37 | if every reply arrives within the bound its command carried, a round waits on the network for at most 8 times 15 s plus twice 600 s |
| RoundTime.RoundDeadline | cpp/update_flow_core/round_engine.cpp:123-134 | a round deadline caps every request and every download |
| RoundTime.FullIsTried | cpp/update_flow_core/round_engine.h:29-31 | without a deadline a round that plans a full download gives up only after starting it |
| NativeRound.RequestBodyLaws | cpp/update_flow_core/update_flow_core.cpp:227-267 | every key of the request body, whatever the caller extras carry: they never override what the server decides on |
| NativeRound.ScanHttpsOnly | cpp/update_flow_core/native_round.cpp:159-169 | decides whether every configured endpoint is an https URL |
| NativeRound.QueryStep | cpp/update_flow_core/native_round.cpp:196-281 | the loop computes the specified next state |
| NativeRound.FindTarget | cpp/update_flow_core/native_round.cpp:232-252 | the inner loop finds the next entry that asks anything |
| NativeRound.StepKeeps | cpp/update_flow_core/native_round.cpp:196-281 | one query step keeps the invariant, pays for at most one request, and finds only valid responses to posts |
| NativeRound.QuerySafety | cpp/update_flow_core/native_round.cpp:196-281 | over a whole query at most eight requests, no base twice, every base configured or from the fetched list, and from an https entry when the configuration is https-only |
| NativeRound.StrippedHttpsIs | cpp/update_flow_core/native_round.cpp:52-57 | which bases an https entry can give: https URLs without trailing slashes, and the bare scheme |
| NativeRound.StaysHttpsIff | cpp/update_flow_core/native_round.cpp:242-251 | the base of an https entry is an https URL exactly when the entry has something but slashes after the scheme |
| NativeRound.QueryStaysHttps | cpp/update_flow_core/native_round.cpp:196-281 | under an https-only configuration a query asks nothing but https URLs when every endpoint names a host; one that asked everyone within its budget asked something else exactly when some endpoint names none |
| NativeRound.BareSchemeIsAsked | cpp/update_flow_core/native_round.cpp:159-281 | the endpoint "https://" counts as https-only and is posted to as "https:/checkUpdate/" and the app key |
| NativeRound.QueryEnds | cpp/update_flow_core/native_round.cpp:196-281 | the query ends within its budget, and when it gives up early every configured base, and every admissible fetched one, was asked |
| NativeRound.Plan | cpp/update_flow_core/native_round.cpp:117-139 | the loops build the specified device-local plan |
| NativeRound.FilterUrls | cpp/update_flow_core/native_round.cpp:124-130 | keeps exactly the usable URLs, in order |
| NativeRound.PlanLaws | cpp/update_flow_core/native_round.cpp:117-139 | the plan keeps the order of the attempts and holds nothing this device may not use |
| NativeRound.PlanComplete | cpp/update_flow_core/native_round.cpp:117-139 | every usable URL of the decision is tried by its strategy |
| NativeRound.RoundDecisionLaws | cpp/update_flow_core/native_round.cpp:283-319 | a decided install is acceptable, planned for the device, activated when the server forces it, and carries the cache of its response |
| NativeRound.VersionInfoFlag | cpp/update_flow_core/native_round.cpp:141-155 | the forced-boot flag is set exactly when the server asked for it |
| Decision.CollectUrls | cpp/update_flow_core/update_flow_core.cpp:167-183 | the loop joins every path with the file name |
| Decision.JoinedUrlIsAbsolute | cpp/update_flow_core/update_flow_core.cpp:173-181 | every joined URL has a scheme, whatever the path |
| Decision.OrderCandidates | cpp/update_flow_core/update_flow_core.cpp:185-225 | deduplication and reordering compute the specified plan |
| Decision.DedupeLaws | cpp/update_flow_core/update_flow_core.cpp:187-204 | no repetitions, nothing unusable, nothing usable lost |
| Decision.OrderLaws | cpp/update_flow_core/update_flow_core.cpp:205-225 | the plan is a permutation of the deduplicated endpoints, the sampled one first, the others in configured order |
| Decision.OrderCovers | cpp/update_flow_core/update_flow_core.cpp:185-225 | every planned endpoint is configured, every usable configured one is planned |
| Decision.Resolve | cpp/update_flow_core/update_flow_core.cpp:269-312 | the member loops compute the specified resolution |
| Decision.ResolveMeans | cpp/update_flow_core/update_flow_core.cpp:269-312 | what the device sees of any response that parses to an object, key by key, inside and outside a gray release |
| Decision.DecisionLaws | cpp/update_flow_core/update_flow_core.cpp:325-369 | a download is decided exactly when the version is offered, acceptable and has an artifact; it tries exactly the artifacts on offer, cheapest first |
| Decision.NeverReinstalls | cpp/update_flow_core/update_flow_core.cpp:395-411 | no response makes a device download the version it runs or rolled back from; a response is invalid exactly when the schema gate says so |
| Murmur.Murmur3Native | cpp/update_flow_core/update_flow_core.cpp:79-131 | the 32-bit loop computes the reference hash |
| Murmur.MurmurHash3Js | src/updateFlowCore.ts:10-85 | the JavaScript hash, every intermediate an exact double, computes the reference hash of the low bytes |
| Murmur.JsBody | src/updateFlowCore.ts:27-46 | the block loop in JavaScript arithmetic |
| Murmur.JsProduct | src/updateFlowCore.ts:35-39 | a product by 16-bit halves is the 32-bit product |
| Murmur.JsAddBlockConstant | src/updateFlowCore.ts:43-45 | the block constant added by halves, with the value left unmasked |
| Murmur.JsTailWord | src/updateFlowCore.ts:48-58 | the fall-through switch gathers the last bytes |
| Murmur.JsFinish | src/updateFlowCore.ts:70-84 | the final mixing |
| Utf16.DecodeUtf16LowBytes | cpp/update_flow_core/update_flow_core.cpp:25-75 | the decoding loop computes the low bytes of the UTF-16 units |
| Utf16.DecodeAt | cpp/update_flow_core/update_flow_core.cpp:29-63 | one code point, malformed bytes as U+FFFD |
| Utf16.Utf8KeepsLowBytes | cpp/update_flow_core/update_flow_core.cpp:19-75 | decoding the UTF-8 of any JavaScript string gives the low bytes of its units |
| Utf16.ModifiedUtf8KeepsLowBytes | cpp/update_flow_core/update_flow_core.cpp:19-24 | so does decoding its JNI modified UTF-8 |
| Utf16.NativeHash | cpp/update_flow_core/update_flow_core.cpp:79-131 | decode, then hash |
| Utf16.SameBucket | cpp/update_flow_core/update_flow_core.cpp:133-135 | both sides put every uuid into the same rollout bucket |
| Urls.RemoveTrailingSlashes | cpp/update_flow_core/native_config.cpp:62-67 | the loop strips exactly the trailing slashes |
| Urls.ScanScheme | cpp/update_flow_core/update_flow_core.cpp:144-163 | the scheme scan |
| Urls.SchemeScanMatches | cpp/update_flow_core/update_flow_core.cpp:143-163 | the scheme scan accepts exactly what its pattern matches |
| Urls.ScanPrefix | cpp/update_flow_core/native_round.cpp:27-42 | the case-insensitive prefix comparison |
| Urls.ScanAuthority | cpp/update_flow_core/native_config.cpp:137-179 | the one-pass authority scan |
| Urls.AuthorityScanMatches | cpp/update_flow_core/native_config.cpp:132-179 | the scan accepts exactly the strings with a split that matches the documented pattern |
| NativeConfig.Trim | cpp/update_flow_core/native_config.cpp:320-346 | the two loops cut the specified white space |
| NativeConfig.EndingWhitespace | cpp/update_flow_core/native_config.cpp:331-339 | finds the white-space character that ends the text |
| NativeConfig.Trimmed | cpp/update_flow_core/native_config.cpp:320-346 | what is left is a stretch of the text that neither starts nor ends with white space |
| NativeConfig.Canonicalize | cpp/update_flow_core/native_config.cpp:71-99 | the loop with its string set keeps the first of equal entries |
| NativeConfig.ListIdempotent | cpp/update_flow_core/native_config.cpp:71-99 | canonical lists are kept as they are |
| NativeConfig.SlashIgnored | cpp/update_flow_core/native_config.cpp:71-99 | a trailing slash on an entry changes nothing |
| NativeConfig.RepeatIgnored | cpp/update_flow_core/native_config.cpp:71-99 | a repeated entry changes nothing |
| NativeConfig.CanonicalGet | cpp/update_flow_core/native_config.cpp:348-370 | the canonical form, key by key |
| NativeConfig.CanonicalIdempotent | cpp/update_flow_core/native_config.cpp:348-370 | canonicalising twice changes nothing, down to the order of the members |
| NativeConfig.EquivalentIff | cpp/update_flow_core/native_config.cpp:348-379 | two JSON objects are equivalent exactly when their canonical values agree under every key |
| NativeConfig.KeyOrderIgnored | cpp/update_flow_core/native_config.cpp:372-379 | configurations that are equal as maps, at any depth, are equivalent |
| NativeConfig.SlashesAndRepeatsIgnored | cpp/update_flow_core/native_config.cpp:71-99 | configurations whose URL lists differ by a trailing slash or a repeated entry, and that agree on every other key, are equivalent |
| NativeConfig.ConfigsEquivalentLaws | cpp/update_flow_core/native_config.cpp:372-379 | the equivalence is reflexive exactly on JSON objects, symmetric and transitive |
| Parity.SameEquality | src/updateFlowCore.ts:135-164 | the JavaScript equality and the native one decide alike on all values |
| Parity.CanonicalUrlListJs | src/updateFlowCore.ts:168-186 | the JavaScript list canonicalisation computes the native one |
| Parity.SameCanonicalForm | src/updateFlowCore.ts:194-216 | both canonical forms hold the same value under every key |
| Parity.SameEquivalence | src/updateFlowCore.ts:223-230 | both sides give the same answer whether two configurations are equivalent, for texts that both sides parse to the same value |
| Parity.LoneSurrogatesMerge | cpp/update_flow_core/flow_json.cpp:583-593 | two different lone surrogates in a configuration are read alike by the native side |
| Parity.ControlCharacterIsRead | cpp/update_flow_core/flow_json.cpp:532-540 | a raw line feed inside a string is read by the native side |
| FlowJson.SetGet | cpp/update_flow_core/flow_json.cpp:50-58 | setting a key changes that key only and keeps every position |
| FlowJson.SetKeepsDistinct | cpp/update_flow_core/flow_json.cpp:50-58 | keys stay distinct |
| FlowJson.DeepEqualsIsSameValue | cpp/update_flow_core/flow_json.cpp:90-122 | the one-directional scan with its count decides equality of key-to-value maps |
| FlowJson.DeepEqualsIsEquivalence | cpp/update_flow_core/flow_json.cpp:90-122 | so it is an equivalence on values with distinct keys |
| JsonParser.AddMember | cpp/update_flow_core/flow_json.cpp:454-504 | the hash-indexed object builder gives what setting members one by one gives |
| JsonParser.DecimalToDouble | cpp/update_flow_core/flow_json.cpp:284-363 | the digit loop gathers the specified value |
| JsonParser.Parser.SkipWhite | cpp/update_flow_core/flow_json.cpp:378-387 | skips exactly the white space |
| JsonParser.Parser.ParseHex4 | cpp/update_flow_core/flow_json.cpp:606-627 | four hexadecimal digits |
| JsonParser.Parser.ParseUnicode | cpp/update_flow_core/flow_json.cpp:566-596 | a unicode escape, surrogate pairs joined, lone surrogates replaced |
| JsonParser.Parser.ParseString | cpp/update_flow_core/flow_json.cpp:527-604 | the string loop computes the specified value and rest |
| JsonParser.Parser.ParseNumber | cpp/update_flow_core/flow_json.cpp:647-704 | accepts what the number scanner accepts, and reads its value |
| JsonNumbers.NumberScanMatches | cpp/update_flow_core/flow_json.cpp:647-704 | the scanner stops at a rest exactly when a sign, an integer part, a fraction and an exponent as the grammar has them lie in front of it and the rest does not go on with them |
| JsonNumbers.TokenValue | cpp/update_flow_core/flow_json.cpp:284-336 | the digit loop gathers exactly what a token of at most 19 significant digits is worth in decimal notation |
| JsonParser.Parser.ParseValue | cpp/update_flow_core/flow_json.cpp:411-448 | one value within the depth and node caps |
| JsonParser.Parser.ParseArray | cpp/update_flow_core/flow_json.cpp:506-525 | an array |
| JsonParser.Parser.ParseObject | cpp/update_flow_core/flow_json.cpp:454-504 | an object, repeated keys by first position and last value |
| JsonParser.Parser.Run | cpp/update_flow_core/flow_json.cpp:370-375 | one value, white space, nothing else |
| JsonParser.Parse | cpp/update_flow_core/flow_json.cpp:720-727 | the parser object computes the parse function |
| JsonPrinter.AppendEscaped | cpp/update_flow_core/flow_json.cpp:126-162 | the escape loop |
| JsonPrinter.AppendNumber | cpp/update_flow_core/flow_json.cpp:164-201 | under every locale the number is appended as JSON has it: integers up to 2 to the 53 plainly, others with 17 significant digits |
| JsonNumbers.PrintsToken | cpp/update_flow_core/flow_json.cpp:164-201 | whatever number is printed, what is written is a number of the grammar |
| JsonPrinter.AppendValue | cpp/update_flow_core/flow_json.cpp:203-250 | appends the printed form of a value |
| JsonPrinter.Stringify | cpp/update_flow_core/flow_json.cpp:254-261 | prints the document |
| JsonRoundTrip.ValueRoundTrip | cpp/update_flow_core/flow_json.cpp:365-704 | the printed form of a value, in front of anything that can follow it, parses back to it and leaves what followed |
| JsonRoundTrip.RoundTrip | cpp/update_flow_core/flow_json.cpp:203-261 | parsing the printed form of any value within the caps gives it back, undefined members dropped |
| JsonRoundTrip.WireOfDefined | cpp/update_flow_core/flow_json.cpp:224-250 | a value without undefined parts comes back as it was |
| JsonRoundTrip.ParseIsSound | cpp/update_flow_core/flow_json.cpp:454-504 | what parsing returns has distinct keys at every level and nothing undefined |
| Sha256.Sha256.constructor | cpp/patch_core/digest.cpp:32-41 | starts from the initial hash value with nothing buffered |
| Sha256.Sha256.ProcessBlock | cpp/patch_core/digest.cpp:43-96 | the rounds compute the block function of the standard |
| Sha256.Schedule | cpp/patch_core/digest.cpp:44-57 | the message schedule |
| Sha256.Sha256.TopUp | cpp/patch_core/digest.cpp:101-113 | fills the buffer, and digests it when full |
| Sha256.Sha256.WholeBlocks | cpp/patch_core/digest.cpp:115-119 | whole blocks bypass the buffer |
| Sha256.Sha256.Update | cpp/patch_core/digest.cpp:98-125 | any chunk appends to what was fed, with whole blocks digested and the rest buffered |
| Sha256.Sha256.Pad | cpp/patch_core/digest.cpp:130-137 | the padding loop reaches the 56-byte boundary, with the least number of zeros |
| Sha256.Sha256.HexDigest | cpp/patch_core/digest.cpp:127-155 | the digest printed is the one of the whole padded message |
| Sha256.PrintWord | cpp/patch_core/digest.cpp:147-153 | eight hexadecimal digits a word, most significant first |
| Sha256.HexInjective | cpp/patch_core/digest.cpp:144-154 | the printed digest determines the hash value |
| Sha256.BlocksSplit | cpp/patch_core/digest.cpp:98-125 | folding the block function splits at every block boundary |
| Sha256.HexDigestOfChunks | cpp/patch_core/digest.cpp:157-174 | a file read in chunks of any sizes has the digest of its bytes |
| Crc32.ShiftIsLinear | cpp/patch_core/digest.cpp:181-190 | the register step is linear over xor |
| Crc32.EightSteps | cpp/patch_core/digest.cpp:200-207 | one table lookup replaces eight register steps |
| Crc32.TableDivides | cpp/patch_core/digest.cpp:200-207 | the table-driven register is the one of the bit-by-bit division, for every message |
| Crc32.BitsAtOnce | cpp/patch_core/digest.cpp:200-207 | dividing by bits one at a time is adding them at once and shifting as often |
| Crc32.BuildTable | cpp/patch_core/digest.cpp:181-190 | every table entry is eight register steps of its index |
| Crc32.Crc32.Update | cpp/patch_core/digest.cpp:200-207 | any chunk appends to what was fed |
| Crc32.Crc32.Value | cpp/patch_core/digest.h:50-58 | the value is the checksum of everything fed |
| Crc32.Crc32OfChunks | cpp/patch_core/digest.cpp:209-227 | a file read in chunks of any sizes has the checksum of its bytes |
| Crc32.DamagedByteDetected | cpp/patch_core/digest.cpp:200-207 | a message with one byte changed never keeps its checksum |
| EndpointRace.Racing.constructor | src/endpoint.ts:64-75 | an empty race is over at once, another one has started its first request |
| EndpointRace.Racing.Finish | src/endpoint.ts:77-89 | settles once and aborts every request but the winner |
| EndpointRace.Racing.LaunchNext | src/endpoint.ts:91-139 | starts the next candidate and arms the timer when another one follows |
| EndpointRace.Racing.OnSuccess | src/endpoint.ts:110-120 | a success settles the race |
| EndpointRace.Racing.OnFailure | src/endpoint.ts:121-135 | a failure starts the next candidate at once, or ends the race when it was the last pending one |
| EndpointRace.RaceLaws | src/endpoint.ts:55-143 | under every interleaving: while unsettled a request is pending and the timer is armed as long as a candidate is left; failure only after every candidate was started and failed once; in-flight losers are aborted |
| EndpointRace.SettlesOnce | src/endpoint.ts:77-89 | what the race resolved with never changes |
| EndpointRace.RaceIsShort | src/endpoint.ts:55-143 | a race over n endpoints is over after at most 2n events |
| EndpointRace.SelectFastestSuccessfulEndpoint | src/endpoint.ts:55-143 | under an arbitrary schedule the race settles with a possible outcome |
| EndpointFallback.Dedupe | src/updateFlowCore.ts:104-119 | the loop with its visited set |
| EndpointFallback.SameOrder | src/updateFlowCore.ts:238-260 | the JavaScript endpoint order is the native one |
| EndpointFallback.ExecuteEndpointFallback | src/endpoint.ts:145-213 | no endpoint is asked twice, at most maxRequests requests are issued, the loop ends, and giving up within budget means every configured endpoint was asked |
| NativeConfigSync.Sync.FlushNativeConfig | src/clientNativeConfig.ts:80-112 | starts a write only while JavaScript owns the configuration, none is in flight and the value is new |
| NativeConfigSync.Sync.SyncNativeConfig | src/clientNativeConfig.ts:140-170 | records the latest desired value and flushes, or forgets everything when the host owns the configuration |
| NativeConfigSync.Sync.OnSettled | src/clientNativeConfig.ts:97-107 | a resolved write is remembered unless the host took over, a rejected one is not |
| NativeConfigSync.Sync.OnFinally | src/clientNativeConfig.ts:108-111 | clears the flag and flushes what came in meanwhile |
| NativeConfigSync.WritesNeverOverlap | src/clientNativeConfig.ts:160-170 | over every run at most one bridge call is outstanding; a new one starts when no other is left, with what was asked for last |
| NativeConfigSync.QuietMeansSynced | src/clientNativeConfig.ts:157-170 | when rejected writes and the host leave storage alone: once quiet after a successful last write, storage holds the configuration asked for last, whatever switches of the source came in between |
| NativeConfigSync.SwitchBackIff | src/clientNativeConfig.ts:140-170 | decided before the call: asking for a configuration, on a switch back to JavaScript or not, gets it into storage exactly when storage holds it already, or it is not the remembered one and no landed call of it was overtaken, or an earlier landed call is about to replace the remembered one |
| NativeConfigSync.StrayWriteDefeatsRevert | src/clientNativeConfig.ts:80-112 | a write that lands but is rejected makes the next revert a no-op |
| NativeConfigSync.HostWriteSurvivesSwitchBack | src/clientNativeConfig.ts:97-104 | what the host wrote while a landed call was unsettled stays in storage when the source is switched back before it resolves |
| Activation.Shared.ClearReloadWatchdog | src/clientActivation.ts:46-51 | no watchdog is armed |
| Activation.Shared.BeginApplyingUpdate | src/clientActivation.ts:53-57 | a new generation owns the flag |
| Activation.Shared.OwnsApplyingUpdate | src/clientActivation.ts:59-61 | ownership |
| Activation.Shared.FinishApplyingUpdate | src/clientActivation.ts:63-70 | only the owner releases |
| Activation.Shared.InvalidateApplyingUpdate | src/clientActivation.ts:72-76 | everything outstanding is superseded |
| Activation.Shared.ArmReloadWatchdog | src/clientActivation.ts:78-96 | only the owner arms the watchdog |
| Activation.Shared.OnTimer | src/clientActivation.ts:83-94 | a superseded or cancelled timer does nothing |
| Activation.Shared.SwitchVersion | src/clientActivation.ts:176-181 | a switch in progress swallows another one |
| Activation.Shared.OnHook | src/clientActivation.ts:182-200 | after the hook: released, superseded, or on to the native call |
| Activation.Shared.OnReload | src/clientActivation.ts:201-229 | after the native call: released, or guarded by the watchdog |
| Activation.Shared.OnReset | src/clientActivation.ts:302-310 | a reset supersedes every switch |
| Activation.NeverStuck | src/clientActivation.ts:168-229 | whenever the flag is set, some hook, native call or armed watchdog of the current generation can still release it, and only one of them |
| Activation.SupersededIsHarmless | src/clientActivation.ts:59-96 | once a switch holds the flag, no hook, reload or timer of older ones, in any number and order, clears it, takes it over, touches the watchdog or starts a reload |
| Activation.FlagIsReleased | src/clientActivation.ts:168-229 | every settlement brings the switches closer to their end, and once nothing is outstanding the flag is clear |
| StateCore.RunIsSound | cpp/patch_core/state_core.cpp:6-116 | so every reachable state has it |
| StateCore.LoadedOnce | cpp/patch_core/state_core.cpp:92-116 | a version loaded once with its first load used up and no success reported is loaded by no later launch that honours rollbacks, whatever comes in between short of a switch or a report of success |
| StateCore.FallsBack | cpp/patch_core/state_core.cpp:64-116 | when nothing else moves the versions, that later launch loads the version kept for rollback and marks the broken one, or loads none |
| StateCore.RollbackTargets | cpp/patch_core/state_core.cpp:28-77 | if switches start from confirmed states, every rollback lands on a version that reported success or on the packaged bundle |
| StateCore.RollbackTargetsIff | cpp/patch_core/state_core.cpp:28-77 | over every run: at every moment a rollback lands on a version that reported success or on the packaged bundle exactly when every switch replaced a version confirmed by then, or the same one, or the packaged bundle |
| StateCore.TwoSwitchesDefeatRollback | cpp/patch_core/state_core.cpp:28-77 | two switches without a launch leave an unconfirmed target |
| StateCore.StaleIsUnused | cpp/patch_core/state_core.cpp:40-50 | the version told to be deleted is never again loaded or a rollback target, until it is switched to anew |
| StateCore.RolledBackIsNotOffered | cpp/patch_core/state_core.cpp:64-77 | after a rollback and until its mark is cleared, no response makes the device download that version again |
| StoredItems.ScanSchemaVersion | cpp/patch_core/stored_items.cpp:162-175 | the digit loop |
| StoredItems.SchemaVersionIsPositive | cpp/patch_core/stored_items.cpp:162-175 | 0 exactly for what is not a plain positive decimal |
| StoredItems.Migrate | cpp/patch_core/stored_items.cpp:177-223 | the loops compute the specified plan |
| StoredItems.PlanLaws | cpp/patch_core/stored_items.cpp:177-223 | the schema version is the last put, once; every other put carries an item whose target reads as empty; the removes are the owned legacy keys, sorted, each once; a newer schema is left alone |
| StoredItems.OverwritesIff | cpp/patch_core/stored_items.h:50-53 | a plan puts over a key the store holds exactly when the schema version is no plain number and is held all the same, or an item to carry is held with an empty value |
| StoredItems.ItemsAreCarried | cpp/patch_core/stored_items.cpp:208-219 | every item with a legacy value and none in the store is carried |
| StoredItems.UnreadableSchemaIsOverwritten | cpp/patch_core/stored_items.cpp:186-221 | a schema value that is no plain number is overwritten |
| StoredItems.EmptyValueIsOverwritten | cpp/patch_core/stored_items.cpp:208-219 | an identifier held with an empty value is overwritten by the legacy one |
| StoredItems.ResumesAfterPuts | cpp/patch_core/stored_items.h:63-66 | re-running after any prefix of the puts yields exactly the rest, and the same removes |
| StoredItems.ResumesAfterRemoves | cpp/patch_core/stored_items.h:63-66 | re-running after all puts and any of the removes yields exactly the other removes, in order |
| StoredItems.ForeignKeysSurvive | cpp/patch_core/stored_items.cpp:193-201 | what is not removed keeps its value |
| CopyGroups.ReadCopies | cpp/patch_core/patch_manifest.cpp:42-106 | the manifest loop with its checksum map accepts and builds what the specification does |
| CopyGroups.ParsedIsConsistent | cpp/patch_core/patch_manifest.cpp:93-101 | accepted copies name every target once and no source with two checksums |
| CopyGroups.BuildCopyGroups | cpp/patch_core/archive_patch_core.cpp:93-126 | the loop with its index builds the groups in order of first appearance |
| CopyGroups.GroupsHold | cpp/patch_core/archive_patch_core.cpp:105-121 | the groups hold exactly the copies, every source once |
| CopyGroups.OneByOneCopies | cpp/patch_core/patch_core.cpp:662-684 | checking and copying one by one succeeds exactly when every source is there and matches, and then writes exactly the targets |
| CopyGroups.GroupingRefines | cpp/patch_core/archive_patch_core.cpp:93-126 | reading and checking every source once gives the outcome of checking and copying one by one, success and tree alike |
| CopyGroups.ManifestCopies | cpp/patch_core/patch_manifest.cpp:42-106 | so it does for the copies of every manifest text the parser accepts |
| CopyGroups.ConflictSlipsThrough | cpp/patch_core/archive_patch_core.cpp:117-120 | without the conflict check a group is checked against its last checksum only |

## Left out

- IEEE double arithmetic outside exact integers: rounding in the decimal-to-double conversion, and numbers that no double holds; %.17g is taken to round exactly, and the round trip is stated for integers up to 2 to the 53.
- Non-finite numbers: a sample, a deadline or a clock that is not finite reads as 0 in the source before it is used.
- Null pointers and output parameters of the C++ entry points.
- The text form of a round's state and events (StepRoundJson) and of the response cache: the state passes as a record.
- Counters capped at a billion when read back from the state; the lists they index are bounded by the parser.
- The configuration validator of hosts (NormalizeConfiguration) beyond its URL scan, and HostCancellation beyond the equivalence it uses.
- JSON.parse itself: the equivalence of both sides is stated for texts that both sides parse to the same value. Lone surrogates, which the native side reads as U+FFFD, raw control characters, which JSON.parse refuses, and texts over the native size and depth caps are outside.
- The acknowledgement of a JavaScript check (markJsCheckCompleted).
- `JsonParser.DecimalToDouble`: the value is the exact real, where the source rounds to a double.
- Request functions of the endpoint race always return a promise, as their type says; the durations measured are left out.
- `Activation.NeverStuck`: the checks before a switch begins (debug mode, downloaded hash) and error reports have no effect on the flag and are left out, as are markSuccess and switchVersionLater.
- The JSON form of the migration plan.
- `CopyGroups.GroupingRefines`: a host that searches its archives for a source by content, path safety checks, the directory merge and the bundle patch itself.
- `RoundTime.RoundTimeBound`: only waits on the network are counted; collecting the environment, the installed check and the commit have no bound of their own.
- The archive limits, the completion record, download resumption, the transform's wire format and the JavaScript download loop: separate clusters that none of the results above rests on.
- File, network, clock and lock access, React components, telemetry and the platform bindings.
