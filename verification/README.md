# A verified model of Air-Traffic's gateway and flywheel

Air-Traffic is a control plane with an inline redaction gateway. Requests to AI vendors pass
through the gateway, which finds personal data in them and masks it, blocks the request or
merely records it. The control plane hands out keys, policies and detection rules; gateways
pull them and report back. A test harness seeds traffic with known values, scores what was
found, and its *flywheel* turns misses into proposals for new detection rules that a person
approves.

This project models the parts where those promises are kept or broken, in Dafny, and proves
them. Each file holds one module.

| modules | what they model |
|---|---|
| `Spans`, `MergeMeaning`, `NestedMerge` | merging detected spans in place, and what the result means |
| `Masking`, `MaskMeaning` | typed masking of text, right to left |
| `Checksums`, `Generator` | the detectors' checksums and the harness values that must satisfy them |
| `Packs`, `Engines`, `Detection`, `ChainCoverage` | pattern packs, the two detection engines, the detector chain, and what becomes of a hit between them |
| `Json`, `Fields`, `Walkers`, `Bodies`, `Locations`, `Rewalk` | locating and rewriting the texts of a request body |
| `Policy`, `Pipeline`, `Gateway` | what the gateway does to a request, and what its heartbeat claims |
| `Keys`, `Replication` | the keystore, its file, and the copies gateways hold |
| `LineReader`, `EventStream` | scanning event streams under any chunking; the printer and parser of replies |
| `Reports`, `Heartbeats` | shipping request reports upward; the bounded map of heartbeats |
| `Misses`, `Gathering`, `EvidenceMeaning`, `SidecarProbe`, `Proposals`, `Upserts`, `UpsertEffects`, `Flywheel` | from a run's misses to proposals and packs, and what each step of the way must answer |
| `Ratchet`, `FlywheelRuns`, `FlywheelSafety`, `PatternFile` | what holds over every run of the flywheel, and across its restarts |
| `Score`, `Scoring`, `ScoreMeaning` | scoring a run, what the score conserves, and what each number counts |
| `Common`, `Counting`, `Sorting` | shared vocabulary; counts and sums over lists; the library sort |

`dafny verify dfyconfig.toml` checks everything.

## How the model reads the program

- Objects whose methods update their fields are classes, loops over buffers and lists are
  loops, and each such method is proved against a specification on values. Long-run properties
  are proved about transition systems built from those same specification functions:
  `Replication.Apply`, `Reports.Apply`, `FlywheelRuns.Apply` and `PatternFile.Next`. Where a
  method spans several steps, as a push of reports does, a lemma shows that it is a run of them
  (`Reports.PushIsRun`). A step that is not possible in a state leaves it unchanged, so the
  theorems quantify over all sequences of steps.
- Strings are sequences of bytes, one character per byte. Scores, gates and confidences are
  exact reals; the rounding of a proposed gate to hundredths is the identity on them.
- `sort.Slice` is any ordered permutation, since it is not stable; ids, secrets, times and the
  sidecar's answers are parameters.
- Outside functions come with the laws the program relies on: decoding an encoded document
  gives it back, encoded JSON holds no raw newline, no match and no reported span ends before it
  starts, codepoint offsets ascend, minted key ids are new, heartbeat stamps strictly increase,
  the curated patterns compile.
- Masking takes spans that do not overlap, as its own comment demands and as merging provides.
- Evidence is gathered under gates of at most one, which holds of everything approvals publish
  (`FlywheelRuns.PackIsSafe`).
- A step of the flywheel that gathers evidence is separate from the step that uses it, because
  probing happens before the lock is taken: anything may happen in between.

## Exact conditions and limits

- A gate is proposed one step below the lowest score seen, but never below 0.05. So once it is
  approved, a score that motivated it gets through if and only if that score itself is at least
  0.05 (`FlywheelSafety.MotivatingScoresAccepted`), however low the others are.
- The regex engine merges its hits before the chain's guards see them, and a guard judges the
  merged span. Whatever engines run, a valid hit is covered by what the chain reports if and only
  if the merged span that took it in survives guards and allow list, or the surviving claims of
  the other engines cover it (`ChainCoverage.HitCoveredExactly`). A hit that overlaps no other
  always is (`LoneHitCovered`). One that overlaps another may be lost together with it: with the
  built-in recognizers alone, an IP address and a valid card that begins with its last number
  (`AddressAndCardLost`); with an approved pattern, a valid card inside a longer hit of lower
  confidence (`AbsorbedCardDropped`).
- A revocation is final for a gateway that pulls it if and only if the keystore file no longer
  holds the key unrevoked and the pull was not skipped for a copy that does
  (`Replication.RevocationFinalExactly`, over every run in which key ids are minted once,
  restarts of any kind included). If the write of the revocation failed, a restart of the control
  plane alone is enough: the next pull replaces the gateway's copy by what the file holds, whether
  or not the gateway itself ever restarts (`KeptCopyForgets`, `UnwrittenRevocationForgotten`). A
  gateway that keeps its copy is safe from that as long as the control plane restarts only from a
  file no gateway is ahead of (`Replication.RevocationIsFinal`), and any gateway is as long as no
  restart reads a file that holds the key unrevoked (`Replication.RevokedReturnsOnlyFromFile`).
- A keystore write that fails leaves the new version in memory only. If the control plane then
  restarts while a gateway already holds that version, later changes reuse it for other
  contents and the gateway skips them. `Replication.RestartSafeExactly` proves that restarting
  is safe if and only if no gateway is ahead of the file.
- The same is true of the pattern file, whose approvals are published even if the write fails:
  `PatternFile.ReloadSafeExactly`. Across a restart a version goes on naming its content if and
  only if the file holds what was last published (`PatternFile.VersionNamesContentExactly`). The
  restart of `FlywheelRuns` finds in the file what was last in memory, so
  `FlywheelSafety.VersionNamesContent`, `FlywheelSafety.PublishedAsApproved` and the other
  theorems over its runs are about runs whose writes succeed;
  `PatternFile.EveryGuardedRunKept` carries the invariant to runs with failed writes.
- A gateway may withhold its claim of redaction although nobody could have been let through,
  when no credential exists for the open default or the open app; with credentials for both it
  claims redaction exactly if no credential is let through (`Gateway.HeartbeatExact`).
- A malformed pattern makes the regex engine refuse a whole pack, and the gateway records the
  version all the same. No pack built from approvals is ever refused
  (`FlywheelSafety.PublishedAsApproved`), so the case does not arise for them.
- Swapping neighbouring digits 0 and 9 is invisible to the card checksum
  (`Checksums.LuhnCatchesSwapExactly`).

## Model

| member | source | states |
|---|---|---|
| `Spans.Merge` | internal/gateway/detect/detector.go:123-148 | writing into the array being read yields what sorting and left-to-right compaction of the original spans would |
| `Spans.CompactInPlace` | internal/gateway/detect/detector.go:128-147 | no write reaches a span before it has been read |
| `MergeMeaning.MergeCoverage` | internal/gateway/detect/detector.go:121-148 | for any spans: the result is sorted and disjoint and covers exactly the positions the input covers |
| `MergeMeaning.MergeComponents` | internal/gateway/detect/detector.go:121-148 | for non-empty spans: one result per connected component of strict overlap, with its exact extent, its highest confidence and the type of a member that has it |
| `MergeMeaning.MergeKeepsFirstTop` | internal/gateway/detect/detector.go:123-148 | among the members of a result with the highest confidence, the one that comes first in the sort order gives the claim: a later equal one never replaces it |
| `MergeMeaning.MergeJoinsExactlyConnected` | internal/gateway/detect/detector.go:121-148 | two spans end up in one result if and only if a chain of overlaps connects them |
| `NestedMerge.NestedMergeIsFlatMerge` | internal/gateway/detect/regex.go:108-122 | merging one engine first and then everything gives the extents and confidences of one merge of everything |
| `NestedMerge.MergeIdempotent` | internal/gateway/detect/detector.go:123-148 | merging a merged list changes nothing |
| `NestedMerge.FootprintDetermines` | internal/gateway/detect/detector.go:118-148 | the merged extents are determined by which positions are covered and which neighbours are glued |
| `Masking.Mask` | internal/gateway/redact/mask.go:14-28 | right-to-left rewriting is left-to-right substitution of the valid spans, one typed placeholder each |
| `Masking.BoundsCheck` | internal/gateway/redact/mask.go:22-24 | the bounds check against the already rewritten text admits a span exactly if it is valid in the original |
| `MaskMeaning.SurvivesAt` | internal/gateway/redact/mask.go:11-28 | every position outside the spans survives, at its shifted place |
| `MaskMeaning.PlacedAt` | internal/gateway/redact/mask.go:11-28 | every span is replaced by its placeholder, at its shifted place |
| `MaskMeaning.SubstituteLength` | internal/gateway/redact/mask.go:21-27 | the masked text has exactly the length those two account for |
| `MaskMeaning.MaskHidesCovered` | internal/gateway/redact/mask.go:11-28 | texts that differ only under the spans are masked to the same text |
| `MaskMeaning.MaskDeterministic` | internal/gateway/redact/mask.go:18-27 | the unstable sort does not show: any order of the same spans gives the same text |
| `MaskMeaning.MergedMaskHides` | internal/gateway/redact/mask.go:11-28 | for merged spans, nothing under them can be read off the masked text |
| `Checksums.LuhnValid` | internal/gateway/detect/regex.go:136-162 | accepts exactly the texts with no hyphen beside them whose 13 to 19 digits have a weighted sum divisible by ten |
| `Checksums.CollectDigits` | internal/gateway/detect/regex.go:140-145 | keeps the digits in order and nothing else |
| `Checksums.LuhnCatchesSubstitution` | internal/gateway/detect/regex.go:149-161 | changing one digit of a valid number makes it invalid |
| `Checksums.CardSubstitutionRejected` | internal/gateway/detect/regex.go:136-162 | so does changing one digit of a recognised card in its text |
| `Checksums.LuhnCatchesSwapExactly` | internal/gateway/detect/regex.go:149-161 | swapping neighbours goes unnoticed exactly for equal digits and for 0 and 9 |
| `Checksums.IbanMod97` | internal/gateway/detect/regex.go:181-200 | accepts exactly the IBAN-shaped texts whose rearranged number is 1 modulo 97 |
| `Checksums.StepInjective` | internal/gateway/detect/regex.go:187-198 | one step of the remainder loop keeps different remainders different |
| `Checksums.IbanSubstitutionRejected` | internal/gateway/detect/regex.go:181-200 | changing one character of a valid IBAN for another of its sort makes it invalid |
| `Generator.LuhnCard` | internal/harness/gen.go:223-249 | draws what `GeneratedCard` describes; every such card has sixteen digits that satisfy the independently written validator |
| `Generator.InvalidLuhn` | internal/harness/gen.go:251-256 | draws what `TrapCard` describes; every such value has sixteen digits that fail the validator |
| `Generator.CardRecognised` | internal/gateway/detect/regex.go:136-162 | any card the generator may draw, set into any text, is recognised if and only if neither neighbouring character is a hyphen |
| `Generator.TrapNeverRecognised` | internal/harness/gen.go:251-256 | no trap value is recognised as a card in any text |
| `Generator.IbanRecognised` | internal/gateway/detect/regex.go:181-200 | any IBAN the generator may draw is recognised in any text, whatever adjoins it |
| `Generator.CheckDigitsComplete` | internal/harness/gen.go:260-272 | 98 minus the remainder is the right pair of check digits for every account number |
| `Generator.Iban` | internal/harness/gen.go:260-272 | draws what `GeneratedIban` describes; every such value passes the detector |
| `Generator.Fill` | internal/harness/gen.go:134-153 | truth and trap spans locate exactly the seeded values in the filled content |
| `Packs.CollectGates` | internal/harness/flywheel.go:261-271 | the gates in force are the lowest thresholds asked for, by type |
| `Packs.GatesUnique` | internal/harness/flywheel.go:261-271 | the gates are determined by the rules |
| `Engines.RegexEngine.SetPatternPack` | internal/gateway/detect/regex.go:88-106 | installs all patterns of a pack, or none if one does not compile; nothing of an earlier pack stays |
| `Engines.RegexEngine.Detect` | internal/gateway/detect/regex.go:108-122 | reports the merge of all validated hits |
| `Engines.HitsAre` | internal/gateway/detect/regex.go:108-121 | a span is a hit exactly if some recognizer's pattern finds it, its check (if any) passes, and type and confidence are that recognizer's |
| `Engines.PackRecognizersAre` | internal/gateway/detect/regex.go:88-106 | a pack adds exactly one recognizer per pattern rule: its type, its pattern, no check, its confidence or 0.75 if it names none |
| `Engines.PresidioEngine.SetPatternPack` | internal/gateway/detect/presidio.go:47-79 | ad hoc rules, types and minimal gates all come from the new pack |
| `Engines.PresidioEngine.RequestThreshold` | internal/gateway/detect/presidio.go:88-99 | asks for the lowest gate any type is held to |
| `Engines.PresidioEngine.Detect` | internal/gateway/detect/presidio.go:88-165 | keeps exactly the in-range results of known types at or above their own gate |
| `SidecarProbe.AcceptedExactly` | internal/gateway/detect/presidio.go:131-164 | a claim comes out exactly if some result has a known name, lies in range and scores at least the gate of its type; its offsets are the byte offsets, its confidence the score |
| `Engines.AdHocAre` | internal/gateway/detect/presidio.go:47-79 | the sidecar is sent exactly the pattern rules and the deny lists that are not empty |
| `Engines.OneStage` | internal/gateway/detect/presidio.go:152-158 | filtering at the lowest gate and then per type keeps what the per-type gates alone would keep |
| `Detection.Chain.SetPatternPack` | internal/gateway/detect/detector.go:61-77 | the allow list holds exactly the terms of the new pack |
| `Detection.Chain.Run` | internal/gateway/detect/detector.go:97-119 | merges the claims of all working engines that survive guards and allow list, and reports the failures |
| `ChainCoverage.SurvivesExactly` | internal/gateway/detect/detector.go:79-114 | a claim is suppressed exactly if the guard of its type refuses it, or its text, lowered, is the lowered term of an installed allow rule of its type |
| `Detection.PackInstall.PullPatterns` | internal/gateway/spine_pull.go:176-222 | chain and both engines move to the new pack together or stay on the old one |
| `Detection.PackInstall.DetectText` | internal/gateway/detect/detector.go:97-119 | with the engines a gateway runs: the regex engine's merged hits and the sidecar's gated claims each pass guards and allow list, and what is left is merged; this is what a chain with these two answers reports |
| `ChainCoverage.HitCoveredExactly` | internal/gateway/detect/detector.go:103-116 | in any chain, a hit of an engine that merges its hits is covered by the result if and only if the one merged span around it survives guards and allow list, or the other engines' surviving claims cover it |
| `ChainCoverage.LoneHitCovered` | internal/gateway/detect/regex.go:108-122 | a hit that passes guard and allow list and overlaps no other hit is covered |
| `ChainCoverage.InstalledPatternCovered` | internal/gateway/detect/regex.go:88-122 | everything the pattern of an installed rule finds is covered by what the regex engine reports |
| `ChainCoverage.AbsorbedCardDropped` | internal/gateway/detect/detector.go:108-110 | a valid card inside a longer hit of lower confidence can go unreported: for every digit but nought and every generated card, the merge of the two is refused by the card guard |
| `ChainCoverage.AddressAndCardLost` | internal/gateway/detect/regex.go:44-78 | with the built-in recognizers, an IP address and a valid card that overlap in one digit are both hits, and neither is reported |
| `ChainCoverage.OverlappingHitsLost` | internal/gateway/detect/detector.go:108-119 | where the regex engine alone runs, two overlapping hits are both lost if the guard of the surer one refuses their union |
| `Json.PutRewrites` | internal/gateway/adapter_anthropic.go:36-74 | a setter replaces its leaf and leaves everything else alone |
| `Json.RewrittenUnique` | internal/gateway/adapter_anthropic.go:36-74 | the rewritten document is determined by the texts put in |
| `Json.Extensional` | internal/gateway/adapter_anthropic.go:120-150 | documents that agree at every location are equal |
| `Fields.PutAllRewrites` | internal/gateway/adapter_anthropic.go:36-74 | running all setters replaces exactly the located leaves |
| `Fields.SettersCommute` | internal/gateway/adapter_anthropic.go:36-74 | in whatever order they run |
| `Walkers.TreeLocatedExactly` | internal/gateway/adapter_anthropic.go:118-150 | a string inside tool input is located exactly if its nesting is within the depth limit |
| `Walkers.WalkJsonStrings` | internal/gateway/adapter_anthropic.go:120-150 | locates each such string once |
| `Walkers.WalkContent` | internal/gateway/adapter_anthropic.go:77-116 | locates exactly the texts of a list of content blocks |
| `Walkers.WalkBlock` | internal/gateway/adapter_anthropic.go:77-116 | locates exactly the texts of one block, nested ones included |
| `Walkers.StringField` | internal/gateway/adapter_anthropic.go:153-159 | locates a member exactly if it is a string |
| `Bodies.WalkAnthropicBody` | internal/gateway/adapter_anthropic.go:36-74 | locates each text of an Anthropic body once, as it reads, and nothing else |
| `Bodies.WalkOpenAIBody` | internal/gateway/adapter_openai.go:37-86 | the same for an OpenAI body |
| `Bodies.WalkOpenAIParts` | internal/gateway/adapter_openai.go:89-102 | the same for its content parts |
| `Locations.ContentExactly` | internal/gateway/adapter_anthropic.go:77-116 | the located strings of a content value, path by path and by the type each block gives for itself: text, nested tool results, tool input within the depth limit, and of documents title, context and plain source |
| `Locations.AnthropicExactly` | internal/gateway/adapter_anthropic.go:36-74 | the located strings of an Anthropic body, by absolute path: system, message contents and tool descriptions, nothing else |
| `Locations.OpenAIExactly` | internal/gateway/adapter_openai.go:37-102 | the located strings of a chat-completions body, by absolute path: message contents and text parts, names, call arguments old and new, and function descriptions, nothing else |
| `Rewalk.RewalkSameLocations` | internal/gateway/adapter_anthropic.go:36-159 | masking changes no location: the rewritten body has its texts where the original had them |
| `Rewalk.RewalkFindsNewTexts` | internal/gateway/adapter_anthropic.go:36-159 | walking it again finds the same fields with their new texts |
| `Policy.ActionMeaning` | internal/model/gateway_action.go:47-70 | a baseline enforces exactly if redaction is not off; attestation matters exactly if the baseline redacts health data under enforced zero retention; attested, nothing is blocked |
| `Pipeline.ScanComplete` | internal/gateway/proxy.go:240-261 | scanning every located field yields exactly the texts a masked document needs |
| `Pipeline.RecordedEntries` | internal/gateway/proxy.go:240-264 | the audit lists an entry exactly if it gives the place, type, offsets, detector and confidence of a claimed span of some field |
| `Pipeline.InspectDone` | internal/gateway/proxy.go:240-285 | after the loop: failures, redactions and the rewritten document are those of the whole body |
| `Gateway.Server.ScanFields` | internal/gateway/proxy.go:240-264 | the mask loop, field by field, with the audit's list of redactions |
| `Gateway.Server.Inspect` | internal/gateway/proxy.go:230-298 | refuses, forwards untouched or forwards masked, exactly as the action and the detections say; the audit lists the merged claims of every located field |
| `Gateway.Server.Handle` | internal/gateway/proxy.go:84-163 | only authenticated requests are forwarded, and while redaction is claimed nothing detected goes out unmasked; for a body with a claim: a pinned action decides alone; else a pulled baseline of the caller decides, whatever the policy says; else the applied policy; else masking |
| `Gateway.AdmittedExactly` | internal/gateway/keystore.go:71-112 | a credential is admitted exactly if it is a boot-time key, or the plaintext of a held key that is unrevoked, unexpired, on its routes and of an enabled app; the caller then has that app's baseline, or none |
| `Gateway.HeartbeatIsHonest` | internal/gateway/spine_emit.go:176-208 | while redaction is claimed, every credential that authenticates resolves to mask or block |
| `Gateway.HeartbeatWithheldOnlyIfOpen` | internal/gateway/spine_emit.go:176-208 | a served gateway withholds the claim only if every boot-time key is let through unmasked, or some scoped app is with every valid key of its own, each of which authenticates |
| `Gateway.HeartbeatExact` | internal/gateway/spine_emit.go:176-208 | where such credentials exist, the claim says exactly that no credential is let through |
| `Gateway.Server.HeartbeatClaim` | internal/gateway/spine_emit.go:176-195 | claims redaction exactly if the route is served, the default action enforces and every scoped app does |
| `Gateway.Server.AllAppsEnforce` | internal/gateway/keystore.go:118-132 | true exactly if every app with a baseline of its own enforces |
| `Gateway.Server.PullKeys` | internal/gateway/spine_pull.go:70-86 | a failed pull or an equal version changes nothing; any other installs the snapshot |
| `Gateway.Server.PullPolicy` | internal/gateway/spine_pull.go:88-152 | the policy action follows the applied baseline; failures leave it as it was |
| `Keys.ParseInvertsPlain` | internal/model/keystore.go:99-141 | a presented key parses to an id and secret exactly if it is their plaintext |
| `Keys.Store.CreateApp` | internal/store/keystore.go:45-64 | a valid new app enters as given under the next version, all else as before; an invalid or taken id changes nothing |
| `Keys.Store.UpdateApp` | internal/store/keystore.go:69-91 | each field given becomes exactly what was given, each other field, app and key stays, under the next version |
| `Keys.Store.IssueKey` | internal/store/keystore.go:111-148 | stores the digest of the secret for an existing app, with subject, routes and expiry as asked, hands out the plaintext, and leaves all else |
| `Keys.Store.RevokeKey` | internal/store/keystore.go:152-167 | revokes the key, and it alone, at the given time; revoking again changes nothing |
| `Keys.Store.KeySnapshot` | internal/store/keystore.go:190-208 | lists every app and key, ordered |
| `Keys.Store.BumpKeys` | internal/store/keystore.go:216-229 | advances the version and writes through, recording whether that worked |
| `Keys.Store.EnableKeystorePersistence` | internal/store/keystore_persist.go:62-84 | a fresh store takes over exactly what the file holds |
| `Keys.NewKeySnapshot` | internal/gateway/keystore.go:56-69 | the gateway's indexes hold exactly the snapshot's apps and keys |
| `Keys.IndexInvertsListing` | internal/gateway/keystore.go:56-69 | indexing a listing gives back the map that was listed |
| `Replication.RunConsistent` | internal/gateway/spine_pull.go:70-86 | over every run whose ids are new and whose control plane restarts only from a file no gateway is ahead of, equal versions mean equal contents between store, file and gateways |
| `Replication.PullIsExact` | internal/gateway/keystore.go:92-112 | after every such run a pull, skipped or not, leaves the gateway deciding every credential as the store would |
| `Replication.RevocationIsFinal` | internal/store/keystore.go:150-167 | a gateway that has pulled after a revocation and keeps its copy never accepts the key again, written or not, unless the control plane restarts while some gateway is ahead of the file |
| `Replication.RevokedReturnsOnlyFromFile` | internal/store/keystore.go:150-167 | over every run in which the id is not minted again, a revoked key that a gateway refuses comes back only if the control plane restarts from a file that holds it unrevoked |
| `Replication.RevocationFinalExactly` | internal/store/keystore_persist.go:57-84 | over every run in which the id is not minted again, whatever restarts: the key stays refused if and only if neither the file nor the pulled copy would let it through, and the same holds for gateways that never restart and for the issued secret alone |
| `Replication.WrittenRevocationIsFinal` | internal/store/keystore.go:150-167 | a revocation whose write succeeds is final for a gateway that pulls it, whatever happens next, unless an earlier restart had reused versions |
| `Replication.KeptCopyForgets` | internal/gateway/spine_pull.go:70-86 | after a revocation that was not written, a gateway that has pulled it and never restarts accepts the issued secret again once the control plane alone has restarted |
| `Replication.UnwrittenRevocationForgotten` | internal/store/keystore.go:216-229 | such a run and one in which the gateway restarts too, with a credential as it is presented |
| `Replication.IssuedKeyAuthenticates` | internal/store/keystore.go:106-148 | the plaintext handed out authenticates after a pull exactly while it is unexpired, on its routes, for an enabled app |
| `Replication.AuthenticatesExactly` | internal/gateway/keystore.go:92-112 | a credential authenticates exactly if its key is held with that digest, unrevoked, unexpired, on the route, and its app is held and enabled; the caller is that key's subject and app |
| `Replication.OnlyIssuedAuthenticate` | internal/store/keystore.go:106-148 | over every run, whatever restarts, a gateway admits a credential only if some step issued that very key with that secret, for that route and time, and to the subject reported |
| `Replication.DisabledAppLockedOut` | internal/store/keystore.go:69-91 | once an app is disabled and a gateway has pulled, no key of the app authenticates there |
| `Replication.StepRemembers` | internal/store/keystore.go:150-167 | no step but its own restart, or a restart of the control plane while some gateway is ahead of the file, makes a gateway forget a revocation it has seen |
| `Replication.RestartSafeExactly` | internal/store/keystore_persist.go:57-84 | restarting the control plane keeps the version contract for good if and only if no gateway is ahead of the file |
| `LineReader.Scanner.Feed` | internal/gateway/stream.go:72-95 | under any chunking the lines scanned are suffixes of the true lines, whole if they fit, and the buffer stays within its cap |
| `LineReader.Scanner.CloseLine` | internal/gateway/stream.go:72-82 | a newline completes the kept part |
| `LineReader.Scanner.KeepRest` | internal/gateway/stream.go:83-95 | what follows the last newline is kept if it fits and dropped otherwise |
| `LineReader.Scanner.Flush` | internal/gateway/stream.go:98-103 | a trailing line without newline is scanned once |
| `LineReader.Scanner.Finish` | internal/gateway/stream.go:98-144 | if all lines fit, the totals are the maxima over the lines |
| `LineReader.Scanner.Take` | internal/gateway/stream.go:127-134 | counts are high-water marks |
| `LineReader.CopyStream` | internal/gateway/stream.go:38-63 | relays exactly the bytes read up to the first error; on a complete relay with lines that fit, the totals are the maxima over its lines |
| `LineReader.ReflectsWhole` | internal/gateway/stream.go:65-103 | if all lines fit, the lines scanned are the true lines |
| `LineReader.HighIsHighest` | internal/gateway/stream.go:119-144 | a mark is the highest count reported, never below zero |
| `LineReader.HighIgnoresOrderAndRepeats` | internal/gateway/stream.go:119-144 | duplicated and reordered events do not change it |
| `EventStream.StreamInference` | internal/synthetic/inference.go:128-166 | prints the reply as deltas, all of exactly the chosen size but for a shorter last one, between a fixed head and foot of JSON events |
| `EventStream.ReassembleSSE` | internal/harness/streamscan.go:12-30 | concatenates the `delta.text` members of the data lines whose `delta.type` is that of a text delta, skipping what has another shape |
| `EventStream.ReassembleInvertsStream` | internal/harness/streamscan.go:12-30 | reassembling a printed reply gives back the reply: of all the events printed, only text deltas carry the members it selects |
| `EventStream.StreamAndReassemble` | internal/synthetic/inference.go:128-166 | for every ASCII reply and either chunk size |
| `EventStream.EmittedLines` | internal/synthetic/inference.go:138-146 | the printed stream consists of exactly the event lines and ends with a newline |
| `EventStream.ScannerReadsCounts` | internal/gateway/stream.go:152-173 | the scanner, selecting `type`, `message.usage` and `usage`, reads back exactly the printed input and output counts |
| `EventStream.StreamAndScan` | internal/gateway/stream.go:38-63 | under any re-chunking of a stream whose lines fit |
| `Reports.AuditRing.Add` | internal/gateway/audit.go:32-39 | keeps the newest 5000 |
| `Reports.AuditRing.Drain` | internal/gateway/audit.go:41-47 | hands out everything and empties the ring |
| `Reports.AuditRing.Requeue` | internal/gateway/audit.go:51-58 | puts reports back in front, cutting at the new end |
| `Reports.AuditRing.PushReports` | internal/gateway/spine_emit.go:133-157 | sends chunk after chunk; the first answer that is neither acceptance nor final rejection puts the rest back |
| `Reports.FateByStatus` | internal/gateway/spine_emit.go:159-174 | below 300 is delivered, 400 and 413 are final rejections, every other status and silence mean trying again |
| `Reports.ChunkFate` | internal/gateway/spine_emit.go:133-157 | chunk by chunk and by status code, whether a report is sent, dropped for good, or back in the ring |
| `Reports.AnsweredPartition` | internal/gateway/spine_emit.go:138-156 | each report of an answered chunk is sent or dropped, never both |
| `Reports.PushIsRun` | internal/gateway/spine_emit.go:133-157 | one push is a run of the steps drain, chunk accepted or rejected, and failure: what it sends, drops and puts back is what that run delivers, rejects and leaves |
| `Reports.RunConserves` | internal/gateway/spine_emit.go:133-174 | every step keeps the ledger of waiting, delivered, rejected and overflowed reports |
| `Reports.EveryRunConserves` | internal/gateway/audit.go:32-58 | over every interleaving of adds, drains and answers each report is in exactly one place |
| `Reports.LossOnlyByRejectionOrOverflow` | internal/gateway/spine_emit.go:143-154 | a report is lost only by a rejected chunk or a full ring |
| `Reports.RingIsSubsequence` | internal/gateway/audit.go:32-58 | the ring never exceeds 5000 and is an in-order subsequence of the reports added |
| `Heartbeats.HeartbeatMap.SetGatewayEnforcement` | internal/store/gateway.go:88-109 | the map holds the latest beat of each of the 32 most recently heard gateways, or of all if fewer |
| `Heartbeats.HeartbeatMap.GatewayEnforcement` | internal/store/gateway.go:113-130 | seen and fresh mean what they say, and the gateway named is one that is |
| `Heartbeats.HeldExactly` | internal/store/gateway.go:80-109 | a gateway holds a slot exactly while fewer than 32 others have been heard since |
| `Heartbeats.EvictOldest` | internal/store/gateway.go:94-107 | evicting the oldest keeps the most recent |
| `Heartbeats.LatestIsYoungest` | internal/store/gateway.go:108-108 | the beat kept for a gateway is its youngest |
| `Misses.CandidateCovers` | internal/harness/flywheel.go:178-187 | true exactly if some match of the pattern touches a truth span of the type |
| `Misses.CollectMisses` | internal/harness/flywheel.go:118-139 | hits per curated pattern and uncovered misses, in order |
| `Misses.HitsCount` | internal/harness/flywheel.go:118-139 | a pattern's hits are the missed types of its own on whose truth spans it matches, over the requests that went through |
| `Misses.UncoveredAre` | internal/harness/flywheel.go:118-139 | what is left uncovered is exactly the misses on which no curated pattern of the type matches |
| `Misses.MissesConserved` | internal/harness/flywheel.go:118-139 | every missed type is a hit of exactly one curated pattern or left uncovered, once |
| `Gathering.BestOverlap` | internal/harness/flywheel.go:293-304 | the highest score of the probed spans that meet the missed one, and whether there is any |
| `Gathering.BestScoreIsBest` | internal/harness/flywheel.go:293-304 | no such span scores higher, and one attains it unless it is zero |
| `Gathering.MissSpanCount` | internal/harness/flywheel.go:280-291 | the truth spans of the type, but at least one |
| `Gathering.AskProbe` | internal/harness/flywheel.go:219-232 | the first 25 distinct contents are sent to the sidecar in order until one fails; an answer serves every later miss with the same content |
| `Gathering.RawIsHeard` | internal/harness/flywheel.go:213-232 | what the loop knows of a content is the answer to the place it has among the distinct contents, provided that place is below 25 and no earlier or own probe failed |
| `Gathering.WeighSpan` | internal/harness/flywheel.go:237-253 | a missed span counts for a lower gate only if a probe saw it below the gate, for a deny term only if it is a plain value of a free-text type, else for neither |
| `Gathering.SynthesizeConfig` | internal/harness/flywheel.go:192-257 | evidence for exactly the missed types under the gate in force, backed by probes and missed values; every missed span counted once; the recorded score is the lowest of those counted; without the sidecar all is manual |
| `Gathering.ProbeRunLowest` | internal/harness/flywheel.go:237-244 | no span that counts for a lower gate was seen at a score below the recorded one, and some span was seen at exactly it |
| `EvidenceMeaning.EvidenceCounts` | internal/harness/flywheel.go:192-257 | every number of the evidence as a count over misses and answers alone: spans seen below the gate, plain unseen values for deny terms and those terms, the rest manual; the lowest score attained |
| `EvidenceMeaning.AnsweredSpanCounts` | internal/harness/flywheel.go:217-244 | if the answers to the first k+1 distinct contents succeed and the last sees a missed span below the gate, the type gains gate evidence at that score or lower |
| `EvidenceMeaning.NothingHeardAfterFailure` | internal/harness/flywheel.go:219-232 | after the first failure, and beyond 25 probes, no later content is heard of |
| `EvidenceMeaning.ManualEvidenceCounts` | internal/harness/flywheel.go:206-211 | without the sidecar in the chain each miss counts its truth spans of the type, at least one, and nothing else is evidence |
| `SidecarProbe.AnalyzeRaw` | internal/harness/probe.go:38-89 | the probe's spans are exactly the results in range that have a name, under our name for the type or the sidecar's |
| `SidecarProbe.ProbedSpanClaimed` | internal/gateway/detect/presidio.go:129-164 | what a probe saw at a score the gateway's engine claims at that score if and only if the type's gate lets it through |
| `Proposals.RuleFromProposal` | internal/harness/flywheel.go:549-596 | only safe rules come out, about the proposal's own id and type |
| `Proposals.SafeRulesPass` | internal/harness/flywheel.go:549-596 | and every safe rule gets through unchanged |
| `Proposals.ProposedGateAccepts` | internal/harness/flywheel.go:495-503 | a proposed gate lets its score through if and only if the score is at least 0.05; it lies between one and two steps below the score, or at 0.05 |
| `Proposals.ProposedGateOnGrid` | internal/harness/flywheel.go:495-503 | gates lie on the grid of twentieths, within bounds, and at most 0.30 for a score below the default gate |
| `Proposals.FreeProposalID` | internal/harness/flywheel.go:480-493 | the unbounded search ends, at the first id that is free |
| `Proposals.FreeFromIsFirst` | internal/harness/flywheel.go:488-492 | every number passed over is taken |
| `Upserts.ThresholdRefreshes` | internal/harness/flywheel.go:373-408 | a threshold row only ever widens, within bounds; settled rows are left alone |
| `Upserts.DenyRefreshes` | internal/harness/flywheel.go:413-463 | a deny row gains only terms no deny row of the type holds, whatever its status |
| `Upserts.DenyRowGrows` | internal/harness/flywheel.go:441-451 | the room left is never negative and the row stays within fifty valid terms |
| `Upserts.ManualRefreshes` | internal/harness/flywheel.go:465-478 | manual rows only accumulate |
| `Upserts.UpsertAllRefreshes` | internal/harness/flywheel.go:313-368 | over a whole run: rows stay, settled rows do not change, whatever is proposed can be approved, no term is revived |
| `UpsertEffects.PatternAnswered` | internal/harness/flywheel.go:323-341 | after a whole run every curated pattern with hits has its row: a new one is proposed with the pattern's own type, regex and confidence and the hits; an open one has grown by the hits; a settled one is as it was |
| `UpsertEffects.TypeAnswered` | internal/harness/flywheel.go:348-364 | what evidence of a type must lead to: a gate at or below what its lowest score asks for, every term held by some deny row or cut by the limit, manual misses on the manual row, which an artifact supersedes |
| `UpsertEffects.GainsExactly` | internal/harness/flywheel.go:373-463 | an artifact is gained exactly if the gate asked for is not yet settled, or a deny row is open or some term is in no row |
| `UpsertEffects.AllTermsTaken` | internal/harness/flywheel.go:413-463 | after a whole run each deny term of the evidence stands in a deny row of its type, or the open row is full |
| `Flywheel.Runner.UpsertThreshold` | internal/harness/flywheel.go:373-408 | lowers the open row, or opens one under a free id, unless a settled row already asks for as low a gate |
| `Flywheel.Runner.UpsertDeny` | internal/harness/flywheel.go:413-463 | adds the terms no deny row of the type holds to the open row, as far as there is room, or opens a row with the first fifty |
| `Flywheel.Runner.UpsertManual` | internal/harness/flywheel.go:465-478 | a manual row accumulates misses, a superseded one stays as it is, a missing one is opened |
| `Flywheel.Runner.UpsertType` | internal/harness/flywheel.go:348-364 | the list becomes one that answers the evidence of the type, as `UpsertEffects.TypeAnswered` says |
| `Flywheel.Runner.UpsertProposals` | internal/harness/flywheel.go:313-368 | candidates first, then the types in the order of their names; every curated pattern with hits is answered by a row and every deny term is taken up |
| `Flywheel.Runner.AddProposal` | internal/harness/flywheel.go:608-638 | an owner's proposal enters, last and open, exactly if it has type and rationale, makes a safe rule and its id is new; otherwise nothing changes |
| `Flywheel.Runner.ApproveProposal` | internal/harness/flywheel.go:643-685 | succeeds exactly if an open row has the id; then that row alone is approved and one rule is added under the next version |
| `Flywheel.Runner.RejectProposal` | internal/harness/flywheel.go:687-701 | succeeds exactly if an open row has the id; that row alone becomes rejected and the rules stay |
| `Ratchet.ThresholdRatchets` | internal/harness/flywheel.go:373-408 | evidence below the default gate keeps the ratchet |
| `Ratchet.AtMostSixGates` | internal/harness/flywheel.go:373-408 | a ratcheted type has at most six threshold rows |
| `FlywheelRuns.EveryRunConsistent` | internal/harness/flywheel.go:313-493 | over every run proposals are sound, the published rules are what approvals made them, and every gateway holds the rules published under its version |
| `FlywheelRuns.PackIsSafe` | internal/harness/flywheel.go:546-596 | every rule that approvals published is safe: its patterns compile and its gates stay in bounds |
| `FlywheelSafety.ProposalLifecycle` | internal/harness/flywheel.go:549-701 | ids stay unique, settled rows never change again, and approving a proposed row succeeds |
| `FlywheelSafety.HistoryKept` | internal/harness/flywheel.go:313-478 | rows are never removed or reordered and published rules are only added to |
| `FlywheelSafety.RejectedTermsStayRejected` | internal/harness/flywheel.go:410-463 | over every run, a term that some deny row has held stands in another row only if an owner has since written that very row by hand with the term in it |
| `FlywheelSafety.UpsertsProposeNewTerms` | internal/harness/flywheel.go:410-463 | every upsert of every run, hand-written rows or not, adds only terms that no deny row of the type held |
| `FlywheelSafety.EachTermHasOneHolder` | internal/harness/flywheel.go:410-463 | no term stands in two deny rows of the type, and no list exceeds fifty |
| `FlywheelSafety.GatesRatchetDown` | internal/harness/flywheel.go:233-278 | over every run without hand-written gates for the type: one open row at most, strictly falling gates, six rows at most |
| `FlywheelSafety.MotivatingScoresAccepted` | internal/harness/flywheel.go:370-408 | gate evidence gets a row; once that row is approved, at any later time, every single score that motivated it gets through, and the engine claims the missed span at it, if and only if the score is at least 0.05 |
| `FlywheelSafety.ApprovedGateInForce` | internal/gateway/detect/presidio.go:47-79 | the gate in force is at most what any approved threshold row of the type asks for |
| `FlywheelSafety.PublishedAsApproved` | internal/harness/flywheel.go:643-685 | version and rule count grow by one per approval, one rule per approved row, all safe and accepted by the regex engine |
| `FlywheelSafety.VersionNamesContent` | internal/harness/flywheel.go:665-675 | in runs whose writes succeed, a version identifies the rules published under it |
| `PatternFile.EveryGuardedRunKept` | internal/harness/runner.go:108-117 | over every run with failed writes and restarts from a file no gateway is ahead of, rules, versions and gateways stay as approvals made them |
| `PatternFile.ReloadSafeExactly` | internal/harness/runner.go:60-90 | a restart keeps gateways at a version on its rules for good if and only if no gateway is ahead of the file |
| `PatternFile.VersionNamesContentExactly` | internal/harness/flywheel.go:665-675 | without a restart whatever is published under a version is the same rules for good; across one if and only if the file holds what was last published |
| `FlywheelSafety.PullPublished` | internal/gateway/spine_pull.go:176-222 | a gateway's chain and engines always hold the rules published under the version it holds |
| `Scoring.ScoreRun` | internal/harness/score.go:26-152 | the books hold every mark of every request that went through, failed requests are listed unscored, and both sides of the ledger balance |
| `Scoring.Behave` | internal/harness/score.go:69-85 | each seeded value is leaked, caught, or unknown because the request was neither captured nor blocked |
| `Scoring.Recall` | internal/harness/score.go:88-107 | each seeded value is a hit or a miss, matched to the first redaction that meets it |
| `Scoring.Precision` | internal/harness/score.go:108-122 | each redaction is counted for its engine, and as false if it matched no value |
| `Scoring.MissedTypesMeaning` | internal/harness/score.go:172-179 | the missed types are those with a leaked or unreported value, each once |
| `Score.LedgerTallies` | internal/harness/score.go:78-116 | the type table counts every mark under its own type |
| `Score.LedgerSumsUp` | internal/harness/score.go:78-116 | its columns sum to the totals |
| `Score.SumPick` | internal/harness/score.go:27-27 | a sum over the table does not depend on the order of its entries |
| `Scoring.ScoreConserves` | internal/harness/score.go:26-152 | seeded values equal tp plus fn, and caught plus leaked plus unknown; requests are joined or orphaned; engine counts equal false plus matched redactions; rates lie in the unit interval and behavioral recall is 1 exactly without leaks |
| `ScoreMeaning.ScoreCounts` | internal/harness/score.go:26-152 | every total as a count over outcomes and what the captures contain: leaked values, values caught, values nothing is known of, values reported or not, false redactions, joined requests, leaked replies |
| `ScoreMeaning.TypeScoreCounts` | internal/harness/score.go:76-116 | and every cell of the type table |
| `ScoreMeaning.PerfectExactly` | internal/harness/score.go:69-85 | behavioral recall is 1 exactly if no capture contains a value seeded in its request |
| `ScoreMeaning.EngineCounts` | internal/harness/score.go:108-109 | an engine's count is the number of redactions reported under its name |
| `ScoreMeaning.TrapCounts` | internal/harness/score.go:110-121 | the trap count is the number of pairs of a false redaction and a trap it meets |
| `ScoreMeaning.RowTells` | internal/harness/score.go:43-57 | a row gives the report's action and redactions, block for an unreported 400, and misses a type exactly if a value of it was leaked or unreported |

## Left out

- Network transport, TLS, timeouts, headers, host guards, process start and logging: requests and pulls are modelled as accepted, rejected, failed or not made.
- Errors after inspection (upstream address, vendor credential): they refuse the request and forward nothing.
- The web interface, the vendor catalogue, cost facets, metrics and observation rings, and argument clamping: they would add only easy members.
- Byte-for-byte re-encoding of a masked document: claims are about the decoded document.
- JSON setters write into shared nested containers in the program; the model has one mutable document and puts texts at locations, so aliasing between setters is not captured.
- The human-readable `path` strings of the audit and its latency, model and fail-mode fields: redactions carry locations instead.
- Trimming of non-ASCII white space, and replies that are not ASCII in the stream round trip, which are cut at bytes.
- The IPv4 octet guard is an entry of the guard table with no arithmetic of its own, and the regular expressions that find hits are functions given from outside.
- The OpenAI usage scanner is one instance of the usage function that the line reader takes as a parameter.
- The `pass` action: no baseline resolves to it.
- Bytes of a write that failed half way.
- Concurrency below the granularity of locks: steps are atomic.
- The replay corpus, its promotion and its fingerprint, and the texts of rationales and audit events.
- Files edited by hand, and a pattern file that cannot be read at start.
- Floating-point rounding of scores and rates.
- MergeMeaning.MergeComponents: stated for non-empty spans, since an empty span overlaps nothing strictly; coverage and disjointness are proved for all spans in `MergeMeaning.MergeCoverage`.
- Replication.RunConsistent: about runs whose control plane restarts only from a file no gateway is ahead of, without which it is false; `Replication.RestartSafeExactly` says exactly so.
- LineReader.Scanner.Feed: does not say which suffix of an over-long line is scanned, only that it is one.
- FlywheelSafety.VersionNamesContent: assumes that the writes of the pattern file succeed, since publication does not wait for them; `PatternFile.VersionNamesContentExactly` says exactly when a restart after a failed write keeps versions to their content.
- ChainCoverage.HitCoveredExactly: stated for non-empty hits, like `MergeMeaning.MergeComponents`.
- FlywheelSafety.GatesRatchetDown: starts from an empty list and assumes no threshold row written by hand for the type, without which earlier gates may be anything.
