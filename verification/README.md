# A verified model of the alien tooling kernels

This project models, in Dafny, the parts of the alien repository that carry real state, concurrency or
arithmetic, and proves what those parts promise. Each module follows one component:

- **Control-UI translation sync** (`scripts/control-ui-i18n.ts`): `OrderedMaps`, `DottedKeys`, `LocaleTree` and
  `LocaleRebuild` (flattening locale trees and rebuilding them), `LocaleMemory` (the translation memory file and its
  hash index), `Batching`, `Translation` and `BatchRun` (prompts under a size budget, retries and splits, all batches
  of a run), `LocaleSync`, `LocaleRun`, `LocaleFill`, `LocaleDisk` (one `syncLocale` run, as the script performs it
  and as a function of the files), `LocaleIdempotence`, `LocaleSecondRun` and `LocaleLaterRun` (what later runs do), `LocaleOutcome`
  (what a run decides and writes, from the files it reads),
  `PiRpc` (the RPC child, whose completion events carry no request id) and `ClientUse` (the actions of
  `translateBatch` played against that protocol).
- **Self-respawning CLI** (`src/entry.respawn.ts`, `src/entry.compile-cache.ts`): `RespawnPlan` (the two planners and
  chains of respawns) and `SignalEscalation` (the timed shutdown of the parent).
- **Event and concurrency kernels**: `RunCommand` (the settle-once process runner) and `WorkerPool` (the two
  shared-index pools under every interleaving).
- **Scanners and parsers**: `GuardrailScanner`, `JpegWalk`, `BlockRewrite`, `Utf16`, with `Texts` for trimming and
  `Wrappers` for values that may be missing.
- **Sparkle builds and the appcast check**: `SparkleBuild`, `Appcast`.
- **Indexes and graphs**: `StableJson`, `SchemaRegistry`, `ProcessTree`.

Objects whose callbacks change shared variables are classes (`PiRpcClient`, `Supervisor`, `Runner`, `SharedPool`,
`QuoteScanState`, `SchemaNames`); every method is proved to do to the fields what a transition function says, and the
theorems about whole runs are about those functions. Loops are methods proved against a specification.

Some promises hold of the code only under a condition. The code is modelled as it is, and the condition is proved
to be exact:

- Flattening a tree that was rebuilt from dotted keys gives the keys back iff no key starts with a dot and no key
  extends another one by a dot (`FlattenRebuilt`). The same condition on the flattened source locale decides whether a
  second sync run is always a no-op (`SecondRunIsClean`, `UncleanSecondRun`). Trees with nonempty dot-free keys meet it.
- With dot-free keys, flattening joins paths by dots iff no text sits in a map under an empty top-level key
  (`FlattenJoinsPaths`).
- After a run, a later run without a provider whose cache namespace differs (because the API keys do) is a no-op iff
  the memory holds no other text under its own cache keys, and no text-hash hit for a fallback key without an entry
  there (`LaterRunIsClean`).
- `replaceBlockLines` is idempotent iff the end marker occurs neither in the start marker nor in any *indented* line
  (`RewritingIsIdempotent`). That the lines themselves are free of it is enough only when no character of the indent is
  the marker's first one (`IndentIsHarmless`). When nothing follows the end line, its final newline is not kept.

The JPEG walk does not know fill bytes. Without them the size is always found. With them the walk follows a jump
from the first fill byte (`FilledImageDecodes`): in files under 48 KiB whose markers are 0xC0 or above it then finds
nothing; in larger files a jump may land on anything, and can yield any size at all (`FillMisleads`).

Two facts about the design rather than failures of it: discarding the RPC client after every failure is what keeps
answers apart, since a client reused after a refused prompt would mix them up (`ReuseMixesAnswers`); and the `force`
option of the sync has no influence on what a run assembles (`FillResult`, `ForceIsIdle`).

Assumptions about code outside the model are stated where they are used: cache keys made from text hashes are
nonempty and never shared by two source keys (the parts are joined by an unescaped `|`, but a hash contains none),
sorting by `localeCompare` depends on the set only and lists each element once, `JSON.stringify` is injective, key
order is a strict total order, identical texts have identical placeholders, `"1"` is truthy, preparing the environment
leaves the respawn variables alone, and timers fire at most `late` milliseconds late.

## Model

| member | source | states |
|---|---|---|
| `LocaleTree.FlattenDistinct` | scripts/control-ui-i18n.ts:326-336 | For every tree, whatever its keys, the flattened map lists each dotted key once. |
| `LocaleRebuild.FlattenJoinsPaths` | scripts/control-ui-i18n.ts:326-336 | With distinct dot-free keys the flattened map is the depth-first list of paths joined by dots iff no text sits in a map under an empty top-level key. |
| `LocaleTree.RebuildFlattened` | scripts/control-ui-i18n.ts:326-353 | Inserting the flattened entries of a tree with nonempty dot-free keys and no empty submaps one at a time gives back the very same tree, key order included. |
| `LocaleRebuild.GetAfterSet` | scripts/control-ui-i18n.ts:338-353 | After setting a path, that path holds the text, every path above or below it holds none, all others are unchanged. |
| `LocaleRebuild.FlattenRebuilt` | scripts/control-ui-i18n.ts:1577-1580 | A map of dotted keys survives rebuild and flatten iff no key starts with a dot and no key extends another by a dot. |
| `LocaleRebuild.NamedFlattensClean` | scripts/control-ui-i18n.ts:326-336 | Trees with nonempty dot-free keys always flatten to such keys. |
| `LocaleMemory.LoadWellKeyed` | scripts/control-ui-i18n.ts:483-502 | A loaded memory has one entry per cache key, under its own key, never blank. |
| `LocaleMemory.LoadExact` | scripts/control-ui-i18n.ts:483-502 | A memory file knows a cache key iff some line with that nonempty key has a nonblank translation; the last such line counts. |
| `LocaleMemory.MemoryRoundTrip` | scripts/control-ui-i18n.ts:504-512 | Rendering a memory in key order and loading it gives the same memory. |
| `LocaleMemory.BuildTranslationMemoryByTextHash` | scripts/control-ui-i18n.ts:514-526 | The loop builds the index in which the last eligible entry of a hash wins. |
| `LocaleMemory.ByTextHashExact` | scripts/control-ui-i18n.ts:514-526 | The index holds a hash iff some eligible entry carries it, and then such an entry. |
| `LocaleMemory.IndexExact` | scripts/control-ui-i18n.ts:514-526 | The index leads from a nonempty text hash to the last entry of the locale that carries it with a nonblank translation, and knows no other hash. |
| `Batching.BuildBatches` | scripts/control-ui-i18n.ts:1085-1109 | Batches are nonempty, hold at most 20 items, concatenate to the input, keep the estimate plus two per item within the budget when they hold two or more items, and are never cut earlier than these limits force; they are the one such partition. |
| `Batching.GreedyUnique` | scripts/control-ui-i18n.ts:1085-1109 | These conditions determine the batches completely. |
| `Batching.LimitsSpelledOut` | scripts/control-ui-i18n.ts:1085-1109 | Batches hold 1 to 20 items; one of two or more has an estimate of at most the budget less 2 per item; a batch ends only at 20 items or where the next item would break that limit. |
| `Batching.EstimateAppend` | scripts/control-ui-i18n.ts:897-899 | The estimate is 2 for the frame plus, for every item, 8 and the UTF-16 lengths of its key and text. |
| `Translation.PromptBound` | scripts/control-ui-i18n.ts:1352-1414 | A batch of n items ends after at most 4n - 2 prompts, whatever the child replies and whatever counts as a timeout. |
| `Translation.BoundReached` | scripts/control-ui-i18n.ts:1352-1414 | For every batch there is a successful run that takes exactly 4n - 2 prompts. |
| `Translation.TranslateComplete` | scripts/control-ui-i18n.ts:1352-1414 | A successful batch holds exactly its items' keys, each with a nonblank translation that some prompt of the batch returned. |
| `Translation.OnePromptSuffices` | scripts/control-ui-i18n.ts:1367-1383 | A reply that parses and gives every item a nonblank text ends the batch after that one prompt, with exactly those texts. |
| `Translation.TimeoutSplits` | scripts/control-ui-i18n.ts:1384-1405 | A timeout on two or more items splits them, the longer half first, and asks for the halves in turn as long as none breaks. |
| `Translation.ErrorDecides` | scripts/control-ui-i18n.ts:1384-1414 | Any other error, the prompt's own or the one naming the first key without a text, breaks the batch if it is a timeout or the second; otherwise the same items are asked for once more. |
| `BatchRun.BreaksExactly` | scripts/control-ui-i18n.ts:1514-1547 | The batches of a run break iff some batch is reached and breaks, with that batch's error; nothing is asked afterwards. |
| `BatchRun.BrokenMeans` | scripts/control-ui-i18n.ts:1352-1414 | A batch breaks with the error of its last prompt, and only on the timeout of a single item or on two failures without timeout of the same part in a row. |
| `BatchRun.AllComplete` | scripts/control-ui-i18n.ts:1514-1547 | If no batch breaks, exactly the items' keys are translated, each with a nonblank text some prompt of the run returned. |
| `ClientUse.DiscardsAfterFailure` | scripts/control-ui-i18n.ts:1380-1412 | After every failed prompt, whatever failed about it, the client is discarded before the next prompt is asked; the prompts asked are exactly those counted. |
| `LocaleSync.ResolveKey` | scripts/control-ui-i18n.ts:1449-1490 | One iteration treats a key as the tiers say, by the memory as it is then. |
| `LocaleSync.ResolveKeys` | scripts/control-ui-i18n.ts:1449-1490 | Although the loop writes to the memory it looks up, every decision is the one the initial memory gives. |
| `LocaleOutcome.TiersInOrder` | scripts/control-ui-i18n.ts:1449-1490 | After the first loop, with or without a provider and on any files: a key's own memory entry gives its text unless a provider is to retry it; else a text hit, which becomes its own entry; else the file; else it is pending. It stays a fallback iff it was one and its text was kept. |
| `LocaleRun.StoreBatch` | scripts/control-ui-i18n.ts:1522-1543 | Storing a batch adds exactly its nonempty translations to the texts, and an entry for each to the memory. |
| `LocaleRun.TranslatePending` | scripts/control-ui-i18n.ts:1492-1547 | The loop ends as the batches of the one partition do, in the same number of prompts, at most four per key: broken with the first broken batch's error, or with all pending keys and no others translated and remembered. |
| `LocaleFill.FillPending` | scripts/control-ui-i18n.ts:1554-1568 | The filling loop treats each pending key as set, existing or falling back. |
| `LocaleFill.FillResult` | scripts/control-ui-i18n.ts:1554-1568 | With a provider the filling loop changes nothing; without one every pending key falls back to its source text; `force` never matters. |
| `LocaleFill.FilledText` | scripts/control-ui-i18n.ts:1554-1580 | After all loops every source key has a text: the one its tier, its translation or its source gives. |
| `LocaleFill.FilledFallback` | scripts/control-ui-i18n.ts:1586-1589 | The recorded fallback keys are exactly the keys in fallback. |
| `LocaleFill.ProviderLeavesNoFallback` | scripts/control-ui-i18n.ts:1449-1568 | A completed run with a provider has no fallback keys. |
| `LocaleFill.FallbackWithoutProvider` | scripts/control-ui-i18n.ts:1449-1568 | Without a provider a key is a fallback iff it was one and no text-hash hit rescued it, or it has no cache entry, no hit and no existing text. |
| `LocaleDisk.ThrowsExactly` | scripts/control-ui-i18n.ts:1492-1575 | A run throws a message iff a batch of its pending keys breaks with it, or none breaks and the placeholders of some source text and its final text differ. |
| `LocaleDisk.SyncLocale` | scripts/control-ui-i18n.ts:1423-1674 | Every run, thrown or not, is the one that the files, the options and the child's replies determine; without a provider it is assembled from the files alone and asks nothing, with one it takes at most four prompts per pending key. |
| `LocaleDisk.AskingCompletes` | scripts/control-ui-i18n.ts:1492-1568 | The translations a run is assembled from cover exactly the pending keys with a provider, and none without. |
| `LocaleOutcome.TextServed` | scripts/control-ui-i18n.ts:1445-1580 | The text every key has in the written file, tier by tier from the files read, a translation or the source text for the pending ones; exactly the pending keys are translated, if there is a provider. |
| `LocaleOutcome.NothingElseWritten` | scripts/control-ui-i18n.ts:1577-1663 | No other key gets a text; the glossary is kept or filled with the default; all files are canonical; no memory file is made for an empty memory. |
| `LocaleOutcome.FallbackRecorded` | scripts/control-ui-i18n.ts:1586-1611 | The written fallback keys: none with a provider; without one, the earlier ones no text hit rescued and the keys with no own entry, no hit and no text in the file. |
| `LocaleOutcome.MetaWritten` | scripts/control-ui-i18n.ts:1582-1611 | The written metadata counts every key, names the run's provider and model or keeps the earlier ones without a provider, and is dated anew iff anything else in it changed. |
| `LocaleOutcome.MemoryWritten` | scripts/control-ui-i18n.ts:1465-1543 | The written memory holds, under the cache key of each source key, the text hit that served it, a new entry if it was translated, or what was there. |
| `LocaleOutcome.OtherEntriesStay` | scripts/control-ui-i18n.ts:1465-1543 | Entries under other cache keys stay as they are. |
| `LocaleOutcome.ReportIsHonest` | scripts/control-ui-i18n.ts:1630-1674 | A run reports a change iff writing would change some file; it writes iff it reports one and is asked to write and not only to check; otherwise every file stays. Throwing and reporting do not depend on what may be written. |
| `LocaleIdempotence.SecondTier` | scripts/control-ui-i18n.ts:1449-1490 | On the outputs of a run every key is served from the cache or the existing file, with the same text and the same fallback status. |
| `LocaleSecondRun.SecondRunIsClean` | scripts/control-ui-i18n.ts:1423-1674 | After a writing run over clean source keys, any later run under the same configuration, whatever the child would reply, finds nothing pending, asks nothing, takes no text-hash branch, reports no change, writes nothing and keeps all files. |
| `LocaleSecondRun.NamedSecondRunIsClean` | scripts/control-ui-i18n.ts:1423-1674 | All of this for every source tree with nonempty dot-free keys. |
| `LocaleSecondRun.UncleanSecondRun` | scripts/control-ui-i18n.ts:1570-1632 | For every source locale with unclean keys there are files on which the second run throws or reports a change. |
| `LocaleLaterRun.PendingLater` | scripts/control-ui-i18n.ts:1449-1490 | After any writing run, the keys pending for a later run under any provider are exactly the fallback keys without a text-hash hit, and none if it has no provider; without a provider a run neither adds nor loses text hashes. |
| `LocaleLaterRun.ProviderArrives` | scripts/control-ui-i18n.ts:1449-1568 | A run with a provider after one without translates exactly the fallback keys without a text-hash hit, serves the others of them from their hit, keeps the text of every other key in the file and leaves no fallback key; the run after it is a no-op. |
| `LocaleLaterRun.OthersKept` | scripts/control-ui-i18n.ts:243-294 | Also under another provider, model and cache namespace, a key that was no fallback and has no entry there keeps its text in the file. |
| `LocaleLaterRun.LaterRunIsClean` | scripts/control-ui-i18n.ts:1449-1632 | A run without a provider under another cache namespace reports no change iff the entries under its own cache keys agree with the locale file and no fallback key outside them has a text-hash hit; then all files stay. |
| `LocaleLaterRun.FreshNamespaceIsClean` | scripts/control-ui-i18n.ts:283-294 | After a run with a provider, a namespace without entries disturbs nothing: every key is served from the locale file and the run is a no-op. |
| `PiRpc.PiRpcClient.Prompt` | scripts/control-ui-i18n.ts:1240-1305 | A prompt on a closed client is refused; otherwise it becomes the pending one under a new id, with its timer armed. |
| `PiRpc.PiRpcClient.HandleStdoutLine` | scripts/control-ui-i18n.ts:1192-1238 | A line settles the pending prompt, marks its response, or does nothing. |
| `PiRpc.PiRpcClient.TimerFired` | scripts/control-ui-i18n.ts:1260-1272 | A timeout of the pending prompt rejects it and closes the client. |
| `PiRpc.PiRpcClient.WriteFailed` | scripts/control-ui-i18n.ts:1289-1299 | A failed write clears its prompt and rejects it. |
| `PiRpc.PiRpcClient.ProcessClosed` | scripts/control-ui-i18n.ts:1168-1190 | When the child closes the client is closed and the pending prompt rejected. |
| `PiRpc.PromptAccount` | scripts/control-ui-i18n.ts:1168-1305 | A prompt stays open with its timer armed until the first event that ends it: a refusing response, any end of turn, its timeout, a failure to write it, or the failure or exit of the child. That event settles it, with a text only if it is an end of turn that has one, and closes the client iff it is the timeout or the exit. |
| `PiRpc.InvStep` | scripts/control-ui-i18n.ts:1192-1314 | Every step of children, pipes, timers and driver keeps the protocol invariant. |
| `PiRpc.NoCrossTalk` | scripts/control-ui-i18n.ts:1192-1305 | Over every run in which a child ends each prompt at most once and only after it, and a client is reset after a failed prompt, each text a caller gets answers the very prompt it sent, and no prompt settles twice. |
| `PiRpc.UnsettledIsPending` | scripts/control-ui-i18n.ts:1240-1305 | In every reachable state an unsettled prompt is exactly the pending one of the client in use, and its timer is armed. |
| `PiRpc.DriverStepsMean` | scripts/control-ui-i18n.ts:1498-1513 | A new client is open and in use; a prompt on an open client is waited for, on a closed one it fails at once; a reset closes the client in use and drops it. |
| `PiRpc.AnswerArrives` | scripts/control-ui-i18n.ts:1226-1305 | The protocol is not empty: a run in which the child ends its first turn with a text returns that text. |
| `ClientUse.DrivenIsRun` | scripts/control-ui-i18n.ts:1352-1414 | A driver that plays disciplined actions and may otherwise ask at any time never asks on a client that failed, whatever the children, pipes and timers do. |
| `ClientUse.TranslationsAnswerPrompts` | scripts/control-ui-i18n.ts:1352-1414 | So for all batches of a locale, with their resets: every text a caller gets answers its own prompt, and every translation of a run that did not break was read off the answer to one of the run's own prompts. |
| `RespawnPlan.RespawnHop` | src/entry.respawn.ts:61-128 | A respawn of either kind strictly lowers the number of unset markers, keeps the user's arguments, adds the warning flag only where it is missing and never replaces certificates the user chose. |
| `RespawnPlan.CacheHop` | src/entry.compile-cache.ts:104-138 | The compile-cache respawn sets exactly one marker and keeps arguments, options and certificates. |
| `RespawnPlan.CliPlanExactly` | src/entry.respawn.ts:46-128 | The CLI respawns iff it is not exempt at startup, `ALIEN_NO_RESPAWN` is not truthy, the platform is not Windows, and it lacks certificates or the flag; the child's options, arguments and environment are stated variable by variable. |
| `RespawnPlan.CachePlanExactly` | src/entry.compile-cache.ts:104-138 | The compile-cache respawn happens iff the CLI runs from a checkout, has not done so before, and a cache is in use or asked for; two variables are set, `NODE_COMPILE_CACHE` is removed and no other changes. |
| `RespawnPlan.RespawnExactly` | src/entry.ts:85-121 | The compile-cache plan comes first, the CLI plan on the prepared environment second. |
| `RespawnPlan.ChainBound` | src/entry.ts:85-121 | Whatever the unseen predicates answer, a chain has at most three respawns. |
| `RespawnPlan.ChainKeepsIntent` | src/entry.ts:85-121 | Along any chain user arguments are identical, the flag is added at most once and user certificates are kept. |
| `RespawnPlan.SteadyChainBound` | src/entry.ts:85-121 | With predicates that do not change their minds there are at most two respawns, one of each kind. |
| `RespawnPlan.ThreeRespawnsPossible` | src/entry.ts:85-121 | With fickle predicates three respawns do happen. |
| `SignalEscalation.Supervisor.OnSignal` | src/entry.respawn.ts:174-182 | Only the first signal arms the exit timer. |
| `SignalEscalation.Supervisor.OnExitTimer` | src/entry.respawn.ts:162-173 | The exit timer sends SIGTERM and arms the force kill. |
| `SignalEscalation.Supervisor.OnForceKillTimer` | src/entry.respawn.ts:168-171 | The force-kill timer kills the child and exits with status 1. |
| `SignalEscalation.Supervisor.OnChildExit` | src/entry.compile-cache.ts:216-222 | The child's end clears both timers and exits with its status. |
| `SignalEscalation.BoundedShutdown` | src/entry.respawn.ts:143-204 | In every timed run a signalled parent is gone 2000 ms after the first signal plus the lateness of its timers, and never stuck before. |
| `SignalEscalation.EscalationOrder` | src/entry.respawn.ts:143-204 | However many signals arrive: at most one SIGTERM, at least 1000 ms after the first signal, at most one force kill, at least 1000 ms later, and an exit last. |
| `SignalEscalation.EscalationTrace` | src/entry.respawn.ts:143-204 | Without an end of the child, the exit timer sends SIGTERM, the force-kill timer kills the child and exits with status 1 at once, and nothing else is ever done. |
| `SignalEscalation.FirstSignalIs` | src/entry.respawn.ts:174-182 | The time shutdown is measured from is that of the first signal. |
| `SignalEscalation.ChildEndIsFinal` | src/entry.respawn.ts:188-204 | When the child ends the parent exits at once with its status and does nothing afterwards. |
| `SignalEscalation.SameTraces` | src/entry.compile-cache.ts:171-232 | Both runners do the same at the same times on every run. |
| `RunCommand.Runner.FinalizeOnce` | scripts/alien-cross-os-release-checks.ts:3452-3460 | Only the first finalizer settles, and it clears every timer. |
| `RunCommand.Runner.OnTimeout` | scripts/alien-cross-os-release-checks.ts:3481-3498 | A timeout is remembered and starts the kill wait. |
| `RunCommand.Runner.OnKillWait` | scripts/alien-cross-os-release-checks.ts:3489-3497 | The end of the kill wait rejects, unless settled. |
| `RunCommand.Runner.OnError` | scripts/alien-cross-os-release-checks.ts:3526-3528 | A child error rejects, unless settled. |
| `RunCommand.Runner.OnClose` | scripts/alien-cross-os-release-checks.ts:3530-3553 | A close does to the shared variables what the transition says. |
| `RunCommand.AccountKept` | scripts/alien-cross-os-release-checks.ts:3420-3555 | Over all event orders the settlements are exactly those the history of events calls for. |
| `RunCommand.SettlesOnce` | scripts/alien-cross-os-release-checks.ts:3420-3555 | The promise settles at most once, iff an ending event occurs, and then no timer is armed. |
| `RunCommand.OutcomeOfHistory` | scripts/alien-cross-os-release-checks.ts:3452-3553 | The outcome of every history, by its first ending event: a close after a timeout rejects as timed out; a close with status 0, or unchecked, resolves with that status and all output before it; another close rejects with its status; an error and the end of the kill wait reject as such. |
| `RunCommand.TimeoutIsDue` | scripts/alien-cross-os-release-checks.ts:3481-3500 | A timeout fires at most once, only if one was asked for, and not before its time. |
| `RunCommand.TimeoutComes` | scripts/alien-cross-os-release-checks.ts:3481-3500 | A command with a timeout that has neither settled nor timed out has not outlived it by more than the timer's lateness. |
| `RunCommand.ResolvedMeans` | scripts/alien-cross-os-release-checks.ts:3530-3553 | Resolving means the first ending event was a close without a timeout, status 0 or checking off, and all output before it. |
| `RunCommand.TimeoutSettles` | scripts/alien-cross-os-release-checks.ts:3481-3498 | A run whose timeout fired never resolves and is settled within 15 s of it, plus the timer's lateness. |
| `WorkerPool.SharedPool.Advance` | scripts/update-clawtributors.ts:497-503 | What a worker does between two suspensions. |
| `WorkerPool.ClaimedOnce` | scripts/update-clawtributors.ts:490-506 | Under every interleaving each index is taken exactly once, in order, and at most the limit are in hand. |
| `WorkerPool.PoolTerminates` | scripts/update-clawtributors.ts:490-506 | No interleaving exceeds 2n + workers steps or gets stuck. |
| `WorkerPool.PoolRefinesMap` | scripts/update-clawtributors.ts:490-506 | A finished pool holds the sequential results in input order if no item throws, and fails iff one does. |
| `WorkerPool.ReaderRefinesLoop` | scripts/check-temp-path-guardrails.ts:223-263 | The concurrent reader returns the readable files in input order, as a plain loop would. |
| `GuardrailScanner.QuoteScanState.Begin` | scripts/check-temp-path-guardrails.ts:46-52 | Begins a quotation on quote characters only. |
| `GuardrailScanner.QuoteScanState.Consume` | scripts/check-temp-path-guardrails.ts:54-70 | Consumes a character inside a quotation, honouring escapes. |
| `GuardrailScanner.CodeMeans` | scripts/check-temp-path-guardrails.ts:46-70 | In every text a character is code iff what stands before it is made of code and whole quotations, in which backslashes escape, and it begins no quotation itself. |
| `GuardrailScanner.FindMatchingParen` | scripts/check-temp-path-guardrails.ts:72-95 | Returns the first position at which the unquoted parentheses balance, or -1 when there is none. |
| `GuardrailScanner.SplitTopLevelArguments` | scripts/check-temp-path-guardrails.ts:97-162 | Splits exactly at the unquoted commas outside all brackets, trims, and drops a blank last argument. |
| `GuardrailScanner.CutMeans` | scripts/check-temp-path-guardrails.ts:97-162 | Arguments are separated exactly at the commas of the code before which no parenthesis, bracket or brace is open, that is, no stretch up to there has more openers than closers. |
| `GuardrailScanner.ArgumentsAre` | scripts/check-temp-path-guardrails.ts:97-162 | The arguments are the trimmed texts between the cuts; the one behind the last cut is left out iff it is blank. |
| `GuardrailScanner.PiecesRejoin` | scripts/check-temp-path-guardrails.ts:97-162 | The untrimmed pieces joined with commas give back the text. |
| `GuardrailScanner.LockStep` | scripts/check-temp-path-guardrails.ts:189-194 | On the slice the matcher selects, the splitter's counter is the depth less one and its clamped case never arises. |
| `GuardrailScanner.SliceIsBalanced` | scripts/check-temp-path-guardrails.ts:189-194 | That slice ends outside quotes with all parentheses matched. |
| `JpegWalk.ReadJpegDimensions` | scripts/update-clawtributors.ts:546-590 | On every buffer all reads are in bounds, the walk terminates and returns what the reference walk finds. |
| `JpegWalk.FoundIsFrame` | scripts/update-clawtributors.ts:566-584 | A result is always read off a start-of-frame segment inside the buffer. |
| `JpegWalk.WalkFindsTheWay` | scripts/update-clawtributors.ts:546-590 | On every buffer a size is found iff a way leads from the start over other bytes, lone markers and whole segments to a frame, by the marker table of ITU-T T.81, and then it is that frame's. |
| `JpegWalk.ImageDecodes` | scripts/update-clawtributors.ts:546-590 | After SOI and any segments without fill bytes the frame header's width and height are returned. |
| `JpegWalk.FilledImageDecodes` | scripts/update-clawtributors.ts:549-587 | For images of any size with fill bytes anywhere: the size is found if there are none; otherwise the result is that of the jump from the first fill byte, and nothing when the file is under 48 KiB and its markers are 0xC0 or above. |
| `JpegWalk.FillMisleads` | scripts/update-clawtributors.ts:549-587 | For every frame and every other size there is a table before which one fill byte makes the walk return that other size. |
| `SparkleBuild.FloorsAreArithmetic` | scripts/sparkle-build.ts:22-53 | The digit strings put together are the date number, ten times it, and a hundred times it plus the lane. |
| `SparkleBuild.FloorsExactly` | scripts/sparkle-build.ts:22-53 | Floors exist iff month and day are in range, and are these numbers. |
| `SparkleBuild.LaneMeans` | scripts/sparkle-build.ts:40-50 | A stable version has lane 90; a suffix that ends in a number has that number, 89 at most; any other suffix has lane 1. |
| `SparkleBuild.BuildOrder` | scripts/sparkle-build.ts:55-57 | Canonical builds order exactly as year, month, day and lane. |
| `SparkleBuild.StableIsHighest` | scripts/sparkle-build.ts:40-53 | A stable build is above all suffixed builds of its date and below all builds of later dates. |
| `SparkleBuild.LaneBuildsAreLonger` | scripts/sparkle-build.ts:37-53 | From year 1000 legacy floors are below 1,000,000,000 and lane floors are not. |
| `Appcast.CollectErrors` | scripts/release-check.ts:607-664 | The two passes report exactly the format errors and the floor errors. |
| `Appcast.EffectiveAdoption` | scripts/release-check.ts:642-649 | Computes the adoption date. |
| `Appcast.AdoptionIsLeast` | scripts/release-check.ts:642-649 | The adoption date is the least of the fixed date and the dates of all lane builds. |
| `Appcast.FloorErrorsExact` | scripts/release-check.ts:651-661 | A floor error is reported iff it is that of an offending item of the feed. |
| `Appcast.FloorErrorsMean` | scripts/release-check.ts:642-661 | A floor error is reported iff some item has that title and build and falls short: of the lane floor if its build has ten digits or its date is not before the adoption date, else of the legacy floor. |
| `Appcast.FormatErrorsMean` | scripts/release-check.ts:613-632 | The other errors: an empty feed, an item without a build, an item whose build is no number. |
| `Appcast.ErrorsInOrder` | scripts/release-check.ts:609-663 | Format errors come before floor errors, and both in the order of the items. |
| `Appcast.AddingKeepsErrors` | scripts/release-check.ts:642-661 | Adding items anywhere never clears another item's error. |
| `Appcast.OrderDoesNotMatter` | scripts/release-check.ts:642-661 | Which items offend does not depend on their order. |
| `Appcast.CanonicalFeedIsClean` | scripts/release-check.ts:651-661 | A feed of canonical builds has no floor errors. |
| `StableJson.StableIsExact` | scripts/protocol-gen-swift.ts:89-102 | Two values get the same canonical form iff they are equal up to key order at every depth. |
| `StableJson.StableIdempotent` | scripts/protocol-gen-swift.ts:89-102 | Canonical forms are their own canonical forms. |
| `StableJson.StableAscends` | scripts/protocol-gen-swift.ts:89-102 | A canonical form holds the same value with its keys in ascending order at every depth. |
| `SchemaRegistry.SchemaNames.RegisterNamedSchema` | scripts/protocol-gen-swift.ts:108-120 | The maps always are what the history of registrations makes of them. |
| `SchemaRegistry.SchemaNames.NamedSchema` | scripts/protocol-gen-swift.ts:122-127 | Looks up by identity first, then, if allowed, by structure. |
| `SchemaRegistry.RegistryIsExact` | scripts/protocol-gen-swift.ts:108-120 | A signature maps to a name iff exactly one registration carries it and is a duplicate iff two or more do. |
| `SchemaRegistry.ObjectsAreExact` | scripts/protocol-gen-swift.ts:108-109 | An object is known iff it was registered, by its latest name. |
| `SchemaRegistry.StructuralLookup` | scripts/protocol-gen-swift.ts:122-127 | Structural lookup of an unregistered object succeeds iff exactly one registered schema equals it up to key order, and then gives the name of that registration. |
| `ProcessTree.ReadProcessTreeCpuMs` | scripts/bench-gateway-startup.ts:624-673 | The total is the sum over the set of pids reachable from the root, each once, pid 0 excluded, for any parent table including cyclic ones; none iff the root is 0 or unlisted. |
| `ProcessTree.BuildTables` | scripts/bench-gateway-startup.ts:636-653 | The tables hold the latest CPU time of each pid and the children of each parent in order. |
| `ProcessTree.CpuIsLast` | scripts/bench-gateway-startup.ts:638-653 | Exactly the listed processes have a CPU time, the one of their last line. |
| `BlockRewrite.ReplaceFrames` | scripts/sync-moonshot-docs.ts:15-51 | A successful rewrite keeps the text before the start line and behind the end line and puts the block between them. |
| `BlockRewrite.ReplaceExactly` | scripts/sync-moonshot-docs.ts:15-51 | For all texts and markers: which error is thrown when, and otherwise the exact text, found by the first start marker, the first end marker behind it and the ends of their lines. |
| `BlockRewrite.RewritingIsIdempotent` | scripts/sync-moonshot-docs.ts:15-51 | Rewriting twice equals once iff the end marker occurs neither in the start marker nor in an indented line; otherwise every pass makes the text longer. |
| `BlockRewrite.IndentIsHarmless` | scripts/sync-moonshot-docs.ts:30-45 | When the end marker's first character is not in the indent, only the lines themselves matter. |
| `BlockRewrite.BlockReadsBack` | scripts/sync-moonshot-docs.ts:40-45 | Between the start line and the line of the end marker stand exactly the given lines, indented. |
| `Utf16.SliceUtf16Safe` | src/utils.ts:71-98 | For all integer bounds the result is the part between the ordered bounds less the half pairs at its ends; well-formed input gives well-formed output. |
| `Utf16.PartKeepsCharacters` | src/utils.ts:82-97 | For every input, also an ill-formed one, lone surrogates of the result were lone before. |
| `Utf16.SliceIsCharacters` | src/utils.ts:71-98 | A slice of a string of characters is the string of exactly the characters that lie wholly between the bounds. |
| `Utf16.WellFormedMeans` | src/utils.ts:63-69 | The well-formed strings are exactly the UTF-16 encodings of sequences of characters. |
| `Utf16.BoundsMean` | src/utils.ts:74-75 | Bounds beyond the string stand for its ends, and a negative bound counts from the end. |
| `Utf16.TruncateUtf16Safe` | src/utils.ts:100-106 | Truncation gives a prefix of the limit's length, one less exactly when the limit falls inside a pair. |

## Left out

- Reading, rendering and formatting files: a file is its parsed value and whether its text is the canonical rendering.
- The order in which JavaScript enumerates integer-like object keys: objects keep insertion order here; no result about sync runs depends on it.
- Update in place of the locale tree: `setNestedValue` is modelled on values, so aliasing of subtrees is not captured.
- Regular expressions, SHA-256, `JSON.stringify`, locale collation and placeholder extraction: functions with the stated assumptions.
- Child processes, pipes and clocks: only their events, in every order the stated assumptions allow.
- Prompt text, glossary prompts, progress messages, heartbeats of prompts, command-line parsing and report output.
- The choice of the respawn command for Volta shims and the compile-cache directory: no decision depends on them.
- How Node splits its own options from the script when a plan is spawned: the child gets back the options the plan put first.
- Strings with lone surrogates outside `Utf16`: texts and keys are sequences of Unicode characters there, and lengths count UTF-16 units where the script's do.
- Numbers beyond 2^53 in builds, fractional or non-finite limits in truncation and in the batch budget.
- Keys such as `__proto__` in locale trees and JSON objects.
- The orchestrator, pairing lockout and audit log described in the documentation, import-cycle search and release planning.
