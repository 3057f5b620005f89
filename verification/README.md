# Clementine in Dafny

A Dafny 4.11 model of the parts of the Clementine bridge whose correctness spans several
functions, several tasks or a whole run, with proofs. `dafny verify dfyconfig.toml` verifies all
of it.

* **Bitcoin syncer and finalized-block fetcher** (`BlockTree`, `SyncerDb`, `SyncerInvariant`,
  `Finality`, `SyncSystem`, `SyncTheorems`, `SyncProgress`, `SyncWitness`, `SyncerDatabase`,
  `Syncer`, `Fetcher`). The database tables are a record; the two tasks are classes over a mutable
  database, whose one method per query is specified by that record; the whole system is a state
  machine in which the syncer's transactions fall anywhere between the fetcher's statements, any
  run may fail, a commit may be followed by a crash, and either task may restart.
  `BitcoinSyncerTask.RunOnce` is proved to take steps of that machine,
  `FinalizedBlockFetcherTask.RunOnce` to equal an atomic run, and the machine's interleaved
  fetcher to commit what that atomic run would. The main theorems are about all runs.
* **Disprove-script cache** (`Template`, `TemplatePatch`, `TemplateCache`, `TemplateReplace`). A
  script is a template of literal bytes and 20-byte key slots. Generating it with dummy keys,
  scanning for the dummies and patching is compared with generating it with the real keys.
* **Mini-asserts** (`MiniAsserts`, `DerivationPath`, `WinternitzDigits`). The layouts of assert
  scripts, commit data and derivation paths, the byte encoding of Winternitz derivation paths, and
  the digits of the keys.
* **Taproot signing** (`TaprootSigning`). Tweaks, the tweak cache, and filling in the witnesses of
  a transaction. Secret keys are the numbers 1 to n-1 of a group of order n. Which of a key and
  its negation has even Y, the tweak hash and the signature scheme are arbitrary; signatures are
  only assumed to verify under their signer's key.
* **Aggregator** (`KeyStore`, `KeyDistribution`). Concurrent callers of the key cache, and the
  broadcast of operator keys to the verifiers.
* **Compatibility check** (`Compatibility`) and **Citrea log paging** (`PagedLogs`).

What is assumed about the outside: the Bitcoin node answers from one tree of consensus-valid
blocks (a hash determines its block, a child is one higher than its parent, the transactions of a
block have distinct txids and distinct inputs), and the finality depth is at least one, as the
configuration enforces. Calls to the node, to handlers and to clients may fail at any point; the
failing ones are parameters. A database transaction commits as a whole or not at all, and each of
its statements reads the state committed last.

## Where the code differs from its documentation or from what one would expect

* A reorg writes ReorgedBlock events for all rows above the ancestor, not only those that were
  canonical (`WorkNames`, and `ReorgedTwice` for a run). The log still replays to the canonical
  set.
* The fetcher's comment says memory and database stay in step on errors. That holds for every
  failure before the commit. If the commit succeeds and its reply is lost, it holds exactly when
  the event did not make the next height final (`LostReply`, and `LostReplyHappens` for a run).
  Lost replies of the harmless kind are steps of the state machine; after one of the other kind
  the theorems about runs say nothing.
* The check for dummies in the partial scripts does not look at windows that begin before a
  partial script (`PartialCheck`, and `GuardMissesStart` for a script that is patched wrongly); the
  exact condition for the cache to be right is on the literal parts of the full scripts
  (`PatchExact`).
* The compatibility comment says minor versions may not differ. The caret requirement lets them
  differ from major version 1 on (`MinorMayDiffer`). The aggregator checks only its own
  compatibility with each actor; when this makes the actors compatible with each other is
  `StarIsClique`.
* Scripts and derivation paths of the mini-asserts are written out separately and agree only for
  fourteen U256 keys (`AlignedExactly`).
* `get_logs` adds 999 to 64-bit heights, so it cannot reach the last ones (`GetLogs`,
  `LastHeightsOverflow`).

## Model

| member | source | states |
|---|---|---|
| `SyncTheorems.CanonicalChainInRuns` | core/src/bitcoin_syncer.rs:412-466 | In every state of every interleaving of syncer, fetcher, failures and restarts, the canonical rows are exactly the branch of the block tree from the start height to the tip, and the tip height is the syncer's current height |
| `SyncTheorems.FinalForever` | core/src/bitcoin_syncer.rs:231-296 | A canonical block with finality-depth confirmations is the only canonical block at its height in every later state, under the same id and hash |
| `SyncTheorems.HandledForever` | core/src/bitcoin_syncer.rs:505-586 | The k-th block the handler ever committed is the block at height start + k; it stays recorded and is, in every later state, the canonical block and the stored full block at that height: each height once, in order, no gap, never reorged |
| `SyncTheorems.DrainedIsCaughtUp` | core/src/bitcoin_syncer.rs:505-586 | With all events consumed, a height from the start on has depth confirmations exactly when it is below the next height, and one block has been handled for each |
| `SyncTheorems.ConsumedIsHandled` | core/src/bitcoin_syncer.rs:505-586 | Once an event of height m is consumed, every height from the start on with depth confirmations under m has been handled, in its place |
| `SyncTheorems.FetchSerializable` | core/src/bitcoin_syncer.rs:505-586 | Although syncer commits may fall between the fetcher's statements, what it commits equals a run executed at once in the commit state, and its next height is the one recomputed from the database |
| `SyncTheorems.LogInRuns` | core/src/bitcoin_syncer.rs:300-339 | Replaying the event log gives the canonical set after every commit; two NewBlock events of one block have its ReorgedBlock between them |
| `SyncTheorems.FullBlocksInRuns` | core/src/database/bitcoin_syncer.rs:107-124 | The stored full block at every height from the start to the tip is the canonical block there |
| `SyncTheorems.OutputsInRuns` | core/src/bitcoin_syncer.rs:71-112 | A hash keeps its id for ever; the txid and spent-output tables hold for every stored block exactly its transactions and inputs, in order and without duplicates, however often it leaves and rejoins the chain |
| `SyncTheorems.FetchNeverFails` | core/src/bitcoin_syncer.rs:524-571 | No read of the fetcher can fail in a reachable state: the event's row, the full block and the canonical id exist |
| `SyncTheorems.FetchRestartSame` | core/src/database/bitcoin_syncer.rs:536-558 | A restarted fetcher computes the height it had in memory |
| `SyncTheorems.CommitNext` | core/src/database/bitcoin_syncer.rs:505-558 | The height at which the finalization loop stops is the one the query over processed events gives after the commit |
| `SyncTheorems.LostReply` | core/src/bitcoin_syncer.rs:505-595 | If a commit succeeds but is reported as failed, the height in memory is the one the database gives exactly when the event at the cursor does not make it final; otherwise its block has been handled already |
| `SyncTheorems.LostReplyFromStart` | core/src/bitcoin_syncer.rs:505-595 | That condition can be read from the event and the height when the run begins, whatever the syncer commits meanwhile |
| `SyncTheorems.HandlesIffFinal` | core/src/bitcoin_syncer.rs:540-576 | A run that is through its loop has handled a block exactly when its event makes the next height final |
| `SyncWitness.LostReplyHappens` | core/src/bitcoin_syncer.rs:505-595 | A run of the system after which a lost reply leaves memory behind the database |
| `SyncProgress.Drains` | core/src/bitcoin_syncer.rs:505-586 | From every reachable idle state, as many whole fetcher runs as events are left consume the log, and the next height is then the least with fewer than depth confirmations |
| `SyncProgress.FetchRuns` | core/src/bitcoin_syncer.rs:505-586 | While an event is left, steps without failures complete a whole run on it |
| `SyncTheorems.StepInv` | core/src/bitcoin_syncer.rs:412-595 | Every step of the syncer, the fetcher, a failure or a restart keeps the system invariant |
| `SyncTheorems.StepLater` | core/src/bitcoin_syncer.rs:412-595 | No step moves a block that has finality-depth confirmations, changes the id of a hash or shortens the log or the handled record |
| `SyncTheorems.RunLater` | core/src/bitcoin_syncer.rs:412-595 | The same over any stretch of any run |
| `SyncTheorems.InitInv` | core/src/bitcoin_syncer.rs:177-217 | The state after start-up satisfies the invariant |
| `SyncSystem.RestartSame` | core/src/bitcoin_syncer.rs:370-390 | A restarted syncer resumes at the height it had |
| `SyncSystem.WorkLater` | core/src/bitcoin_syncer.rs:412-466 | A working run replaces at most depth - 1 blocks, so blocks with depth confirmations stay |
| `SyncSystem.FailInv` | core/src/bitcoin_syncer.rs:412-466 | A failed run rolls back to the same tables and keeps the invariant |
| `SyncSystem.FetchSurvives` | core/src/bitcoin_syncer.rs:505-586 | Syncer commits between two statements of the fetcher leave its uncommitted progress valid |
| `SyncerInvariant.CommitInv` | core/src/bitcoin_syncer.rs:444-461 | A working run that forks off after the first k blocks of the chain replaces the rest by the new branch, and keeps the row, chain, full-block, log and output invariants |
| `SyncerInvariant.SaveInv` | core/src/bitcoin_syncer.rs:71-112 | Saving the next block of the branch, new or seen before, keeps them |
| `SyncerInvariant.DropInv` | core/src/bitcoin_syncer.rs:300-318 | Dropping the blocks above an ancestor keeps them, with the chain cut there |
| `SyncerInvariant.InitialInv` | core/src/bitcoin_syncer.rs:177-217 | Saving the start block into an empty database establishes them |
| `SyncerInvariant.CanonicalIsBranch` | core/src/database/bitcoin_syncer.rs:173-186 | The canonical rows are the tree's branch ending in the tip; a height is the maximum canonical height exactly when it is the tip's |
| `SyncerInvariant.CanonicalRow` | core/src/database/bitcoin_syncer.rs:224-241 | At each height of the chain exactly one row is canonical, and it is the chain's block |
| `SyncerInvariant.ChainDetermined` | core/src/database/bitcoin_syncer.rs:173-241 | The tables determine the chain |
| `SyncerDb.ReorgEventsNameAllAbove` | core/src/database/bitcoin_syncer.rs:200-221 | The events of a reorg name every row above the ancestor and no other, also rows that were no longer canonical |
| `SyncWitness.WorkNames` | core/src/bitcoin_syncer.rs:300-318 | In every reachable state a working run announces as reorged every row above its fork point, canonical or not |
| `SyncWitness.ReorgedTwice` | core/src/bitcoin_syncer.rs:300-318 | A run in which a block that has left the chain is announced as reorged a second time |
| `SyncerDb.ReorgBetweenNewBlocks` | core/src/bitcoin_syncer.rs:300-339 | In a log whose announcements are all fresh, two NewBlock events of one block enclose a ReorgedBlock of it |
| `BlockTree.BranchUnique` | core/src/bitcoin_syncer.rs:231-296 | A branch is determined by its last block and its length |
| `Finality.NextIsLeastUnfinalized` | crates/clementine-config/src/protocol.rs:167-173 | Final means depth confirmations, the tip having one; with the tip processed, the next height is the least from the start on that has fewer |
| `Finality.LoopEnd` | core/src/database/bitcoin_syncer.rs:536-558 | The finalization loop run from the resume height stops at the resume height for one more event |
| `Finality.MaxEventAtLeast` | core/src/database/bitcoin_syncer.rs:505-531 | The greatest processed height is at least the height of every announced block |
| `Syncer.FetchNewBlocks` | core/src/bitcoin_syncer.rs:231-296 | The result is the branch above the nearest canonical ancestor of the reported block, oldest first, with consecutive heights, no longer than the depth; none exactly without a next block; without failing calls an error exactly when no such branch fits |
| `Syncer.ForkUnique` | core/src/bitcoin_syncer.rs:231-296 | That branch is determined by the tables and the reported block |
| `Syncer.ForkContinues` | core/src/bitcoin_syncer.rs:231-296 | A fetched branch continues the canonical chain up to its fork point and ends in the reported block |
| `Syncer.SaveBlock` | core/src/bitcoin_syncer.rs:71-112 | New tables as specified, for a new and for a known hash; no unique index is violated by a consensus-valid block whose id has no rows yet |
| `Syncer.SaveTransactions` | core/src/bitcoin_syncer.rs:107-109 | Adds exactly the block's txid and input rows in order; no primary-key conflict for a consensus-valid block |
| `Syncer.SaveTransactionSpentUtxos` | core/src/bitcoin_syncer.rs:143-164 | The same for one transaction |
| `SyncerDb.SpentRowsAre` | core/src/bitcoin_syncer.rs:143-164 | The input rows of a block are its transactions' inputs, all of them and no others |
| `Syncer.HandleReorgEvents` | core/src/bitcoin_syncer.rs:300-318 | Flags cleared above the ancestor and one event per row above it, greatest id first |
| `Syncer.ProcessNewBlocks` | core/src/bitcoin_syncer.rs:321-339 | Saves and announces the fetched blocks in order; fails only if a block cannot be fetched |
| `Syncer.BitcoinSyncerTask.RunOnce` | core/src/bitcoin_syncer.rs:412-466 | Nothing without a next block; on success a working step of the system ending in the reported block with the height one higher; on error a rollback with the height kept; without failing calls an error only for a reorg deeper than allowed |
| `Syncer.SetInitialBlockInfo` | core/src/bitcoin_syncer.rs:177-217 | Start block saved into an empty database; a database in use untouched; exact conditions of success |
| `Syncer.NewSyncer` | core/src/bitcoin_syncer.rs:370-390 | A fresh database gives an initial state of the system, a used one resumes at its tip; exact conditions of success |
| `Syncer.TaskStepInSystem` | core/src/bitcoin_syncer.rs:412-466 | A step of the task object is a step of the whole system whatever the fetcher is doing |
| `Fetcher.FinalizedBlockFetcherTask.RunOnce` | core/src/bitcoin_syncer.rs:505-586 | From any reachable state: the run equals the atomic specification; a NewBlock event of height m moves the next height to m + 2 - depth if that is higher, a ReorgedBlock event leaves it; the invariant holds after; it rolls back if the handler fails; no read fails |
| `SyncerDatabase.Database.GetMaxHeight` | core/src/database/bitcoin_syncer.rs:173-186 | Maximum canonical height; none exactly without canonical rows |
| `SyncerDatabase.Database.UpdateNonCanonical` | core/src/database/bitcoin_syncer.rs:200-221 | Clears the flag above the height and returns the ids of all rows above it, greatest first |
| `SyncerDatabase.Database.GetCanonicalId` | core/src/database/bitcoin_syncer.rs:224-241 | A canonical row of the height, none exactly if there is none |
| `TemplatePatch.PatchExact` | core/src/bitvm_client.rs:147-229 | Scanning the dummy script and writing any keys over the recorded windows equals rendering the script with those keys, if and only if every literal part passes the window check |
| `Template.ScanExact` | core/src/bitvm_client.rs:177-223 | The scan records exactly the key slots, each once and in order, if and only if every literal part passes the window check |
| `Template.NoStraddle` | core/src/bitvm_client.rs:270-277 | No false window begins in a literal and ends in the dummy after it |
| `Template.Dummy` | core/src/bitvm_client.rs:270-277 | Kind, number of the key in two bytes, most significant first, digit, and sixteen 255 bytes |
| `Template.MatchMeans` | core/src/bitvm_client.rs:181-183 | A window is sixteen 255 bytes after any four |
| `Template.ScanReads` | core/src/bitvm_client.rs:184-219 | At a window the scan records kind, number and digit from its first four bytes, ignoring the number for the three single keys, and panics exactly if an array has no such place |
| `WinternitzDigits.DigitsOfKey` | core/src/bitvm_client.rs:242-252 | A key has one digit per half-byte of its message and the fewest that hold the checksum |
| `WinternitzDigits.DigitsAreSlots` | core/src/bitvm_client.rs:242-252 | The scan accepts exactly the digits of the keys of a deposit |
| `WinternitzDigits.RecordDigits` | core/src/bitvm_client.rs:147-229 | For clean scripts over any digits of the keys, generation does not panic and records every digit exactly where it is |
| `TemplatePatch.ScanSpaced` | core/src/bitvm_client.rs:177-223 | For any bytes the recorded windows are in bounds, pairwise disjoint and name valid slots |
| `TemplatePatch.ByteInWindow` | core/src/bitvm_client.rs:633-726 | Each byte of a window becomes that window's key byte whatever the order of the writes |
| `TemplatePatch.ByteOutside` | core/src/bitvm_client.rs:633-726 | Bytes outside all windows are unchanged |
| `TemplatePatch.PatchSlots` | core/src/bitvm_client.rs:633-726 | Byte for byte, patched slots equal the rendered script |
| `TemplatePatch.FalseWindow` | core/src/bitvm_client.rs:177-223 | A window in a literal makes the scan panic or record a window over bytes of that literal |
| `TemplatePatch.PartialCheck` | core/src/bitvm_client.rs:159-168 | A literal ending in a partial script passes the window check exactly when the partial script does and no window begins in the bytes before it |
| `TemplatePatch.GuardMissesStart` | core/src/bitvm_client.rs:159-168 | The check of the partial scripts is not enough: a script whose partial end passes it and whose scan succeeds is patched wrongly for some keys |
| `TemplateCache.HasNoWindow` | core/src/bitvm_client.rs:159-168 | True exactly when no window of the partial script ends in sixteen 255 bytes |
| `TemplateCache.ScanScript` | core/src/bitvm_client.rs:179-222 | The places recorded for each slot grow by this script's windows of that slot, in order; none exactly where the code panics |
| `TemplateCache.GenerateFreshData` | core/src/bitvm_client.rs:147-229 | For every slot, all its windows over all scripts in order; panics exactly on a window in a partial script or one that names no slot |
| `TemplateCache.OrderVisitsOnce` | core/src/bitvm_client.rs:663-714 | The six replacement passes visit every slot exactly once and nothing else |
| `TemplateCache.CountsAgree` | core/src/bitvm_client.rs:729-767 | Counted by slot or by script the windows are the same number |
| `TemplateCache.CalculateReplacementOperations` | core/src/bitvm_client.rs:729-767 | For any cache the number of recorded places; for one produced by the scan the number of windows that will be written |
| `TemplateReplace.WritesCommute` | core/src/bitvm_client.rs:663-714 | Writes to windows that do not overlap commute |
| `TemplateReplace.FillOne` | core/src/bitvm_client.rs:663-714 | Filling one window keeps all filled windows and all other bytes |
| `TemplateReplace.SlotFilled` | core/src/bitvm_client.rs:663-714 | A slot's pass fills exactly its windows in all scripts on top of those filled before; all other bytes stay |
| `TemplateReplace.WriteSlotsRange` | core/src/bitvm_client.rs:663-714 | For any cache the passes panic exactly if a recorded place is out of range, and never change a length |
| `TemplateReplace.PassesPatch` | core/src/bitvm_client.rs:663-714 | For a cache produced by the scan the passes never panic and patch every script at all its windows and nowhere else |
| `TemplateReplace.ReplaceDisproveScripts` | core/src/bitvm_client.rs:633-726 | For any cache: refused exactly above the limit, a panic exactly on a place out of range, otherwise the writes of all passes; for a scanned cache every script is patched and nothing panics |
| `TemplateReplace.DisproveScripts` | core/src/bitvm_client.rs:147-229 | If the literal parts pass the window check, cache generation followed by replacement gives, for any keys, the scripts generated directly with those keys; refused exactly above the limit |
| `MiniAsserts.AlignedExactly` | core/src/bitvm_client.rs:412-605 | Scripts and derivation paths have the same layout for every number of hash keys exactly when there are fourteen U256 keys; otherwise only without hash keys and with four or nine |
| `MiniAsserts.MiniAssertMatches` | core/src/bitvm_client.rs:412-605 | In every mini-assert, script, data and path agree item by item: the key was derived from that path, message lengths agree, and the data belong to the same key at that width |
| `MiniAsserts.EveryKeyOnce` | core/src/bitvm_client.rs:412-459 | Every key is committed at exactly one place, and the places hold nothing else |
| `MiniAsserts.KeyBytes` | core/src/actor.rs:75-105 | Two keys of any deposits are derived from the same bytes exactly when kind, number, outpoint and network agree |
| `MiniAsserts.PlacesApart` | core/src/bitvm_client.rs:412-605 | Different places of a deposit's assert scripts hold keys derived from different bytes |
| `MiniAsserts.CountsFit` | core/src/bitvm_client.rs:404-410 | 381 flattened keys give exactly 36 assert transactions |
| `MiniAsserts.GetAssertScripts` | core/src/bitvm_client.rs:412-459 | Script j commits to the keys of layout j with their message lengths |
| `MiniAsserts.GetAssertCommitData` | core/src/bitvm_client.rs:461-499 | Data j are the values of the keys of layout j |
| `MiniAsserts.GetAssertDerivations` | core/src/bitvm_client.rs:522-605 | The paths of the derivation layout, with the message length of each kind |
| `MiniAsserts.GeneratePks` | core/src/actor.rs:353-403 | Succeeds exactly when every derivation does; key k of kind 3, 4, 5 comes from the path with message length 64, 64, 32, that kind and k, the single keys from length 40, and the payout block-hash key keeps its dummy |
| `DerivationPath.EncodeInjective` | core/src/actor.rs:75-105 | Two paths have equal bytes exactly when they agree on variant, network, indices and outpoint |
| `DerivationPath.EncodeReads` | core/src/actor.rs:51-105 | The bytes read back: variant 0, 1 or 2; network 0 to 3 for regtest, testnet4, signet, Bitcoin; every number big-endian at its place; the txid; the lengths |
| `DerivationPath.ToBytes` | core/src/actor.rs:75-105 | Field by field the buffer becomes bytes that read back so |
| `TaprootSigning.TweakedSignature` | core/src/actor.rs:124-148 | Tweaking a keypair and its x-only key fail together, and a signature with the tweaked keypair verifies under the tweaked key |
| `TaprootSigning.TweakRelation` | core/src/actor.rs:124-148 | The tweaked keys are those of BIP 341: the difference to the x-only key is the tweak for that key and Merkle root, modulo the order; none exactly if there is no such key |
| `TaprootSigning.KeypairRelation` | core/src/actor.rs:124-135 | The same for the tweaked keypair |
| `TaprootSigning.RootsMatter` | core/src/actor.rs:124-135 | Merkle roots with different tweaks give different keypairs |
| `TaprootSigning.SharedXOnly` | core/src/actor.rs:163-175 | An x-only key is the even one of a key and its negation; two keypairs share a cache entry exactly when they are equal or negations of each other |
| `TaprootSigning.TweakCache.GetTweakedKeypair` | core/src/actor.rs:163-175 | The cached keypair equals direct computation, whichever keypair with that x-only key filled the entry |
| `TaprootSigning.TweakCache.GetTweakedXOnly` | core/src/actor.rs:177-186 | The cached key equals direct computation |
| `TaprootSigning.VerifySchnorr` | core/src/actor.rs:189-206 | By cases, with or without a cache: never for an unknown path, under the key itself for a script path, under the x-only key of the tweaked key for a key path |
| `TaprootSigning.SignWithTweak` | core/src/actor.rs:236-253 | The signature verifies under the tweaked x-only key; none exactly if the tweak cannot be added |
| `TaprootSigning.SavedFirst` | core/src/actor.rs:405-417 | The first saved entry with the id decides; without one there is no signature |
| `TaprootSigning.SignScript` | core/src/actor.rs:675-760 | The saved signature exactly if it verifies; without one the actor's own exactly if the key is its own; the result verifies under the script's key |
| `TaprootSigning.SignKeySpend` | core/src/actor.rs:789-838 | The same for the tweaked internal key |
| `TaprootSigning.CanSignMeans` | core/src/actor.rs:640-840 | When an input can be signed, spelled out for every spend path and kind of script |
| `TaprootSigning.SatisfiesMeans` | core/src/actor.rs:640-840 | What a satisfying witness holds, spelled out likewise |
| `TaprootSigning.SignInput` | core/src/actor.rs:640-840 | A returned witness satisfies the input's spend path; no witness only for scripts filled in elsewhere; exact condition of success |
| `TaprootSigning.TxHandler.TxSignAndFillSigs` | core/src/actor.rs:627-845 | Existing witnesses are kept and every witness placed satisfies its input, also when it stops at an error; it succeeds exactly when every open input can be signed |
| `KeyStore.KeysInRuns` | core/src/aggregator.rs:250-345 | Under every interleaving of callers: keys present are pairwise distinct whenever the lock is free, no caller panics, each result has one distinct key per client in client order answered by that client, and all callers that ever succeed return the same keys |
| `KeyStore.WaitingGetsThrough` | core/src/aggregator.rs:271-344 | A waiting caller whose answers complete the store with distinct keys gets the keys in two more steps, whatever others have done before |
| `KeyStore.FullGetsThrough` | core/src/aggregator.rs:264-344 | A caller that finds the store full gets its keys without asking anyone |
| `KeyStore.FullForever` | core/src/aggregator.rs:250-345 | A full store never changes |
| `KeyStore.PresentDistinct` | core/src/aggregator.rs:315-325 | The hash-set size comparison detects exactly the duplicates among the keys present |
| `KeyStore.Store.CollectMissing` | core/src/aggregator.rs:271-335 | Succeeds exactly when every client has a stored key or answers and all these keys differ; missing keys are filled; on a duplicate every key is reset |
| `KeyStore.Participating` | core/src/aggregator.rs:562-608 | For each wanted key the first client that answered it, or the first wanted key no client has |
| `KeyDistribution.DistributionInRuns` | core/src/aggregator.rs:394-559 | In every run no verifier lags behind the broadcast channel; a verifier that finishes has set each operator's keys exactly once under that operator's label, all operators have sent, and the labels are distinct |
| `KeyDistribution.FinishesIffDistinct` | core/src/aggregator.rs:394-559 | A verifier that has seen every operator's message can finish exactly when the operators' labels are distinct |
| `KeyDistribution.FailureStopsAll` | core/src/aggregator.rs:394-559 | If any operator fails, no verifier finishes |
| `KeyDistribution.AllFinish` | core/src/aggregator.rs:394-559 | With distinct labels, from every reachable state in which nothing has failed every verifier can be brought to finish |
| `KeyDistribution.LogFits` | core/src/aggregator.rs:405-411 | The channel never holds more messages than its capacity, which is rounded up to a power of two |
| `KeyDistribution.RunInv` | core/src/aggregator.rs:394-559 | Every reachable state satisfies the protocol invariant |
| `KeyDistribution.ReceiveLoop` | core/src/aggregator.rs:497-536 | One verifier's loop succeeds exactly when enough different operators were heard, having set the first message of each in order |
| `KeyDistribution.FirstOfEachMeans` | core/src/aggregator.rs:513-518 | What is set is, for each label heard, its first message and nothing else |
| `Compatibility.CompatibleExactly` | core/src/compatibility.rs:85-110 | Two versions are compatible exactly when they agree up to the first non-zero number and the later is a release or differs from the other only in the pre-release part |
| `Compatibility.PrecedenceMeans` | core/src/compatibility.rs:98-99 | The comparison is the precedence of section 11 of Semantic Versioning 2.0.0, stated by first differences |
| `Compatibility.CompatibleSymmetric` | core/src/compatibility.rs:98-109 | The check is symmetric |
| `Compatibility.ReleasesEquivalence` | core/src/compatibility.rs:98-109 | Over releases it is an equivalence |
| `Compatibility.PreReleasesNotTransitive` | core/src/compatibility.rs:98-109 | With a pre-release it is not transitive: three concrete versions |
| `Compatibility.MinorMayDiffer` | core/src/compatibility.rs:98-109 | From major version 1 on, releases with different minor versions are accepted |
| `Compatibility.VersionOrder` | core/src/compatibility.rs:98-99 | Version precedence is a total order |
| `Compatibility.IsCompatible` | core/src/compatibility.rs:48-117 | Accepts exactly the compatible, reports exactly the fields that differ, and fails exactly on an unreadable version |
| `Compatibility.AllCompatible` | core/src/compatibility.rs:178-191 | Refuses exactly the actors that are not compatible with its own parameters |
| `Compatibility.StarIsClique` | core/src/aggregator.rs:919-1018 | If the aggregator accepts all actors, they accept each other pairwise exactly when no two are a pre-release and an earlier version it does not belong to |
| `Compatibility.ReleaseStarIsClique` | core/src/aggregator.rs:919-1018 | In particular always among releases |
| `PagedLogs.GetLogs` | core/src/citrea.rs:200-231 | The result equals one query over the whole range; the pages cover it in order, each once, each of a thousand blocks but the last; with answering queries there is a result exactly when no height overflows |
| `PagedLogs.LogsAre` | core/src/citrea.rs:216-223 | One block yields its own logs, a range those of its blocks and no other |
| `PagedLogs.NoOverflowMeans` | core/src/citrea.rs:208-227 | No overflow means that no page starting in the range ends past 64 bits and neither does the height after the range |
| `PagedLogs.LastHeightsOverflow` | core/src/citrea.rs:208-211 | A single height can be asked for exactly if it is not among the last 999; the greatest one overflows |
| `PagedLogs.LogsSplit` | core/src/citrea.rs:200-231 | Logs of adjacent ranges concatenate |
| `PagedLogs.CollectWithdrawalUtxos` | core/src/citrea.rs:458-496 | The list from the start index on, numbered; exact condition of success |
| `PagedLogs.ResumeEqualsScratch` | core/src/citrea.rs:458-496 | Resuming after the last index collected gives, together, what collecting from scratch gives |

## Left out

- BitcoinSyncerTask.RunOnce: heights are unbounded, so the 32-bit conversions of heights and ids are not modelled; failing database statements appear only as failing steps of the state machine.
- FinalizedBlockFetcherTask.RunOnce: the method runs at once; the interleaving of its statements with the syncer is in the state machine (`FetchSerializable`).
- Events are numbered by position in the log, so gaps in the event id sequence and other consumers' cursors are not modelled.
- ReplaceDisproveScripts: the six passes, which differ in the table they read, are one loop over all slots in their order.
- GetLogs: overflow ends the call, as in a build with overflow checks. The release profile (lines 162-165 of the root Cargo.toml) does not turn them on, so the shipped build wraps around instead and goes on from a low height; that is not modelled.
- CollectWithdrawalUtxos: the same holds for its 32-bit index.
- ToBytes: the networks for which the code panics are excluded.
- VersionOrder: build metadata is not part of a version.
- TxSignAndFillSigs: control blocks, annexes and witness serialization are not modelled beyond whether the control block is found.
- `tx_sign_preimage` and `tx_sign_winternitz`, which fill in the inputs left alone here, and Winternitz signatures themselves.
- Flattening and unflattening of Winternitz keys, and loading, saving and hashing the cache file, which would add easy round trips.
- `collect_deposit_move_txids`, which filters the logs of `get_logs`.
- Timeouts, retries, tracing, RPC conversion and the contents of error messages.
- The state machines for kickoffs and rounds, the transaction builder, the bridge and Groth16 circuits, the transaction sender and the key-encryption format.
