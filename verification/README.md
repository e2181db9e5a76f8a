# Verification of the modem control library

This project models the concurrency, crash and recovery machinery of the modem control library under
`control/src` and proves what it promises. `dafny verify dfyconfig.toml` checks all of it.

## What is modelled

Four groups of modules, each built the same way: the state and its steps on values, classes and methods with
the source's own loops and fields proved against them, and theorems over every run.

- **Engine, actors, journal and crashes.** `Operation` and `Engine` are the operation engine cut at its awaits:
  one function per stretch of code, a call being its program counter. `Actor` is the per-modem promise chain and
  `Root` hands out one actor per modem. `JsonText` and `Codec` write and read journal lines (`JsonCut`, `JsonLayout` and
  `DecodeLaws` are their laws, `Utf8` their size), `Store` and
  `JournalStore` append them with torn-tail repair, `Recovery` folds them back and `JournalEngine` is hook and
  replay. `System` puts all of this into one transition system: reads, writes and reconciliations interleave
  freely with generation changes, appends that complete or are rejected half-way, and process deaths that leave
  any prefix of the append in progress; the next session starts from the file alone. `Fence`, `FenceLimits`,
  `EngineLaws`, `Outcomes` and `CrashSafety` are the theorems about it.
- **Observer and rows.** `Snapshot` holds the state dimensions and the guards, `Mapping` the way from a decoded
  object tree to a snapshot and its fingerprint (`MappingLaws` what it keeps), `RowStore` and `RowStoreObject` the rows with their revisions.
  `Observer` is the epoch protocol: bus owner changes, signals, late and reordered replies, coalesced refreshes.
  `ObserverRows` and `ObserverObject` connect the two.
- **Provider matching.** `Matcher` and `MatcherSelection` score evidence and select; `MatcherCache` is the
  registry, the staged evaluation and the cache under concurrent calls.
- **Modes, ladder, cells.** `Bits`, `Modes` and `ModeTruth` are mode masks with 32-bit operators; `Ladder` is the
  recovery ladder and its budget; `Cells` the serving-cell order.

`Wrappers`, `Order` (string order and sorting) and `Separator` (NUL in composite keys) are shared.

A step that is not enabled does nothing, so every sequence of actions is a run and the theorems quantify over all
sequences. Ports, hooks, providers, clocks and the bus appear as the answers they give, chosen freely by the actions.

## Where code and documentation differ

The model follows the code.

- The control README (`control/README.md:313-317`) says that after an unknown outcome later mutations are refused.
  That holds from a write's unknown outcome on (`Fence.MutationFence`). A read can close the gate too, while a write is
  already past its check, and that write still executes: `FenceLimits.FenceExact` says exactly when the gate stops
  everything, `FenceLimits.StaleReadDoesNotSeal` shows the other case.
- `control/src/backend/mapping.ts:8-9` calls mapped snapshots valid by construction. A modem that reports
  `State` 2 maps to a locked modem without SIM slots, which the guards refuse (`Mapping.MappedPossible`), so
  `reconcile` throws part-way and the observer reports a bus error (`RowStore.ReconcileRefines`).
- `control/src/domain/snapshot.ts:3-7` promises strictly increasing revisions. They never fall
  (`RowStore.RevisionsNeverFall`), but a restored row can repeat one, with or without a removal in between
  (`RowStore.RestoreRepeatsRevision`, `RowStore.ReturnRepeatsRevision`). `RowStore.RevisionRises` says for every
  tree, and for rows present or returning, exactly when it rises.
- `control/src/journal/store.ts:24-29` confines a torn line to its own record. That holds across process deaths
  (`Store.TornTailConfinement`); an append that fails within the process is not probed for again, and when its
  write was cut on a file known to be terminated it takes the next record with it
  (`Store.FailedAppendExact`, `Store.GluedAppendLosesBoth`). Crash safety needs that case excluded
  (`CrashSafety.GluedAppendForgets`). A file that exists but cannot be opened counts as terminated as well, with
  the same effect (`JournalStore.UnopenedExact`).
- `preferred-not-in-allowed` (`control/src/radio/mode-combinations.ts:120-121`) is also set for an allowed preference
  whose mask reaches 2^31 (`ModeTruth.NotInAllowedExact`).
- `compareServing` is documented as total even between distinct cells (`control/src/backend/cell-info.ts:116-118`).
  Infinite `rsrq` or `sinr` values print as `null` in its last tiebreak, so cells that differ only there tie
  (`Cells.TieExact`, `Cells.InfinityTies`).

## Model

| member | source | states |
|---|---|---|
| `Codec.RoundTrip` | control/src/journal/codec.ts:175-205 | An entry decodes from its own encoding to itself exactly when every string the decoder insists on, a refusal or failure reason included, is non-empty; otherwise decoding fails |
| `Codec.DecodedReencodes` | control/src/journal/codec.ts:198-205 | Whatever a line decodes to is an entry that survives being encoded and decoded again |
| `Codec.EncodedOneLine` | control/src/journal/codec.ts:167-195 | The encoding of any entry, whatever its strings contain, holds no line break (string escaping per section 7 of RFC 8259) |
| `Codec.NoPrefixDecodes` | control/src/journal/store.ts:24-29 | No strict prefix of an encoded entry decodes, so a torn append is never mistaken for a record |
| `Codec.GluedEntriesDoNotDecode` | control/src/journal/store.ts:24-29 | An encoding, whole or cut anywhere, followed by another one on the same line decodes to nothing |
| `JsonCut.CutObjectsDoNotParse` | control/src/journal/codec.ts:198-201 | A written JSON object cut anywhere and followed by a whole one is no JSON document |
| `JsonText.RoundTrip` | control/src/journal/codec.ts:194-201 | Parsing what stringify wrote returns the same JSON value, for every value |
| `JsonText.StringifyInjective` | control/src/backend/mapping.ts:168-185 | Two values with the same text are equal, which fingerprints, cache signatures and tags rest on |
| `Codec.OutcomeOf` | control/src/journal/entry.ts:115-131 | The journaled outcome is unknown exactly when the result requires reconciliation |
| `DecodeLaws.DecodeExact` | control/src/journal/codec.ts:107-205 | A line decodes to an entry exactly when it is one JSON object that spells schema version 1 and the entry's fields, in any order, beside any others and with any spelling of whole numbers, and the strings that must say something do |
| `DecodeLaws.RefusalExact` | control/src/journal/codec.ts:137-205 | A blank line is empty, a line that is no JSON is invalid, an object without version 1 has an unsupported version whatever else it holds, and only then is a field named |
| `DecodeLaws.LookupExact` | control/src/journal/codec.ts:198-205 | Of several members with one name the last one counts |
| `DecodeLaws.FractionRead` | control/src/journal/codec.ts:198-205 | A number literal with a fraction and an exponent is read as its digits scaled by both (section 6 of RFC 8259) |
| `DecodeLaws.AnyLayoutDecodes` | control/src/journal/codec.ts:198-205 | An entry's JSON decodes to the entry with any whitespace between its tokens |
| `DecodeLaws.RecordedFacts` | control/src/journal/entry.ts:100-131 | What decodes from a journaled start or end has the operation's ids, generation, time, descriptor evidence, and the outcome with its reason |
| `DecodeLaws.NothingPrivate` | control/src/journal/entry.ts:23-29 | Operations that differ only in their input or in the value that was applied leave the same lines |
| `JsonLayout.LayoutIgnored` | control/src/journal/codec.ts:198-205 | Any value written with any whitespace at every place where JSON has room for some (section 2 of RFC 8259) parses to that value |
| `JsonLayout.EscapeRead` | control/src/journal/codec.ts:198-205 | Every character, beyond 0xFFFF by its surrogate pair, may be written as its escape (section 7 of RFC 8259) |
| `Store.DecodeJournalText` | control/src/journal/store.ts:95-121 | The two-pass loop returns what each line is worth on its own, in line order |
| `Store.ReadPartition` | control/src/journal/store.ts:95-121 | Entries and damage split the populated lines between them in increasing line order; damage is trailing exactly on the last populated line, and only the last damage record can be |
| `Utf8.LengthExact` | control/src/journal/store.ts:113-117 | A damage record's size is the number of bytes of its line in UTF-8 (section 3 of RFC 3629) |
| `Store.DamageIsolation` | control/src/journal/store.ts:95-121 | Replacing one line by any text without a line break leaves the entries of every other line unchanged |
| `Store.SplitJoin` | control/src/journal/store.ts:96-96 | Splitting at line breaks undoes joining lines |
| `Store.AppendedPrefix` | control/src/journal/store.ts:165-174 | Whatever prefix of an append is on file, earlier entries are read unchanged; the entry itself is read exactly when its JSON is whole, and a torn one costs one damaged line |
| `Store.AppendedWhole` | control/src/journal/store.ts:165-174 | A completed append adds exactly its entry, or one damaged line when the entry is not well formed |
| `Store.TornTailConfinement` | control/src/journal/store.ts:165-193 | Over any number of sessions, each ended cleanly or by a crash with any prefix written, a read returns every appended entry in order, at most the crashed ones besides, and at most one damaged line per crash |
| `Store.FailedAppendExact` | control/src/journal/store.ts:165-174 | After an append that failed within the process, a read returns everything before it, the failed entry if its JSON is whole, and the next entry, exactly when the file was known to be open, or nothing or everything had been written |
| `Store.GluedAppendLosesBoth` | control/src/journal/store.ts:165-174 | A failed append cut anywhere on a closed file glues the next one to it: earlier entries stay, neither of the two is read, one more line is damaged |
| `JournalStore.FileJournalStore.Append` | control/src/journal/store.ts:138-144 | Appends queue in call order |
| `JournalStore.FileJournalStore.AppendNow` | control/src/journal/store.ts:165-174 | One append changes file and probe state as the value-level append, or failed append, says, from what the probe found or could not open; the queue goes on either way |
| `JournalStore.FileJournalStore.ProbeTerminated` | control/src/journal/store.ts:176-193 | A file that is absent, cannot be opened, is empty or ends in a line break counts as terminated, any other does not |
| `JournalStore.UnopenedExact` | control/src/journal/store.ts:165-193 | Appended to a torn file that can be written but not opened for reading, a record is read back with all earlier ones exactly when the torn append had written nothing or everything; if the file can be opened, always |
| `JournalStore.FileJournalStore.Read` | control/src/journal/store.ts:146-163 | An absent file reads as empty, any other failure to open as file damage, everything else line by line |
| `JournalStore.CreateFileJournalStore` | control/src/journal/store.ts:130-136 | A blank path is refused; otherwise a fresh store that has not probed yet |
| `Recovery.ReconstructRecovery` | control/src/journal/recovery.ts:112-172 | The map-and-order loop equals the declarative fold, and the report lists as pending exactly the records whose operation's last entry is a start, as unknown exactly those whose last entry is an unknown outcome, none as blocked, each list in record order |
| `Recovery.RecordGrows` | control/src/journal/recovery.ts:117-153 | One more entry changes its own key's record as the loop body does, and no other key's |
| `Recovery.KeysOccur` | control/src/journal/recovery.ts:113-120 | A key is listed exactly when it has entries, and only once |
| `Recovery.RequiredExact` | control/src/journal/recovery.ts:161-172 | `reconciliationRequired` is the sorted, duplicate-free list of exactly the modems with a key whose last entry is a start or an unknown outcome |
| `Recovery.ReportExact` | control/src/journal/recovery.ts:161-172 | The same of the value-level report, for every journal |
| `Recovery.NeighboursCommute` | control/src/journal/recovery.ts:112-158 | Swapping neighbouring entries of different keys changes nothing but record order |
| `Recovery.KeysCommute` | control/src/journal/recovery.ts:112-172 | Journals that agree key by key are recovered alike, up to record order |
| `Recovery.KeyExact` | control/src/journal/recovery.ts:103-105 | A key identifies modem, operation and generation exactly when neither id contains NUL |
| `JournalEngine.JournalEngine.Record` | control/src/journal/engine.ts:53-55 | The hook appends the entry of the event, and nothing else |
| `JournalEngine.JournalEngine.Recover` | control/src/journal/engine.ts:64-66 | Recovery reports the records with their pending and unknown ones, the required modems and exactly the damaged lines that are on file; an unreadable file names no modem and is itself the damage |
| `Operation.Classify` | control/src/domain/operation.ts:125-189 | A completion is unknown exactly when the generation moved or a write's reply was lost, and says which; applied and refused need an unmoved generation; reasons are passed on |
| `Operation.DescriptorRefusal` | control/src/operations/operation-engine.ts:204-217 | What passes is exactly what is supported, available, within its input constraint and has every hook its descriptor requires; a refusal for support or availability gives the descriptor's reason |
| `Operation.RangeExact` | control/src/operations/operation-engine.ts:219-233 | A range with a step lets in exactly the numbers within its bounds that lie a whole number of steps above its minimum; a step of 0 lets in none |
| `EngineLaws.ExecutedIsPermitted` | control/src/operations/operation-engine.ts:86-138 | In every run a provider is called only for operations their descriptors permit |
| `Engine.OperationEngine.BeginInvocation` | control/src/operations/operation-engine.ts:78-93 | A write on a gated modem is refused with `reconciliation-required`; the live preconditions are reached exactly when the gate is open, or the operation is a read, and its descriptor permits it; everything else ends refused |
| `Engine.OperationEngine.ConcludeInvocation` | control/src/operations/operation-engine.ts:117-130 | An unknown outcome closes the modem's gate, and only that one, before the completion is journaled |
| `Engine.OperationEngine.FinishReconciliation` | control/src/operations/operation-engine.ts:61-74 | The gate reopens exactly when the run succeeded in the generation it was asked for |
| `Engine.OperationEngine.ExecuteWithRetry` | control/src/operations/operation-engine.ts:136-158 | At most two attempts; only a failed idempotent read is retried, and the last reply decides |
| `Actor.Serialised` | control/src/backend/modem-actor.ts:74-91 | In every interleaving, tasks of one key start in submission order and never overlap, a key missing from the map has no unsettled task, and the map is empty once everything is cleaned up |
| `Actor.StartExact` | control/src/backend/modem-actor.ts:74-79 | A queued task may start exactly when every earlier task of its own key has settled; other keys have no say |
| `Actor.Progress` | control/src/backend/modem-actor.ts:76-91 | While a task is not cleaned up some step is possible: no queue stalls, rejections included |
| `Actor.ModemActor.Run` | control/src/backend/modem-actor.ts:74-84 | Submitting queues behind the key's tail and becomes the tail |
| `Actor.ModemActor.CleanupTask` | control/src/backend/modem-actor.ts:84-89 | A clean-up drops the key's entry only when this task is still its tail |
| `Root.ModemControlCompositionRoot.ActorFor` | control/src/safety/composition-root.ts:48-54 | The same modem always gets the same actor, a new modem a fresh one, and no two modems share one |
| `System.OneActive` | control/src/operations/operation-engine.ts:41-53 | Two writes or reconciliations of one modem are never active together |
| `System.RunKeepsSerial` | control/src/operations/operation-engine.ts:41-53 | Every reachable state, over any sessions and crashes, keeps each live call in step with its actor task |
| `System.RunKeepsChained` | control/src/journal/store.ts:138-144 | In every reachable state the chain of appends holds exactly the live calls that await one, once each |
| `Fence.MutationFence` | control/src/operations/operation-engine.ts:41-84 | In every interleaving, between a write that ends in an unknown outcome and a later write on that modem that calls its provider, a reconciliation of the modem succeeded or the process ended |
| `Fence.UnknownFences` | control/src/operations/operation-engine.ts:119-121 | When a write ends unknown the gate is closed and no other write of the modem is past its check |
| `Fence.FenceHolds` | control/src/operations/operation-engine.ts:78-84 | A fenced modem stays fenced under every step but a successful reconciliation or the end of the process |
| `FenceLimits.FenceExact` | control/src/operations/operation-engine.ts:78-106 | A closed gate stops every further write exactly when no write on the modem is already past its own check |
| `FenceLimits.StaleReadDoesNotSeal` | control/src/operations/operation-engine.ts:41-44 | For any plain read and any write on one modem there is a run in which the read's stale reply closes the gate and the write still executes |
| `CrashSafety.CrashSafety` | control/src/operations/operation-engine.ts:108-130 | At every point of every legal run, so at every crash with any part of the last append on file: a journaled operation whose provider was called has its modem in the recovered set unless its completion is on file and its verdict is known |
| `CrashSafety.GateIsRecovered` | control/src/operations/operation-engine.ts:117-130 | Every modem whose in-memory gate journaled operations closed is in the recovered set of the file as it stands |
| `CrashSafety.GluedAppendForgets` | control/src/journal/store.ts:138-174 | For any closed file, any two writes that pass every check on different modems and any cut: a first append rejected there lets the second write execute while the journal holds no entry of either |
| `EngineLaws.AppliedIsConfirmed` | control/src/operations/operation-engine.ts:136-185 | In every run a call becomes `applied` in exactly those steps that bring the confirming answer: the provider's, or the matching readback's where one is required, in the generation it was fenced to |
| `EngineLaws.RollbackIsDefinite` | control/src/operations/operation-engine.ts:170-196 | In every run a rollback starts only on a definite failure in an unmoved generation, never on a lost or stale reply of a write |
| `EngineLaws.LeaseIsReleased` | control/src/operations/operation-engine.ts:108-134 | In every run a call that holds its lease still holds it at any later point, or the release was called in between, whatever hooks, provider and journal do |
| `EngineLaws.RunOk` | control/src/operations/operation-engine.ts:136-196 | In every run attempts stay within two and only idempotent reads have a second; readbacks follow applied results, rollbacks failed ones; whatever has passed the first stretch is permitted |
| `Outcomes.StartsExact` | control/src/operations/operation-engine.ts:41-86 | In every run a read starts as it is submitted and a write when its actor comes to it, fenced to the generation of that moment; it reaches its preconditions exactly when the gate is open, or it is a read, and its descriptor permits it |
| `Outcomes.CheckExact` | control/src/operations/operation-engine.ts:88-95 | In every run satisfied preconditions lead to the admission, a refusal is told with its reason, a rejection ends the call |
| `Outcomes.AdmissionExact` | control/src/operations/operation-engine.ts:97-106 | In every run a call gets from its admission to its journal, or without one to its provider, exactly when none is required or a write was admitted; otherwise it ends without a lease |
| `Outcomes.ExecutedWasLetIn` | control/src/operations/operation-engine.ts:88-117 | In every run a provider is called only after the call's preconditions were satisfied and, later, its admission was granted wherever one is required |
| `Outcomes.ReplyExact` | control/src/operations/operation-engine.ts:136-196 | In every run a provider's reply is followed by a second attempt exactly for a first failed idempotent read, by a readback exactly when it applied and one is required, by a rollback exactly when it failed for good and one is required, all only in an unmoved generation; the verdict is unknown, and the gate closes, exactly when the generation moved or a write's reply was lost |
| `Outcomes.ReadbackExact` | control/src/operations/operation-engine.ts:170-192 | In every run a readback's reply leaves the applied result standing exactly when it applied and matches in an unmoved generation; a moved one makes the verdict unknown and closes the gate; everything else is a failure, rolled back wherever there is a hook |
| `Outcomes.RollbackSettles` | control/src/operations/operation-engine.ts:186-196 | In every run the verdict after a rollback is the failure that called for it, whatever the rollback answered |
| `Outcomes.JournaledExact` | control/src/operations/operation-engine.ts:108-134 | In every run the provider is called after the start entry is on file and the verdict told after the completion entry; a rejected append throws; a lease is released first in both cases |
| `Outcomes.ReturnsItsVerdict` | control/src/operations/operation-engine.ts:117-134 | In every run a call that returns, returns its verdict, or, if its provider was never called, a refusal; its completion entry carries the same verdict |
| `Outcomes.ThrowsExact` | control/src/operations/operation-engine.ts:88-134 | In every run an invocation throws in exactly those steps in which a port it asked, a hook, its provider or the journal throws at it |
| `Outcomes.ReleaseExact` | control/src/operations/operation-engine.ts:131-133 | A released lease leaves the ending as it was decided; a release that throws replaces it |
| `Outcomes.ReconcileStarts` | control/src/operations/operation-engine.ts:50-60 | In every run a reconciliation is run exactly when the gate of its modem is closed and the generation is the one it was asked for, and otherwise ends at once |
| `Outcomes.ReconcileEnds` | control/src/operations/operation-engine.ts:61-75 | In every run the end of a reconciliation opens its modem's gate, and reports so, exactly when it succeeded in the generation it was asked for; no other gate is touched |
| `Outcomes.GateCanReopen` | control/src/operations/operation-engine.ts:50-75 | From every reachable state in which the modem's gate is closed and its actor idle, submitting, starting and successfully ending a reconciliation in the current generation opens that gate and no other |
| `Snapshot.GuardsExact` | control/src/domain/guards.ts:18-134 | The six guards pass exactly the snapshots that respect every cross-dimension dependency, stated independently of the rules' order |
| `Snapshot.CodeExact` | control/src/domain/guards.ts:18-134 | The guards name the first impossible combination that a snapshot has, in their own order, and none exactly when it has none |
| `Snapshot.CheckSimSlots` | control/src/domain/guards.ts:69-90 | The counting loop over the slots returns the first of its three violations |
| `Snapshot.MarkingNeverThrows` | control/src/domain/snapshot.ts:118-120 | Marking a snapshot unavailable never breaks a guard |
| `Mapping.MappedPossible` | control/src/backend/mapping.ts:130-159 | A mapped modem passes every guard unless it reports `State` 2, and then fails with `mm-locked-without-sim-lock` |
| `MappingLaws.MappableExact` | control/src/backend/mapping.ts:86-159 | Facts are what some object tree maps to exactly when they fit together: graded IMEI, trimmed non-empty numbers, a non-empty card id, a radio that is on or low from `enabled` on, everything else as the mapping fills it in |
| `MappingLaws.MappingRoundTrip` | control/src/backend/mapping.ts:101-159 | Facts written into a tree, among any other objects and with the IMEI in either place, map back to the same facts |
| `MappingLaws.StateExact` | control/src/backend/mapping.ts:37-66 | Each state is read from its own `MMModemState` number and from no other; everything else is unknown |
| `MappingLaws.PowerExact` | control/src/backend/mapping.ts:68-98 | A modem on the air is shown with its radio on unless it reports low power, any other as it reports |
| `MappingLaws.GradeExact` | control/src/domain/identity.ts:125-144 | Fifteen or sixteen digits between any whitespace are a high-confidence IMEI unless all are zeros; nothing, or zeros, is low |
| `MappingLaws.TrimExact` | control/src/backend/mapping.ts:117-127 | Trimming takes off exactly the whitespace around a text |
| `MappingLaws.StringsExact` | control/src/backend/managed-objects.ts:99-110 | Members of a string array that are no strings are passed over |
| `MappingLaws.PathsExact` | control/src/backend/mapping.ts:161-164 | The modems of a tree are the objects with a modem interface, in the order of the tree |
| `Mapping.FingerprintInjective` | control/src/backend/mapping.ts:168-185 | On mapped modems equal fingerprints mean equal facts |
| `RowStore.ReconcileRefines` | control/src/backend/row-store.ts:32-48 | `reconcile` completes exactly when no modem of the tree reports `State` 2 or has an empty path; it then leaves exactly the tree's modems, live and as mapped, and returns true exactly when some row differs; a throw removes nothing |
| `RowStore.ReconcileTwice` | control/src/backend/row-store.ts:32-48 | A second call on the same tree returns false and changes nothing, not even the counter |
| `RowStore.MarkExact` | control/src/backend/row-store.ts:58-74 | Marking retains every row, fact and the order; a revision moves by one exactly where the row's health flips; an emission is due exactly when a row or the source's health changed; marking twice is marking once |
| `RowStore.RevisionsNeverFall` | control/src/backend/row-store.ts:58-104 | Over any operations, across removal and return, a path's revision never falls |
| `RowStore.RevisionRises` | control/src/backend/row-store.ts:84-104 | Over a `reconcile` that comes to a modem, present or back after a removal, its revision rises above the last one seen exactly when its row is not up to date and that revision was at most the counter or some modem before it is rewritten too |
| `RowStore.RestoreRepeatsRevision` | control/src/domain/snapshot.ts:118-120 | A modem seen, lost with the source and seen again has revision 2 before and after the restore |
| `RowStore.SeenBeforeRemoval` | control/src/backend/row-store.ts:32-104 | Whatever revision a path showed before its row went can be the last one seen in `RevisionRises` |
| `RowStore.ReturnRepeatsRevision` | control/src/backend/row-store.ts:32-74 | The same across a removal: seen, lost with the source, gone and back, a modem shows revision 2 twice |
| `RowStoreObject.ObservationRowStore.Reconcile` | control/src/backend/row-store.ts:32-48 | The two loops over the map compute the value-level reconcile, partial work before a throw included |
| `RowStoreObject.ObservationRowStore.MarkUnavailable` | control/src/backend/row-store.ts:58-74 | The loop marks every row and tells whether an emission is due |
| `RowStoreObject.ObservationRowStore.Upsert` | control/src/backend/row-store.ts:84-104 | One row is left alone when live with the same fingerprint; else the counter is spent before the guards decide |
| `RowStoreObject.ObservationRowStore.List` | control/src/backend/row-store.ts:76-82 | All rows in map order, healthy or with the failure's reason |
| `Observer.NoLostRefresh` | control/src/backend/observer.ts:137-224 | After an object signal of the current owner there is at every later point a younger snapshot in flight or owed, or one was dealt with, or the epoch ended |
| `Observer.OwedIsOnItsWay` | control/src/backend/observer.ts:187-224 | What is owed waits for a call in flight or for `start` to go on, unless stopped or `start` failed |
| `Observer.RunKeepsInv` | control/src/backend/observer.ts:67-73 | In every run a set refreshing flag has a read in flight, a queued refresh waits for one, and `start` awaits one call at a time |
| `ObserverRows.EpochScopedRemoval` | control/src/backend/observer.ts:199-224 | A row disappears in exactly those steps that apply a complete tree that omits it and was asked for under the owner current at that moment |
| `ObserverRows.EmissionsCurrent` | control/src/backend/observer.ts:199-255 | The list last emitted always has the current rows, order and health; only a failure's reason may lag |
| `ObserverRows.HealthExact` | control/src/backend/observer.ts:137-237 | In every run listeners see a healthy list, and every row is live, exactly when some earlier step brought the complete tree of the owner of that moment and since then there was no disconnect, no loss, change or absence of an owner and no failed or refused read of its own; at all other times no row is live |
| `ObserverRows.NoOwnerNothingLive` | control/src/backend/observer.ts:228-237 | In every run, while the bus has no owner the source is not healthy and every row is unavailable |
| `ObserverRows.RunValid` | control/src/backend/observer.ts:63-73 | In every run the rows passed the guards, carry the fingerprint of their facts and are stamped within the counter's bounds |
| `ObserverObject.MmDbusObserver.OnRefreshReply` | control/src/backend/observer.ts:199-224 | The reply is applied only under the current owner; the `finally` part settles flags and queued refresh in every case |
| `ObserverObject.MmDbusObserver.OnNameOwnerChanged` | control/src/backend/observer.ts:151-170 | Loss and change of owner mark rows stale and never remove; a new owner schedules a refresh |
| `ObserverObject.MmDbusObserver.OnObjectSignal` | control/src/backend/observer.ts:172-183 | Foreign senders are ignored, signals while priming remembered, others schedule a refresh |
| `ObserverObject.MmDbusObserver.OnOwnerReply` | control/src/backend/observer.ts:137-145 | The queried owner is adopted and read at once, or its absence makes the rows stale |
| `ObserverObject.MmDbusObserver.FinishStart` | control/src/backend/observer.ts:96-102 | Priming ends and a remembered signal is refreshed |
| `ObserverObject.MmDbusObserver.OnDisconnected` | control/src/backend/observer.ts:75-75 | Owner dropped, every row marked, and the list emitted if that shows |
| `ObserverObject.MmDbusObserver.Halt` | control/src/backend/observer.ts:112-123 | After `stop` no reply in flight counts |
| `MatcherSelection.OrderIndependence` | control/src/providers/matcher.ts:89-225 | Permuting providers whose ids are pairwise apart changes neither status, provider, profile, score, confidence nor writability |
| `MatcherSelection.ApartExact` | control/src/providers/matcher.ts:52-59 | Two ids are apart, neither with NUL behind it beginning the other, exactly when no two of their profiles share a key |
| `MatcherSelection.OrderFreeExact` | control/src/providers/matcher.ts:52-225 | Of two distinct ids, registration order never decides, whatever the providers and the request, exactly when the ids are apart |
| `MatcherSelection.SharedKeyPools` | control/src/providers/matcher.ts:52-59 | For any two ids that are not apart there are providers that pool their points under one key, and whichever was registered first is selected |
| `MatcherSelection.SelectedExact` | control/src/providers/matcher.ts:149-225 | A profile is selected exactly when it strictly outranks every other before authentication, authentication confirms it where there is one, and it ends with three points or more |
| `MatcherSelection.StatusExact` | control/src/providers/matcher.ts:67-87 | `unsupported` means that nobody earned a point, `selected` that some profile is chosen, everything else is `ambiguous`; only a selected result names a provider or may be writable |
| `MatcherSelection.SelectedIsConfident` | control/src/providers/matcher.ts:208-224 | A selected result has full confidence and is writable exactly when the provider's operations for that profile are |
| `MatcherSelection.PointsExact` | control/src/providers/matcher.ts:12-65 | A profile is worth one point per weak, two per moderate and three per strong piece of evidence that speaks for it; a confirmed authentication is worth three, capability reads count alike |
| `MatcherSelection.UnselectedRated` | control/src/providers/matcher.ts:30-87 | A result that selects nothing is rated by the best there was: nothing, what the leading profile had before its authentication, or all it earned and too little |
| `MatcherSelection.ConflictsExact` | control/src/providers/matcher.ts:105-206 | The conflicts are contradicting pieces of the evidence, and every one that is not a passive fact |
| `MatcherSelection.RequiredConflicts` | control/src/providers/matcher.ts:114-140 | Among passive facts the conflicts are exactly the disproved ones that a provider on this transport requires |
| `MatcherSelection.DecisionExact` | control/src/providers/matcher.ts:149-155 | The pre-authentication decision is none, a strict top or a shared maximum, by each provider's own worth |
| `MatcherSelection.TallyExact` | control/src/providers/matcher.ts:52-65 | The candidate map holds each awarded key once with the sum of its awards |
| `MatcherCache.Run` | control/src/providers/matcher.ts:89-225 | The staged loops compute the evaluation; at most one authentication is made, of the strict top candidate |
| `MatcherCache.SignatureExact` | control/src/providers/matcher.ts:41-50 | Requests of one modem share a signature exactly when they are equal and meet the same registry revision |
| `MatcherCache.CacheTransparent` | control/src/providers/matcher.ts:227-243 | In any interleaving of matches and registrations a call resolves to the evaluation of its request against the registry as it stood when the call began |
| `MatcherCache.InMemoryProviderRegistry.Register` | control/src/providers/registry.ts:29-40 | Duplicate ids are refused, then blank versions; an accepted provider is appended and the revision counts registrations |
| `MatcherCache.GenerationScopedProviderMatcher.BeginMatch` | control/src/providers/matcher.ts:233-237 | A signature hit settles at once, else the registry is copied before the first await |
| `MatcherCache.GenerationScopedProviderMatcher.SettleMatch` | control/src/providers/matcher.ts:239-241 | The finished evaluation overwrites the modem's entry, however late it is |
| `Modes.MaskRoundTrip` | control/src/radio/mode-combinations.ts:89-112 | Encoding the names of a mask gives its low 32 bits, so the mask itself exactly below 2^32 |
| `Modes.NameRoundTrip` | control/src/radio/mode-combinations.ts:63-78 | A bit, named or passed through, encodes back to itself |
| `Modes.BitNames` | control/src/radio/mode-combinations.ts:46-65 | Bit 0 is `cs`, bits 1 to 4 are the generations `2g` to `5g`, any other bit is named by its value |
| `Modes.PassthroughExact` | control/src/radio/mode-combinations.ts:68-77 | A passthrough name stands for its number exactly when that is a safe integer above 0 |
| `Modes.UnplacedExact` | control/src/radio/mode-combinations.ts:68-77 | No name but the seven words and the passthrough form can be placed |
| `Modes.ModeNames` | control/src/radio/mode-combinations.ts:89-97 | The doubling loop with its 32-bit test lists the names of the set bits in order |
| `Modes.EncodeModeNames` | control/src/radio/mode-combinations.ts:100-112 | The OR loop fails exactly when some name cannot be placed, naming the first |
| `Modes.TestsBit` | control/src/radio/mode-combinations.ts:93-95 | The signed `&` with any power of two tests that bit below 2^32 and nothing above |
| `ModeTruth.SameSelectionExact` | control/src/radio/mode-truth.ts:62-76 | Two combinations are the same selection exactly when both masks are equal |
| `ModeTruth.SelectionRoundTrip` | control/src/radio/mode-truth.ts:92-102 | An advertised combination encodes back to its masks exactly when its preferred mask is not `preferred-not-singular`, and fails otherwise |
| `ModeTruth.NotInAllowedExact` | control/src/radio/mode-combinations.ts:175-182 | `preferred-not-in-allowed` is set exactly when the preferred mask is not `any` and lacks the allowed bits or reaches 2^31 |
| `ModeTruth.MatchExact` | control/src/radio/mode-truth.ts:84-89 | A selection read from a reported combination finds that combination if it is advertised and nothing otherwise |
| `ModeTruth.CatalogLossless` | control/src/radio/mode-combinations.ts:221-231 | Every catalog member is on exactly one of the two lists, at its own rank |
| `ModeTruth.DecodeSupportedModeCombinations` | control/src/radio/mode-combinations.ts:221-231 | The loop splits the members into decoded combinations and undecodable members, in order |
| `ModeTruth.BuildCombination` | control/src/radio/mode-combinations.ts:164-189 | For masks the bus can carry the names encode back to the allowed mask, and each of the five anomalies is recorded exactly when the bits have it |
| `ModeTruth.CombinationExact` | control/src/radio/mode-combinations.ts:114-189 | The same of the value-level combination, for any two masks below 2^32 |
| `Ladder.BoundedRecovery` | control/src/backend/recovery-budget.ts:60-79 | Between two resets at most `maxAttempts` runs reach a rung and at most four times as many rungs run, whatever the clock says |
| `Ladder.SpacedRecovery` | control/src/backend/recovery-budget.ts:65-72 | Consecutive runs that reach the rungs without a reset are at least a cooldown apart |
| `Ladder.DegradedIsFinal` | control/src/backend/recovery-budget.ts:65-67 | Once degraded, no run calls anything outside until `clear` |
| `Ladder.ReachesExact` | control/src/backend/recovery-ladder.ts:158-191 | Counted from a reset, a run reaches the rungs exactly when policy and attribution allow it, the latch is open, the budget is unspent and the latest such run is a cooldown ago |
| `Ladder.RunEffects` | control/src/backend/recovery-ladder.ts:193-222 | A refused run calls nothing; any run makes at most four disruptive calls, each right after its own interlock allowed it |
| `Ladder.RecoveredExact` | control/src/backend/recovery-ladder.ts:193-222 | A run recovers, and clears the budget, exactly when the first rung that ends the ladder heals the modem, and is exhausted exactly when none ends it |
| `Ladder.RungsExact` | control/src/backend/recovery-ladder.ts:193-222 | A run works from the mildest rung to the most disruptive: it asks a rung's interlock exactly when the rung is allowed and no milder one ended the run, runs it exactly when let, probes exactly when applied, reports just that, and ends as the first ending rung does |
| `Ladder.MildFirst` | control/src/backend/recovery-ladder.ts:27-27 | No run calls a milder rung after a more disruptive one |
| `Ladder.LatchesExact` | control/src/backend/recovery-budget.ts:60-79 | The latch closes exactly in a run that is due but finds all attempts since the last reset spent |
| `Ladder.RefusalExact` | control/src/backend/recovery-ladder.ts:158-190 | A run that calls nothing is refused for policy, attribution, the cooldown, or the latch or spent budget, exactly as the history since the last reset says |
| `Ladder.RecoveryLadder.Run` | control/src/backend/recovery-ladder.ts:158-191 | One run changes its own modem's budget state only, as the value-level run says, and logs exactly its calls |
| `Ladder.RecoveryLadder.RunRungs` | control/src/backend/recovery-ladder.ts:193-222 | The rung loop stops at the first rung that ends it |
| `Ladder.RecoveryLadder.ClearState` | control/src/backend/recovery-ladder.ts:153-155 | Clearing resets that modem's state and no other |
| `Cells.ServingOrder` | control/src/backend/cell-info.ts:120-137 | `compareServing` is a total preorder: any three comparisons fit together and swapping flips them |
| `Order.LessExact` | control/src/backend/cell-info.ts:136-136 | Of two texts the one comes first that stops, or has the smaller character, where they first differ |
| `Cells.TieExact` | control/src/backend/cell-info.ts:120-167 | Two readings tie exactly when they agree on every tagged field, an infinite `rsrq` or `sinr` counting as absent |
| `Cells.BestIsMinimum` | control/src/backend/cell-info.ts:173-178 | The selected cell is one of the cells and none outranks it |
| `Cells.BestExact` | control/src/backend/cell-info.ts:110-178 | A serving cell is selected whenever there is one; among cells with the selected one's mark it has the highest `rsrp`, then the first cell id, then the lowest `pci`, then the first tag, absent fields last |
| `Cells.SelectionIgnoresOrder` | control/src/backend/cell-info.ts:169-178 | Any permutation selects a cell equal in every field but source and time, up to infinite `rsrq` or `sinr` |
| `Cells.InfinityTies` | control/src/backend/cell-info.ts:156-167 | Readings that differ in `rsrq` alone are decided by input order exactly when both values print as `null` |
| `Cells.SelectServingCell` | control/src/backend/cell-info.ts:173-178 | The reduce loop returns the best cell, or none for no cells |

## Left out

- CrashSafety.CrashSafety: assumes fresh operation ids, well-formed ids without NUL and no append that is rejected half-way on a file known to be terminated; the last assumption is needed (`CrashSafety.GluedAppendForgets`), and the ids are what keys can tell apart (`Recovery.KeyExact`).
- CrashSafety.GateIsRecovered: covers gates closed by journaled operations only; an operation without a journal leaves nothing to recover.
- Fence.MutationFence: a write whose provider call rejects instead of answering ends with an exception and closes no gate, in the code and here; only unknown outcomes are fenced.
- Observer.OwedIsOnItsWay: says nothing after `start` failed; the source then stays in priming for good and remembers signals without reading.
- MatcherSelection.OrderIndependence: like the other selection theorems, assumes ids that are pairwise apart, as distinct ids without NUL are; of two ids that are not, order can decide (`MatcherSelection.OrderFreeExact`). Providers answer by deterministic functions, and a provider call that rejects, which rejects the whole match and caches nothing, is not modelled.
- Cells.ServingOrder: NaN is excluded; fractional numbers are spelt by mantissa and exponent instead of JavaScript's shortest decimal form, so the last tiebreak may pick another of two readings that differ in a fraction, with the same order laws.
- Store.TornTailConfinement: assumes, as `System` and the theorems about it do, that a store can open the file it appends to when it probes; `JournalStore.UnopenedExact` says what happens otherwise.
- Strings are sequences of Unicode scalar values: lone surrogates do not occur, and sorting is by code point where JavaScript sorts by UTF-16 code unit.
- The file is a sequence of characters and an append may be cut between characters, not within the bytes of one; fsync, file modes, `chmod` and `mkdir` are not modelled, and "durable" means that the append completed.
- Numbers in journal lines are exact decimals; rounding to binary64 and the offset reported with invalid JSON are not modelled.
- `CompositionRoot.dispose`, ownership leases and the one-root-per-process flag; a root lives as long as its process.
- `runQuiesced` and the quiesce hook; it is `run` with a lease around the task.
- Hooks that await the same modem's actor from inside their own task, which would wait for themselves.
- Numeric operation inputs and steps are whole numbers; other inputs are compared by identity.
- Admission ports and preconditions are their answers; which lease is granted is not modelled.
- Observation listeners and the epoch hook do not throw and do not call back into the observer; subscriptions and their errors are the `StartFails` action.
- Duplicate handling of object paths follows the source (the first object of a path is read), but D-Bus signatures and transport errors are only a failed reply.
- `normalizeCellReading`: reading single keys out of a dictionary.
- `buildModeWriteDescriptor`: record construction from parts that are modelled.
- The USB-mode transition, SMS inbox, data usage, five-G postures, claim ladders, redaction and parsers for routers, udev and NMEA.
- The legacy journal reader; only the summary it shares with the native one is modelled.
