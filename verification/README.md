# Splinter: a verified model

Splinter is a key/value store in shared memory. Processes map one file, find slots by probing an
open-addressed table, and keep each slot consistent with a sequence counter: an even epoch means the
slot is stable, an odd one that a writer holds it. Around the store sit a table of memory-advice bids
with an election, a notification plane (labels, signal groups, a dirty mask), and clients whose
correctness depends on all of that: an embedding sidecar, a streaming completion daemon, a stress
plan with many writers, a chunking ingester, and a command line.

This project models that behaviour in Dafny and proves it. There are two kinds of model.

*Interleaved machines.* Memory is sequentially consistent and every step is one atomic access: one
load, store, compare-and-swap, or one byte of a copy.

- `Seqlock`, `SeqlockRuns`: any number of processes on one slot. Writers run set, append,
  set_embedding, integer_op, bump or purge as a script of single stores (`SlotEffects`); readers copy
  one byte at a time; the sidecar's `process_key` runs beside them. Each slot carries a ghost history
  of the contents committed so far, indexed by epoch / 2. `IntegerOps` says what the integer
  operations compute. `Solo` says what a call comes to when no other process moves.
- `ChiSao`, `ChiSaoRuns`, `ChiSaoStart`: lane writers and readers over a whole prepopulated table,
  probing slot by slot and comparing keys byte by byte, composed from the one-slot machine.
  `ChiSaoValues` follows the values that are set and read, `ChiSaoSolo` a process that is left alone, and
  `ChiSaoProbe` compares its probe with that of `Table`.
- `BidProtocol`: the bid table with claim, rebid and release as sequences of single field stores;
  `BidCalls` says what a finished call leaves in it.
- `DirtyMask`: notifies and per-word takes.

*The store used by one process at a time.* `Store` is a class with an array of slot records and a
byte arena that its methods update in place, in the order the program does. `Table` says what each
operation does to the table as a value (`TableWrites` for the writers that keep a key in its place),
`TableLaws` and `Shadowing` what that means: every key owns a stack of values. `Values` and `Batch` say
what a client sees of one call and of several in a row, `PlainMap` when the table is a bounded map.
`Placement`, `ChiSaoSetup`, `Streaming`, `Names`, `Ingest`, `Tandem`, `Signals`, `SignalSlots` and
`SignalLaws` are programs over that store, `Stream` is the streaming loop on values, and `SidecarReset`
the sidecar's skip test after calls that move an epoch back or change a value without it. `Election`,
`Madvise`, `ChiSaoLanes`, `CliTokens`, `JsonEscape` and `Fnv` stand on their own. `Bytes`, `Bits`,
`Division`, `Counting`, `Seqs` and `Options` hold what they share.

`Races` has two interleavings for which the store gives no guarantee.

## What to read first

1. `SeqlockRuns.GetIsNotTorn`, `SeqlockRuns.MutualExclusion` and `SeqlockRuns.CommitsAreSerial`: no
   interleaving of any number of readers and writers tears a read, and commits form one serial history;
   `SeqlockRuns.SafeFromCreation` starts such runs from a created slot, `SeqlockRuns.GetIsCurrent` says
   which commit a get may see, and `Solo.LoneGet` when a get returns at all.
2. `SeqlockRuns.ReturnedEpochAgrees` and `SeqlockRuns.SkippedKeyAgrees`: a key the sidecar skips has
   an embedding that agrees with its value, as long as only writers that take the slot are at work;
   `SeqlockRuns.ReturnMeansOneCommit` and `Solo.LoneSidecar` say when an epoch is returned;
   `SidecarReset.UnsetThenSet`, `SidecarReset.RetrainIsSkipped` and `SidecarReset.SystemIsSkipped` say
   what happens after an unset, a retrain, or a slot was marked as a system slot.
3. `ChiSaoRuns.SetsNeverFail` and `ChiSaoRuns.GetsReadCompletedWrites`, with
   `ChiSaoSetup.SetUp`: from a store the setup created and prepopulated, no lane writer ever fails,
   no key moves, and a get returns a completed write of that very key. `ChiSaoValues.LogIsReturnedSets`
   and `ChiSaoSolo.OwnerAlone`: the writes are the ones that were asked for, and they get done.
4. `Shadowing.RunRefinesStacks`, `PlainMap.FreshRunIsMapRun` and
   `TableLaws.DuplicatesComeFromHoles`: the exact sequential meaning of the table.
5. `BidProtocol.TableStaysSound`, `BidCalls.CallsDoTheirWork`, `Election.Elect`, `Madvise.NothingAheadMeansNamed`.
6. `DirtyMask.NothingLost`, `SignalLaws.HeardExactly`, `Streaming.Complete` with `Stream.PromisedIff`,
   `Ingest.Ingest`, `Tandem.SetTandem`.
7. `CliTokens.RoundTripIff` and `JsonEscape.ReadsBack`.

## Where the naive claim is false

- The table is not a plain map. A set takes the first slot that is empty *or* matching, so an unset
  ahead of a key lets a second copy of it appear. `Shadowing.FourCallsDuplicate` gives the run,
  `Shadowing.ConcreteKeys` two keys for it, `TableLaws.DuplicatesComeFromHoles` the exact condition,
  and `TableLaws.StaleValueResurfaces` what a later unset uncovers.
- Slot regions overlap once the last offset leaves 32 bits: `Store.RegionsApartIff`.
- Keys of 64 bytes or more are stored but never found: `Table.LongKeysNeverMatch`.
- Ordered names are cut to 63 bytes and then collide: `Names.NamesDistinctIff`. The help text of
  `ingest` says base keys are cut at 56 characters; the code cuts at 59, which the model follows
  (`Ingest.SafeKeyLeavesRoom`).
- Printing a command line and reading it back returns the same arguments only for some arguments:
  `CliTokens.RoundTripIff` says exactly which.
- Streaming keeps its promise exactly for prompts the store accepts (`Stream.PromisedIff`). A prompt
  longer than the slot makes the room that is left wrap around in 64-bit arithmetic, and the first flush
  asks for more bytes than its chunk holds (`Stream.FlushesInsideIff`, `Stream.TooLongPrompt`,
  `Stream.OverlongExample`); memory past it is copied for some output exactly if the old value is as long
  as the excess (`Stream.OverrunIff`).
- A snapshot of a slot can return success with an embedding that was never stored: the retry on an odd epoch
  tests a stale end epoch (`Races.SnapshotTears`). Two processes that both saw a slot empty can both
  set a key there, and the first one is lost (`Races.FirstClaimLost`).
- The metadata of an ingested file prints the path without escapes (`Ingest.SourceReadsBackIff`), and the
  namespace prefix takes room away from the order suffix (`Ingest.PrefixTakesRoom`).
- The sidecar's live loop skips a key when the epoch it recorded is at least the one it loads. An unset or
  a retrain moves the epoch back, which splinter.c:883-885 documents as the signal to revalidate; the
  test cannot see it (`SidecarReset.UnsetThenSet`, `SidecarReset.RetrainIsSkipped`,
  `SidecarReset.ResetRun`). Marking a slot as a system slot changes the value and moves no epoch at all
  (`SidecarReset.SystemIsSkipped`).
- The documented scrub mode 2 is "full scrub"; setting it leaves the hybrid bit as it was
  (`Store.Store.SetMop`), so after the default mode 1 it stays hybrid.

## Conventions

The clock, the page size, the language model, the tokenizer and the pieces of text a model generates
are parameters. Epochs are 64-bit words that wrap; a torn-read or agreement claim therefore assumes
fewer than 2^64 ticks between two loads of one call, and says so. `GoodKey` names the keys the table
treats as keys: at most 63 bytes and not hashing to 0, the mark of an empty slot. `GoodBase` asks this of
a base key and of the ordered keys a call really uses.

## Model

| member | source | states |
|---|---|---|
| SlotEffects.ScriptIsEffect | splinter.c:428-473 | performing a writer's single stores in program order, each inside the slot, leaves exactly the operation's effect on what it found, for all six operations |
| Seqlock.Moves | splinter.c:428-473 | one step of any process keeps the slot's history sound, keeps its own position consistent, and changes the slot only by taking, using or releasing the lock it is entitled to |
| Seqlock.Bystander | splinter.c:493-526 | whatever another process does, a reader's or waiting writer's knowledge about the slot stays true |
| SeqlockRuns.NextKeepsInv | splinter.c:428-473 | the invariant of the one-slot machine survives every step of every process |
| SeqlockRuns.MutualExclusion | splinter.c:428-437 | in every interleaving at most one writer holds the slot, the epoch is odd exactly while one does, and the tick count never decreases |
| SeqlockRuns.CommitsAreSerial | splinter.c:637-643 | every commit is its operation's effect on the commit before it, and no later step rewrites an earlier commit |
| SeqlockRuns.GetIsNotTorn | splinter.c:493-526 | a get that returns 0 delivers byte for byte the value committed at its start epoch, although bytes are copied one at a time |
| SeqlockRuns.GetIsCurrent | splinter.c:493-526 | in every interleaving a get that returns 0 delivers a commit that was the slot's content at some moment of the call, none older than the last one before it began |
| SeqlockRuns.GetRespectsRoom | splinter.c:509-515 | in every interleaving a get never gathers more bytes than its buffer has room for, none without a buffer, and one that returns 0 with a buffer had room for the whole value |
| SeqlockRuns.GetEmbeddingIsNotTorn | splinter.c:654-673 | the same for the embedding |
| SeqlockRuns.ReturnedEpochAgrees | splinference.cpp:196-287 | a nonzero epoch returned by process_key is that of a commit whose embedding is the model's output on the value committed with it |
| SeqlockRuns.ReturnMeansOneCommit | splinference.cpp:274-287 | process_key returns an epoch only if the embedding of the value it started from is the one commit between its first and its last epoch load |
| SeqlockRuns.LastLoadDecides | splinference.cpp:282-287 | once another commit or claim has moved the epoch on, the last load makes process_key return nothing; if not, it returns the epoch of its own commit |
| SeqlockRuns.MissLoadsZero | splinter.c:832-844 | for process_key a missed epoch lookup counts as a load of epoch 0, and a missed lookup of the pointer or the write ends the call |
| SeqlockRuns.SkippedKeyAgrees | splinference.cpp:521-538 | a key skipped because of a recorded epoch still has an embedding that agrees with its value, whatever readers and writers that take the slot by compare-and-swap did meanwhile |
| SeqlockRuns.SafeFromCreation | splinter.c:253-266 | from a created slot, in every interleaving, writers exclude each other, the history starts empty and grows by whole operations, and a get that returns 0 is not torn |
| SidecarReset.UnsetThenSet | splinference.cpp:521-526 | after an unset, a set that may take any slot, and any later calls on the key: the epoch counts on from the slot the set took, the key is skipped exactly while its record is at least that, and the skip is right exactly if the slot's embedding (zeroes if it was claimed, or the last one stored) is the model's output on the value |
| SidecarReset.AbsentIsSkipped | splinter.c:832-844 | a key that is not stored counts as epoch 0 and is passed over whatever was recorded for it |
| SidecarReset.SameSlotAgain | splinference.cpp:521-526 | when the set takes the unset slot again, a record r hides it exactly for the first (r - 4) / 2 writes after the set |
| SidecarReset.LaterCalls | splinter.c:413-491 | sets, appends and in-place writes on a key with no empty slot ahead stay in its slot, move the epoch by two each, and change the embedding only by storing one |
| SidecarReset.RetrainIsSkipped | splinter.c:867-897 | the same after a retrain and any later calls |
| SidecarReset.SystemIsSkipped | splinter.c:1188-1203 | after a slot is marked as a system slot every earlier record still skips it, and the skip is right exactly if the model maps the whole region to the embedding |
| SidecarReset.ResetRun | splinference.cpp:521-538 | the run set, embed, unset, set on an empty store records 4, loads 4 and is skipped |
| Solo.LoneWriterCompletes | splinter.c:428-473 | a writer that nobody disturbs takes the slot, performs its stores and commits its operation once |
| Solo.LoneGet | splinter.c:493-526 | a get that nobody disturbs returns the length and, given a buffer, the whole value, if the slot is stable and the value fits the buffer; otherwise it gives up before copying a byte |
| Solo.LoneGetEmbedding | splinter.c:654-673 | the same for the embedding |
| Solo.LoneSidecar | splinference.cpp:196-287 | process_key that nobody disturbs commits the model's output on a stable slot's nonempty value beside that value and returns the epoch of this commit; on any other slot it changes and returns nothing |
| Solo.RereadStartsOver | splinference.cpp:207-216 | tokenizing a second time reads the value again from its first byte |
| Solo.GetAlone | splinter.c:493-526 | wherever the other processes stand, some run of the machine in which only this process moves gives a get that answer |
| Solo.GetEmbeddingAlone | splinter.c:654-673 | the same for a get of the embedding |
| Solo.SidecarAlone | splinference.cpp:196-287 | the same for process_key |
| Races.FirstClaimLost | splinter.c:425-431 | some interleaving of two first claims lets both sets complete and leaves only the second key |
| Races.SnapshotTears | splinter.c:603-621 | some interleaving of a snapshot and an embedding writer returns success with a vector that is neither the old nor the new one |
| ChiSaoLanes.Plan | splinter_chi_sao.c:405-418 | the lanes are nonempty, pairwise disjoint and cover every key |
| Placement.SetFindsHome | splinter.c:422-473 | setting an absent key makes a home: the only copy, with no hole before it in probe order |
| Placement.SetSparesHome | splinter.c:422-473 | setting a new key leaves every other key's home as it was |
| Placement.Prepopulate | splinter_chi_sao.c:254-263 | one set per key, in order, leaves the table the specification says |
| Placement.PrepopulatedHomes | splinter_chi_sao.c:254-263 | when every set of distinct keys succeeded on a blank store, every key has a home |
| ChiSaoStart.PrepopulationStartsTheMachine | splinter_chi_sao.c:398-418 | a prepopulated fresh store is a start state of the lane machine with the same keys, homes and contents |
| ChiSaoSetup.SetUp | splinter_chi_sao.c:336-418 | created, prepopulated and divided into lanes: with a slot for every key and usable keys and values, what the setup leaves is a start state of the lane machine in which each key is owned by the writer whose lane it is in |
| Batch.AllSetWithRoom | splinter_chi_sao.c:254-263 | with a free slot for each, sets of values that fit all succeed |
| ChiSaoProbe.ProbeIsTarget | splinter.c:422-507 | on any table no writer is changing, a set's probe ends at the first slot that is empty (which it claims) or holds its key and fails if there is none, and a get's at the first slot that holds its key, byte for byte as strncmp decides |
| ChiSaoRuns.OnKeepsInv | splinter_chi_sao.c:94-114 | a step of a process at work on its slot keeps the invariant of the whole table |
| ChiSaoRuns.SetsNeverFail | splinter_chi_sao.c:94-114 | in every interleaving of lane writers and readers no set fails, each returns from its key's original slot, and no slot changes hands |
| ChiSaoRuns.GetsReadCompletedWrites | splinter_chi_sao.c:152-200 | in every interleaving a get that returns 0 delivers a completed write of the very key it asked for |
| ChiSaoValues.LogIsReturnedSets | splinter_chi_sao.c:94-116 | in every interleaving a key's slot is committed, in order, exactly the sets of that key that returned, each with the value and scrub mode its caller passed |
| ChiSaoValues.PutsTakeEffect | splinter_chi_sao.c:94-116 | in every interleaving, from when a set returns until its writer begins the next, that set is the last commit to its key's slot, which stands stable with the value asked for |
| ChiSaoValues.GetsDeliverPutValues | splinter_chi_sao.c:152-200 | in every interleaving a get that returns 0 delivers the value its key was prepopulated with or one that a returned set of that key asked for |
| ChiSaoSolo.OwnerAlone | splinter_chi_sao.c:94-116 | wherever the others stand, a lane writer that is left alone finds its key, commits the value it was asked to set, returns success and changes no other slot |
| ChiSaoSolo.ReaderAlone | splinter_chi_sao.c:152-200 | a reader that is left alone while its key's owner is not writing finds the key and gets the value if there is room, and changes no slot |
| IntegerOps.StoresResult | splinter.c:796-804 | the word in the slot becomes the 64-bit result and nothing else in the slot changes |
| IntegerOps.LogicalBits | splinter.c:798-801 | or, and, exclusive-or and complement act bit by bit on all 64 bits |
| IntegerOps.WordAfter | splinter.c:802-803 | the stored word after an increment or a decrement, in terms of the word before: the sum or difference, wrapped at 2^64 |
| IntegerOps.BitsAfter | splinter.c:798-801 | each of the 64 bits of the stored word after or, and, exclusive-or and complement, in terms of the bits before |
| IntegerOps.LowByteFirst | splinter.c:790-796 | the word is little-endian |
| IntegerOps.OperationUndone | splinter.c:798-803 | increment and decrement undo each other across the wrap, exclusive-or and complement undo themselves |
| Fnv.Fnv1a | splinter.c:90-94 | the loop computes the specified 64-bit FNV-1a hash |
| Fnv.KnownHashes | splinter.c:90-94 | the published hashes of the empty string and of "a" |
| Fnv.MixInjective | splinter.c:90-94 | one hash step is injective in the state and in the byte |
| Fnv.OneByteApartNeverCollide | splinter.c:90-94 | keys of one length differing in exactly one byte have different hashes |
| Fnv.CommonSuffixKeepsCollisions | splinter.c:90-94 | appending a common suffix neither makes nor breaks a collision |
| Table.LongKeysNeverMatch | splinter.c:468-469 | a key of 64 bytes or more never matches what was stored for it |
| Table.SetMatches | splinter.c:467-472 | after a set of a good key, that key and no other good key matches the slot |
| Table.ProbeReaches | splinter.c:422-425 | the probe order visits every slot |
| Table.TargetIsTop | splinter.c:493-507 | a lookup finds the top of the key's stack, and fails exactly when the stack is empty |
| Store.RegionsApartIff | splinter.c:262-262 | slot regions are pairwise disjoint exactly when the last product fits 32 bits |
| Store.Store.constructor | splinter.c:216-266 | a created store is valid, every slot empty with epoch 0, every byte zero, hybrid scrub on |
| Store.Store.SetMop | splinter.c:310-327 | what each mode makes of each of the two scrub flags, including that mode 2 keeps the hybrid bit, and nothing else changes |
| Store.Store.Set | splinter.c:413-491 | return code and whole new table, in place, regions and records kept valid |
| Store.Store.Get | splinter.c:493-526 | return code, length, and the bytes copied into the caller's buffer |
| Store.Store.Append | splinter.c:1205-1251 | return code, new length and whole new table |
| Store.Store.Unset | splinter.c:361-411 | return code, length and whole new table |
| Store.Store.Purge | splinter.c:336-352 | every idle slot is scrubbed past its value or entirely, busy slots are skipped |
| Store.Store.SetEmbedding | splinter.c:629-652 | return code and whole new table |
| Store.Store.IntegerOp | splinter.c:775-813 | return code, including the refusal of a slot without the BIGUINT type, and whole new table |
| Store.Store.BumpSlot | splinter.c:846-865 | return code and whole new table |
| Store.Store.AppendUnbacked | splinter.c:1218-1232 | for a length the caller does not have, the 64-bit length test decides between a refusal that only moves the epoch and a copy |
| TableWrites.WriteOnStack | splinter.c:629-652 | these writes keep every epoch even and every value, except that an integer operation rewrites the word of the value found |
| TableLaws.SetRefusesWhenFull | splinter.c:482-490 | a fitting set is refused with ENOSPC exactly when its key is absent and no slot is empty |
| TableLaws.EpochsStayEven | splinter.c:361-491 | every operation leaves every epoch even |
| TableLaws.CommandRefinesStacks | splinter.c:361-491 | set replaces or pushes the top, append extends it, unset pops it, other keys keep their stacks |
| Shadowing.RunRefinesStacks | splinter.c:361-491 | every run refines a map from keys to stacks of values and leaves every epoch even |
| TableLaws.DuplicatesComeFromHoles | splinter.c:427-427 | from a table without duplicates a command makes one exactly when it is a set that takes an empty slot ahead of its own key |
| TableLaws.RunRefinesPlainMap | splinter.c:361-491 | a run that never does that changes each key's entry as a finite map would, given which sets find room |
| PlainMap.RoomIff | splinter.c:422-490 | a set finds a slot exactly when its key is stored or a slot is free |
| PlainMap.FreshRunIsMapRun | splinter.c:361-491 | from an empty table such a run is a run of a finite map alone, in which a fitting set succeeds exactly if the key is present or there are fewer entries than slots |
| TableLaws.StaleValueResurfaces | splinter.c:370-402 | what a lookup finds after a set and an unset of one key: the older copy, if the set reused a hole |
| Shadowing.FourCallsDuplicate | splinter.c:422-427 | set a, set b, unset a, set b on a fresh table stores b twice for any two keys whose probes start together |
| Shadowing.ConcreteKeys | splinter.c:90-104 | "a" and "c" are two such keys in a table of two slots |
| TableLaws.RunKeepsTailsZero | splinter.c:447-458 | with AUTO_SCRUB set and HYBRID clear, every run keeps all bytes past the value zero |
| TableLaws.PurgeScrubs | splinter.c:336-352 | from any idle table a purge zeroes every tail and every empty region and keeps every live value |
| TableLaws.SetTail | splinter.c:447-456 | what a set leaves past the value in each mode, in particular zeroes up to the rounded length under hybrid |
| Election.Elect | splinter.c:1381-1442 | the two-pass scan returns the id and intent of the best eligible bid, and 0 exactly when none is eligible |
| Election.WinnerUnique | splinter.c:1422-1438 | at most one record wins |
| Election.SovereignIffLive | splinter.c:1388-1420 | somebody wins exactly when some bid is live: the soft bumper never empties the table |
| Election.DontneedSovereignIsAlone | splinter.c:1419-1420 | when a DONTNEED bid wins there is no live WILLNEED or SEQUENTIAL bid |
| Election.OnlyBumpedAreOut | splinter.c:1388-1420 | a live bid may win unless it is a DONTNEED while some live bid is a WILLNEED or SEQUENTIAL |
| Election.WinnerSurvivesPermutation | splinter.c:1422-1438 | without full ties the winner does not depend on the order of the table |
| Election.ExpiryIsFinal | splinter.c:1289-1297 | an expired bid stays expired as the clock advances |
| Election.ElectionsAgree | splinter.c:1381-1442 | two elections on one table agree whenever no window closes between them |
| BidProtocol.NextKeepsInv | splinter.c:1299-1379 | every single store of claim, rebid and release keeps the table sound |
| BidProtocol.TableStaysSound | splinter.c:1299-1379 | in every interleaving an id sits in at most one record and an empty record has no payload |
| BidProtocol.FreshClaimIsHarmless | splinter.c:1317-1333 | a freshly claimed record is expired until its duration is stored and, until its claim time is stored, live only while now < duration |
| BidProtocol.ReleasingIsExpired | splinter.c:1362-1376 | a release has stopped competing once it cleared the duration |
| BidCalls.CallsDoTheirWork | splinter.c:1299-1379 | in every interleaving, after a claim that returned one record carries its shard, with every field as given; after a rebid every field is as given and the pid is the one the record had; after a release no record carries the shard; a rebid or a release fails only where there is no record |
| BidCalls.LoneCall | splinter.c:1299-1379 | what an undisturbed call does: a claim refreshes its own record or takes the first empty one or fails, a rebid and a release change their own record or fail, and no other record changes |
| BidCalls.AloneInMachine | splinter.c:1299-1379 | these steps are a run of the table's machine |
| Madvise.Wait | splinter.c:1472-1546 | advice is given only in an iteration whose election named the caller, and no earlier iteration would have ended the call; without a bid it is refused; with a finite timeout the call is over by the first iteration whose clock reached the deadline; it is over by the first iteration that finds the way clear, and without a timeout it then advised |
| Madvise.ElectNames | splinter.c:1444-1447 | the election returns the caller's id exactly when the caller's bid wins |
| Madvise.RoundingCovers | splinter.c:1505-1513 | the rounded range is aligned, keeps its end and grows by less than a page |
| Madvise.AlignDownIsFloor | splinter.c:1509-1509 | masking with the complement of page - 1 is rounding down to a multiple of the page |
| Madvise.CountFalls | splinter.c:1515-1530 | on a frozen table the number of live bids ahead of the caller never grows, and falls when one expires |
| Madvise.NothingAheadMeansNamed | splinter.c:1515-1522 | an eligible caller wins exactly when no eligible bid is ahead of it, which holds when no live bid is |
| Madvise.FrozenClears | splinter.c:1515-1545 | on a frozen table with clocks that do not run back, the way is clear once every bid that was ahead has expired and the caller is eligible |
| DirtyMask.StripesPartition | splinter.c:79-83 | every slot has a bit below 1024 and each bit stands for one contiguous stripe, the narrowest that will do |
| DirtyMask.SmallStoreIsExact | splinter.h:157-158 | every slot has a bit of its own exactly in stores of at most 1024 slots |
| DirtyMask.EventBus.Arm | splinter.c:1110-1124 | the bus is armed in this process and the mask is kept |
| DirtyMask.EventBus.Notify | splinter.c:1018-1031 | an armed notify sets exactly the slot's bit, an unarmed one nothing |
| DirtyMask.EventBus.TakeDirty | splinter.c:1170-1182 | the words asked for are copied out and cleared, the others kept |
| DirtyMask.NothingLost | splinter.c:1018-1031 | in every interleaving a notified bit is pending or was reported by a later take |
| DirtyMask.PendingIff | splinter.c:1170-1182 | a bit is pending exactly when it was notified after the last take of its word |
| DirtyMask.ReportedPlusPending | splinter.c:1170-1182 | everything reported together with what is pending is exactly what was notified |
| DirtyMask.EachRiseTakenOnce | splinter.c:1170-1182 | each time a bit turns on, exactly one take consumes it or it is still on |
| Signals.SignalPlane.PulseMasks | splinter.c:1055-1068 | a pulse raises each group by whether it watches plus the number of carried labels routed to it |
| Signals.SignalPlane.SetLabel | splinter.c:903-929 | the label is added and the pulse goes by the masks after it |
| Signals.SignalPlane.UnsetLabel | splinter.c:931-956 | the label is cleared and the pulse goes by the masks before it |
| Signals.SignalPlane.Unset | splinter.c:361-411 | the slot is torn down and the pulse goes by the masks it had |
| Signals.SignalPlane.Set | splinter.c:413-480 | the value is set and the pulse goes by the slot's masks |
| Signals.SignalPlane.Append | splinter.c:1205-1251 | a successful append pulses by the slot's masks, a refused one does not |
| Signals.SignalPlane.SetEmbedding | splinter.c:629-652 | the embedding is stored and the pulse goes by the slot's masks |
| Signals.SignalPlane.IntegerOp | splinter.c:775-813 | the word is updated and the pulse goes by the slot's masks |
| Signals.SignalPlane.BumpSlot | splinter.c:846-865 | the epoch moves and the pulse goes by the slot's masks |
| Signals.SignalPlane.PulseKeygroup | splinter.c:1003-1016 | the pulse goes by the slot's masks and nothing else changes |
| Signals.SignalPlane.WatchRegister | splinter.c:978-992 | the group is added to the watchers of the slot |
| Signals.SignalPlane.WatchUnregister | splinter.c:1076-1089 | the group is taken from the watchers of the slot |
| Signals.SignalPlane.WatchLabelRegister | splinter.c:994-1001 | every label in the mask, and no other, is routed to the group |
| SignalSlots.ReachesIff | splinter.c:903-1016 | while no writer is at work an operation reaches a slot exactly when its key is stored (or, for a set, a slot is free) and its arguments are in order |
| SignalLaws.CarriesIff | splinter.c:903-956 | over every run a slot carries exactly the labels set and neither cleared nor erased since |
| SignalLaws.RoutedIff | splinter.c:994-1001 | over every run a label is routed to the group it was last bound to |
| SignalLaws.WatchedIff | splinter.c:978-992 | over every run a slot is watched by exactly the groups registered and neither unregistered nor erased since |
| SignalLaws.HeardExactly | splinter.c:1055-1068 | over every run an operation that pulses raises a group by one if it watches the slot since its registration and by one for every label carried and last bound to it, and any other operation raises nothing |
| SignalLaws.HeardIff | splinter.c:380-404 | over every run an operation moves a group's counter exactly when it pulses, reached a slot, and the group was watching that slot or bound to a label it carried |
| Streaming.IsWordBoundary | splainference.cpp:102-109 | true exactly for a piece that starts with a space or holds a newline |
| Streaming.TakeTurn | splainference.cpp:306-365 | one turn of the loop on the store does what the loop on values does |
| Streaming.Complete | splainference.cpp:266-394 | for every prompt and every output the slot ends as the loop on values says, through growing values; with an accepted prompt it holds the first max_val bytes of the prompt and all produced text |
| Stream.AcceptedStreams | splainference.cpp:266-374 | wherever the flushes fell, an accepted prompt and all produced text, cut off at the slot, are what is left, and no append asks beyond its chunk |
| Stream.DecodeInSync | splainference.cpp:300-365 | while in step nothing is lost: text is in the slot or the chunk, and `written` is the slot's length at every flush |
| Stream.FlushRule | splainference.cpp:333-335 | the chunk is flushed exactly when it holds something and the piece starts with a space, holds a newline, or is the eighth since the last flush |
| Stream.TextWaitsBriefly | splainference.cpp:333-335 | while the loop goes on no text waits for more than seven pieces |
| Stream.TooLongPrompt | splainference.cpp:336-347 | with a prompt longer than the slot the first flush leaves the old value and asks beyond the chunk; the length test lets the copy through exactly if the old value is at least as long as the excess |
| Stream.EmptyPrompt | splainference.cpp:333-374 | with an empty prompt the text goes after the old value if the first chunk fits beside it, and is lost whole otherwise |
| Stream.FlushesInsideIff | splainference.cpp:336-374 | for all outputs no append asks beyond its chunk, exactly when the prompt fits the slot |
| Stream.OverrunIff | splainference.cpp:340-343 | some output makes an append copy past its chunk exactly when the prompt is too long and the old value is at least as long as the excess |
| Stream.PromisedIff | splainference.cpp:266-374 | the promise holds for every old value and every output exactly when the prompt is nonempty and fits |
| Stream.OverlongExample | splainference.cpp:340-343 | a slot of four bytes, a prompt of five and one line of output make the copy leave the chunk |
| Values.HoldsIffGet | splinter.c:493-526 | a key holds a value exactly when a get with enough room returns it |
| Values.SetUsesOneSlot | splinter.c:413-491 | a set succeeds while a slot is free and uses at most one |
| Names.DecimalInjective | splinter_cli_cmd_ingest.c:145-147 | different orders print differently |
| Names.NamesDistinctIff | splinter_cli_cmd_ingest.c:145-147 | two or more ordered names are distinct exactly when the last one fits the key buffer |
| Ingest.SafeKeyLeavesRoom | splinter_cli_cmd_ingest.c:89-94 | a base key is cut to its first 59 bytes, which leaves room for 999 orders, and the longest for no more |
| Ingest.PrefixTakesRoom | splinter_cli_cmd_ingest.c:237-244 | with a namespace prefix, 999 orders fit exactly when prefix and cut key together have at most 59 bytes; up to 63 the base key is the prefix followed by the cut key |
| Ingest.SourceReadsBackIff | splinter_cli_cmd_ingest.c:102-113 | the path in the metadata reads back exactly when it has no quote, backslash or control byte |
| Ingest.MetaSays | splinter_cli_cmd_ingest.c:102-113 | in the metadata the number after "chunks" is the number of chunks the one after "bytes" the number of bytes, and then comes the source |
| Ingest.TimeIsLast | splinter_cli_cmd_ingest.c:102-113 | what follows the source ends with the number after "ingested", which is the time |
| Ingest.OrderKeySays | splinter_cli_cmd_ingest.c:140-147 | an order's key is the base key, a dot and digits that read as the order |
| Ingest.ChunkFits | splinter_cli_cmd_ingest.c:270-270 | a chunk fits its slot and leaves 64 bytes of it free if the slot has more than 64 |
| Ingest.ChunksCover | splinter_cli_cmd_ingest.c:270-300 | the chunks join to the input, there are ceil(bytes / chunk size) of them, each nonempty and within bounds |
| Ingest.WriteMetadata | splinter_cli_cmd_ingest.c:102-134 | the base key holds the metadata and the chunks are kept; text of 512 bytes or more is refused and nothing changes |
| Ingest.Ingest | splinter_cli_cmd_ingest.c:270-324 | on success the ordered keys hold the chunks, joining them gives back the input and the base key holds the metadata; enough free slots guarantee success |
| Batch.StoreNext | splinter.c:413-491 | in a row of sets of distinct keys the next one stores its value, keeps the values before it and every key outside the row, or there was no room for it |
| Batch.EmptiedPops | splinter.c:361-411 | unsets of distinct keys take one value from each and leave every other key alone |
| Tandem.SetTandem | splinter.c:958-967 | after success every order reads back its own value and other keys are as they were; fitting values and a free slot for each make it succeed |
| Tandem.UnsetTandem | splinter.c:969-976 | each order loses exactly one value and no other key changes |
| Tandem.TandemUndone | splinter.c:958-976 | unsetting what was set on absent keys leaves every key as it was |
| CliTokens.UnrollArgv | splinter_cli_tok.c:27-101 | the pointer loops produce exactly the specified tokens, writing inside their buffers |
| CliTokens.RejoinArgs | splinter_cli_tok.c:127-207 | for all arguments the second pass writes exactly the bytes the first pass counted, and they are the specified line |
| CliTokens.SpaceSkipped | splinter_cli_tok.c:37-39 | whitespace before a token is skipped |
| CliTokens.PlainTokenRule | splinter_cli_tok.c:67-76 | an unquoted token is taken as it is, up to whitespace or the end |
| CliTokens.QuotedTokenRule | splinter_cli_tok.c:44-66 | a quoted token means what its plain and escaped pieces mean, and without a closing quote it ends the line |
| CliTokens.FaithfulFirst | splinter_cli_tok.c:42-66 | a faithful argument is read back as the next token |
| CliTokens.BackslashLost | splinter_cli_tok.c:55-63 | a quoted argument with a backslash never reads back as itself |
| CliTokens.RoundTripIff | splinter_cli_tok.c:27-207 | reading back what was printed gives the same arguments exactly when each, if it has a space, has no backslash and, if not, is nonempty and has neither a quote nor other whitespace |
| JsonEscape.PrintEscaped | splinter_cli_cmd_export.c:47-67 | the loop emits exactly the specified escapes |
| JsonEscape.ReadsBack | splinter_cli_cmd_export.c:47-67 | a reader following section 7 of RFC 8259 gets back the input and stops exactly at the quote printed after it |
| JsonEscape.NoRawControl | splinter_cli_cmd_export.c:47-67 | no raw control byte is emitted |

## Left out

- Weak memory: the machines are sequentially consistent; C11 fences and orderings are not modelled, and the weak compare-and-swap fails spuriously only as an abandoned attempt.
- `splinter_unset`, `splinter_retrain_slot`, `splinter_set_as_system` and `splinter_get_slot_snapshot` are not in the interleaved machines: the first three write outside the compare-and-swap discipline, and `Races.SnapshotTears` shows why no torn-read claim holds for the last.
- SeqlockRuns.GetIsNotTorn: the one-slot machine takes a lookup to reach the slot or to miss; that a lookup reaches the slot of its own key is proved for the lane discipline (`ChiSaoRuns.GetsReadCompletedWrites`) only, since two first claims of one empty slot can race (`Races.FirstClaimLost`).
- SeqlockRuns.ReturnedEpochAgrees: covers the normal path, with training mode off and under the token ceiling, and fewer than 2^64 ticks during the call.
- SeqlockRuns.GetEmbeddingIsNotTorn: fewer than 2^64 ticks during the call, and a lookup that reached the slot, as for SeqlockRuns.GetIsNotTorn.
- SeqlockRuns.SkippedKeyAgrees: runs hold no unset and no retrain, for which it fails as `SidecarReset` says; the live loop's epoch load is of the slot itself, and when that lookup misses it yields 0 and the key is passed over.
- SidecarReset.UnsetThenSet: sequential, as all of that module; after a retrain or a marking it takes the key to have no empty slot ahead.
- Races.SnapshotTears: models the embedding and the two epochs of the snapshot, not its other fields.
- ChiSaoRuns.GetsReadCompletedWrites: the validation of the payload text by the readers and the statistics of the stress program are not modelled.
- Store.Store.Append: the pulse is in `Signals.SignalPlane.Append`, the bus notify in `DirtyMask`; the header's epoch is left out.
- Store.Store.Unset: as for Store.Store.Append, and type flag, times and user flags are left out.
- IntegerOps.StoresResult: needs slots of at least 8 bytes, without which the program writes past the slot.
- Store.Store.Set: the EOVERFLOW branch of a corrupt mapping cannot be taken on a valid store and is not modelled; type flags, times, user flags and the header's own epoch are left out.
- Store.Store.constructor: models the geometry whose last offset fits 32 bits; beyond that regions overlap (`Store.RegionsApartIff`).
- The relocation of a value shorter than 8 bytes by BIGUINT promotion, which can leave the slot's own region; the type flag is a parameter of `Store.Store.IntegerOp`.
- Election.Elect: reads one table at one time; the election that races with field stores sees the intermediate tables `BidProtocol` describes.
- Madvise.Wait: sees a finite number of iterations of the loop, computes the deadline with the 64-bit wrap the program has, and leaves out the result of posix_madvise, the doorbell and the sleep between elections.
- DirtyMask.EventBus.TakeDirty: takes all its words in one call; the interleavings with writers are those of single-word takes.
- Signals.SignalPlane.PulseMasks: one process; the counters of concurrent pulses add up in any order and are not interleaved here.
- Streaming.Complete: the calls around the loop that change no value (labels, bumps, times, re-bids, tokenizing) are left out; nothing is claimed past a copy that leaves its chunk, and the texts are taken to fit an address space of 2^64 bytes.
- Ingest.Ingest: opening the file, read errors, type flags, labels and bumps are left out; the clock is a natural number.
- Tandem.SetTandem: if the names do not fit the key buffer they collide and nothing is claimed.
- CliTokens.UnrollArgv: allocation failures are not modelled.
- JsonEscape.ReadsBack: the reader accepts \u escapes below U+0080 only, which includes all that are emitted; bytes of 0x80 and above pass through as they are.
- Kernel interfaces (mmap, eventfd, poll, NUMA), similarity search, the bindings, the Lua and WASM hosts, `sidecar.c` and the thin commands: not part of this model, or only easy members.
