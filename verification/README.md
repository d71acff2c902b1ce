# Gate, bridge and import logic, verified

A Dafny model of the parts of EstateMate in which a mistake would be hard to see, and proofs of what
they promise. `dafny verify dfyconfig.toml` checks the whole project (Dafny 4.11).

## What is modelled

**The gate controller**, in its two programs. Each is one string literal in its TypeScript file, so it
is cited by that one line.

- `Cards`, `Validity`, `CardNumber`: the Pi's credential cache, a map of card keys to end times, fed by
  full and delta snapshots.
- `CardIndex`: the ESP32's cache, a sorted array with binary search, tombstones and in-place merging.
  `Twins` relates the two.
- `Journal`, `Refresh`, `RefreshRuns`: refreshing a cache from a server that keeps a change journal, with
  failures at any page, overlapping refreshes and restarts from disk. `Refresh` is the Pi's code,
  `Journal` the world it runs in, `RefreshRuns` the simulation of one by the other.
- `Events`, `EventRing`: the bounded event queue with uploads in flight, and the ESP32's 64-slot ring.
- `PinLock`, `EspPin`: the keypad lockout, on an unbounded and on a 32-bit wrapping clock.
- `GateModel`, `GateRuns`, `Keypad`, `Gate`, `EspDoor`, `Visitors`: the door and relay state machine, what it does
  over whole runs told from the inputs alone, what counts as the typed PIN, the controller object that drives it,
  the ESP32's wrapping pulse timer, and visitor passes.
- `Wiegand`, `WiegandCards`, `Bits`: frame assembly from pulses and polls, and decoding with parity.
- `Calendar`, `Timestamps`, `LocalTimes`, `Text`: proleptic Gregorian arithmetic, the two timestamp layouts, and
  times with a zone's offset.

**The bridges.** `JsonStream`, `Multipart` and `PartDocuments` are the two scanners of the Android alert stream;
`JsonWriter`, `JsonReader`, `JsonRoundTrip` and `JsonLines` are the Windows helper's hand-written JSON
and its line protocol, over UTF-16 code units, and `JsonGrammar` and `JsonAccepts` relate its reader to the
grammar of RFC 8259; `Packing`, `Zip`, `ZipReader`, `ZipRoundTrip` and `ZipScan` are the APK writer, the reader
its output is for, the script's own check, and the archive byte by byte; `Md5` and `Md5Digest` are the
tunnel worker's MD5.

**The portal.** `Zone` resolves wall-clock times; `DeviceSync`, `SyncPerson`, `SyncTables`, `SyncRows` and
`Overview` are the terminal synchronisation queue; `Csv` is the import's reader.

Code that works step by step is a class or a method with its loops, proved against a specification
function; what the code promises is then proved about that function. `Base`, `Slices` and `Bits` hold
what several modules share.

## Parameters

Clocks, random ids, the network, flash, disk and the database appear as arguments: a time, a page that
arrives or fails, whether a write succeeds, the rows a query returned. Functions that are not the point
are arguments with the one law that is used: the card hash of the ESP32 (no collision, only where
stated), the checksum and DEFLATE (`inflate(deflate(x)) = x`), code page 437 (ASCII is itself, other bytes
are not ASCII), the text of a double (a number that reads back unless it is an integer), the MD5 sine
table (any 64 words), a time zone's offset (whole seconds), and Unicode lower-casing in CSV headers.

## Where the code and its comments or its twin differ

- ESP32 `applyDelta` searches between the tombstones it has just made, so a removal can be missed; the
  exact condition is `CardIndex.RemovalsCompleteIff`. The Pi needs none.
- For a card already held the Pi joins end times, the ESP32 overwrites with the last addition.
- `write_aligned_apk` comments its 0x21 as the date 1980-01-01, but the value is packed into the time
  field and the date field is zero. The model packs what the code packs.
- `verify_apk` measures a name after decoding and encoding it again, so for a stored entry with a
  non-ASCII name it can report a misalignment that is not there (`ZipRoundTrip.CheckPassesIff`).
- The comment on `wallTimeToInstantMs` promises the right instant either side of a transition. That holds
  for one transition nearby; `Zone.TwoTransitionsCanMiss` has two.
- A double without a fraction is written as an integer and read back as one (`JsonRoundTrip.RoundTripIff`).
- The JSON reader takes more than RFC 8259 allows: control characters stand for themselves in strings, numbers
  may have leading zeros or whatever else the runtime reads, and blanks may stand among the digits of `\u`
  (`JsonAccepts.OnlyGrammarIsRead`).
- Nothing keeps the Pi's refreshes from overlapping, and they are sound exactly when they land in order
  (`Journal.SafeIff`); out of order a revoked card can stay (`Journal.SavedLateKeepsRevoked`,
  `Journal.LateDeltaKeepsRevoked`).
- A response that still names a next page on its thousandth is taken for complete (`Refresh.LastPage`).
- The sketch takes a lock that ends where its clock reads zero for one millisecond longer
  (`EspPin.SketchDecidesTheSameIff`).
- An event at a door that is held open says the door was opened although nothing changed
  (`GateModel.EventsMatchTheDoor`).
- An object that outgrows the stream's buffer is forgotten, and what is left of it is read as if it were
  outside any object (`JsonStream.ChunksDoNotMatterIff`).

## Model

| member | source | states |
|---|---|---|
| Calendar.DaysOfWideDate | src/esp32-gate-sketch.ts:4 | `civilFromDays` of every day number, negative ones too, is a real date, and `daysFromCivil` takes that date back to the day number |
| Calendar.WideDateOfDays | src/esp32-gate-sketch.ts:4 | every real date survives `daysFromCivil` and back |
| Calendar.NextDayIsNextDate | src/esp32-gate-sketch.ts:4 | the date after a date, by month lengths and leap years, has the next day number |
| Calendar.DayNumberIsTextbook | src/esp32-gate-sketch.ts:4 | day numbers agree with counting days year by year |
| Calendar.FourDigitYears | src/esp32-gate-sketch.ts:4 | the years 0 to 9999 are exactly one interval of day numbers |
| Calendar.NarrowYear | src/esp32-gate-sketch.ts:4 | the 32-bit year that `civilFromDays` stores loses the date exactly when the year does not fit |
| Calendar.EpochIsDayZero | src/esp32-gate-sketch.ts:4 | 1970-01-01 is day zero |
| Timestamps.ReadDigits | src/esp32-gate-sketch.ts:4 | succeeds exactly where that many digits stand, with their decimal value, and refuses everything else |
| Timestamps.RoundTrip | src/esp32-gate-sketch.ts:4 | for every instant and both layouts, `parseTimestamp(formatTimestamp(t)) = t` exactly for the years 0000 to 9999 |
| Timestamps.ReadBack | src/esp32-gate-sketch.ts:4 | what the reader makes of any written timestamp: the instant, or 0 outside four-digit years |
| LocalTimes.OffsetTimeIsRead | src/esp32-gate-sketch.ts:4 | what a clock shows in a zone east or west of Greenwich, with any fraction of a second and the offset behind it, is read as the instant at which it shows it |
| PinLock.AttemptsAreBounded | src/pi-gate-program.ts:3 | for every run in time order and all limits with a lockout, a half-open span as long as the window without a granted PIN holds at most `Bound` evaluated and denied PINs: whole sets of attempts a lockout apart, or one straddling window and then whole sets |
| PinLock.LongLockout | src/pi-gate-program.ts:3 | with a lockout no shorter than the window that bound is 2n-2 |
| PinLock.EightByDefault | src/pi-gate-program.ts:3 | with the default limits that is eight in 60 seconds |
| PinLock.BoundIsReached | src/pi-gate-program.ts:3 | for all limits with a lockout some run attains the bound: the window is fixed at its first failure and does not slide |
| PinLock.NoLockoutNoBound | src/pi-gate-program.ts:3 | with a lockout of zero there is no bound |
| PinLock.NothingEvaluatedWhileLocked | src/pi-gate-program.ts:3 | from the attempt that locks the pad until the lock ends no PIN is evaluated |
| PinLock.LocksExactlyAtTheLimit | src/pi-gate-program.ts:3 | a submission locks the pad if and only if it is a denied PIN that is the last one its window allows |
| PinLock.GrantIsFreshStart | src/pi-gate-program.ts:3 | a granted PIN wipes out every failure before it: from there on every run of PINs is answered as by a fresh pad |
| PinLock.EndIsFreshStart | src/pi-gate-program.ts:3 | so do the end of a lock and the end of the window |
| PinLock.WrongPinsLock | src/pi-gate-program.ts:3 | after a fresh start wrong PINs within one window of the first are counted one by one, and the last one allowed locks the pad for the lockout time from then on |
| EspPin.Keypad.HandlePin | src/esp32-gate-sketch.ts:4 | the sketch's `handlePin`: outcome and the new 32-bit counters for every clock reading |
| EspPin.SketchDecidesTheSameIff | src/esp32-gate-sketch.ts:4 | while submissions are less than 2^31 - 60000 ms apart, the wrapping lock decides every PIN of a run as the unbounded one if and only if no PIN is submitted in the millisecond in which a lock ends and the clock reads zero |
| EspPin.FreshPadDecidesTheSameIff | src/esp32-gate-sketch.ts:4 | the same from power-up |
| EspPin.ZeroIsMissed | src/esp32-gate-sketch.ts:4 | the run in which they differ: five wrong PINs one minute before the clock reads zero, and any PIN when it does, because zero means not locked |
| EspPin.EightOnTheSketch | src/esp32-gate-sketch.ts:4 | over every such run, those included, at most eight PINs are evaluated and denied in 60 seconds without a granted one |
| EspPin.EspGrantIsFreshStart | src/esp32-gate-sketch.ts:4 | on the sketch too a granted PIN is a fresh start, for every reading of its clock and every run after it |
| Events.EveryRunIsSound | src/pi-gate-program.ts:3 | for every interleaving of records and overlapping uploads: the queue is the contiguous newest suffix, at most 64 long, and recorded = queued + overflowed + removed |
| Events.AcknowledgementRemovesItsBatch | src/pi-gate-program.ts:3 | an acknowledgement removes an event if and only if its own batch carried it |
| Events.AnswersThatSettle | src/pi-gate-program.ts:3 | an answer in the two hundreds, 400, 409 or 413 takes out exactly the events of its batch; any other answer, and none, leaves the queue as it was, to be sent again |
| Events.LostEventWasSentOrOldest | src/pi-gate-program.ts:3 | over every run, an event that has left the queue was given up as the oldest of a full one or was in a batch whose upload was settled; failed uploads lose nothing |
| EventRing.Ring.RecordEvent | src/esp32-gate-sketch.ts:4 | recording in the 64-slot array appends, giving up the oldest event when full |
| EventRing.Ring.TakeBatch | src/esp32-gate-sketch.ts:4 | the first locked section copies the oldest events in order |
| EventRing.Ring.DropSent | src/esp32-gate-sketch.ts:4 | the second locked section pops while serials are not newer than the last one sent |
| EventRing.RunRefines | src/esp32-gate-sketch.ts:4 | every interleaving of the ring's operations, overflow during an upload included, is a run of the unbounded queue while fewer than 2^32 events were recorded |
| EventRing.RecordRefines | src/esp32-gate-sketch.ts:4 | one recording in the ring is one recording in the unbounded queue |
| EventRing.ForgetRefines | src/esp32-gate-sketch.ts:4 | popping by serial forgets exactly the acknowledged batch |
| EventRing.WrappedBatchIsRemoved | src/esp32-gate-sketch.ts:4 | once serials wrap, an undisturbed batch is removed if and only if its last serial is not below its first |
| CardNumber.ReaderFindsByValue | src/pi-gate-program.ts:3 | a card read at the gate matches a stored text if and only if the text starts with digits of the same value |
| CardNumber.ReaderNumberIsItsKey | src/pi-gate-program.ts:3 | the number a reader reports is its own key |
| CardNumber.KeyIsStable | src/pi-gate-program.ts:3 | taking the key of a key changes nothing |
| Validity.JoinIsUnique | src/pi-gate-program.ts:3 | end times join to one value: 0 if any is 0, else the latest |
| Cards.SnapshotIsComplete | src/pi-gate-program.ts:3 | a full snapshot that is not refused holds every card listed, with the joined end time, and drops nothing |
| Cards.DropsWhenFull | src/pi-gate-program.ts:3 | a delta drops cards if and only if the cards it would leave exceed the capacity |
| Cards.DeltaIsUnique | src/pi-gate-program.ts:3 | a delta has one outcome, also in a cache too small for it: every card held has the joined end time, and new cards are taken in order until the cache is full |
| Cards.CappedFits | src/pi-gate-program.ts:3 | when the cards it would leave fit, a delta is exactly (old minus removed) joined with added |
| Cards.ReapplyingChangesNothing | src/pi-gate-program.ts:3 | applying a delta to its own outcome changes nothing and drops nothing |
| Cards.CredentialCache.Lookup | src/pi-gate-program.ts:3 | finds exactly the cards held, with their end time |
| Cards.CredentialCache.ReplaceAll | src/pi-gate-program.ts:3 | replaces the whole set or, when it is too large, refuses and changes nothing |
| Cards.CredentialCache.ApplyDelta | src/pi-gate-program.ts:3 | removals first, then joins and inserts up to the capacity, whatever is dropped; nothing is dropped exactly when all keys are there, and no change is counted exactly when no held card was listed for removal and the cards are as before |
| Cards.CountsChanges | src/pi-gate-program.ts:3 | additions count as changes if and only if they leave other cards than before: a joined end time never comes back |
| CardIndex.CardCache.Find | src/esp32-gate-sketch.ts:4 | binary search over an array that may hold tombstones: the slot that the halving search reaches |
| CardIndex.CardCache.SortAndDedupe | src/esp32-gate-sketch.ts:4 | in-place sort and merge leave the unique strictly increasing index of the live rows, without a tombstone |
| CardIndex.CardCache.Lookup | src/esp32-gate-sketch.ts:4 | finds exactly the keys of a sorted index, with their end time |
| CardIndex.CardCache.ApplyDelta | src/esp32-gate-sketch.ts:4 | the array stays strictly sorted and within capacity; of what the removals left, held cards take the last addition and the first new rows are taken in as far as there is room, the others counted as dropped; no change is counted exactly when nothing was removed and no addition changed a row |
| CardIndex.CardCache.ReplaceFromFile | src/esp32-gate-sketch.ts:4 | a complete file replaces the set by its index; one too large or unreadable leaves it as it was, and a short one leaves it empty and not ready |
| CardIndex.IndexIsUnique | src/esp32-gate-sketch.ts:4 | rows have one index whatever order the sort leaves duplicates in |
| CardIndex.SearchHits | src/esp32-gate-sketch.ts:4 | a stored key is found if and only if its slot is live and no tombstone lies on the halving path to it |
| CardIndex.RemovalsCompleteIff | src/esp32-gate-sketch.ts:4 | all removals of a delta take effect if and only if no earlier removal stands on the search path of a later one |
| CardIndex.DescendingIsComplete | src/esp32-gate-sketch.ts:4 | removals in descending key order all take effect |
| CardIndex.AscendingCanMiss | src/esp32-gate-sketch.ts:4 | from 1, 2, 3, removing 2 and then 3 leaves 3 |
| CardIndex.UnlistedStay | src/esp32-gate-sketch.ts:4 | no delta deletes a card it does not list |
| CardIndex.DeltaKeysIff | src/esp32-gate-sketch.ts:4 | the keys after a delta that fits are (old minus removed) plus added if and only if every missed removal is among the additions |
| CardIndex.MergedIsUpdate | src/esp32-gate-sketch.ts:4 | overwriting held cards, appending the rest and sorting is the update by the last addition of each card |
| CardIndex.MergedIsUpdateBy | src/esp32-gate-sketch.ts:4 | the same when only some of the new rows are taken in |
| Twins.IndexAgreesWithMap | src/esp32-gate-sketch.ts:4 | after one full snapshot the sorted index answers every card as the Pi's map, if hashes do not collide and end times fit 32 bits |
| Journal.EveryRunIsSound | src/pi-gate-program.ts:3 | for every run of commits, failing or landing refreshes and restarts, cards and disk are right up to the time the next refresh asks from, and the saved time is never later than the refresh that produced the cards |
| Journal.LandingIsExact | src/pi-gate-program.ts:3 | a refresh that reaches back far enough and is no older than what has landed leaves exactly the cards active when it was answered |
| Journal.SerialRefreshIsExact | src/pi-gate-program.ts:3 | over every run from the start in which refreshes do not overlap and server time does not run back, each landing leaves exactly the active cards |
| Journal.SafeIff | src/pi-gate-program.ts:3 | exactly which landings can spoil nothing: a delta must reach back to what the cards in force still need or go back before it, and a snapshot must not be saved with a later time than its own |
| Journal.SavedLateKeepsRevoked | src/pi-gate-program.ts:3 | a run from the start after which a snapshot saved with a later time keeps a revoked card through a restart and the next delta |
| Journal.LateDeltaKeepsRevoked | src/pi-gate-program.ts:3 | a run from the start after which a delta asked from too late keeps a revoked card, and the next delta does too |
| Refresh.SnapshotSync.Finish | src/pi-gate-program.ts:3 | what a refresh does to the cache, the saved snapshot and `since`, as a function of what its pages come to and of whether it had asked for all |
| Refresh.SnapshotSync.SyncSnapshot | src/pi-gate-program.ts:3 | the same for a refresh with nothing landing meanwhile |
| Refresh.RefreshIsAllOrNothing | src/pi-gate-program.ts:3 | a refresh succeeds if and only if every page up to a last one arrived within the limits; the cache is then the snapshot or delta of the rows of exactly those pages as of the time of the first, and otherwise cards, readiness and disk stay |
| Refresh.CollectPages | src/pi-gate-program.ts:3 | whole exactly when a page without a next one, or the thousandth, is reached, with the rows, removals and first server time of the pages so far; broken at the first that fails; oversized at the first that makes a delta too large |
| Refresh.ReadsOneWay | src/pi-gate-program.ts:3 | pages come to one thing only |
| Refresh.SnapshotSync.Load | src/pi-gate-program.ts:3 | a restart takes cards and `since` from the snapshot on disk |
| Refresh.SnapshotSync.constructor | src/pi-gate-program.ts:3 | the program starts from the snapshot on disk, or cold without one |
| RefreshRuns.StepRefines | src/pi-gate-program.ts:3 | each step of the Pi, a refresh that lands, fails or is too large, a restart, is a step of the journal's world: cards, `since`, readiness and disk |
| RefreshRuns.PiRunsAreSound | src/pi-gate-program.ts:3 | over every run of the Pi in which refreshes land in order, however they overlap, fail or are cut off, cards and disk are right up to what is asked for next |
| RefreshRuns.PiRefreshIsExact | src/pi-gate-program.ts:3 | over every run of the Pi whose refreshes do not overlap, each that succeeds leaves exactly the cards active when it was answered |
| Wiegand.ReadsExactlyEncodings | src/pi-gate-program.ts:3 | a 26- or 34-bit frame is read as a card if and only if it is the parity encoding of that card's number |
| Wiegand.EncodedFrameDecodes | src/pi-gate-program.ts:3 | encoding any value with its two parity bits and decoding returns it |
| Wiegand.SingleBitErrorIsRejected | src/pi-gate-program.ts:3 | any one wrong bit in such a frame is rejected |
| Wiegand.FrameFindsStoredNumber | src/pi-gate-program.ts:3 | the frame of a number matches a stored text if and only if their values are equal |
| Wiegand.WiegandReader.Push | src/pi-gate-program.ts:3 | an edge joins the open frame or, after a longer gap, closes it and opens the next |
| Wiegand.WiegandReader.Poll | src/pi-gate-program.ts:3 | a poll hands out a frame only after the gap has passed |
| Wiegand.FramesAreRuns | src/pi-gate-program.ts:3 | however polls interleave with edges, the frames are those of the edge runs with gaps of at most `gapMs` |
| Wiegand.RunsAreMaximal | src/pi-gate-program.ts:3 | those runs are all of the edges, cut exactly at the longer gaps |
| WiegandCards.CardIsRead | src/pi-gate-program.ts:3 | pulses that carry a card's encoding highest bit first, a pulse on the second line for a one, and then a longer pause give exactly that card number, however polls fall between them |
| WiegandCards.QuietHandsOutAll | src/pi-gate-program.ts:3 | after a pause longer than the gap every run of pulses has been handed out, in order |
| WiegandCards.EncodedHalves | src/pi-gate-program.ts:3 | an encoding has evenly many ones in its leading half and oddly many in its trailing half |
| WiegandCards.KeysRead | src/pi-gate-program.ts:3 | four bits are the key, eight bits are a key exactly when they are its complement and the key |
| WiegandCards.UncheckedFrames | src/pi-gate-program.ts:3 | every other length up to 64 is read as the number between the first and the last bit, whatever those are |
| Visitors.AdmittedInsideWindow | src/pi-gate-program.ts:3 | a PIN is admitted if and only if some pass with it is inside its window, and then by the first such pass |
| Visitors.MatchAnswers | src/pi-gate-program.ts:3 | a PIN that is not admitted is refused for the reason of the last pass with it, and as unknown when there is none |
| Visitors.KeptHas | src/pi-gate-program.ts:3 | pruning keeps exactly the passes that ended at most a day ago, or never |
| Visitors.PruningAdmitsTheSame | src/pi-gate-program.ts:3 | forgetting long-ended passes changes, now and at every later time, neither who is admitted nor by which pass |
| Visitors.PlacedIs | src/pi-gate-program.ts:3 | storing a pass replaces the one with its number where it stands, or comes last, and leaves every other in its place |
| Visitors.VisitorStore.Upsert | src/pi-gate-program.ts:3 | stores a pass in its place among the pruned ones, or refuses it with exactly the reason that applies |
| Visitors.VisitorStore.Revoke | src/pi-gate-program.ts:3 | removes exactly the passes with the number |
| Visitors.VisitorStore.Matching | src/pi-gate-program.ts:3 | the pass that admits a PIN now, or the refusal |
| GateModel.RelayIsConsistent | src/pi-gate-program.ts:3 | over every run: the relay is on if and only if the mode is remain-open or a close time is pending |
| GateModel.RelayOnOnlyForRecentCause | src/pi-gate-program.ts:3 | after a service step outside remain-open the relay is on only if an opening cause occurred less than `doorOpenMs` ago |
| GateModel.OnlyOpeningsEnergise | src/pi-gate-program.ts:3 | a step switches the relay on if and only if it is an opening cause or the remain-open command |
| GateModel.RemainClosedHoldsOutCredentials | src/pi-gate-program.ts:3 | in remain-closed only the exit button or a portal command can energise the relay |
| GateModel.ExitAlwaysOpens | src/pi-gate-program.ts:3 | an accepted exit press leaves the relay on in every mode |
| GateModel.CardOpensIff | src/pi-gate-program.ts:3 | exactly when a card opens: mode, warm cache, presence and end time |
| GateModel.PinOpensIff | src/pi-gate-program.ts:3 | exactly when a PIN opens: mode, lock and pass window |
| GateModel.AtMostEightDenied | src/pi-gate-program.ts:3 | the lockout bound for every run of the whole gate, typed keys included |
| GateModel.PadAfter | src/pi-gate-program.ts:3 | the lockout state of a run of the gate is that of its submitted PINs |
| GateModel.TypedPinStaysHere | src/pi-gate-program.ts:3 | two typed PINs that are decided alike leave the same events and the same door |
| GateModel.EventsMatchTheDoor | src/pi-gate-program.ts:3 | in every mode each input that is not ignored records exactly one event, under the next serial: who was read or typed what and when, the decision, and the first reason that applies; its flag says whether the door was opened except exactly when someone is admitted at a door already held open |
| GateRuns.RemainsClosed | src/pi-gate-program.ts:3 | over every run: after "remain closed" (4), and whatever comes between, no card and no PIN opens or is admitted until the next 3 or 5 |
| GateRuns.RemainsOpen | src/pi-gate-program.ts:3 | over every run: after "remain open" (3) the relay is on until the next 4 or 5 |
| GateRuns.OpensOnItsOwnTerms | src/pi-gate-program.ts:3 | over every run: after "resume" (5), and before any such command, a card opens exactly under its own conditions and a PIN under its own |
| GateRuns.OnlyOrdersChangeMode | src/pi-gate-program.ts:3 | no input but the commands 3 to 5 changes the mode |
| GateRuns.CommandsOnce | src/pi-gate-program.ts:3 | after "open" (1) the relay is on, after "close" (2) off unless held open, after 4 and 5 off; an unknown command changes nothing, and no command anything but the door |
| GateRuns.RelayOnIff | src/pi-gate-program.ts:3 | after a service step of any run in time order the relay is on if and only if the last order was "remain open" or an input less than `doorOpenMs` ago opened the door and no command has cut its pulse since: pulses end neither late nor early |
| GateRuns.CardIgnoredIff | src/pi-gate-program.ts:3 | in every run a card is ignored if and only if its number is that of the last card that was not ignored, and that was less than the cooldown ago |
| GateRuns.PressIgnoredIff | src/pi-gate-program.ts:3 | in every run a press of the exit button is ignored if and only if the last one that was not is less than the debounce time ago |
| Keypad.TypedIsFirstDigits | src/pi-gate-program.ts:3 | over every run what is typed is the first twelve digits since the last `*`, `#` or pause |
| Keypad.SubmittedIsFirstDigits | src/pi-gate-program.ts:3 | the PIN that `#` submits in any run is those digits, and nothing after too long a pause |
| Gate.GateController.HandleCard | src/pi-gate-program.ts:3 | the controller's card handling is the model's step: cooldown, decision, relay and event |
| Gate.GateController.HandlePin | src/pi-gate-program.ts:3 | the controller's PIN handling is the model's step: lock, decision, count, relay and event |
| Gate.GateController.HandleKey | src/pi-gate-program.ts:3 | typing, clearing, submitting and the stale-buffer rule |
| Gate.GateController.PressExit | src/pi-gate-program.ts:3 | the debounced exit button |
| Gate.GateController.ApplyDoorCommand | src/pi-gate-program.ts:3 | the portal's door commands, for this door or refused |
| Gate.GateController.RestoreDoorMode | src/pi-gate-program.ts:3 | a stored mode is taken up again only when it holds the door one way |
| Gate.GateController.TakeEventBatch | src/pi-gate-program.ts:3 | the batch an upload carries is the oldest part of the queue |
| Gate.GateController.DropEvents | src/pi-gate-program.ts:3 | dropping a batch drops events by their serials |
| Gate.GateController.Tick | src/pi-gate-program.ts:3 | the service step that ends a pulse |
| EspDoor.EspGate.CheckPulse | src/esp32-gate-sketch.ts:4 | the loop's signed comparison on the wrapping counter |
| EspDoor.TurnsRefine | src/esp32-gate-sketch.ts:4 | while loop turns are less than 2^31 - 3001 ms apart, the wrapping timer times the door as one that never wraps |
| EspDoor.EspRelayOnOnlyForRecentCause | src/esp32-gate-sketch.ts:4 | over such runs the relay is on outside remain-open only for a cause at most 3000 ms old |
| JsonStream.Reader.FeedJson | bridge-apps/android/app/src/main/java/com/estatemate/bridge/AlertStreamReader.java:121-171 | one chunk: the documents found, the open object kept, and the cut of an oversized buffer |
| JsonStream.Reader.Advance | bridge-apps/android/app/src/main/java/com/estatemate/bridge/AlertStreamReader.java:124-155 | one turn of the scanning loop, the restart after a document included; the text left strictly shrinks |
| JsonStream.EveryDocumentIsBalanced | bridge-apps/android/app/src/main/java/com/estatemate/bridge/AlertStreamReader.java:121-171 | whatever the chunks, every document emitted is a minimal brace-balanced slice, strings understood |
| JsonStream.DocumentsOfText | bridge-apps/android/app/src/main/java/com/estatemate/bridge/AlertStreamReader.java:121-171 | the documents of a text without mention of the scan's state |
| JsonStream.ChunksAreTheWhole | bridge-apps/android/app/src/main/java/com/estatemate/bridge/AlertStreamReader.java:121-171 | while the open object stays within the limit, every split of the text gives the documents of one character-by-character scan |
| JsonStream.ChunksDoNotMatterIff | bridge-apps/android/app/src/main/java/com/estatemate/bridge/AlertStreamReader.java:121-171 | the split never matters if and only if no document is more than one character over the limit and none begins further than the limit into an object left open at the end |
| JsonStream.ShortTail | bridge-apps/android/app/src/main/java/com/estatemate/bridge/AlertStreamReader.java:121-171 | with what is left open at the end within the limit, only the length of the documents matters |
| JsonStream.EverySplitGivesTheDocuments | bridge-apps/android/app/src/main/java/com/estatemate/bridge/AlertStreamReader.java:121-171 | under those conditions every split, from any state of the reader, gives the documents of the whole |
| Multipart.MultipartReader.FeedMultipart | bridge-apps/android/app/src/main/java/com/estatemate/bridge/AlertStreamReader.java:80-94 | one chunk: the parts cut off in order, and what is kept of the buffer |
| Multipart.MultipartReader.EmitPart | bridge-apps/android/app/src/main/java/com/estatemate/bridge/AlertStreamReader.java:96-111 | the raw part and the document found in it, if any |
| Multipart.PartsInTwo | bridge-apps/android/app/src/main/java/com/estatemate/bridge/AlertStreamReader.java:80-94 | the parts of a text are those of its beginning followed by those of the rest with what was left over |
| Multipart.TrimLosesNothing | bridge-apps/android/app/src/main/java/com/estatemate/bridge/AlertStreamReader.java:84-87 | cutting a marker-free buffer to 1024 characters loses no part for a marker of at most 1025 characters |
| Multipart.ChunksDoNotMatterIff | bridge-apps/android/app/src/main/java/com/estatemate/bridge/AlertStreamReader.java:80-94 | for every split of the stream the parts are those between successive leftmost markers of the whole text, if and only if the marker has at most 1025 characters |
| Multipart.EnvelopeIsOpened | bridge-apps/android/app/src/main/java/com/estatemate/bridge/AlertStreamReader.java:96-119 | of a part with headers, a blank line and a document, exactly the document is handed on |
| PartDocuments.PartIsOpened | bridge-apps/android/app/src/main/java/com/estatemate/bridge/AlertStreamReader.java:96-119 | with either line ending, any blanks around the document and any headers: what stands behind the first blank line is handed on whole and without the blanks if and only if it begins as JSON or XML |
| PartDocuments.NoBlankLineNoDocument | bridge-apps/android/app/src/main/java/com/estatemate/bridge/AlertStreamReader.java:96-119 | a part without a blank line hands on nothing |
| JsonWriter.Write | bridge-apps/windows/hcnetsdk/Json.cs:23-28 | the text built is the rendering of the value |
| JsonWriter.WriteValue | bridge-apps/windows/hcnetsdk/Json.cs:30-76 | appends the rendering of any value to the builder |
| JsonWriter.WriteString | bridge-apps/windows/hcnetsdk/Json.cs:78-97 | appends the quoted string with its escapes, section 7 of RFC 8259 |
| JsonReader.ParseObject | bridge-apps/windows/hcnetsdk/Json.cs:101-110 | one object and nothing after it, or the exception thrown |
| JsonReader.ParseValue | bridge-apps/windows/hcnetsdk/Json.cs:112-127 | the value at an index and the index after it, or the exception |
| JsonReader.ParseMap | bridge-apps/windows/hcnetsdk/Json.cs:129-150 | the dictionary at an index, later values replacing earlier ones under a key |
| JsonReader.ParseArray | bridge-apps/windows/hcnetsdk/Json.cs:152-167 | the list at an index |
| JsonReader.ParseString | bridge-apps/windows/hcnetsdk/Json.cs:169-199 | the string at an index with every escape, `\u` included, and its errors |
| JsonReader.ParseNumber | bridge-apps/windows/hcnetsdk/Json.cs:201-212 | a 64-bit integer if the slice is one in range, else what the runtime reads as a double |
| JsonReader.ValueAt | bridge-apps/windows/hcnetsdk/Json.cs:112-212 | every parse that does not throw ends strictly after its start and within the text |
| JsonGrammar.GrammarIsRead | bridge-apps/windows/hcnetsdk/Json.cs:101-226 | every object spelled by the grammar of RFC 8259, with white space of its four kinds anywhere between tokens and every escape of section 7, is read as what it means; any other value is refused as no object |
| JsonAccepts.OnlyGrammarIsRead | bridge-apps/windows/hcnetsdk/Json.cs:101-226 | whatever text the reader accepts is such an object between white space and is read as what it means; numbers and `\u` digits are what the runtime reads as such |
| JsonRoundTrip.WrittenByGrammar | bridge-apps/windows/hcnetsdk/Json.cs:23-97 | what the writer writes is spelled by the grammar, without white space, and means what the value becomes |
| JsonRoundTrip.SpellingsForAre | bridge-apps/windows/hcnetsdk/Json.cs:78-97 | the escapes the writer chooses are spellings of the grammar that mean the string |
| JsonRoundTrip.LongIff | bridge-apps/windows/hcnetsdk/Json.cs:201-212 | exactly the integers of 64 bits come back as integers |
| JsonRoundTrip.WhatComesBack | bridge-apps/windows/hcnetsdk/Json.cs:23-226 | for every value, `ParseObject(Write(v))` is what the value becomes, or is refused when it is no object |
| JsonRoundTrip.RoundTripIff | bridge-apps/windows/hcnetsdk/Json.cs:23-226 | `ParseObject(Write(m)) = m` if and only if no double in the map is a whole number, so always for null, bool, integer, string, list and map |
| JsonRoundTrip.StringReadsBack | bridge-apps/windows/hcnetsdk/Json.cs:78-199 | every UTF-16 string is read back from its escaped form |
| JsonRoundTrip.HexOfDigits | bridge-apps/windows/hcnetsdk/Json.cs:190-194 | four hexadecimal digits of either case after `\u` are read as the code unit they name |
| JsonRoundTrip.PutIsUpdate | bridge-apps/windows/hcnetsdk/Json.cs:143-143 | assigning to a key replaces its value where it stands or comes last, keeps keys distinct, and leaves every other pair and its place |
| JsonLines.WrittenIsOneLine | bridge-apps/windows/hcnetsdk/Json.cs:30-97 | no written value contains a carriage return or a line feed |
| JsonLines.Serve | bridge-apps/windows/hcnetsdk/EstateMateHikSdk.cs:90-121 | the serving loop handles the objects of the input line by line, skipping what is no object, up to a shutdown |
| JsonLines.FramingIsSafe | bridge-apps/windows/hcnetsdk/EstateMateHikSdk.cs:94-120 | any sequence of written objects, one a line with either line ending, is served as exactly that sequence up to the first shutdown |
| JsonLines.AcceptedIsStable | bridge-apps/windows/hcnetsdk/Json.cs:23-226 | whatever text is accepted holds a value that can be written again and is then accepted |
| Zip.WriteAlignedApk | scripts/build-bridge-apk.py:171-264 | succeeds if and only if every count, length and offset fits its field, and then writes the archive whose bytes the `ZipScan` rows place |
| Zip.PackEntry | scripts/build-bridge-apk.py:198-247 | one entry: its local bytes and its central record; the internal alignment error is unreachable |
| Zip.StoredIsAligned | scripts/build-bridge-apk.py:213-222 | the data of every stored entry starts at a multiple of four |
| ZipScan.ReadsFrontToBack | scripts/build-bridge-apk.py:171-264 | reading a written archive front to back by its local headers alone, at the byte offsets of section 4.3.7 of PKWARE APPNOTE, gives every entry's name, method, checksum, both sizes and data in order, and ends exactly where the end record says that the directory begins |
| ZipScan.HeadersAgree | scripts/build-bridge-apk.py:181-247 | the local header at the offset of each directory record has that record's method, checksum, compressed size, size and name |
| ZipScan.HeaderBytes | scripts/build-bridge-apk.py:181-194 | every field of the local header, by its byte offset, low-order byte first |
| ZipScan.CentralBytes | scripts/build-bridge-apk.py:224-247 | every field of a directory record, by its byte offset in section 4.3.12 |
| ZipScan.EndBytes | scripts/build-bridge-apk.py:249-263 | every field of the end record, by its byte offset in section 4.3.16 |
| Zip.CharReadsBack | scripts/build-bridge-apk.py:199-199 | every character of a name is encoded as the one to four bytes that stand for it in RFC 3629 |
| ZipReader.ReadEntries | scripts/build-bridge-apk.py:267-275 | the entries read back through the end record and the directory, without directories, or an error |
| ZipReader.VerifyApk | scripts/build-bridge-apk.py:278-305 | the exact list of problems the check reports |
| ZipRoundTrip.DirectoryReadsBack | scripts/build-bridge-apk.py:228-264 | the directory of a written archive lists its entries' names, methods, checksums, sizes and offsets in order |
| ZipRoundTrip.EntryReadsBack | scripts/build-bridge-apk.py:198-222 | the data found through each directory record is that entry's data |
| ZipRoundTrip.ArchiveReadsBack | scripts/build-bridge-apk.py:171-275 | every written archive reads back as its entries, names as they are encoded and decoded |
| ZipRoundTrip.NameSurvivesIff | scripts/build-bridge-apk.py:199-199 | a name comes back if and only if it is ASCII without a nul character |
| ZipRoundTrip.RoundTripIff | scripts/build-bridge-apk.py:171-275 | reading undoes writing if and only if every entry is a file with an ASCII name without a nul character |
| ZipRoundTrip.CheckedOffsetIff | scripts/build-bridge-apk.py:299-300 | the offset the check computes is off by exactly how much longer the name is when decoded and encoded again: right if and only if the name is ASCII when it has no nul, and if and only if it has no nul when it is ASCII |
| ZipRoundTrip.CheckPassesIff | scripts/build-bridge-apk.py:278-305 | of any written archive: misalignment is reported if and only if some stored entry has a name measured wrongly modulo four, and the other problems if and only if a required entry is not read back or the last resource table is not stored |
| ZipRoundTrip.PlainNamesAreMeasured | scripts/build-bridge-apk.py:299-302 | with ASCII names without nul no misalignment is ever reported |
| Packing.RecordReadsBack | scripts/build-bridge-apk.py:181-194 | little-endian records of fitting fields unpack to what was packed |
| Zone.SampleIsOffset | src/datetime.ts:47-61 | reading the formatted fields back through UTC gives exactly the zone's offset |
| Zone.TwoSamplesAreExact | src/datetime.ts:67-72 | with at most one transition within the largest offset of the value, the result shows the wall time if and only if any instant does; in a gap it misses by exactly the gap, before or after |
| Zone.WallTimeIsExact | src/datetime.ts:67-72 | the same of the instant the code computes for wall-clock components |
| Zone.ShownAsSubmitted | src/datetime.ts:96-108 | the instant a submitted date or time is resolved to is one at which the zone's clock shows exactly the submitted fields, a bare date as its first or last second, whenever there is such an instant |
| Zone.ComponentsMove | src/datetime.ts:68-68 | a thirteenth month is the next year's first, a 24th hour and a day too many move the day, and years 0 to 99 are those of the 1900s |
| Zone.RepeatedTimes | src/datetime.ts:67-72 | which of two instants a repeated wall time resolves to |
| Zone.TwoTransitionsCanMiss | src/datetime.ts:67-72 | one transition is needed: in a zone that goes back two hours and an hour later one more, a shown midnight is not found |
| Zone.FractionIsCut | src/datetime.ts:105-105 | a fraction of a second is cut, not rounded, to milliseconds |
| Zone.DayBoundaries | src/datetime.ts:96-106 | a bare date spans the whole day to its last millisecond |
| Md5.StepsAgree | hikvision-tunnel-worker/index.ts:92-121 | with the worker's own shifts and word order, after any number of steps the rotating variables hold what the registers of section 3.4 of RFC 1321 hold |
| Md5.MixAgrees | hikvision-tunnel-worker/index.ts:98-113 | the signed results of the four round expressions are F, G, H and I |
| Md5.IndexIsOrder | hikvision-tunnel-worker/index.ts:98-113 | the index formulas give the word order listed in the standard |
| Md5.ShiftsAgree | hikvision-tunnel-worker/index.ts:60-65 | the worker's flat table of 64 shifts is the standard's list, round by round, at every step |
| Md5.JsRotateIsRotation | hikvision-tunnel-worker/index.ts:115-116 | the two shifts joined are the circular shift |
| Md5.RotateMovesBits | hikvision-tunnel-worker/index.ts:115-116 | the circular shift moves each of the 32 bits by that many places, round from the highest to the lowest |
| Md5.NotIsBitwise | hikvision-tunnel-worker/index.ts:98-113 | the complement turns each of the 32 bits round |
| Bits.AndIsBitwise | hikvision-tunnel-worker/index.ts:98-113 | each bit of a conjunction comes from the two bits in its place |
| Bits.OrIsBitwise | hikvision-tunnel-worker/index.ts:98-113 | the same of a disjunction |
| Bits.XorIsBitwise | hikvision-tunnel-worker/index.ts:98-113 | the same of an exclusive disjunction |
| Md5.SumIsModular | hikvision-tunnel-worker/index.ts:114-114 | the four-term sum stays below 2^53 and `>>> 0` reduces it modulo 2^32 |
| Md5Digest.PaddingIsLeast | hikvision-tunnel-worker/index.ts:78-84 | the padded length is the least multiple of 64 that is at least the length plus 9 |
| Md5Digest.PaddedLengthIff | hikvision-tunnel-worker/index.ts:79-79 | the 32-bit shifts give that length if and only if it is below 2^31, and otherwise a length too small to fill |
| Md5Digest.PaddingIsStandard | hikvision-tunnel-worker/index.ts:76-84 | in bits: the message, one bit set, the fewest clear bits that leave 64, and in those the length of the message in bits |
| Md5Digest.StartAgrees | hikvision-tunnel-worker/index.ts:86-89 | the worker's starting values are the bytes of section 3.3, low-order byte first |
| Md5Digest.Pad | hikvision-tunnel-worker/index.ts:76-84 | the padded bytes are those of sections 3.1 and 3.2 |
| Md5Digest.BlockAgrees | hikvision-tunnel-worker/index.ts:92-126 | one block added to the running state is one block of the standard |
| Md5Digest.Md5Hex | hikvision-tunnel-worker/index.ts:75-133 | for every byte string whose padded length is below 2^31 the digest is that of RFC 1321; a longer one is a range error |
| Md5Digest.HexText | hikvision-tunnel-worker/index.ts:128-132 | the hexadecimal text is that of the register bytes, low-order byte first |
| SyncTables.Tables.SyncPersonToDevices | src/device-sync.ts:253-325 | the rows inserted, the states recorded and the counts, with and without credentials and without an employee number |
| SyncTables.Tables.RemovePersonFromDevices | src/device-sync.ts:337-385 | the rows inserted, the states recorded and the counts of a removal |
| SyncTables.Tables.FingerprintUploadOperation | src/device-sync.ts:427-467 | inserts at once unless either fingerprint operation is open; pending only with capability and a held template |
| SyncTables.Tables.OpenOperationExists | src/device-sync.ts:197-209 | whether an open operation for the slot exists |
| SyncTables.Tables.SetDevicePersonState | src/device-sync.ts:212-240 | the state row after an upsert: counts kept unless given, operation and error as given, last synchronisation kept unless synced |
| SyncTables.SyncConserves | src/device-sync.ts:253-325 | queued + manual + skipped = terminals * (1 + cards + fingerprints) |
| SyncTables.SyncOpensEverything | src/device-sync.ts:253-325 | afterwards all that was asked for is open, nothing was closed, and at most one open operation per slot is preserved |
| SyncTables.SyncAgainInsertsNothing | src/device-sync.ts:253-325 | an immediate second call inserts nothing and skips every request |
| SyncRows.SyncAddsExactly | src/device-sync.ts:253-325 | a call keeps every row and adds exactly these, unless the same work is already pending, sent or with an operator: for each terminal the person to upsert, each card to upsert if it is active and else to disable, and each finger to upload; pending if and only if that terminal's agent has the capability and, for a finger, it is active and its template held, and otherwise left to an operator |
| SyncRows.RemovalAddsExactly | src/device-sync.ts:337-385 | a removal keeps every row and adds exactly the deletion of the person at each terminal, pending if and only if its agent can, unless it is already open |
| SyncRows.SyncCountsItsRows | src/device-sync.ts:253-325 | queued are the rows added as pending, manual those left to operators, and skipped the other requests |
| SyncRows.RemovalCountsItsRows | src/device-sync.ts:337-385 | the same of a removal |
| SyncRows.WhatAgentsDo | src/device-sync.ts:77-81 | no agent does nothing; one that advertises nothing does cards, visitors and doors; any other exactly what it advertises |
| SyncTables.RemovalIsSound | src/device-sync.ts:337-385 | the same of removals: one request a terminal, at most one open, a second call inserts nothing |
| SyncTables.StatesAreRecorded | src/device-sync.ts:212-240 | after a call each terminal asked has the expected state, with its counts and last synchronisation kept and an old error cleared, and no other state is touched |
| SyncTables.StateIsRecorded | src/device-sync.ts:212-240 | one recorded state: a count not given is kept, an operation or error not given is cleared, only "synced" sets the time, and no other state is touched |
| Overview.DeviceSyncOverview | src/device-sync.ts:493-538 | each terminal's counts are over all people and the totals are their sums |
| Overview.EveryPersonIsCounted | src/device-sync.ts:504-522 | each of a terminal's counts is the people shown in its own state, and with those removed they are all the people |
| Overview.TotalsAreOverAll | src/device-sync.ts:504-538 | each total is the people shown in its own state over all terminals |
| Overview.ShownIsRecorded | src/device-sync.ts:493-512 | what is shown is the state recorded last for exactly that person and terminal, if ids have no bar |
| Overview.BarsCanCollide | src/device-sync.ts:497-497 | two people can share a key at some terminals if and only if they are of one kind and one id followed by a bar begins the other followed by a bar |
| Overview.UuidsDoNotCollide | src/device-sync.ts:497-497 | ids that are UUIDs, as the portal issues them, never share a key |
| Csv.ParseCsv | src/csv.ts:6-42 | the table of every input, or the error |
| Csv.FileReads | src/csv.ts:15-34 | every file quoted by section 2 of RFC 4180 is read as its rows without the empty ones, or refused if and only if they exceed the limit |
| Csv.ParseUndoesQuoting | src/csv.ts:6-42 | for normalised headers and rows that are not all empty, reading undoes quoting, however fields are quoted and lines end |
| Csv.TrimTakesTheEnds | src/csv.ts:8-8 | trimming takes all white space from both ends and nothing else |
| Csv.HeadersAreClean | src/csv.ts:36-36 | a normalised header has no white space and no hyphen, and one without any keeps every character |
| Csv.NormalisedOnce | src/csv.ts:36-36 | a normalised header is left as it is, where lower-casing leaves it |
| Csv.AcceptedRows | src/csv.ts:36-41 | an accepted table has distinct non-empty headers and in each row the cell of each column |

## Left out

- RefreshRuns.PiRunsAreSound: each set of pages is assumed to be what the server promises, consistent at its first server time with changes reaching its journal at most two minutes late, and the estate's cards to fit the cache; the Worker that serves them is not part of this model.
- Twins.IndexAgreesWithMap: assumes end times below 2^32 and card hashes that do not collide, because the sketch stores both in fixed-width integers.
- EspPin.SketchDecidesTheSameIff: idle periods of 2^31 ms and more between PINs are outside the sketch's working range and are not claimed.
- EspDoor.TurnsRefine: loop turns further apart than 2^31 - 3001 ms are not claimed.
- EventRing.RunRefines: claims nothing beyond 2^32 recorded events except what `EventRing.WrappedBatchIsRemoved` says.
- CardIndex.CardCache.StdSort: the library sort is modelled by one sorted permutation; `CardIndex.IndexIsUnique` makes its choice among equal keys immaterial.
- Refresh.CollectPages: a page is the rows and removals of cards it holds; entries of another kind are left out before, and cursors are only whether there is a next page.
- Refresh.SnapshotSync.Load: the snapshot on disk is a value that was saved whole; its JSON text and partial writes are not modelled, and like the code it does not check the capacity.
- CardNumber.KeyIsStable: upper-casing is that of ASCII letters; other Unicode case mappings are not modelled.
- Gate.GateController.RecordEvent: event description text and the wall-clock time stamped on events are not modelled.
- Zone.WallTimeIsExact: years 0 to 99, which `Date.UTC` moves to the 1900s, are excluded for what the formatter shows.
- JsonWriter.WriteValue: the fallback that writes any other object as its text is not modelled; the values are those of the type.
- JsonReader.ParseNumber: which slices the runtime reads as a double, and NaN and infinities, are left to the parameter.
- JsonLines.Serve: the answers written for each request are not modelled; a blank line is skipped with the lines that are no object.
- ZipReader.ReadEntries: an archive with a comment, with encryption or UTF-8 flags, or with extra-field records of four bytes and more is read more leniently by the library than by the model.
- ZipReader.VerifyApk: opening the resource table, and what the library reads more leniently than the model.
- Csv.NormalisedOnce: that lower-casing leaves a lower-cased name as it is belongs to the parameter.
- SyncTables.Tables.SyncPersonToDevices: payloads and instructions of the rows are not modelled, terminal and credential ids are distinct as primary keys are, and no other call writes between its queries and its batch.
- Overview.DeviceSyncOverview: keeps one set of counts for each terminal in the list; terminal ids are distinct, as primary keys are.
- Multipart.MultipartReader.EmitPart: finding fields inside a document is not modelled.
- The Pi's `LibgpiodBackend`, which restarts edge times at zero while the service loop uses the wall clock: timed claims are over one clock, as the sketch and the `FakeBackend` have.
- The Pi's `parseTimestamp` and `formatTimestamp`, which use the runtime's `Date`.
- Strings with an explicit offset in `parseEstateInstantMs`, which go to `Date.parse`.
- Heartbeats, logging, LED and buzzer feedback, configuration, TLS, HTTP, systemd and FreeRTOS beyond the atomicity of its locks.
- `personBody`, `personKeyFor`, `isPendingPattern` and the queries of `syncDevices`, `readPerson` and `credentialsForPerson`: their results are arguments here.
- Finding the boundary of a multipart stream in its content type.
- Small validators (`employee-id.ts`, `visitor-account.ts`, `sign-in.ts`, `agent-kinds.ts`, `card-number.ts`): easy members only.
- User interfaces, vendor library calls, exports, icons, password hashing, tokens and object storage.
