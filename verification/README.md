# Arctic controller: verified models

A Dafny model of the stateful core of the Arctic heat pump controller firmware, with proofs about
whole runs. Each component is modelled in the form the firmware has it: objects and buffers that are
changed in place are classes and methods with loops, each proved against a function on values; what
the component is for is then proved about that function over every input, call sequence or
interleaving.

| files | component |
|---|---|
| `Basics` | what several components share |
| `Calendar` | day numbers of dates, month stepping |
| `LedgerSpec`, `EnergyLedger`, `LedgerRuns`, `LedgerRecords`, `LedgerNumbers`, `LedgerDetails`, `LedgerSpans`, `LedgerWidths`, `LedgerExamples` | the daily energy ledger |
| `StoreSpec`, `EnergyStore`, `StoreTheorems`, `StoreTotals`, `StoreRuns`, `StoreReads`, `StoreSlots` | the month blobs in flash and the lifetime totals |
| `EnergySystem`, `EnergyOrder`, `EnergyFates`, `EnergyCheckpoints`, `EnergyCareful`, `EnergyRecords`, `EnergyExamples` | ledger, store and driver together, with write failures, crashes and clock steps |
| `CommandCache`, `HaCache`, `HaProtocol`, `HaInvariants`, `HaTheorems`, `HaAnswers`, `HaTokens`, `HaWrap` | Home Assistant control requests against token issue and revoke |
| `BacnetTags`, `BacnetFrames`, `BacnetWriter`, `BacnetRoundTrip`, `BacnetReplies` | the BACnet/IP codec (ANSI/ASHRAE 135: Annex J, clauses 6.2, 15.5, 15.7, 16.10, 20.1 and 20.2) |
| `Events`, `FaultPairing`, `FaultPairingProof`, `FaultTheorems`, `FaultBuilder`, `FaultHistory`, `FaultQueries`, `FaultConditions`, `FaultExamples` | spans rebuilt from open and close events |
| `EventRing`, `EventTheorems` | the event log in memory |
| `SensorSettings` | the shared external-sensor settings |
| `ServerLifecycle` | start, stop, repair and shutdown of the web servers |
| `SessionTable`, `SessionRuns` | web sessions and their flash copy |

Flash is a map from key to blob: a write lands whole or changes nothing, and a crash loses memory
only. Concurrency is a set of atomic steps, one per critical section; every interleaving of them is a
run. Clocks, randomness, platform answers and failures are inputs. Hashes are injective and issued
tokens new. Integers are unbounded except where the firmware's width matters, which is written out.

## What turned out not to hold as promised

Each of these has a concrete input and the exact condition under which the promise does hold.

- A closed day repeated after a day 13 to 48 months newer was stored is counted again, because its
  month blob is gone: `StoreRuns.CountedAgain`; exactly when a commit counts is
  `StoreTheorems.CountsExactlyWhen`.
- Lifetime totals start again when consecutive days are more than 15 months apart, and leave out a day
  that is counted out of order: `StoreRuns.LongGapRestarts`, `EnergyExamples.DroppedDayComesLate`;
  exactly when they are complete is `StoreTotals.NewestTotalsAreTheSum`.
- A reset can lose a whole closed day, not ten minutes: `EnergyExamples.CrashLosesClosedDay`; exactly
  when the last copy of a day disappears is `EnergyFates.LostExactly`.
- The rounded record can show more covered than total energy once a mode reaches 2^32 Wh:
  `LedgerExamples.RoundedOrderCanFail`; exactly when is `LedgerRecords.RoundedOrderKept`.
- A control write can happen under a replaced token if exactly a multiple of 2^32 token changes came
  between: `HaWrap.StaleTokenCanWrite`; exactly when is `HaTheorems.WritesUnderCapturedGeneration`.
- The ReadPropertyMultiple parser never clears an entry's error flag, and the sensor client passes
  the same buffer again (main/ext_temp_sensors.cpp:578), so an error can outlive its reply:
  `BacnetRoundTrip.StaleErrorSurvives`; exactly when is `BacnetRoundTrip.MultipleAckReadsBack`.
- A frame that declares fewer bytes than its parser needs (7 for a reply, 12 for an I-Am) is called
  incomplete or malformed by how many other bytes were received with it, so the result depends on more
  than the declared bytes: `BacnetFrames.ShortHeaderDepends`, `ShortIAmDepends`; exactly when is
  `BacnetFrames.ParsersAreLocal` and `IAmIsLocal`.
- A ReadPropertyMultiple reply without results is accepted by the parser but not taken by the receive
  loop: `BacnetRoundTrip.EmptyAckPassedOver`; exactly when is `BacnetFrames.AcceptedMultipleMatches`.
- A span whose opener finds 16 others open is never reported: `FaultExamples.SeventeenthIsMissed`;
  exactly when is `FaultTheorems.PairingExact`.
- Backfilled timestamps lose their order across a 32-bit wrap of the clock:
  `EventTheorems.SyncOrderCanFail`; exactly when is `EventTheorems.SyncKeepsOrder`.
- An id learned while an edit is being saved is overwritten, in memory and flash alike:
  `SensorSettings.LearnedIdCanBeLost`; exactly when is `SensorSettings.StoredIdSurvives`.
- The comment above `save_sessions` says that a failed write only costs the sessions at the next
  restart. It can also bring one back: `SessionRuns.FailedSaveUndoesLogout`; exactly which tokens a
  restart accepts is `SessionRuns.RestartAcceptsFlash`. The model follows the code.

## Model

| member | source | states |
|---|---|---|
| `Calendar.SuccessorIsOneDayLater` | main/energy_ledger.h:75-85 | the calendar's successor of any valid date is valid and has the next day number, across leap years, month and century ends |
| `Calendar.EpochIsDayZero` | main/energy_ledger.h:75-85 | 19700101 is day 0 |
| `Calendar.DaysFromDateMonotone` | main/energy_ledger.h:75-85 | later valid dates have greater day numbers |
| `Calendar.DaysFromDateOrder` | main/energy_ledger.h:75-85 | valid dates compare, and are equal, exactly as their day numbers |
| `Calendar.PrevMonthIndex` | main/energy_store.h:65-68 | the previous month is exactly one calendar month back and smaller, so stepping back terminates |
| `Calendar.NextMonthIndex` | main/energy_store.h:69-71 | the next month is exactly one calendar month on and greater |
| `Calendar.MonthStepsInverse` | main/energy_store.h:65-71 | each month step undoes the other |
| `EnergyLedger.EnergyLedger.Book` | main/energy_ledger.h:348-396 | booking an interval gives the specified day totals: buckets, thermal and covered energy, activity and outdoor sums |
| `EnergyLedger.EnergyLedger.Accept` | main/energy_ledger.h:235-256 | one accepted reading: book, split at the day's end, close and open, new reference |
| `EnergyLedger.EnergyLedger.Add` | main/energy_ledger.h:218-257 | a reading updates the whole ledger as specified, or is dropped |
| `EnergyLedger.EnergyLedger.CloseAndOpen` | main/energy_ledger.h:335-339 | the closed day's record is kept, with the numbers `LedgerNumbers` proves, and the new day starts empty |
| `EnergyLedger.EnergyLedger.Restore` | main/energy_ledger.h:264-276 | a checkpoint restores the open day once, with an approximate span |
| `LedgerRuns.FinishedIsClosed` | main/energy_ledger.h:218-257 | a finished record is offered exactly when a day closed, and it is the record of that day's final totals; `LedgerNumbers` says what its numbers are |
| `LedgerRuns.AdvanceAmount` | main/energy_ledger.h:240-249 | a step that crosses midnight books the part after it, and only that, to the new day |
| `LedgerRuns.FeedConserves` | main/energy_ledger.h:218-257 | one reading neither loses nor double-books any of thirteen kinds of total (electricity per bucket, heat, covered electricity, run, source and defrost times and heat, outdoor sums and times), for any day and any clock; the 32-bit running sum while it does not wrap |
| `LedgerRuns.RunConserves` | main/energy_ledger.h:218-257 | over any run, closed days plus the open day hold of each quantity what the run started with plus what its steps were worth; the 32-bit running sum on runs where it does not wrap |
| `LedgerRuns.ReadingsConserved` | main/energy_ledger.h:218-257 | from a fresh ledger, stated on the readings and on which of them the ledger dropped: rate at the previous reading (its power, for electricity) times elapsed time, over exactly the qualifying steps of at most 120 s |
| `LedgerRuns.NothingDroppedForward` | main/energy_ledger.h:218-231 | on a clock that never goes back no reading is dropped |
| `LedgerRuns.CloseOpensLaterDate` | main/energy_ledger.h:209-257 | exactly when a close opens a date that is not later |
| `LedgerRuns.AcceptedBeforeEnd` | main/energy_ledger.h:228-257 | an accepted reading lies before the open day's end |
| `LedgerRuns.DatesIncrease` | main/energy_ledger.h:209-257 | under any clock jumps and shifts closed dates strictly increase and stay below the open date |
| `LedgerRecords.FeedOk` | main/energy_ledger.h:348-396 | one reading keeps covered at most total energy, thermal at most power seconds, outdoor minimum at most average at most maximum, on the open and the closed day |
| `LedgerRecords.EveryDayOk` | main/energy_ledger.h:348-396 | the same for every day of every run |
| `LedgerRecords.RecordedAverages` | main/energy_ledger.h:164-199 | in the rounded record the day average and running average lie between the extremes |
| `LedgerNumbers.RecordedEnergy` | main/energy_ledger.h:159-199 | every electricity bucket, and heat, covered electricity and signed defrost heat, is recorded as the nearest watt-hour to the total booked, while that fits 32 bits |
| `LedgerNumbers.RecordedUnattributed` | main/energy_ledger.h:164-199 | so is unattributed electricity |
| `LedgerNumbers.RecordedAsIs` | main/energy_ledger.h:164-199 | date, offset, settings, starts, defrosts and every time are recorded as they are |
| `LedgerNumbers.RecordedOutdoor` | main/energy_ledger.h:184-197 | the outdoor extremes are recorded as they are, both averages as the sum over the time cut toward zero |
| `LedgerNumbers.RecordsHoldTotals` | main/energy_ledger.h:159-199 | the records of any days hold their totals to within half a watt-hour a day |
| `LedgerNumbers.RecordsConserve` | main/energy_ledger.h:159-257 | conservation carried into the records: over any run the records of the closed days and the open day hold what the steps were worth, to within half a watt-hour for each closed day |
| `LedgerDetails.DayDetails` | main/energy_ledger.h:348-407 | over any run from a fresh ledger a day's settings are those of its first heat measurement, marked mixed exactly if a later one differs, and its outdoor extremes the least and greatest temperature that counted |
| `LedgerDetails.FeedCounts` | main/energy_ledger.h:250-253 | a reading counts a start or a defrost exactly if it came on within one step, for the day open after it |
| `LedgerDetails.EveryRiseCounted` | main/energy_ledger.h:250-253 | over any run closed days and the open day count every start and defrost exactly once, below the 16-bit limit |
| `LedgerDetails.DefrostEndNoted` | main/energy_ledger.h:254-256 | the end of the last defrost is the reading that first shows none |
| `LedgerDetails.RestoredDayCloses` | main/energy_ledger.h:264-276 | a restored day, whatever its offset from UTC, ends at its date's next local midnight: a reading of the same date keeps it open, the first of the next date closes it |
| `LedgerDetails.PausedBooksNothing` | main/energy_ledger.h:259-263 | after a pause the next reading books nothing |
| `LedgerRecords.RoundedOrderKept` | main/energy_ledger.h:159-163 | rounding keeps covered at most total if and only if the total fits 32 bits or sits just below a wrap |
| `LedgerExamples.RoundedOrderCanFail` | main/energy_ledger.h:159-199 | a run of 32 readings that ends with a well-formed day whose record shows more covered than total energy |
| `LedgerRecords.RecordOfMildDay` | main/energy_ledger.h:164-199 | the record of a day of readings within 100 degrees and 80 MW that booked at most 190120 seconds keeps all the orders |
| `LedgerRecords.EveryRecordOk` | main/energy_ledger.h:348-396 | from any ledger, restored ones included, and on any clock: while no open day books more than 190000 seconds, plausible readings keep every closed and open day mild and its record well formed |
| `LedgerRecords.RunningSumExact` | main/energy_ledger.h:385-394 | on such a run no step wraps the 32-bit running sum, and closed days plus the open day hold exactly the unwrapped sum of temperature times running time |
| `LedgerSpans.ShortDaysStayExact` | main/energy_ledger.h:348-396 | from any ledger, with days under 50 hours on a clock that does not go back, the running sum equals the unwrapped sum and every record is well formed |
| `LedgerSpans.StartsElapsed` | main/energy_ledger.h:264-276 | a new device and a restored checkpoint both start such a run, the latter with the time it had booked |
| `LedgerWidths.RunGrows` | main/energy_ledger.h:348-396 | from any ledger no counter of any day grows by more than one step per reading |
| `LedgerWidths.CountersFit` | main/energy_ledger.h:130-157 | from any ledger no counter of any day leaves its field while the seconds booked and 120 per reading stay below 2^32 |
| `EnergyStore.EnergyStore.FindMonthAtOrBefore` | main/energy_store.cpp:72-77 | the backward search is the specified one |
| `EnergyStore.EnergyStore.CommitDay` | main/energy_store.cpp:139-208 | a commit gives the specified store, totals and result for every failure; what that store then holds is `StoreSlots` |
| `EnergyStore.EnergyStore.LoadLifetime` | main/energy_store.cpp:210-224 | the totals of the newest blob of the last 15 months, or none |
| `EnergyStore.EnergyStore.ReadDays` | main/energy_store.cpp:226-245 | the first `capacity` stored days of the range are written, nothing else |
| `StoreTheorems.FindMonthNewest` | main/energy_store.cpp:72-77 | the search returns the newest blob in its range, and nothing exactly when there is none |
| `StoreTheorems.CountsExactlyWhen` | main/energy_store.cpp:139-182 | a commit counts its day if and only if the write lands and the month's blob is missing or has not reached that date |
| `StoreTheorems.CommitKeepsValid` | main/energy_store.cpp:139-208 | every commit keeps the store well formed |
| `StoreTheorems.CountedTwiceOnlyAfterErase` | main/energy_store.cpp:126-208 | over any calls in any order, a date counted twice had its month erased in between |
| `StoreTheorems.Retention` | main/energy_store.cpp:183-200 | a counted day erases months 13 to 48 before it and leaves every other month but its own untouched |
| `StoreTheorems.AgedOutRepeatCounts` | main/energy_store.cpp:139-200 | such an erased date is counted again when repeated |
| `StoreTotals.CarriesOn` | main/energy_store.cpp:72-77 | a new latest day starts from the newest totals exactly when at most 15 months have passed |
| `StoreTotals.StepTracks` | main/energy_store.cpp:126-208 | a commit that lands, fails, repeats or comes late keeps the newest totals those of the days that came in order |
| `StoreTotals.RunTracks` | main/energy_store.cpp:126-208 | so does every run of commits, in any order |
| `StoreTotals.MainlineIffAscending` | main/energy_store.cpp:126-208 | all counted days came in order exactly when their dates strictly increase |
| `StoreRuns.OrderPlusRepeats` | main/energy_store.cpp:139-182 | days in date order plus any repeats while their month is kept are counted in order, each once |
| `StoreRuns.CountedAgain` | main/energy_store.cpp:139-200 | three commits that count one date twice |
| `StoreRuns.LongGapRestarts` | main/energy_store.cpp:72-77 | two counted days 16 months apart whose totals do not hold both |
| `StoreTotals.TotalsAreSums` | main/energy_store.cpp:126-137 | every lifetime counter is the sum over the days since the last restart of the totals, modulo 2^32 |
| `StoreTotals.NewestTotalsAreTheSum` | main/energy_store.cpp:126-208 | after any run of commits every newest counter is the sum over the days that came in order since the last long gap, and the day count is that of all counted days if and only if they all came in order with no gap over 15 months |
| `StoreTotals.RestartReadsTotals` | main/energy_store.cpp:210-224 | what a restarted device reads: the tracked totals exactly while the newest month is less than 15 months old |
| `StoreReads.RangeReadExact` | main/energy_store.cpp:226-245 | a range read yields strictly ascending dates and exactly the stored days of the range |
| `StoreSlots.CommitFillsOneSlot` | main/energy_store.cpp:183-186 | a counted day fills its own slot of its month; every other slot keeps what it held, or is empty in a new month |
| `StoreSlots.OtherMonthsKeepDays` | main/energy_store.cpp:183-200 | no other month kept changes any day |
| `StoreSlots.CountedStaysStored` | main/energy_store.cpp:139-208 | over any run of calls a counted day's record stays in its slot while its month is kept |
| `StoreSlots.NotCountedAgain` | main/energy_store.cpp:126-182 | and its date is not counted again meanwhile |
| `StoreSlots.StoredWasCounted` | main/energy_store.cpp:139-208 | every record stored after any run is that of a call that counted |
| `StoreSlots.RangeReadReturnsCounted` | main/energy_store.cpp:226-245 | after any run a range read returns the own record of every counted day of the range whose month was kept, and only records of counted days |
| `StoreSlots.CommitReports` | main/energy_store.cpp:139-208 | a commit reports success exactly if flash opened and the store has now reached the day, and returns the totals stored with its month |
| `StoreSlots.TotalsNameTheirStart` | main/energy_store.cpp:126-137 | the totals name the first day they count, how many they count, and the reset drawn on that day |
| `EnergySystem.AlwaysSound` | main/heatpump_controller.cpp:1114-1190 | in every interleaving of readings, commits, checkpoints, failures and crashes the store is the run of the logged commits and each came from a well-formed day |
| `EnergySystem.SystemCountsOnce` | main/heatpump_controller.cpp:1114-1190 | for the whole system, a date is counted again only after its month was erased |
| `EnergySystem.SystemTotalsExact` | main/heatpump_controller.cpp:1114-1190 | in every interleaving, with no condition on order, the newest totals are the sums over the days that came in order since the last long gap, and complete if and only if all did with no such gap |
| `EnergyOrder.ForwardRunsAreInOrder` | main/heatpump_controller.cpp:562-588 | days are counted in order through every failure, crash and clock step, if the clock is not behind the newest counted day when a day is opened after a restart and restored checkpoints are safe |
| `EnergyCareful.CarefulRunsAreInOrder` | main/heatpump_controller.cpp:562-588 | the system's own checkpoints are safe, and days are counted in order, whenever no day closes while another waits and an old checkpoint's month is kept |
| `EnergyCareful.EveryClosedDayAccounted` | main/heatpump_controller.cpp:1114-1190 | if besides no crash comes while flash no longer holds an uncounted waiting day, every closed day is counted, waits, or is the checkpoint a restart closes again |
| `EnergyFates.LostExactly` | main/heatpump_controller.cpp:1114-1190 | exactly which events, in which states, take away the last copy of an uncounted day |
| `EnergyExamples.CrashLosesClosedDay` | main/heatpump_controller.cpp:1114-1190 | a run on a real calendar and clock that closes a day and ends with nothing of it |
| `EnergyExamples.DroppedDayComesLate` | main/heatpump_controller.cpp:562-588 | such a run in which a dropped day comes back from its checkpoint and is counted out of order |
| `EnergyCheckpoints.AlwaysCheckpointed` | main/heatpump_controller.cpp:1114-1190 | in every run what the ledger takes for saved, what flash holds, what is being written and the open day are, in this order, the same day growing in every counter, or older days |
| `EnergyCheckpoints.PassBoundsLoss` | main/energy_ledger.h:287-298 | after a pass with working writes flash holds the open day as it is, or a copy of it that in every counter lies between the open day and a copy noted less than ten minutes ago or still equal to it |
| `EnergyRecords.EveryStoredRecordOk` | main/heatpump_controller.cpp:1114-1190 | through crashes and restores, every record handed to the store is well formed while readings are plausible and no day books over 190000 seconds |
| `CommandCache.LookupFromFinds` | main/api_server.cpp:3289-3318 | the scan reports new exactly when no accepted record has the id, else decides by the record that has it |
| `CommandCache.Cache.Begin` | main/api_server.cpp:3289-3318 | the lookup result, and for a new command the claimed slot, cleared |
| `CommandCache.Cache.Finish` | main/api_server.cpp:3320-3337 | only an accepted command is recorded, in its own slot |
| `HaCache.LookupExact` | main/api_server.cpp:3289-3318 | new, duplicate or conflict is decided exactly by the acknowledged commands among the newest 32 |
| `HaCache.ClaimOk` | main/api_server.cpp:3312-3318 | claiming a slot keeps slots and history in step and equal ids 33 tickets apart |
| `HaCache.AcknowledgeOk` | main/api_server.cpp:3320-3337 | recording an accepted command keeps them too |
| `HaCache.OneRecordPerId` | main/api_server.cpp:3289-3337 | no two accepted records share an id |
| `HaInvariants.StepKeepsInv` | main/api_server.cpp:3550-3819 | every step of any handler or token call keeps locks, cache, credential, requests and writes consistent |
| `HaInvariants.RunKeepsInv` | main/api_server.cpp:3550-3819 | so does every interleaving |
| `HaTheorems.AcknowledgedNotRepeated` | main/api_server.cpp:3289-3337 | after an acknowledged write its id is not written again until 32 other new commands have begun |
| `HaTheorems.LookUpDecides` | main/api_server.cpp:3289-3318 | within that window a repeat goes on to be accepted (`HaAnswers.RepeatIsAccepted`) and a different command is refused, without a write; any other id goes on |
| `HaTheorems.CacheIdsDistinct` | main/api_server.cpp:3289-3337 | in every reachable state the accepted records have distinct ids |
| `HaTheorems.AcceptedWasPerformed` | main/api_server.cpp:3550-3622 | a request is answered as accepted only if the heat pump acknowledged that very command |
| `HaTheorems.OutcomesReleaseLocks` | main/api_server.cpp:3550-3819 | an answered handler holds neither mutex; with all calls finished both are free |
| `HaTheorems.WritesUnderCapturedGeneration` | main/auth_manager.cpp:774-836 | a write happens only under the generation captured at validation, and its bearer is still the stored token if and only if fewer than 2^32 token changes came between |
| `HaTheorems.FlashHoldsToken` | main/auth_manager.cpp:674-767 | outside a token call in progress flash holds the token in memory; which token that is, is `HaTokens` |
| `HaTheorems.StepAdvances` | main/api_server.cpp:3550-3819 | every step brings its own process nearer its end and moves no other |
| `HaTheorems.SomeoneCanMove` | main/auth_manager.cpp:674-836 | no deadlock: while a handler or token call is unfinished one of them can step |
| `HaAnswers.StepBinds` | main/api_server.cpp:3550-3622 | a request is bound for an answer from the one step whose verdict it is |
| `HaAnswers.AnswersAreVerdicts` | main/api_server.cpp:3550-3622 | in every run a request is answered with the outcome of what it met: unauthorized by its token, unprocessable by its body, accepted or conflicting by an equal or different remembered command, unavailable by support, rotated by the generation, accepted or not by the heat pump |
| `HaAnswers.RepeatIsAccepted` | main/api_server.cpp:3586-3590 | however the run goes on, a repeat of a remembered command takes one more step, is accepted and writes nothing |
| `HaAnswers.WritesAreTransfers` | main/api_server.cpp:3550-3622 | the recorded writes are exactly the transfers of the run with their results, in order |
| `HaAnswers.RequestAsSent` | main/api_server.cpp:3550-3622 | a request is carried through with the command and token it arrived with |
| `HaTokens.SuccessStores` | main/auth_manager.cpp:674-767 | a revoke that succeeds leaves no token in memory or flash; an issue that succeeds stores in both exactly the token it hands out, never stored before |
| `HaTokens.FailureKeeps` | main/auth_manager.cpp:674-767 | a call that fails hands out nothing and changes neither |
| `HaTokens.StoredIsLastGiven` | main/auth_manager.cpp:674-767 | after any run the stored token is the one the last successful call handed out, none after a revoke |
| `HaTokens.RevokedUntilIssued` | main/auth_manager.cpp:732-829 | from a state without a token until an issue finishes, every token presented is refused and nothing is written, not even for a request validated before |
| `HaWrap.StaleTokenCanWrite` | main/auth_manager.cpp:814-829 | a run in which a replaced token writes, after exactly 2^32 changes |
| `BacnetTags.ReadBeOfBe` | main/bacnet_frame.cpp:101-105 | big-endian bytes read back to the number |
| `BacnetTags.ReadBigEndian` | main/bacnet_frame.cpp:101-105 | the loop computes that reading |
| `BacnetTags.ContextUintBack` | main/bacnet_frame.cpp:258-269 | a context unsigned reads back to its value and ends there |
| `BacnetTags.ContextObjectBack` | main/bacnet_frame.cpp:271-277 | a context object identifier reads back |
| `BacnetTags.AppTagBack` | main/bacnet_frame.cpp:173-193 | an application tag, short or extended, reads back with its contents |
| `BacnetTags.AppValueBack` | main/bacnet_frame.cpp:195-256 | every encodable application value decodes to itself |
| `BacnetFrames.ParseObjectProperties` | main/bacnet_frame.cpp:530-538 | the inner loop fills the array as specified, a result that cannot be read leaving what the firmware leaves in its slot, and stays within it |
| `BacnetFrames.ParseReadPropertyMultipleAck` | main/bacnet_frame.cpp:510-540 | the nested loops terminate and compute the specified result in the caller's array for every buffer |
| `BacnetFrames.ParsersAreLocal` | main/bacnet_frame.cpp:114-305 | on two buffers that hold the same complete frame the header, ReadProperty and ReadPropertyMultiple parsers agree if and only if it declares at least 7 bytes or both or neither buffer has as many; the object match always agrees |
| `BacnetFrames.IAmIsLocal` | main/bacnet_frame.cpp:442-477 | the same for the I-Am parser with 12 bytes |
| `BacnetFrames.ShortHeaderDepends` | main/bacnet_frame.cpp:114-119 | a four-byte frame whose result depends on bytes after it |
| `BacnetFrames.ShortIAmDepends` | main/bacnet_frame.cpp:442-449 | an eleven-byte I-Am whose result does |
| `BacnetFrames.PropertiesAgree` | main/bacnet_frame.cpp:530-538 | the inner parse loop looks at nothing beyond the length |
| `BacnetFrames.ObjectsAgree` | main/bacnet_frame.cpp:510-540 | nor does the outer one |
| `BacnetFrames.AcceptedFramesMatch` | main/bacnet_frame.cpp:479-562 | a ReadProperty reply accepted for an object is one the receive loop takes for it; which replies it takes at all is `BacnetReplies` |
| `BacnetFrames.AcceptedMultipleMatches` | main/bacnet_frame.cpp:510-562 | a ReadPropertyMultiple reply accepted for an object is taken for it if and only if it has any result |
| `BacnetRoundTrip.EmptyAckPassedOver` | main/bacnet_frame.cpp:549-562 | an empty acknowledgement is accepted and not taken |
| `BacnetWriter.ContextTag` | main/bacnet_frame.cpp:25-51 | appends exactly the tag's bytes, or reports no room |
| `BacnetWriter.ContextObjectId` | main/bacnet_frame.cpp:53-63 | appends exactly the object tag, refused if out of range or out of room |
| `BacnetWriter.BuildReadProperty` | main/bacnet_frame.cpp:389-398 | the built frame, or failure exactly when it does not fit |
| `BacnetWriter.BuildReadPropertyMultiple` | main/bacnet_frame.cpp:400-412 | the same for a property list |
| `BacnetWriter.Writer.TagAndBytes` | main/bacnet_frame.cpp:318-331 | appends an application tag and its contents, or turns the writer off for good |
| `BacnetRoundTrip.ReadPropertyRequestBack` | main/bacnet_frame.cpp:389-398 | a built request reads back to object, property and index |
| `BacnetRoundTrip.ReadPropertyMultipleRequestBack` | main/bacnet_frame.cpp:400-412 | a built request reads back to object and property list |
| `BacnetRoundTrip.ReadPropertyAckBack` | main/bacnet_frame.cpp:479-508 | an acknowledgement of any encodable value, with or without index, parses to that value |
| `BacnetRoundTrip.MultipleAckBack` | main/bacnet_frame.cpp:279-305 | any list of groups of results that fits parses back entry by entry over what the slots held |
| `BacnetRoundTrip.MultipleAckReadsBack` | main/bacnet_frame.cpp:510-540 | it reads as exactly the list sent if and only if every slot a value lands in had its error flag clear |
| `BacnetRoundTrip.StaleErrorSurvives` | main/bacnet_frame.cpp:279-305 | a value parsed into a slot left over from an error still shows the error |
| `BacnetRoundTrip.MultipleAckOverflow` | main/bacnet_frame.cpp:510-540 | results over any number of objects that do not fit are reported as unsupported, with the output full of the first of them |
| `BacnetRoundTrip.IAmBack` | main/bacnet_frame.cpp:442-477 | an I-Am from the writer's encoders reads back whole |
| `BacnetRoundTrip.ErrorReplyBack` | main/bacnet_frame.cpp:132-160 | an Error reply gives its class and code, a byte each, and leaves the reason |
| `BacnetRoundTrip.RefusalReasonBack` | main/bacnet_frame.cpp:161-168 | Reject and Abort replies give their reason; a reply to another request is reported as such |
| `BacnetReplies.RefusalTaken` | main/bacnet_frame.cpp:549-562 | an Error, Reject or Abort is taken exactly if it names the request's invoke id, whatever the object |
| `BacnetReplies.OtherKindsPassedOver` | main/bacnet_frame.cpp:549-562 | a reply of any other kind is not taken |
| `BacnetReplies.AckTaken` | main/bacnet_frame.cpp:549-562 | an acknowledgement is taken exactly if it has the invoke id, the service and the object asked for, any instance for the wildcard |
| `BacnetReplies.OtherReplyRefused` | main/bacnet_frame.cpp:479-508 | how a ReadProperty acknowledgement of another request, service, object or property is refused, and that no other is |
| `BacnetReplies.CutShortIsIncomplete` | main/bacnet_frame.cpp:114-131 | a frame cut short anywhere is incomplete for every reply parser and never taken |
| `BacnetReplies.WritesOnlyResults` | main/bacnet_frame.cpp:510-540 | for every buffer the caller's array is untouched beyond the reported results, and one entry more on a malformed reply |
| `BacnetReplies.UnreadableSlot` | main/bacnet_frame.cpp:279-305 | what that one entry keeps: its error, and its value before an opening tag 4 |
| `BacnetReplies.RoutedIAmBack` | main/bacnet_frame.cpp:442-477 | an I-Am with a destination network, address and hop count reads back whole |
| `FaultPairingProof.WalkFollows` | main/fault_history.cpp:93-116 | after every prefix of the log the table of open spans and the finished spans are those of the pairing |
| `FaultTheorems.PairingExact` | main/fault_history.cpp:72-123 | the walk reports exactly the declared pairing (next close of the site in the boot, else the boot's last time, else active only in the current boot) if and only if at most 16 sites are ever open at once |
| `FaultExamples.SeventeenthIsMissed` | main/fault_history.cpp:102-107 | a log of 17 faults whose last declared span is not reported |
| `FaultTheorems.SpansDoNotOverlap` | main/fault_history.cpp:72-123 | with ascending times a span of a site has ended when the next one starts |
| `FaultBuilder.EmitAllNewest` | main/fault_history.cpp:25-39 | every span in the window is counted, as many as fit are kept, and none dropped starts later than one kept |
| `FaultBuilder.Builder.Emit` | main/fault_history.cpp:25-39 | one span: filter, append, or evict the oldest |
| `FaultBuilder.SortByStart` | main/fault_history.cpp:125-131 | in-place insertion sort: ascending starts and a permutation |
| `FaultHistory.HandleEvent` | main/fault_history.cpp:101-115 | one event opens, closes or neither, in the table and in the output |
| `FaultHistory.Scan` | main/fault_history.cpp:85-123 | the whole walk over the arrays collects exactly the specified spans |
| `FaultHistory.PairSpans` | main/fault_history.cpp:72-134 | the query: total of the spans in the window, the newest `cap` of them ascending by start, nothing beyond written; zero without room |
| `FaultQueries.ReportedOnce` | main/fault_history.cpp:72-123 | no opening event is reported twice, whatever the log |
| `FaultQueries.CountedAreDeclared` | main/fault_history.cpp:25-39 | the counted intervals are exactly those of the declared spans that overlap the window, with the opener's time and site and the span's end |
| `FaultBuilder.CountedIffOnInWindow` | main/fault_history.cpp:25-27 | a span is counted, neither it nor the window ending before it starts, exactly if some instant of the window lies in it; end zero is unbounded |
| `FaultConditions.OpenIffOn` | main/fault_history.cpp:43-70 | after every prefix of the log a span is open for a site exactly if its fault, its defrost or freeze protection is on, replayed from the log; for freeze protection on logs whose mode changes chain |
| `EventRing.Ring.Record` | main/event_log.cpp:149-186 | appends the event, dropping the oldest of 1000; ids skip zero; unknown kinds are ignored |
| `EventRing.Ring.Get` | main/event_log.cpp:282-300 | copies the page, newest first, and nothing else |
| `EventRing.Ring.TimeSynced` | main/event_log.cpp:314-348 | fills in the times of this boot's untimed events and counts a revision exactly if there was one |
| `EventRing.Ring.Clear` | main/event_log.cpp:350-361 | empties the log and keeps the id counter |
| `EventTheorems.RingIsNewest` | main/event_log.cpp:149-186 | over every run the ring holds the newest 1000 items of the log without a limit |
| `EventTheorems.RetainedIdsDistinct` | main/event_log.cpp:166-168 | retained ids are non-zero and distinct however often the counter wraps, gaps allowed |
| `EventTheorems.ConsecutiveIdsOk` | main/event_log.cpp:105-147 | consecutive restored ids meet what that needs |
| `EventTheorems.PagesJoin` | main/event_log.cpp:282-300 | successive pages of any sizes give the log without gap or repeat |
| `EventTheorems.WholePageReversed` | main/fault_history.cpp:187-194 | one full page reversed is the log oldest first |
| `EventTheorems.SyncChangesOnlyUntimed` | main/event_log.cpp:325-335 | a sync changes only the time of untimed entries of this boot |
| `EventTheorems.SyncKeepsOrder` | main/event_log.cpp:325-335 | two filled entries keep their uptime order if and only if the 32-bit time does not wrap between them |
| `EventTheorems.SyncOrderCanFail` | main/event_log.cpp:334 | two entries whose order is lost |
| `EventTheorems.BackfillIsTrueTime` | main/event_log.cpp:41-45 | the time filled in is the one the event would have been recorded with, had the clock been set: its own second, or none before 2024 |
| `EventTheorems.SyncSettles` | main/event_log.cpp:325-335 | a sync leaves to be filled in only events of the second at which the 32-bit time is zero |
| `SensorSettings.Merge` | main/ext_temp_sensors.cpp:1131-1157 | the settings an edit saves and whether readings must be reset |
| `SensorSettings.RunConsistent` | main/ext_temp_sensors.cpp:778-823 | every interleaving of worker, service, edits, failed saves and restarts keeps flash and memory accounted for |
| `SensorSettings.FlashKeepsUp` | main/ext_temp_sensors.cpp:1108-1174 | whenever the save mutex is free, flash equals memory or a save is pending |
| `SensorSettings.ServiceSettles` | main/ext_temp_sensors.cpp:1108-1122 | a service call without failure leaves flash equal to memory and nothing pending |
| `SensorSettings.UneditedKeepsAll` | main/ext_temp_sensors.cpp:1131-1157 | saving the current settings unedited changes and resets nothing |
| `SensorSettings.MergeKeepsLearned` | main/ext_temp_sensors.cpp:1131-1152 | the identity every merged sensor ends with, Modbus or BACnet: the learned one exactly when unedited with the same source |
| `SensorSettings.ResetIffDiffers` | main/ext_temp_sensors.cpp:1153-1156 | readings are reset exactly if a sensor changes in anything but its device's name |
| `SensorSettings.EditOutcome` | main/ext_temp_sensors.cpp:1124-1168 | an undisturbed edit ends with the merged settings in memory and flash, or with both as they were if its save fails |
| `SensorSettings.PublishedIsSaved` | main/ext_temp_sensors.cpp:1159-1168 | in every run, when an edit is published memory and flash are both what was saved |
| `SensorSettings.RunLearned` | main/ext_temp_sensors.cpp:778-823 | in every run an id about to be recorded is for a sensor without one, and settings being saved hold no id memory lacks |
| `SensorSettings.StoredIdSurvives` | main/ext_temp_sensors.cpp:1124-1168 | what becomes of an id stored at any moment of any run when the current holder's call ends: it outlives the call if and only if that is no edit, its save fails, or it had not merged and leaves the sensor unedited on its source; moved to BACnet, the sensor has the id the edit gave |
| `SensorSettings.LearnedIdCanBeLost` | main/ext_temp_sensors.cpp:1158-1168 | a run from start-up that learns an id and ends without it |
| `ServerLifecycle.WebServer.Start` | main/api_server.cpp:575-615 | start: refused after shutdown, idempotent, tears down leftovers and partial starts |
| `ServerLifecycle.WebServer.StartLocked` | main/api_server.cpp:937-1094 | the start proper for every pattern of failures |
| `ServerLifecycle.WebServer.Stop` | main/api_server.cpp:1938-1961 | everything down |
| `ServerLifecycle.WebServer.EnsureRunning` | main/api_server.cpp:1994-2032 | repair: restart all, or only the missing secondary server |
| `ServerLifecycle.WebServer.DisableHttps` | main/api_server.cpp:2114-2125 | latches HTTPS off and stops a running 443 |
| `ServerLifecycle.WebServer.ShutDown` | main/api_server.cpp:1979-1987 | latches the shutdown and stops everything |
| `ServerLifecycle.AlwaysSound` | main/api_server.cpp:937-1094 | over every call sequence and failure pattern: 443 up coincides with HTTPS active and implies HTTPS mode; started means the UI is served; nothing up after shutdown |
| `ServerLifecycle.SuccessMeansRunning` | main/api_server.cpp:575-615 | a start or repair that returns true leaves the UI running |
| `ServerLifecycle.EnsureKeepsUi` | main/api_server.cpp:1994-2032 | a repair never stops or replaces a running UI server |
| `ServerLifecycle.LatchesHold` | main/api_server.cpp:1979-1992 | both latches survive any further calls |
| `ServerLifecycle.NothingAfterShutdown` | main/api_server.cpp:1979-1992 | nothing runs again after a shutdown |
| `ServerLifecycle.HttpsStaysDisabled` | main/api_server.cpp:2114-2125 | 443 never returns once HTTPS is disabled |
| `ServerLifecycle.RepairSucceeds` | main/api_server.cpp:1994-2032 | from any state not shut down, a repair with working platform calls restores full health |
| `ServerLifecycle.StartBringsUp` | main/api_server.cpp:937-1094 | from any reachable state that is down: when a start succeeds, exactly which servers it brings up, on 443 exactly if a certificate is installed, loads and starts there and HTTPS is not disabled, and nothing up on failure |
| `ServerLifecycle.RepairBringsUp` | main/api_server.cpp:1994-2032 | a repair of a running UI keeps what is up and brings up exactly what is missing and can start |
| `ServerLifecycle.DisablingFallsBack` | main/api_server.cpp:2114-2125 | disabling HTTPS keeps a UI on 80 as it is, and the next repair brings one from 443 up on 80 |
| `SessionTable.Sessions.constructor` | main/auth_manager.cpp:262-287 | start-up loads the saved sessions in order, or none from an oversized blob |
| `SessionTable.Sessions.Save` | main/auth_manager.cpp:236-260 | flash gets exactly the active pairs, or keeps the old blob |
| `SessionTable.Sessions.FindFree` | main/auth_manager.cpp:307-331 | the first empty slot, else a least recently used one, evicted |
| `SessionTable.Sessions.Login` | main/auth_manager.cpp:498-562 | a new session takes that slot and is saved |
| `SessionTable.Sessions.Validate` | main/auth_manager.cpp:564-582 | unknown, expired (removed and saved) or valid (use noted) |
| `SessionTable.Sessions.Logout` | main/auth_manager.cpp:584-593 | the session is removed and the table saved |
| `SessionTable.Sessions.LogoutAll` | main/auth_manager.cpp:595-603 | all sessions are removed and an empty list saved |
| `SessionTable.LoadThenSave` | main/auth_manager.cpp:236-287 | loading a blob and saving gives the blob back |
| `SessionRuns.AcceptedWasIssued` | main/auth_manager.cpp:564-582 | whatever saves fail, an accepted token was issued by a login at most 30 days ago |
| `SessionRuns.AcceptedExactly` | main/auth_manager.cpp:498-603 | if no restart follows a failed save, a token is accepted if and only if issued within 30 days and not removed since |
| `SessionRuns.RestartKeepsSessions` | main/auth_manager.cpp:236-287 | a restart after a successful save keeps exactly the active hashes and creation times |
| `SessionRuns.RestartAcceptsFlash` | main/auth_manager.cpp:262-287 | in general a restart accepts exactly what flash holds |
| `SessionRuns.EvictsLeastRecent` | main/auth_manager.cpp:307-331 | a login evicts only when all 4 slots are in use, and then a least recently used session |
| `SessionRuns.EvictsLongestUnused` | main/auth_manager.cpp:307-331 | in every run the session a login evicts was last used, by its login or an accepted check, no later than any other |
| `SessionRuns.FailedSaveUndoesLogout` | main/auth_manager.cpp:234-260 | a logged-out session returns after a failed save and a restart |

## Left out

- HTTP handlers, JSON, chunked responses, mDNS, TLS setup, route registration, OTA and all screens: input and output plumbing.
- `PowerAverager` and `PerfAverager` in main/energy_ledger.h, the averages shown on the charts: each is one running sum that a call takes and clears, and no other component depends on them.
- `EnergyLedger.EnergyLedger.Add`: thermal power excludes the most negative 32-bit value, whose negation the firmware leaves undefined.
- `LedgerRuns.RunConserves`: counters are unbounded; `LedgerWidths.CountersFit` says how long the firmware's fields hold them.
- `EnergyStore.EnergyStore.CommitDay`: checksums and unreadable blobs are not modelled; a blob is present and valid or absent.
- `EnergyOrder.ForwardRunsAreInOrder`: its condition is sufficient, not necessary; `EnergySystem.SystemTotalsExact` needs none.
- `EnergyCheckpoints.PassBoundsLoss`: defrost heat and the outdoor temperature sums are signed, so they are not among the counters that only grow.
- `StoreReads.RangeReadExact`: read errors other than a missing blob are not modelled.
- `BacnetWriter.BuildReadProperty`: what a failed builder leaves in the buffer below the capacity is not stated.
- `BacnetRoundTrip.ReadPropertyAckBack`: what a ReadProperty reply that cannot be read leaves in the caller's value is not modelled.
- `BacnetTags.AppValueBack`: application Boolean has no encoder and is outside the round trip; REAL is its 32-bit pattern.
- Who-Is requests, routed NPDUs and segmentation: unused or unsupported.
- `HaInvariants.RunKeepsInv`: the mutexes exist (their creation failing answers every control request with an error); command ids, operations and payloads fit their buffers, which the handlers check before.
- `HaTheorems.AcknowledgedNotRepeated`: the cache lives in memory, so the window ends at a restart.
- `EventRing.Ring.Record`: the journal behind the ring and what it restores are opaque; the restored ids are assumed to trail the counter.
- `SensorSettings.RunConsistent`: a save is atomic, while the firmware writes two blobs under one commit (main/perf_settings.cpp:458-476); readings, outage tracking and status are not modelled.
- `ServerLifecycle.WebServer.StartLocked`: a URI that cannot be registered aborts the firmware and is not modelled; the recorded error causes are left out.
- `SessionRuns.AcceptedExactly`: a credential change is one step with its logout; first-boot defaults, which ignore saved sessions, and the login cooldown are left out.
- `add_unattributed`, the one-time migration of an older daily total: one addition to the open day.
- Test-only hooks such as `replace_totals`, seeding and failure injection: not part of production runs.
