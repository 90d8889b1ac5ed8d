# A verified model of the ESP_AVB control and arithmetic engines

This project models, in Dafny 4.11, the parts of the ESP_AVB stack that decide
things: who is served and by which transport, what is promised to whom, what is
kept in flash, and how clocks and sample rates are steered. Packet plumbing is
left out. Limits (fan-out, table rows, streams, channels, budgets) are symbolic,
so the proofs are not about two streams and ten rows.

`dafny verify dfyconfig.toml` checks everything.

## The models

- **AVB Lite transport scheduler** (`LitePlan`, `LiteLedger`, `LiteScan`,
  `LitePublish`, `LiteState`, `LiteInvariant`, `LiteFairness`, `LiteCharter`,
  `LiteScheduler`, `LiteRuns`).
  One pass ages listeners out, forms each stream's line by first-ask ticket,
  escalates to multicast or comes back, releases and admits copies under 75% of
  the link, and publishes, starts, stops and declares. `Scheduler.Valid` is what
  every pass, every MSRP or ACMP event in between, every declaration and every
  entry to or exit from AVB Lite keeps. The ledger theory is independent of the
  loops: what the release leaves is *the* longest oldest-first run of copies
  within the budget, and the repeated "earliest that fits" scan is *one* pass
  over the waiting copies in ticket order. `LiteCharter` says what one pass owes
  one stream by its rows before and after alone, without the planner's or the
  publisher's own functions. `LiteRuns` follows one listener through a whole run
  of passes and events.
- **Address mailbox** (`Seqlock`). Publisher and reader interleave octet by
  octet, in any order between barriers.
- **Snapshot writer** (`SnapshotWriter`, `SnapshotLoss`). Two tasks interleave at
  every access to the marks and to every cell of the snapshot.
- **Stream journal** (`JournalKey`, `Journal`, `JournalRoom`). An append-only log
  in a flash store refines a map, through compactions and reboots, exactly if the
  store has fewer entries than there are sequence numbers.
- **Sample-rate converter** (`ConverterPosition`, `Converter`, `ConverterLaws`,
  `ConverterFilter`). Q32 position bookkeeping, a double-written ring, a dry-run
  planner, and a polyphase filter that is the exact convolution to within one step
  of the 24 bits sent.
- **Credit-based shaper** (`Shaper`), after section 8.6.8.2 of IEEE 802.1Q-2018.
- **Listener declaration** (`ListenerDeclaration`). A recursive decision that
  equals one greedy pass.
- **ACMP talker table and stream identity** (`StreamIdentity`, `TalkerLog`,
  `TalkerTable`, `TalkerRuns`), after section 8.2 of IEEE 1722.1-2021. A ghost log
  of commands, answers, ageing, changes, withdrawals, declarations and restarts
  obeys a law that every method keeps; the theorems are about lawful logs, hence
  about every run of connections, disconnections, MSRP events, declarations,
  format changes, AVB Lite entries and exits, AVB Lite ageing and restarts.
- **Unsolicited-notification registry** (`RegistryLog`, `Registry`,
  `RegistrySweeps`, `RegistryRounds`, `RegistryTwins`), after sections 5.4.2.21 and 5.4.5 of Milan v1.3. Again a
  lawful log: it fixes the order of the list, which entry a reply is credited to,
  the sequence ID of every check, and from when on a controller may be checked.
- **Dynamic audio mappings** (`AudioMappings`), after sections 7.4.45 and 7.4.46
  of IEEE 1722.1-2021.
- **Media-clock PLL** (`PllControl`, `Pll`). The tick with its gates, holds,
  slews and corrections; theorems about runs of ticks.

`Basics` and `Bandwidth` hold what several models share.

## What turned out false, and exactly when it holds

- Persisted snapshots: the mark is cleared before the flash write, so a write
  that fails loses the update, unless it would have changed nothing
  (`SnapshotWriter.WriteDecidesWhetherSaved`; a run that ends so, for any two
  snapshots that differ: `SnapshotLoss.FailedWriteLosesTheUpdate`).
- Journal sequence numbers are 24 bits: an append that finds room is read back
  if and only if its number did not wrap or the record was already there
  (`Journal.AppendReadBackExactly`). Over whole runs the journal stands for what
  was appended if and only if the store has fewer than 2^24 entries
  (`JournalRoom.RefinesMapExactly`; the run that wraps:
  `JournalRoom.WrapLosesAnAppend`). A key is one the code wrote if and only if its
  digits are lower-case hex; `strtoul` accepts more (`JournalKey.FormatParse`;
  such a key: `JournalKey.SpacedKeyParses`).
- Shaper: a backlogged class sends what it earned, less one MTU, over every run
  if and only if no tick may earn more than one MTU and one unit of credit
  (`Shaper.DeliversExactly`; a run one unit beyond that falls short:
  `Shaper.OneUnitTooLong`); the ceiling cuts nothing, from every backlogged state,
  under the same condition (`Shaper.NothingCutExactly`). A negative slope, which
  the setter accepts, is the only way below creditMin (`Shaper.FloorHoldsExactly`);
  the present callers (mrp.c:4455, mrp.c:4471) pass an admitted bandwidth, which
  is never negative.
- Talker answers: what CONNECT_TX answered remains the stream's until a command
  from that entity if and only if every new format, every entry to or exit from
  AVB Lite, every restart and, once the listener's row was aged out or lost in a
  restart, every change says what the answer said (`TalkerLog.AnswersStayCurrentExactly`). Three runs in which one
  does not: a new format on a connected stream that does not stream yet
  (`TalkerRuns.NewFormatOvertakesAnswer`), entering AVB Lite
  (`TalkerRuns.NewModeOvertakesAnswer`), and another entity's connection after
  AVB Lite aged out a connected row (`TalkerRuns.AgedAnswerIsOvertaken`).
- Departed controllers: no reply came that matched the checks, whatever happened,
  if and only if no wait may outlast the 65536 sequence IDs or the list has room
  for one controller only (`RegistryTwins.DepartedInSilenceExactly`). Otherwise a
  later address of an entity can wait under an ID until the counter gives it to an
  earlier one, and the reply is the earlier one's. `RegistryTwins.ReplyGoesAstray`
  makes that run through the list, at any size from two up: while the later address
  waits, newcomers are refused and the earlier address answers its checks, 65536
  times over. Nothing in the code but the time this takes, at most two reply waits,
  stands against it.
- Converter: the four-frame clamp fires for some steeper rate and never for a
  followable one (`ConverterPosition.ClampNeverFiresExactly`).
- Stream IDs: the generations of one stream differ if and only if its number is
  below 64 (`StreamIdentity.GenerationsDifferExactly`); the present configuration
  has two output streams, numbers 0 and 1. Retirement times start at zero, so no
  ID can be renewed during the first 32 s of uptime
  (`StreamIdentity.NoRenewalRightAfterBoot`). Withdrawn IDs rest for 32 s over
  every restart if and only if they are not the one the stream boots with, which
  is declared at once (`TalkerLog.RestsOverRestartsExactly`; such a run:
  `TalkerRuns.BootIdComesBackAtOnce`).
- AVB Lite: entering the mode declares the zero address at once, over frames
  that still go multicast exactly if some stream was running multicast
  (`Scheduler.EnterLite`; such a run: `LiteRuns.EntryOverMulticast`); in every
  other case zero is declared only when the frames are unicast or stopped.
- PLL: a correction interval of 0 is documented as a fixed clock; it fixes the
  clock if and only if the reference is not the internal one
  (`Servo.ClockIsFixedExactly`).

## Where the code and its documentation disagree

The code is followed in each case.

- avb.h:1093-1097 says the dirty timestamp is cleared with the dirty mark; the
  task never clears it.
- avbfqtss.c cites Annex L for the shaper; the algorithm is that of section
  8.6.8.2 of IEEE 802.1Q-2018.
- Kconfig.projbuild:729-746 says an interval of 0 never retunes the clock;
  avbpll.c:1067-1069 stretches it to two minutes for the internal reference.

## Model

| member | source | states |
|---|---|---|
| `LitePlan.AgeOut` | avb.c:593-617 | A row seen within 16 s is still there as it was, a row never stamped starts its clock, a row idle longer is gone, the survivors keep their order, and nobody idle is left |
| `LitePlan.AgedKeepsTheSeen` | avb.c:593-617 | By where each survivor stood: kept, in order, are exactly those never stamped and those seen within 16 s |
| `LitePlan.Insert` | avb.c:648-652 | The shifting insertion puts a row behind everyone with an earlier ticket: the line stays strictly ascending and gains exactly that row |
| `LitePlan.Queue` | avb.c:628-654 | Every candidate holds a ticket, an old one for as long as it goes on asking, a new one later than all given out; others lose theirs; the order is the strictly ascending permutation of the candidates |
| `LitePlan.Escalate` | avb.c:660-676 | The multicast address is declared at once, frames follow no sooner than JoinTime after, and both come back together |
| `LitePlan.ClearPlaces` | avb.c:678-687 | Exactly the flags from a place in line on are cleared |
| `LitePlan.PlanStream` | avb.c:586-688 | What planning one stream leaves: aged rows, line, transport and which of the old places in the budget survive |
| `LiteScan.Committed` | avb.c:705-721 | The nested sum is the bandwidth of the copies that hold a place |
| `LiteScan.FindNewest` | avb.c:722-745 | The nested scan finds the held copy with the latest ticket, or there is none held |
| `LiteScan.FindEarliest` | avb.c:755-782 | The nested scan finds, of the waiting copies that still fit, the one with the earliest ticket, or none fits |
| `LiteLedger.TotalAfter` | avb.c:753-790 | Giving or taking one place changes the total by exactly that copy's bandwidth, so committed_bps stays the sum |
| `LiteLedger.ReleaseNewest` | avb.c:746-753 | Dropping the newest copy is the same as keeping only the older ones |
| `LiteLedger.ReleasedIsUnique` | avb.c:721-754 | Budget and tickets leave one possible result: the longest oldest-first run of copies within the budget |
| `LiteLedger.SkipToFirstFitting` | avb.c:755-782 | One pass over the waiting copies in ticket order goes straight to the first that fits |
| `LiteLedger.PassGoesOn` | avb.c:755-791 | Each pick of the repeated scan is the next admission of the single pass; what it skipped never fits later |
| `LiteLedger.PassEnds` | avb.c:783-784 | When the scan finds nothing, the book is what the single first-fit pass makes of it |
| `LiteScheduler.Scheduler.SetPlace` | avb.c:749-752 | Setting a row's or a stream's flag sets that one copy in the book and nothing else |
| `LiteScheduler.Scheduler.ReleaseNewest` | avb.c:721-754 | Over budget, exactly the shortest newest-first suffix that restores the budget is released, with committed_bps equal to the sum at the loop head |
| `LiteScheduler.Scheduler.AdmitWaiting` | avb.c:755-791 | The repeated scan equals one first-fit pass over waiting copies in ascending ticket order, stays within the budget, and nothing left waiting fits |
| `LiteScheduler.Scheduler.AdmitCopies` | avb.c:702-792 | One admission pass over all streams ends within 75% of the link, the two phases being as described |
| `LitePublish.AnswerAll` | avb.c:870-899 | Everyone in line gets the refusal or service its place calls for; a refusal that ends keeps the place for 3 s |
| `LitePublish.RefusedExactly` | avb.c:876-891 | A listener is refused, with a code, exactly if its place in line calls for that code |
| `LitePublish.ServedExactly` | avb.c:895-898 | The addresses gathered are exactly those of ready listeners inside the fan-out that hold a place |
| `LitePublish.PublishStream` | avb.c:900-938 | Mailbox, start, stop and retry after a pass; published before a start and otherwise only on change |
| `LitePublish.MailboxOfARunningStream` | avb.c:866-938 | A running unicast stream's mailbox lists exactly its ready admitted listeners inside the fan-out, a running multicast stream's is empty |
| `LiteCharter.PlaceInOrder` | avb.c:643-651 | A row stands in line where as many rows with earlier tickets stand before it |
| `LiteCharter.RowPaid` | avb.c:628-900 | Each surviving row: a ticket for life exactly if it asks, is refused or keeps its place; refused exactly without a place in the budget, or beyond the fan-out where no escalation is allowed; a withdrawn refusal keeps the place 3 s |
| `LiteCharter.TransportPaid` | avb.c:657-688 | Multicast is declared exactly while more rows ask than the fan-out, frames follow JoinTime later, and places are held only inside the fan-out of a unicast stream |
| `LiteCharter.RefusalsPaid` | avb.c:868-890 | The refusals sent are those of the refused rows, in line order, with insufficient bridge resources beyond the fan-out and insufficient bandwidth otherwise |
| `LiteCharter.ServicePaid` | avb.c:893-932 | A stream runs while it serves somebody, tries to start once a second, and its addresses are those of the asking rows with a place, in line order |
| `LiteCharter.PassPays` | avb.c:586-950 | Planned, admitted and published, a stream has been paid all of this |
| `LiteCharter.NobodyIsIdle` | avb.c:604-617 | After a pass nobody idle is left to be sent to |
| `LiteInvariant.HeldShrinks` | avb.c:678-687 | Planning takes places away and gives none |
| `LiteInvariant.DisturbedKeeps` | mrp.c:1560-1712 | MSRP and ACMP events between passes, which leave a row's AVB Lite state alone, keep what a pass established |
| `LiteInvariant.DeclarationsKeep` | avb.c:940-948 | The declarations of a pass never show zero over multicast frames, and record when each multicast address was first declared |
| `LiteInvariant.ThroughThePass` | avb.c:821-949 | One stream through planning, admission and publication keeps every per-stream invariant |
| `LiteState.NeverFurtherBack` | avb.c:647-652 | In strictly ascending lines, someone behind nobody new is no further back |
| `LiteState.PlannedStaysDisjoint` | avb.c:645-646 | Planning one stream leaves tickets distinct across all streams |
| `LiteFairness.LinesAdvance` | avb.c:628-654 | A listener that keeps asking never moves back in line, and nobody new is put before it |
| `LiteFairness.PlanCommitsNoMore` | avb.c:678-720 | While no copy grows, planning commits no more than the pass before closed with |
| `LiteFairness.AdmittedStaysAdmitted` | avb.c:678-754 | While what is planned keeps within the budget, an admitted listener that stands in line and whose stream is unicast stays admitted |
| `LiteScheduler.Scheduler.Update` | avb.c:804-950 | One whole pass keeps the invariant of every reachable state, pays every stream what `LiteCharter` says it owes (ageing, tickets, transport, refusals, service, nobody idle left), and delivers all of the above: budget of 750 kbit/s per Mbit/s of link, first-fit, mailboxes, declarations, nobody overtaken, and, while the link does not shrink and no copy grows, every admitted listener of a unicast stream still admitted |
| `LiteScheduler.Scheduler.Redeclare` | avb.c:501-524 | A periodic declaration shows zero only when the stream is stopped or publishes unicast addresses |
| `LiteScheduler.Scheduler.EnterLite` | avb.c:204-226 | Entering AVB Lite declares zero over multicast frames exactly if some stream ran multicast |
| `LiteScheduler.Scheduler.PassOutside` | avb.c:821-938 | Outside AVB Lite every mailbox is emptied, so frames go to the multicast address |
| `LiteScheduler.Scheduler.LeaveLite` | avb.c:204-209 | Leaving AVB Lite clears the transport flags and keeps the invariant |
| `LiteScheduler.Scheduler.MulticastOnlyAfterJoinTime` | avb.c:661-676 | In every reachable state frames go multicast only if the multicast address was declared at least JoinTime earlier and ever since |
| `LiteScheduler.Scheduler.OneKindOfCopyHoldsPlaces` | avb.c:678-687 | In every reachable state a stream's unicast and multicast copies never both hold a place |
| `LiteRuns.Pass` | avb.c:804-950 | A pass keeps admitted listeners of unicast streams, in a run of moments |
| `LiteRuns.Disturbance` | mrp.c:1560-1712 | An MSRP or ACMP event between passes is a step of the same run |
| `LiteRuns.AdmittedForGood` | avb.c:678-754 | Over any run of passes and events in which the link does not shrink, no copy grows and the listener stands in line for a unicast stream, an admitted listener stays admitted |
| `LiteRuns.EntryOverMulticast` | avb.c:204-226 | A run that declares zero over multicast frames on entering AVB Lite |
| `Seqlock.SnapshotIsOnePublishedValue` | avb.h:1444-1460 | In every interleaving a returned snapshot equals one count and list that was the published value at some moment of the reader's call |
| `Seqlock.QuietAttemptReturns` | avb.h:1448-1459 | An attempt the publisher leaves undisturbed returns |
| `Seqlock.WriterStepKeepsWriterInv` | avb.c:794-802 | The counter is odd exactly while a write is in progress, and even again only over a whole value |
| `SnapshotWriter.SettledMeansSaved` | avb.c:3507-3597 | In every interleaving, with no mark left and both tasks between operations, flash holds the latest gathered snapshot if its write succeeded |
| `SnapshotWriter.WriteDecidesWhetherSaved` | avb.c:3589-3594 | A failed write loses the update exactly if it would have changed flash |
| `SnapshotLoss.FailedWriteLosesTheUpdate` | avb.c:3589-3594 | A run, for any two snapshots that differ, that settles with the older one in flash after a failed write |
| `SnapshotWriter.UntakenEagerStaysEager` | avb.c:3507-3528 | An eager request not yet captured is marked dirty, never lazy, and aged from no later than itself |
| `SnapshotWriter.OverdueEagerPassesTheGates` | avb.c:3577-3587 | Streaming cannot hold back an eager request past the forced-flush age |
| `SnapshotWriter.WritesWaitForQuiet` | avb.c:3566-3588 | A write begins only while no audio streams, or for a mark that was eager at the gate and is as old as the forced flush |
| `JournalKey.ParseFormat` | avb.c:2713-2732 | A formatted key parses to the stream and number it was made from |
| `JournalKey.FormatParse` | avb.c:2713-2732 | A key that parses is the formatted one exactly if its digits are lower-case hex |
| `JournalKey.SpacedKeyParses` | avb.c:2718-2732 | A key the code never writes that is read as a record |
| `Journal.Flash.Scan` | avb.c:2781-2807 | The newest record of every stream is found, in whatever order the store lists its keys |
| `Journal.Flash.EraseJournal` | avb.c:2809-2836 | Every journal key goes and no other |
| `Journal.Flash.Rewrite` | avb.c:2838-2858 | The survivors are written back under fresh numbers, inputs first |
| `Journal.RewriteFits` | avb.c:2838-2858 | A rewrite never needs more room than the erase freed |
| `Journal.CompactionPreservesMap` | avb.c:2768-2866 | Compaction preserves every stream's record and renumbers from one |
| `Journal.RewrittenSizeExactly` | avb.c:2809-2858 | A compaction leaves what is not the journal's and exactly one record of each stream that has one |
| `Journal.Flash.Append` | avb.c:2868-2911 | An append fails only when a compaction leaves no room, sets its stream's record or none, and leaves what is not the journal's alone |
| `Journal.AppendSetsOneKey` | avb.c:2868-2911 | A successful append sets its stream's record and no other; a failed one changes none |
| `Journal.AppendSucceedsExactly` | avb.c:2868-2911 | An append of a numbered journal succeeds exactly while the store has room for one entry beyond what is not the journal's and one record of each stream that has one: a full store is compacted and the append tried again |
| `Journal.AppendSparesOthers` | avb.c:2868-2911 | An append, compaction included, leaves entries that are not the journal's as they were |
| `Journal.SetTakesEffectExactly` | avb.c:2881-2885 | A record is read back exactly if its number is the newest of its stream and not zero |
| `Journal.AppendReadBackExactly` | avb.c:2881-2885 | With room, an append is read back exactly if its 24-bit number did not wrap or the record was there |
| `Journal.Flash.Boot` | avb.c:3084-3158 | Replay returns the last record appended per stream, then the journal is compacted |
| `Journal.JournalRefinesMap` | avb.c:2768-3158 | Over every run of appends, compactions and reboots the journal stands for exactly the map of what was appended |
| `Journal.ShortRunsAreNumbered` | avb.c:2838-2839 | Runs with fewer than 2^24 appends between reboots, less one boot's worth, never run out of numbers |
| `JournalRoom.SmallStoreRefinesMap` | avb.c:2768-3158 | With fewer entries than numbers the journal refines a map over every run, however long and however rarely it boots |
| `JournalRoom.WrapLosesAnAppend` | avb.c:2881-2885 | With more entries than that, the 2^24th append since boot is written and not read back |
| `JournalRoom.RefinesMapExactly` | avb.c:2768-3158 | The journal stands for what was appended, over every run, exactly if the store has fewer entries than there are numbers |
| `ConverterPosition.NextStep` | avbsrc.c:118-141 | A walk under way goes on; else a whole frame of debt starts one, else an extra frame, of 4096 steps; the debt is held within four frames |
| `ConverterPosition.Advance` | avbsrc.c:144-148 | The inputs one output takes and the fraction after it |
| `ConverterPosition.PlanInputs` | avbsrc.c:152-159 | The dry run counts the inputs without touching the converter |
| `ConverterPosition.OutputConserves` | avbsrc.c:118-148 | One output changes inputs, position and debts by exactly 2^32 + rate, but for what the clamp cuts |
| `ConverterPosition.Conservation` | avbsrc.c:118-148 | Over any run inputs, fraction, walk, debt and extra frames grow by exactly 2^32 + rate per output while the clamp does not fire, and the fraction is 0 whenever no walk runs |
| `ConverterPosition.FollowableRun` | avbsrc.c:118-140 | At rates walks can follow the clamp never fires |
| `ConverterPosition.ClampNeverFiresExactly` | avbsrc.c:118-124 | The clamp never fires, for every number of outputs, exactly at rates a walk can follow |
| `ConverterPosition.TracksWithinThreeFrames` | avbsrc.c:118-148 | With no extra frames owed, consumption from a zeroed start stays within three frames of outputs plus the summed rate, for ever |
| `ConverterPosition.FollowableTrims` | avbsrc.h:82-85 | Every trim up to 244 ppm gives a rate walks can follow |
| `ConverterPosition.Split` | avbsrc.c:152-159 | A fixed-rate plan may be cut anywhere |
| `Converter.WrittenTurns` | avbsrc.c:97-101 | Writing an instant at both copies of one place turns the window by one: the oldest gives way to the new |
| `Converter.Src.Push` | avbsrc.c:89-102 | The window at hist_pos is the previous one, moved on by one instant |
| `Converter.Src.Prime` | avbsrc.c:104-114 | After priming the window is the primed frames in order and the position is on an input |
| `Converter.Src.Owe` | avbsrc.c:150-150 | Extra frames are owed on top of the ratio, nothing else changes |
| `Converter.Src.Run` | avbsrc.c:167-227 | The run makes the frames and leaves the state its specification says, of which the laws of `ConverterLaws` and `ConverterFilter` hold |
| `ConverterLaws.RunTakesWhatWasPlanned` | avbsrc.c:152-181 | A run consumes what the dry run counted and ends in the position it computed |
| `ConverterLaws.PlannedFramesSuffice` | avbsrc.c:179-181 | Given exactly the planned frames, what lies beyond them makes no difference: no silence is pushed |
| `ConverterLaws.MissingFramesAreSilent` | avbsrc.c:89-102 | A run that lacks frames goes on as if as many frames of zeros came |
| `ConverterLaws.PlannerAgrees` | avbsrc.c:152-181 | Planner and run agree on inputs consumed and on the position |
| `ConverterLaws.CallsCompose` | avbsrc.c:167-227 | At a fixed rate n+m outputs in one call equal n then m in two, in output and in state |
| `ConverterLaws.WindowIsNewest` | avbsrc.c:89-114 | After priming the window is always the newest 16 inputs in order |
| `ConverterLaws.ExcessIsNetWalks` | avbsrc.c:118-148 | Between walks, inputs beyond one per output count exactly the net completed walks |
| `ConverterLaws.WalksAreCounted` | avbsrc.c:174-178 | The walk counter goes up exactly at the outputs that begin a walk |
| `ConverterLaws.SampleComesBack` | avbsrc.c:184-225 | A 24-bit sample that meets no filter leaves with the octets it came with and a zero pad |
| `ConverterLaws.DelayLaw` | avbsrc.c:167-227 | An idle output m is the frame m + 8 + net completed walks, bit for bit |
| `ConverterFilter.SampleIsSigned24` | avbsrc.c:89-96 | A sample is the slot's three octets, most significant first, as a signed number in the high bits of a word |
| `ConverterFilter.SlotIsNearest` | avbsrc.c:213-225 | An accumulator goes out as the nearest 24-bit number, a tie upward, clipped, with a zero pad |
| `ConverterFilter.CoefficientInterpolates` | avbsrc.c:189-206 | A coefficient is the table's own on a phase; between two it falls short of the interpolated one by less than 2 |
| `ConverterFilter.FilteredFallsShort` | avbsrc.c:197-209 | The filter falls short of the sum of coefficients times samples by less than 16 |
| `ConverterFilter.FilteredIsConvolved` | avbsrc.c:189-209 | With both roundings the filter is within 2 units per tap of the exact convolution with the interpolated table |
| `ConverterFilter.FilterLaw` | avbsrc.c:167-227 | Every output made while a walk is under way is, in every slot of the call, the exact convolution of the sixteen newest frames heard with the table interpolated at its fraction, to within one step of 24 bits or clipped; its other slots are zero |
| `Shaper.ClassState.CreditAdvance` | avbfqtss.c:88-98 | Credit earned in a tick is slope times time over 31250, rounded toward zero, cut at creditMax |
| `Shaper.ClassState.TrySendOne` | avbfqtss.c:104-126 | One frame leaves if one waits and credit allows, and is paid for |
| `Shaper.ClassState.Tick` | avbfqtss.c:128-143 | After a tick the class is empty or in debt |
| `Shaper.ClassState.Enqueue` | avbfqtss.c:202-233 | A frame of 1 to 1518 octets is taken behind all others while there is a slope, memory and room; refused with the code's own reasons in its order |
| `Shaper.ClassState.SetIdleSlope` | avbfqtss.c:235-251 | A slope is set unless it exceeds a known link rate, and then nothing changes |
| `Shaper.SendNeverClamps` | avbfqtss.c:119-124 | The creditMin clamp never fires |
| `Shaper.FramesLeaveInOrder` | avbfqtss.c:104-126 | Frames leave in acceptance order, none lost and none twice, at whatever slopes, negative ones too |
| `Shaper.CreditIsConserved` | avbfqtss.c:88-126 | Octets sent are paid for by credit to the last 1/256 octet |
| `Shaper.NeverExceedsReservation` | avbfqtss.c:88-143 | Over any run bytes sent are at most the reservation and two MTUs |
| `Shaper.DeliversReservation` | avbfqtss.c:88-143 | While backlogged and with no tick earning more than one MTU and one unit of credit, bytes sent are more than the credit earned less one MTU |
| `Shaper.NothingCutExactly` | avbfqtss.c:93-97 | A tick loses no credit, from every backlogged state, exactly if it earns at most one MTU and one unit |
| `Shaper.OneUnitTooLong` | avbfqtss.c:88-143 | A backlogged run with one tick a unit longer that sends one MTU less than it earned |
| `Shaper.DeliversExactly` | avbfqtss.c:88-143 | The lower bound holds over every backlogged run exactly if no tick may earn more than one MTU and one unit |
| `Shaper.DrainLeavesBacklog` | avbfqtss.c:136-143 | A tick leaves a class empty or backlogged, never in between |
| `Shaper.LongTicksFallShort` | avbfqtss.c:93-97 | One tick sends at most two MTUs, so one that reserves more falls short from every state |
| `Shaper.FloorHoldsExactly` | avbfqtss.c:93-97 | Credit stays at or above creditMin exactly when a tick does not earn a negative amount |
| `ListenerDeclaration.DeclEvent` | avb.c:1590-1631 | The recursive decision for one input is that input's in one greedy pass, and the recursion terminates; Ready takes a connected input whose talker is advertised and not failed, and in AVB Lite room within 75% of the link |
| `ListenerDeclaration.PassIsTheOnlySolution` | avb.c:1601-1617 | Only one list of declarations satisfies every input's own rule, and it is the greedy pass |
| `ListenerDeclaration.LowerInputsKeepTheirPlace` | avb.c:1584-1589 | An input's declaration does not depend on higher-numbered ones |
| `ListenerDeclaration.ReadyWithinBudgetExactly` | avb.c:1601-1618 | Ready inputs stay within 75% of the link, and one is refused exactly if it would exceed it |
| `ListenerDeclaration.DeclaredFavoursLowerInputs` | avb.c:1587-1589 | Any other choice within the budget turns a lower-numbered input away first |
| `ListenerDeclaration.SumFitsSixtyFourBits` | avb.c:328-334 | The bandwidth sum fits 64 bits for up to 65536 inputs and any TSpec the wire can carry |
| `StreamIdentity.StreamsNeverShareIds` | avb.c:428-431 | IDs of different streams differ, whatever their generations |
| `StreamIdentity.GenerationsDifferExactly` | avb.c:3600-3605 | The generations of a stream have different IDs exactly if its number is below 64 |
| `StreamIdentity.RenewableExactly` | avb.c:453-463 | A renewal finds an ID exactly if some other generation has rested 32 s and is held by nobody |
| `StreamIdentity.NextIsFirstRested` | avb.c:453-468 | A stream moves to the first generation after its own, going round, that has rested 32 s and is held by nobody |
| `StreamIdentity.NoRenewalRightAfterBoot` | avb.c:456-463 | In the first 32 s of uptime no ID is renewed |
| `TalkerLog.AnswersStayCurrent` | atdecc.c:4735-4882 | Over every run the ID, class and VLAN answered to a listener remain the stream's until a command from that entity, a class that comes with a new format, a VLAN that comes with entering or leaving AVB Lite, the AVB Lite ageing of its row, or a restart |
| `TalkerLog.AnswersStayCurrentExactly` | atdecc.c:4735-4882 | Until its entity commands again an answer stays the stream's own exactly if every new format's class, every new mode's VLAN, every restart and, once the row was aged out or lost, every change says the same |
| `TalkerLog.AnsweredIdStays` | avb.c:443-497 | The answered stream ID remains the stream's until a command from that entity, the ageing of its row or a restart, whatever formats and modes come |
| `TalkerLog.WithdrawnIdsRest` | avb.c:443-497 | Over every run a stream ID withdrawn by a renewal is not declared again by that stream until 32 s have passed; with restarts in between, not in the first 32 s after the last one, unless it is the boot ID |
| `TalkerLog.RestsOverRestartsExactly` | avb.c:1454-1459 | Withdrawn IDs rest over every restart exactly if they are not the ID the stream boots with |
| `TalkerTable.TalkerStream.FindByIdentity` | atdecc.c:4621-4633 | The first row with that identity |
| `TalkerTable.TalkerStream.FindByEntity` | atdecc.c:4635-4645 | The first row with that entity |
| `TalkerTable.TalkerStream.FindSolePending` | atdecc.c:4680-4693 | The one ready row without a connection, none if there are several |
| `TalkerTable.TalkerStream.FindOrAdd` | atdecc.c:4661-4710 | A listener takes its own row, its entity's unconnected row, the sole pending row, a new row, or none when full, in that order |
| `TalkerTable.ConnectKeepsDistinct` | atdecc.c:4661-4710 | Distinct row identities stay distinct through a connection, renewal included |
| `TalkerTable.PlacedIsSeated` | atdecc.c:4661-4710 | A listener's row is its own, else the first of its entity unless connected, else the only pending one, else a new one at the end |
| `TalkerTable.TalkerStream.RenewId` | avb.c:443-497 | The stream moves to a rested ID exactly if it is stopped, nobody else is connected and such an ID exists; MSRP-only rows then go and the others are no longer ready |
| `TalkerTable.RenewalKeepsTheConnected` | avb.c:473-486 | A renewal keeps, in order, exactly the connected rows, their readiness forgotten |
| `TalkerTable.TalkerStream.Declare` | avb.c:501-524 | A declaration, under a new ID if a change would otherwise wait |
| `TalkerTable.TalkerStream.PeriodicDeclare` | avb.c:1740-1765 | A periodic declaration, like the one after a new sampling rate, changes nothing for a connected listener; what it logs, when the ID moves and to which |
| `TalkerTable.TalkerStream.SetFormat` | atdecc.c:3338-3375 | SET_STREAM_FORMAT: refused while streaming; a format of another frame interval brings its class and that class's VLAN whoever is connected, and the ID moves only if nobody is, to the first that has rested |
| `TalkerTable.TalkerStream.SwitchMode` | avb.c:167-226 | Entering or leaving AVB Lite rewrites the VLAN and nothing else, and declares on entry only |
| `TalkerTable.TalkerStream.AgeOut` | avb.c:593-617 | In AVB Lite a row idle for more than 16 s goes even when connected, and is recorded exactly if it was; a row seen in time stays as it was, one never stamped starts its clock, in their order |
| `TalkerTable.TalkerStream.ChooseClass` | atdecc.c:4774-4812 | A sole listener gets Class B on Wi-Fi, else the class of the stream's format, else the one it asks for; any other gets the class in use |
| `TalkerTable.DepartsExactly` | avb.c:599-617 | Ageing voids a listener's answer exactly if a connected row of its own is idle |
| `TalkerTable.TalkerStream.Reboot` | avb.c:1443-1464 | A restart: the boot ID, no listeners, retirement times zero; the log says so |
| `TalkerTable.TalkerStream.Connect` | atdecc.c:4712-4882 | CONNECT_TX: refusals; a sole listener gets Class B on Wi-Fi, else the format's class, else the one it asks for, any other the class in use; the VLAN of a new class, and the ID moved with it to the first that has rested; the row placed, an answer that is the stream's current state, and exactly what it logs and retires |
| `TalkerTable.TalkerStream.Disconnect` | atdecc.c:4735-4764 | DISCONNECT_TX: exactly one row of that entity goes, other listeners stay connected, an emptied stream stops |
| `TalkerRuns.NewFormatOvertakesAnswer` | atdecc.c:3365-3373 | A run: a connected listener, a new format, another class and VLAN than it was answered |
| `TalkerRuns.NewModeOvertakesAnswer` | avb.c:204-226 | A run: a connected listener, AVB Lite is entered, another VLAN than it was answered |
| `TalkerRuns.AgedAnswerIsOvertaken` | avb.c:599-617 | A run: a connected row is aged out and another entity chooses another class |
| `TalkerRuns.BootIdComesBackAtOnce` | avb.c:1454-1459 | A run: the boot ID is withdrawn, and declared again at uptime 0 after a restart |
| `RegistryLog.DepartedOnlyAfterTwoChecks` | atdecc_unsol.c:149-277 | A controller is removed as departed only after two checks with one sequence ID, each given its whole reply wait, with no command from it since the first; a matching reply, if one came, was credited to an address of its entity entered before it and waiting under the same ID |
| `RegistryLog.TwinsNeedAWrap` | atdecc_unsol.c:162-163 | Two addresses of an entity wait under one sequence ID only if all 65536 IDs were given out while one of them waited |
| `RegistryLog.DepartedInSilence` | atdecc_unsol.c:234-277 | While no earlier address of the entity waits under the same ID, a departed controller sent no matching reply |
| `RegistryLog.ChecksAreSpaced` | atdecc_unsol.c:176-277 | A controller is checked no sooner than 30 s after it was last heard of, unless a newcomer to a full list was refused since |
| `RegistryTwins.ReplyGoesAstray` | atdecc_unsol.c:184-277 | A run of the list, of any size from two up, in which a controller is taken for departed although a matching reply came |
| `RegistryTwins.DepartedInSilenceExactly` | atdecc_unsol.c:149-277 | Departed controllers sent no matching reply, in every log, exactly if no wait may outlast the 65536 sequence IDs or the list has room for one only |
| `RegistryLog.NotificationsRunWithoutGaps` | atdecc_unsol.c:92-113 | Notification sequence IDs per kind run without gaps through re-registration |
| `RegistryLog.LapsedOnlyWhenOverdue` | atdecc_unsol.c:252-252 | Only a time-limited registration lapses, 300 s after it was last made |
| `Registry.List.Find` | atdecc_unsol.c:65-74 | The entry with that entity and address, or it is not registered |
| `Registry.List.Notify` | atdecc_unsol.c:115-127 | A notification of up to 600 octets goes to every controller but the requester's, with its own next sequence ID, and to nobody else; a longer one to nobody |
| `Registry.List.Register` | atdecc_unsol.c:184-212 | A registration gets 300 s, a check due after the delay and none under way, and keeps its sequence IDs, or is added at the end; when the list is full every idle controller becomes due for a check |
| `Registry.List.Deregister` | atdecc_unsol.c:214-221 | The entry is gone, the others stay in order |
| `Registry.List.Heard` | atdecc_unsol.c:225-230 | A command restarts its controller's check timer and ends its wait, and changes nobody else |
| `Registry.List.Replied` | atdecc_unsol.c:234-245 | A reply restarts the timer of the first entry that waits for it, or of nobody if none does |
| `Registry.List.SendCheck` | atdecc_unsol.c:149-174 | A check is counted and waited for; the first takes the counter's next ID, a retry keeps it |
| `Registry.List.Tick` | atdecc_unsol.c:249-277 | Every entry has one turn: exactly those over their time limit, and under Milan those whose second check is overdue, are told and gone; of the others those due are checked, a retry under the same ID; nothing else is said and nobody left is overdue |
| `Registry.SweepKeepsTheCurrent` | atdecc_unsol.c:249-277 | By where each entry that stays stood: who stays, in order, who is checked, and who is told and removed |
| `Registry.SweepSaysNothingElse` | atdecc_unsol.c:249-277 | Every message of a tick is the farewell of one that leaves or the check of one that is due |
| `Registry.TellingsTellAllBut` | atdecc_unsol.c:115-127 | A notification tells everybody but the requester's entity, or its one address, and nobody twice over |
| `Registry.SweepLeavesNobodyDue` | atdecc_unsol.c:249-277 | After a tick nobody is due: removals made it skip no one |
| `Registry.SweepLosesNobody` | atdecc_unsol.c:249-277 | A tick keeps or removes each entry, and none twice |
| `AudioMappings.InputPort.Collect` | atdecc.c:2948-2985 | Entries are accepted exactly if all are valid and agree, and are read into the map they would leave |
| `AudioMappings.InputPort.Command` | atdecc.c:2926-3049 | All or none: carried out exactly if it names the input port, at most 62 entries, each of stream 0, cluster 0 and channels that exist, no channel twice in an add and only mappings that are there in a remove; the other statuses, the new map, the announced removals in channel order and the echo |
| `AudioMappings.OnlyTheSetMatters` | atdecc.c:2956-2985 | The order and repetition of entries make no difference to whether they agree and to the map they leave; repetition does count against the entry limit |
| `AudioMappings.ReplicaFollowsAdd` | atdecc.c:2995-3022 | The announced removals followed by the echoed add turn a replica of the old map into the new one |
| `AudioMappings.ReplicaFollowsRemove` | atdecc.c:2979-2984 | The echoed remove turns a replica of the old map into the new one |
| `AudioMappings.RemoveUndoesAddExactly` | atdecc.c:2965-2984 | What an add put in can be removed; that restores the map exactly if the add replaced nothing |
| `AudioMappings.ReplacedIsNoLarger` | atdecc.c:3005-3010 | The announcement has room for every replaced mapping |
| `PllControl.PpmIsTheRateError` | avbpll.c:769-780 | The reading is the byte error relative to what was expected, to a unit |
| `PllControl.ExpectedIsTheByterate` | avbpll.c:769-776 | The bytes expected are the byte rate times the time gone by, to a byte, at 288000 B/s if the rate is not told |
| `PllControl.MovesAreSmall` | avbpll.c:1218-1302 | A tick moves the applied value by at most 4 ppm, 0.5 ppm within 10 ppm, and never past the target, which mid-slew changes only by being cancelled |
| `PllControl.SlewsLand` | avbpll.c:1238-1302 | A slew that is not cancelled lands after as many accepted moves as it needs |
| `PllControl.SlewsLandInCleanTicks` | avbpll.c:1236-1302 | When tuning succeeds a slew lands in no more clean ticks than it needs moves, unless one cancels it or breaks the hold |
| `PllControl.SlewsAreBounded` | avbpll.c:1281-1288 | No slew inside the clamp needs more moves than half the clamp in ppm and twenty |
| `PllControl.RunsStayInTheClamp` | avbpll.c:1479-1484 | In every run applied value and target never leave the clamp |
| `PllControl.CorrectionShrinksTheError` | avbpll.c:1447-1478 | On a clock with a fixed offset a correction shrinks the error and never overshoots while the integrator holds at most half of it |
| `PllControl.AgreeingIntegratorGathers` | avbpll.c:1424-1430 | An integrator that agrees with the error gathers a 32nd of it, up to 50 ppm |
| `PllControl.StepIsHalfOrWhole` | avbpll.c:1445-1466 | A small error is taken by half, one beyond four steps whole, with the integrator on top |
| `PllControl.AgreeingIntegratorOpposesError` | avbpll.c:1447-1472 | A correction with an agreeing integrator always opposes the error |
| `PllControl.DisagreeingIntegratorBleeds` | avbpll.c:1431-1442 | An integrator that disagrees with the error loses a quarter at every correction |
| `Pll.Servo.PreloadTrim` | avbpll.c:886-909 | A persisted trim is clamped, applied if the hardware takes it, and held |
| `Pll.Servo.ReferenceGate` | avbpll.c:989-1046 | A tick goes on only under the same valid reference; a hold survives a returning one only if its trim was found against it |
| `Pll.Servo.TakeSample` | avbpll.c:1089-1139 | First sample, gap of more than 20 s and start-up skips: when measuring starts over and what is cancelled |
| `Pll.Servo.HoldBreaker` | avbpll.c:1155-1197 | A hold breaks exactly when its third one-minute window in a row lies beyond 30 ppm on one side |
| `Pll.Servo.SanityCheck` | avbpll.c:1215-1230 | A reading beyond reason cancels the slew in flight and the integrator |
| `Pll.Servo.Slew` | avbpll.c:1236-1302 | One bounded move, or a cut on the second tick in a row beyond the equilibrium |
| `Pll.Servo.Refine` | avbpll.c:1304-1386 | A held trim moves by at most 5 ppm from the real rate, over two minutes of fresh readings averaging at least 1 ppm |
| `Pll.Servo.CloseAcquisition` | avbpll.c:1388-1414 | When a time-boxed acquisition becomes a hold |
| `Pll.Servo.Correct` | avbpll.c:1416-1503 | When and by how much a measured error becomes a new target |
| `Pll.Servo.CheckTrim` | avbpll.c:1505-1530 | Every ten minutes at rest a stable, converged trim is held and persisted |
| `Pll.Servo.Steer` | avbpll.c:1140-1534 | The window since the baseline is weighed for reason and corrected by; a slew is cut by it under an internal reference and by the last tick's window otherwise; measurement starts over exactly where a target is given up or landed on |
| `Pll.Servo.ClockIsFixedExactly` | avbpll.c:1060-1073 | An interval of 0 fixes the clock exactly while the reference is not the internal one |
| `Pll.Servo.Tick` | avbpll.c:943-1534 | One tick keeps the bounds and is a legal step of the control law; a correction is by the reading since the baseline, at the mode's step, deadband and interval, and made exactly when due and not held; a clean tick cancels beyond reason, cuts a slew on its second overshoot in a row by the mode's window, and otherwise moves; a hold ends only for a new reference, another sensor or three far windows, and each of these ends it |

## Left out

- Stream start and stop, MRP declare, withdraw and forget, sends and clock tuning are nondeterministic: their results are parameters.
- Descriptor and response builders, name, get and set handlers, locale strings and wire packing: long but shallow.
- FreeRTOS, I2S, I2C, Ethernet and Wi-Fi registers, and logging with its hysteresis flags (the admission-refused and rail-telemetry flags only decide what is logged).
- NVS internals: the store is a map with a capacity; errors other than a full store, commits, the record-length check and power loss during compaction are not modelled, nor is the journal's deferral tick.
- The floating-point construction of the converter's coefficient table: the table is given. Overflow of the 32-bit accumulators, which depends on the table, is not modelled.
- The Wi-Fi unicast branch of the transport pass and its BSSID cache.
- Wrap-around of the 32-bit mailbox counter and of the 32-bit ask counter: both are natural numbers.
- 64-bit overflow in the PLL's rate computation, which byte rate times elapsed nanoseconds reaches after hours without a new baseline; samples are assumed at least a millisecond apart, or equal, at a byte rate of at least 1000, so that the expected byte count is not zero.
- Reading the PLL's byte counters and stream phase: a tick is given the pair, no reading, or a change of sensor.
- MSRP's own changes of listener rows: between commands and passes rows may come, go and change, but connected rows stay connected until DISCONNECT_TX or AVB Lite's ageing, and a row's AVB Lite state is touched by the pass alone.
- Frames still in flight on the other core after a stream was stopped.
- The class the journal gives a stream at boot, and the persisting of it.
- TalkerTable.TalkerStream.SetFormat: whether the format is supported and the sampling rate may change is one given flag, and the class of a format is given.
- LiteScheduler.Scheduler.EnterLite: every stream is declared; the code skips them when the device is not configured as a talker, and skips one whose stream ID is zero (avb.c:214-221).
- ListenerDeclaration.DeclEvent: that a Talker Advertise is registered and that its TSpec is known are one fact.
- Restarts of the registry: its log is that of one uptime; a restart empties the list.
- LiteScheduler.Scheduler.Disturb: what MSRP and ACMP do to rows between passes is a relation, not their handlers.
- LiteScheduler.Scheduler.PlanAll: escalation is allowed or not as one given flag, which stands for the configuration bit, a wired port and an acquired multicast address.
- TalkerTable.TalkerStream.MsrpEvents: any table that keeps the connected rows connected.
- TalkerTable.TalkerStream.constructor: stream numbers below 64 only (the repository has two), the condition under which generations differ.
- ListenerDeclaration.DeclEvent: inputs beyond the configured number, which no caller asks about, are not modelled.
