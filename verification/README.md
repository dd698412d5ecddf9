# Verified models of the Mu2e CFO run plan and ROC flash programming

Three parts of the Mu2e DAQ front ends are modelled here and their main promises are proved for all inputs, all runs and
all interleavings.

**The shared run plan of the CFO** (`ModeBits` to `FixedWidthPlan`). A subsystem that wants beam-off events, calibration
pulses or the like asks for "M events in every N". The CFO front end turns all such requests into one small program of
nested loops (AND and OR on a 48-bit mode register, HEARTBEAT, MARKER, INC_TAG) that the CFO executes forever while the
front end rewrites it in place. The model has the program generator in the form of the source (loops that append
instructions), an interpreter of the program, and theorems about every run: which events carry a bit, when joining and
leaving disturb nobody else, that the two-pass rewrite is safe whatever the processor does meanwhile and exact afterwards,
and when a single-shot join shows exactly the requested number of events.

**The remote flash programmer** (`FlashTags` to `FlashSession`, `ReadBackTruth`, `Crc32`, `FlashCrc`, `Sha256`,
`FlashFile`). A session erases, writes and verifies 64 kB segments on several ROCs in lock-step over a link it shares with
others, drops ROCs that fail, and activates verified images. `FlashSession.Session` follows the source method by method;
every access of the link lets the world behind it go on (the processor of the ROC, called MiV, executes what it has
accepted; replies come late, get lost or are taken by others).

**Two bounded handshakes**: the configure transition of the CFO (`ConfigurePhases`) and the flash actions of a single ROC
under its action lock (`RocAction`).

## How to read it

| component | modules, from the ground up |
|---|---|
| shared run plan | `ModeBits`, `RunPlanMachine`, `SharedPlan`, `DutyRatio`, `PlanGenerator`, `PlanControl`, `BitRun`, `DutyCycle`, `JoinLeave`, `LiveRewrite`, `Neighbours`, `SingleShot`, `WrittenPlan`, `ShotRun`, `SingleShotJoin`, `ShotNeighbours`, `ChunkBoundary`, `ShotJoinExact`, `FixedWidthPlan` |
| flash programmer | `Basics`, `FlashTags`, `FlashWorld`, `FlashWire`, `FlashImage`, `FlashLedger`, `FlashSteps`, `FlashProgress`, `Activation`, `FlashOutcome`; `FlashEvidence`, `FlashProbe`, `FlashExcuse`, `FlashUpload`, `FlashIap`, `FlashReport`; `FlashSession`; `ReadBackTruth`; `Crc32`, `WordBits`, `FlashCrc`, `Sha256Words`, `Sha256`, `Sha256Example`, `FlashFile` |
| handshakes | `ConfigurePhases`, `RocAction` |

Masks are sets of bit positions. The standard N values are any list in which each value divides the next (`Ladder`); the
list of the source is one (`StandardIsLadder`). `Place` is a position in the loop nest, `At` says that the processor is at
a place and has counted so many events since LABEL.

The session keeps, for each ROC, a ghost `Known`: the range its flash may change in, the part below `lo` that has been
verified and never changes again, the reply it waits for, the erase, write and IAP commands written, and the number of the
last tagged one. `World()` says that all this is true of the world behind the link; every method keeps it, on every path
including exceptions, which are modelled as a result `thrown`. Error texts are left out, so an error map becomes a set of
ROCs. The collections of ROCs are sets: the order in which ROCs are served within a step is left open, and each ROC is
listed once.

Commands are identified by a number that never repeats; what goes over the wire is its 16-bit tag (`WireTag`). DONE is
stale: it stays set from the moment a command is written until the MiV takes it up, for every MiV. What is verified by
read-back therefore rests on the order of execution alone: an answer to a read comes after every change commanded before
it. What order cannot exclude is recorded, not assumed away: the world of a ROC is `Mixed` once a read was written while
an earlier command was still to be answered or a reply was in the FIFO (`crossed`), or another user was answered while a
read was awaited (`disturbed`). Untagged read-back is claimed to hold for ROCs that are not `Mixed`; a ROC with a new MiV
never is. The session can tell most of it itself: it notes whether an answer to its last read is still `due`, and a ROC is
in `doubt` once a read was sent while one was; an older MiV that is not in `doubt` was mixed up only if another user was
answered (`EndInOrder`).

A ghost `log` holds every access of every link, with its time and result: the timers started, the registers and blocks
read with the FIFO behind them, the commands in the words sent. What a method reports about a ROC is tied to its part of
the log (`FlashEvidence` to `FlashReport`), in plain numbers and in both directions where the source decides: a reply is
good or there is a reason against it, a try fails or succeeds, and `Run` ends with an explanation of every ROC
(`AllExplained`). The ROC actions are tied to the words they send and to the looks they make in the same way.

## Assumptions about the environment

Flash programmer:

- nobody but the session changes the flash, and the MiV changes it only inside the footprint of the erase or write it
  executes; what it leaves there is arbitrary;
- an older MiV asked to erase `size` bytes erases `size / 64k + 2` blocks;
- the MiV executes accepted commands in order; replies may be late, lost or read away by other users, but what is read
  successfully is faithful;
- the other users wait while the session holds the DCS lock, and a reply to one of them does not start with the tag the
  session awaits from this ROC;
- a tagged command is answered before 65535 more tags have been given out (then its tag comes up again, `TagsRepeat`), or
  not at all;
- at the start no command of anybody is pending on the ROCs.

Run plan: `LOOP n` runs its body n times, OR_SINGLESHOT fires once and then reads back as 0, a HEARTBEAT sends the mode
register, instruction overwrites are whole. Reading the plan back is modelled as collecting the AND and OR operands in
program order.

ROC actions: commands are executed in order, and DONE is low while one runs.

## What was found

- A coarse join (N > 100) after a leave delivers no event at all: leaving clears the bit in the AND of fine slot 0 and the
  coarse join never restores it (`RejoinCoarseIsSilent`). `JoinDeliversExactly` gives the exact condition on the masks
  found in the hardware under which a join delivers its pattern.
- A fixed-width launch with `enable = false`, or refused because of its mode, because its duration has no unit ("1700") or
  because its plan cannot be written or compiled, still advances the next starting tag, so the following launch leaves a
  gap. `TagsContiguous` is an if and only if.
- A request such as 250:100 passes the ratio checks and means always on.
- The DONE handshake of the ROC actions proves completion exactly if the processor was idle when the command was sent
  (`HandshakeTellsIffIdle`). An action that gave up on a timeout frees the lock while the processor may still be busy; the
  next action can then take the end of the old command for its own. A dead link reads as DONE (0xffff), and erase, which
  reads no status, returns normally on it (`DeadLinkPasses`); the contracts therefore except runs in which DONE was read as 0xffff.
- In `activate` the last link reset may happen in the same look that gives the ROC up.
- A single-shot join can show more events than requested. After a coarse chunk the source waits for a tag advance of 2N;
  then all N events are out, but the AND that closes the loop may still be to come, with the bit on. If the next chunk is
  a coarse one of a lower level, its preparation pass may rewrite that AND in time to keep the bit, and a whole pulse of
  the next chunk goes out in addition: 1400 events instead of 1200 (`TwelveHundredBecomeFourteen`). `RequestIsExact` says
  for which requests this cannot happen: duty below 100 %, or a count K with K mod N < 200, where N is the largest of 200,
  1000, 2000 and so on that is not above K (any count below 200 is fine). An advance of more than 2N would always be
  enough (`ChunksShowTotal`), and `SafeExactly` says when a preparation is safe.
- A join or leave of one subsystem overwrites the armed single shots of the others with 0 (`JoinSparesExactly`).
- The read-back of an older MiV can accept a segment that is not in the flash: its answers carry no tag, and an idle DONE
  with an empty FIFO does not exclude that an earlier read is still to be answered (`RetriedReadMisleads`,
  `ReadTellsExactly`).

## Model

| member | source | states |
|---|---|---|
| `ModeBits.LeaveCoversJoin` | otsdaq-mu2e/FEInterfaces/CFOFrontEndInterfaceImpl.cc:6281-6284 | a leave of the same bit range removes every bit a join with any value sets |
| `ModeBits.NamedSubsystemBit` | otsdaq-mu2e/FEInterfaces/CFOFrontEndInterface.h:153-161 | a subsystem named by one bit sets and clears exactly that bit |
| `ModeBits.SetBitAt` | otsdaq-mu2e/FEInterfaces/CFOFrontEndInterfaceImpl.cc:6281-6284 | bit b of the pattern a join sets is bit b - start of the value, for its low bits and as far as they fit into 64; a leave clears the whole range |
| `SharedPlan.StandardIsLadder` | otsdaq-mu2e/FEInterfaces/CFOFrontEndInterface.h:152 | each standard N value divides the next one |
| `SharedPlan.PlansShareSkeleton` | otsdaq-mu2e/FEInterfaces/CFOFrontEndInterfaceImpl.cc:6261-6408 | all shared plans have the same opcodes at the same addresses, whatever the masks |
| `DutyRatio.GetRatioOfOnPerEvents` | otsdaq-mu2e/FEInterfaces/CFOFrontEndInterfaceImpl.cc:6163-6225 | the result resolves the ratio: N is the least standard value with floor(r*N) > 0 and M that floor, or 1 for N > 100; 1:10^9 if none qualifies |
| `DutyRatio.MnFixRatio` | otsdaq-mu2e/FEInterfaces/CFOFrontEndInterfaceImpl.cc:6078-6160 | a ratio is refused exactly if it is not acceptable; otherwise the result is usable, and it is the request itself or its resolution, so the final checks never fire on a resolved ratio |
| `DutyRatio.ResolvedAccuracy` | otsdaq-mu2e/FEInterfaces/CFOFrontEndInterfaceImpl.cc:6163-6225 | with the standard values, N = 100 gives M/100 <= r < (M+1)/100, a larger N gives M = 1 and r/10 < 1/N <= r |
| `PlanGenerator.Emit` | otsdaq-mu2e/FEInterfaces/CFOFrontEndInterfaceImpl.cc:6286-6408 | the nested emission loops produce the plan of the operands, instruction by instruction |
| `PlanGenerator.GeneratePeriodicOn` | otsdaq-mu2e/FEInterfaces/CFOFrontEndInterfaceImpl.cc:6234-6428 | refuses exactly bad ratios and wrong vector sizes; otherwise emits the plan of the joined operands for the resolved duty |
| `PlanGenerator.GeneratePeriodicOff` | otsdaq-mu2e/FEInterfaces/CFOFrontEndInterfaceImpl.cc:6431-6604 | emits the plan with the bits removed from every OR and from every AND of a fine slot |
| `WrittenPlan.SlotLiesAt` | otsdaq-mu2e/FEInterfaces/CFOFrontEndInterfaceImpl.cc:6346-6390 | in every emitted plan fine slot i lies at address 2 + 3 * levels + 7 * i: AND, OR, single shot, HEARTBEAT, MARKER, WAIT of the event duration, INC_TAG |
| `WrittenPlan.HeadLiesAt` | otsdaq-mu2e/FEInterfaces/CFOFrontEndInterfaceImpl.cc:6289-6317 | a coarse level opens with its single shot, its OR and a LOOP of v[l] / v[l-1] passes, the outermost first |
| `WrittenPlan.EndLiesAt` | otsdaq-mu2e/FEInterfaces/CFOFrontEndInterfaceImpl.cc:6391-6408 | behind the fine slots lies one AND, then DO_LOOP and an AND for each level, the innermost first |
| `WrittenPlan.WantedFromOffset` | otsdaq-mu2e/FEInterfaces/CFOFrontEndInterfaceImpl.cc:6336-6341 | with N up to the fine loop, event offset + j * N + k with k < N is wanted if and only if k < M, for every j |
| `WrittenPlan.WantedCoarse` | otsdaq-mu2e/FEInterfaces/CFOFrontEndInterfaceImpl.cc:6306-6317 | with a larger N, event j * N + k with k < N is wanted if and only if k is 0 |
| `WrittenPlan.JoinWritesSlot` | otsdaq-mu2e/FEInterfaces/CFOFrontEndInterfaceImpl.cc:6318-6390 | what a join pass leaves in the k-th slot from the offset on, in masks: kept and set if k mod N < M, cleared otherwise, no single shot, the WAIT as before |
| `WrittenPlan.JoinWritesCoarse` | otsdaq-mu2e/FEInterfaces/CFOFrontEndInterfaceImpl.cc:6289-6390 | with a coarse ratio slot 0 stays, the other slots clear the bits, and the OR in front of the loop of N events, and no other, sets them |
| `WrittenPlan.LeaveWrites` | otsdaq-mu2e/FEInterfaces/CFOFrontEndInterfaceImpl.cc:6500-6604 | a leave takes the bits out of every OR and every AND of a slot and keeps them at every AND behind the slots |
| `WrittenPlan.DummyWrites` | otsdaq-mu2e/FEInterfaces/CFOFrontEndInterfaceImpl.cc:6431-6604 | without a plan in the hardware a leave writes slots that clear the bits and nothing else |
| `PlanControl.PlanIsSkeletal` | otsdaq-mu2e/FEInterfaces/CFOFrontEndInterfaceImpl.cc:6286-6408 | every plan has the loop skeleton that the control theorem needs |
| `PlanControl.ControlStep` | otsdaq-mu2e/FEInterfaces/CFOFrontEndInterfaceImpl.cc:6286-6408 | control of the loop nest: each step goes to the next place and event, the loop counters are the digits of the event number over the divisor chain, tags count on |
| `PlanControl.EventsKeepComing` | otsdaq-mu2e/FEInterfaces/CFOFrontEndInterfaceImpl.cc:6286-6408 | liveness: from every reachable state any number of further events is sent |
| `PlanControl.OnePassEmits` | otsdaq-mu2e/FEInterfaces/CFOFrontEndInterfaceImpl.cc:6286-6408 | from one arrival at the head of the outermost loop to the next jump back, the plan emits exactly as many events as that loop counts, with consecutive tags |
| `BitRun.ClaimHolds` | otsdaq-mu2e/FEInterfaces/CFOFrontEndInterfaceImpl.cc:6289-6408 | one bit at a time, from any place of a running plan and any mode register: a claim grounded in the operands (on in these slots, at every Nth event, never) is true of every event once the one or two in progress are over |
| `DutyCycle.JoinDeliversExactly` | otsdaq-mu2e/FEInterfaces/CFOFrontEndInterfaceImpl.cc:6281-6408 | the plan a join leaves behind puts the bit on exactly at the wanted events, from wherever the running plan is and with any mode register, if and only if the masks found in the hardware do not disturb the pattern (coarse: the AND of slot 0 keeps the bit and no finer OR sets it) |
| `DutyCycle.OwedSoon` | otsdaq-mu2e/FEInterfaces/CFOFrontEndInterfaceImpl.cc:6281-6408 | the pattern is owed from at most the second event on, with a fine one from the first, and at once in a plan just started |
| `DutyCycle.MInEveryN` | otsdaq-mu2e/FEInterfaces/CFOFrontEndInterfaceImpl.cc:6318-6345 | of any N consecutive event numbers exactly M are wanted, across loop boundaries and for every offset |
| `DutyCycle.MInEveryNSent` | otsdaq-mu2e/FEInterfaces/CFOFrontEndInterfaceImpl.cc:6318-6408 | of any N consecutive events that a delivering plan sends, exactly M carry the bit |
| `JoinLeave.CollectInvertsPlan` | otsdaq-mu2e/FEInterfaces/CFOFrontEndInterfaceImpl.cc:6640-6790 | round trip: collecting AND and OR operands of a plan in program order returns the mask vectors in the layout the generator consumes |
| `JoinLeave.RegenerateReproduces` | otsdaq-mu2e/FEInterfaces/CFOFrontEndInterfaceImpl.cc:6261-6408 | regenerating from collected operands without new bits reproduces the plan |
| `JoinLeave.JoinSparesOthers` | otsdaq-mu2e/FEInterfaces/CFOFrontEndInterfaceImpl.cc:5289-5342 | the plan of either join pass, single shots written as 0, gives every other bit without a waiting single shot the heartbeat trace it had, from any processor state |
| `JoinLeave.LeaveSparesOthers` | otsdaq-mu2e/FEInterfaces/CFOFrontEndInterfaceImpl.cc:6431-6604 | the plan of a leave gives every other bit without a waiting single shot the heartbeat trace it had, from any processor state |
| `Neighbours.JoinSparesOthersLive` | otsdaq-mu2e/FEInterfaces/CFOFrontEndInterfaceImpl.cc:5289-5342 | the same while both passes are written instruction by instruction, in any order and any interleaving with the processor |
| `Neighbours.LeaveSparesOthersLive` | otsdaq-mu2e/FEInterfaces/CFOFrontEndInterfaceImpl.cc:6431-6604 | the same for the pass of a leave |
| `Neighbours.JoinSparesExactly` | otsdaq-mu2e/FEInterfaces/CFOFrontEndInterfaceImpl.cc:5303-5338 | a join makes no difference to another bit if and only if no single shot of it is waiting: the passes overwrite an armed shot with 0 |
| `JoinLeave.LeaveSilences` | otsdaq-mu2e/FEInterfaces/CFOFrontEndInterfaceImpl.cc:6500-6604 | after a leave no event carries a removed bit, except possibly the one whose slot had passed its AND |
| `JoinLeave.RejoinFineDelivers` | otsdaq-mu2e/FEInterfaces/CFOFrontEndInterfaceImpl.cc:6318-6345 | leave, then join with N <= 100: exactly the wanted events, from wherever the running plan is |
| `JoinLeave.RejoinCoarseIsSilent` | otsdaq-mu2e/FEInterfaces/CFOFrontEndInterfaceImpl.cc:6515-6519 | leave, then join with N > 100: from wherever the running plan is no event carries the bit any more |
| `LiveRewrite.TwoPassJoinIsSafe` | otsdaq-mu2e/FEInterfaces/CFOFrontEndInterfaceImpl.cc:5289-5342 | under every interleaving of single-instruction overwrites and execution steps, AND pass then OR pass, the new bit goes out with wanted events only |
| `LiveRewrite.LiveJoinIsExact` | otsdaq-mu2e/FEInterfaces/CFOFrontEndInterfaceImpl.cc:5289-5342 | and once the second pass is complete, the bit goes out with exactly the wanted events after the one in progress, if the masks found do not disturb the pattern |
| `SingleShot.ActiveSlots` | otsdaq-mu2e/FEInterfaces/CFOFrontEndInterfaceImpl.cc:5505-5518 | the slots are, in ascending order, exactly those the duty cycle sets |
| `SingleShot.Decompose` | otsdaq-mu2e/FEInterfaces/CFOFrontEndInterfaceImpl.cc:5531-5588 | the schedule is the greedy one: at full duty the largest coarse loop that fits what remains, again and again, then fine chunks of at most the active slots |
| `SingleShot.GreedyFits` | otsdaq-mu2e/FEInterfaces/CFOFrontEndInterfaceImpl.cc:5531-5588 | the greedy schedule sums to the count, its coarse chunks are whole loops at full duty only, its fine chunks fit one pass, and its levels descend |
| `SingleShot.GreedyIsLevel` | otsdaq-mu2e/FEInterfaces/CFOFrontEndInterfaceImpl.cc:5531-5588 | the greedy schedule never steps down between coarse levels if and only if the duty is not full or the count leaves less than the smallest coarse loop when divided by the largest one that fits |
| `SingleShot.ChunkBits` | otsdaq-mu2e/FEInterfaces/CFOFrontEndInterfaceImpl.cc:5597-5680 | the masks of a chunk at one bit of the subsystem: a coarse chunk keeps it at every AND but the closing one of its loop, a fine one at none; armed, only the chunk's own single shots set it |
| `WrittenPlan.ChunkWrites` | otsdaq-mu2e/FEInterfaces/CFOFrontEndInterfaceImpl.cc:5597-5680 | what a chunk leaves in each slot, at the head and at the end of each level: every OR and WAIT as found, the bits cleared or kept at the ANDs, only its own single shots armed |
| `ShotNeighbours.ChunkSparesOthers` | otsdaq-mu2e/FEInterfaces/CFOFrontEndInterfaceImpl.cc:5870-5910 | the prepared and the armed plan of a chunk give every other bit without a waiting single shot the heartbeat trace it had, from any processor state |
| `ShotNeighbours.ShotJoinSparesOthersLive` | otsdaq-mu2e/FEInterfaces/CFOFrontEndInterfaceImpl.cc:5594-5920 | the same over all chunks of a single-shot join, each written instruction by instruction in any order and any interleaving with the processor |
| `SingleShotJoin.Schedule` | otsdaq-mu2e/FEInterfaces/CFOFrontEndInterfaceImpl.cc:5440-5588 | a request is scheduled if and only if the count is positive and the ratio acceptable and at least one event per 100; the slots are those of the resolved duty, the chunks the greedy schedule with coarse ones at full duty only; otherwise the reason of the refusal |
| `ShotRun.FinePlay` | otsdaq-mu2e/FEInterfaces/CFOFrontEndInterfaceImpl.cc:5654-5680 | conservation in a fine chunk: events shown plus slots still waiting stay constant under every interleaving with the arming pass |
| `ShotRun.PulsePlay` | otsdaq-mu2e/FEInterfaces/CFOFrontEndInterfaceImpl.cc:5637-5652 | a coarse chunk gives one contiguous pulse that ends at its own end-AND |
| `ShotRun.TagAdvanceEndsPulse` | otsdaq-mu2e/FEInterfaces/CFOFrontEndInterfaceImpl.cc:5726-5790 | from any phase of a coarse chunk at the start of the wait: once the tag has advanced by 2N, exactly N events have carried the bit; with one event more the bit is off |
| `SingleShotJoin.ChunkShows` | otsdaq-mu2e/FEInterfaces/CFOFrontEndInterfaceImpl.cc:5594-5920 | a chunk, from its preparation pass to the end of the wait, shows the bit in exactly as many events as its count |
| `SingleShotJoin.ChunksShowTotal` | otsdaq-mu2e/FEInterfaces/CFOFrontEndInterfaceImpl.cc:5378-5920 | all chunks together show the bit in exactly the scheduled number of events in every execution in which the wait before a coarse chunk of another level saw the tag one event further than the source asks for |
| `ChunkBoundary.SafeExactly` | otsdaq-mu2e/FEInterfaces/CFOFrontEndInterfaceImpl.cc:5700-5920 | after a coarse chunk found done, every preparation pass of the next chunk sends no further event with the bit if and only if the bit is off, or the next chunk is a fine one or of the same level |
| `ShotJoinExact.ExactIffLevel` | otsdaq-mu2e/FEInterfaces/CFOFrontEndInterfaceImpl.cc:5594-5920 | with only the conditions the source waits for, every execution of a schedule shows exactly its total, from any state of the running plan, if and only if the schedule never steps down between coarse levels |
| `ShotJoinExact.RequestIsExact` | otsdaq-mu2e/FEInterfaces/CFOFrontEndInterfaceImpl.cc:5378-5920 | for any duty and any count: every execution of the scheduled request shows exactly the count if and only if the duty is not full, or the count divided by the largest coarse loop that fits leaves less than the smallest one |
| `ShotJoinExact.TwelveHundredBecomeFourteen` | otsdaq-mu2e/FEInterfaces/CFOFrontEndInterfaceImpl.cc:5531-5790 | with the standard values, a request of 1200 events at 100 % is scheduled as 1000 and 200, and from any state of the running plan an execution shows 1400 |
| `FixedWidthPlan.SendsExactlyN` | otsdaq-mu2e/FEInterfaces/CFOFrontEndInterfaceImpl.cc:3960-4023 | N >= 2: exactly N markers with tags start..start+N-1, the first N-1 events with the mode, the last null, then the end |
| `FixedWidthPlan.GoesOnForever` | otsdaq-mu2e/FEInterfaces/CFOFrontEndInterfaceImpl.cc:3960-4023 | a count of 0 or 1: one event and one marker per tag without end, with the mode for 0 and null for 1 |
| `FixedWidthPlan.WaitsTheDuration` | otsdaq-mu2e/FEInterfaces/CFOFrontEndInterfaceImpl.cc:3960-4023 | every increment of the tag comes right behind a marker and a WAIT of the duration, and no other WAIT is written |
| `FixedWidthPlan.Launcher.Launch` | otsdaq-mu2e/FEInterfaces/CFOFrontEndInterfaceImpl.cc:3833-4023 | the next tag becomes start plus count whatever happens; halted exactly if not enabled with a permitted mode, the program emitted exactly if enabled, with a permitted mode, a duration with unit, and if it compiles |
| `FixedWidthPlan.ParseDuration` | otsdaq-mu2e/FEInterfaces/CFOFrontEndInterfaceImpl.cc:6044-6073 | a duration is split before its first unit character; without one it is refused |
| `FixedWidthPlan.TagsContiguous` | otsdaq-mu2e/FEInterfaces/CFOFrontEndInterfaceImpl.cc:3833-3960 | continuing launches cover a contiguous tag range if and only if each was enabled, had a permitted mode and a duration with unit, and compiled |
| `FlashWorld.EnvKeeps` | otsdaq-mu2e/FEInterfaces/RocFlashProgrammer.h:10-24 | nothing the world does on its own spoils what the session knows: range, verified prefix, awaited reply |
| `FlashWorld.BlockReadTells` | otsdaq-mu2e/FEInterfaces/RocFlashProgrammer.h:348-365 | a reply with the awaited tag answers the command sent with that tag, shows the flash as it is, and no change is pending any more; an untagged one does unless answers were mixed up |
| `FlashWorld.FreshTag` | otsdaq-mu2e/FEInterfaces/RocFlashProgrammer.h:390-395 | nothing in the FIFO carries the tag of a new command, because what is still under way was sent fewer than 65535 tags ago |
| `FlashWorld.LowByteFirst` | otsdaq-mu2e/FEInterfaces/RocFlashProgrammer.h:931-932 | a word of the flash has the first byte low |
| `FlashWire.CommandDecodes` | otsdaq-mu2e/FEInterfaces/RocFlashProgrammer.h:401-404 | the words of a command decode to its action number, address, size or count, data and tag |
| `FlashTags.TagsDistinct` | otsdaq-mu2e/FEInterfaces/RocFlashProgrammer.h:390-395 | of any 65535 consecutive tags no two are equal and none is 0 |
| `ReadBackTruth.ReadTellsExactly` | otsdaq-mu2e/FEInterfaces/RocFlashProgrammer.h:1056-1080 | older MiV, FIFO empty and no shorter read waiting: what is taken for the answer shows the flash as it is, in every run in which no other user is answered, if and only if every waiting read whose answer has the same length is harmless (the same read with no change behind it, or the same words in ranges nothing changes any more); an idle DONE does not exclude such reads |
| `ReadBackTruth.RetriedReadMisleads` | otsdaq-mu2e/FEInterfaces/RocFlashProgrammer.h:1009-1043 | a run of the read-back in which a piece passes whatever the flash holds: the first read was reported failed but arrived, and its second answer is taken for the next piece |
| `FlashSession.Session.SleepMs` | otsdaq-mu2e/FEInterfaces/RocFlashProgrammer.h:396 | called only with the lock free; time passes |
| `FlashSession.Session.WriteBlock` | otsdaq-mu2e/FEInterfaces/RocFlashProgrammer.h:336-343 | a command goes out only under the lock, after this hold has read idle and an empty FIFO, only inside what may still be changed, and a tagged one only with a new number |
| `FlashSession.Session.WaitIdle` | otsdaq-mu2e/FEInterfaces/RocFlashProgrammer.h:448-476 | idle is returned exactly after a look with DONE set or 0 and the FIFO empty, not idle only when no look showed that until the timeout; every reply found is read away; lock free on every path |
| `FlashSession.Session.SendWhenIdle` | otsdaq-mu2e/FEInterfaces/RocFlashProgrammer.h:327-346 | the command is written at most once, exactly once, in its own words, when true is returned; otherwise an access threw, or the timeout was over and the last look showed the ROC busy; lock free on every path |
| `FlashSession.Session.ReadReply` | otsdaq-mu2e/FEInterfaces/RocFlashProgrammer.h:348-365 | a reply is accepted if and only if REG_COUNT shows the asked size and 4 and the block read returns as many words; then it tells what the awaited command promises |
| `FlashSession.Session.NextTag` | otsdaq-mu2e/FEInterfaces/RocFlashProgrammer.h:390-395 | the tag after 65535 is 1, otherwise one more; its number is new to every ROC |
| `FlashSession.Session.CollectTagged` | otsdaq-mu2e/FEInterfaces/RocFlashProgrammer.h:486-519 | a reply is returned if and only if the last block read gave the right number of words, the tag first, and then it answers the awaited command; otherwise a read threw, too many words were there, it was gone or of another tag, or the time was over |
| `FlashEvidence.GoodReplyAccepted` | otsdaq-mu2e/FEInterfaces/RocFlashProgrammer.h:486-519 | while the FIFO holds a reply of the right size and tag and nothing else, and no access throws, the wait ends with exactly that reply |
| `FlashSession.Session.CollectCrc` | otsdaq-mu2e/FEInterfaces/RocFlashProgrammer.h:536-589 | positive if and only if the reply came, with status 0 and the wanted CRC; then the verified limit moves over the range |
| `FlashSession.Session.ParallelCrc` | otsdaq-mu2e/FEInterfaces/RocFlashProgrammer.h:536-589 | an entry for every ROC asked; a positive one follows a good answer in the last try, certifies that the flash range has the wanted CRC and moves the verified limit over it; a negative one means that every try had no idle ROC, no such reply, an error status or another CRC |
| `FlashSession.Session.Preflight` | otsdaq-mu2e/FEInterfaces/RocFlashProgrammer.h:407-445 | passes exactly if checksum, alignment, protected area, attempts and footprint are in order; an odd image is padded with 0xFF |
| `FlashProgress.ExpectedInEitherCase` | otsdaq-mu2e/FEInterfaces/RocFlashProgrammer.h:413-416 | the expected checksum is accepted if and only if each digit is that of the file, in either case |
| `FlashSession.Session.ProbeHear` | otsdaq-mu2e/FEInterfaces/RocFlashProgrammer.h:619-640 | a ROC is taken for new if and only if its first reply of four words carries the tag and no error, and only if it is |
| `FlashSession.Session.ProbeReadSize` | otsdaq-mu2e/FEInterfaces/RocFlashProgrammer.h:657-684 | the size of the answer to the probing read is 512 or 258, seen twice; otherwise a read threw, or none of that size came in time or it had gone again |
| `FlashSession.Session.ProbeAll` | otsdaq-mu2e/FEInterfaces/RocFlashProgrammer.h:594-684 | every ROC left alive is at the start of the upload with a known kind of MiV and the evidence for it on its link, and every ROC failed has shown why; an untagged read went to none of the new ones |
| `FlashSession.Session.WaitTaggedResult` | otsdaq-mu2e/FEInterfaces/RocFlashProgrammer.h:832-855 | success if and only if the tagged reply came with result 0, and then that erase or write is no longer pending; otherwise the reason |
| `FlashSession.Session.PollLegacy` | otsdaq-mu2e/FEInterfaces/RocFlashProgrammer.h:888-917 | complete if and only if DONE is high now and was seen low before or the minimum time has passed; failed if and only if the look threw or, not complete, it is after the time-out |
| `FlashSession.Session.WaitLegacyAll` | otsdaq-mu2e/FEInterfaces/RocFlashProgrammer.h:881-922 | ends as time advances for any number of ROCs polled in turn; the looks at each are open until one completes it, or throws or is after the time-out, and exactly the latter are failed |
| `FlashSession.Session.Command` | otsdaq-mu2e/FEInterfaces/RocFlashProgrammer.h:938-979 | a ROC without error was sent exactly the command for its MiV once; others at most that; nothing else; exactly the ROCs on whose link it failed (not idle, no or bad result, DONE not seen) have an error |
| `FlashSession.Session.EraseSegment` | otsdaq-mu2e/FEInterfaces/RocFlashProgrammer.h:772-823 | new MiV: exactly the 64 kB block; older MiV: size 1 (this block and the next) |
| `FlashProgress.EraseFootprint` | otsdaq-mu2e/FEInterfaces/RocFlashProgrammer.h:783-786 | the erase of an attempt covers exactly the 64 kB of the segment with a new MiV, and these and the next 64 kB with an older one |
| `FlashSession.Session.WriteSegment` | otsdaq-mu2e/FEInterfaces/RocFlashProgrammer.h:924-979 | a ROC without error was sent exactly the records of the segment, each once and in order |
| `FlashImage.RecordsCover` | otsdaq-mu2e/FEInterfaces/RocFlashProgrammer.h:924-932 | the records write every byte of the segment exactly once with the byte of the image, and no other address |
| `FlashImage.Record` | otsdaq-mu2e/FEInterfaces/RocFlashProgrammer.h:926-932 | a record has between 1 and 512 words and stays inside the segment |
| `FlashSession.Session.CollectPiece` | otsdaq-mu2e/FEInterfaces/RocFlashProgrammer.h:1056-1080 | equal if and only if the block read shows the words of the image; then what was read back is longer by exactly these bytes, and unless answers were mixed up the flash holds them; otherwise the reason |
| `FlashSession.Session.SameWords` | otsdaq-mu2e/FEInterfaces/RocFlashProgrammer.h:1072-1079 | the comparison loop returns true if and only if all words agree |
| `FlashSession.Session.VerifyPiece` | otsdaq-mu2e/FEInterfaces/RocFlashProgrammer.h:1009-1043 | the ROCs not returned as bad have shown this piece after all earlier ones; the bad ones failed in all of four tries |
| `FlashSession.Session.ReadBack` | otsdaq-mu2e/FEInterfaces/RocFlashProgrammer.h:1000-1052 | all pieces shown: the segment is verified byte by byte; a ROC that did not failed at one of the pieces in four tries |
| `FlashSession.Session.VerifySegment` | otsdaq-mu2e/FEInterfaces/RocFlashProgrammer.h:983-1052 | each ROC without error gets the segment verified by its own method, the verified limit moving up only then; an error means that the CRC failed in two tries or a piece in four |
| `FlashProgress.SegmentFine` | otsdaq-mu2e/FEInterfaces/RocFlashProgrammer.h:700-745 | whatever an attempt did, a ROC that verified has one more segment of verified content and the others keep theirs |
| `FlashProgress.CommandsInside` | otsdaq-mu2e/FEInterfaces/RocFlashProgrammer.h:783-786 | every erase and write of a segment, with its footprint, lies between the segment and the end of the footprint |
| `FlashSession.Session.Attempt` | otsdaq-mu2e/FEInterfaces/RocFlashProgrammer.h:718-723 | erase, write, verify: success means exactly these commands were sent and the segment is verified; an error means that the erase, a record or the verification failed on the link of that ROC |
| `FlashSession.Session.WriteAndCheckSegment` | otsdaq-mu2e/FEInterfaces/RocFlashProgrammer.h:718-740 | after the segment every ROC still alive has verified it; Failed is never undone, and is new only for ROCs on which every one of the allowed attempts failed |
| `FlashSession.Session.CheckSegment` | otsdaq-mu2e/FEInterfaces/RocFlashProgrammer.h:708-717 | verify only: nothing is written, ROCs that differ in all tries are failed and no others |
| `FlashSession.Session.CheckWholeImage` | otsdaq-mu2e/FEInterfaces/RocFlashProgrammer.h:748-765 | every new-MiV ROC still alive has the CRC of the whole image; one is failed only after two tries without it |
| `FlashSession.Session.Upload` | otsdaq-mu2e/FEInterfaces/RocFlashProgrammer.h:687-771 | the ROCs that end Verified hold the image: equal CRC of every segment (and of the whole when enabled) with a new MiV; equal bytes with an older one whose answers were not mixed up; a ROC is failed only on the evidence of its link |
| `Activation.Judge` | otsdaq-mu2e/FEInterfaces/RocFlashProgrammer.h:1140-1206 | one look decides exactly on the evidence (success, rejection or open); the link is reset exactly if the ROC does not answer, resets are left and its time has come |
| `FlashSession.Session.RequestIap` | otsdaq-mu2e/FEInterfaces/RocFlashProgrammer.h:1086-1107 | the IAP command is sent to Verified ROCs only; it is not taken only if the version could not be read, an access threw or the ROC was still busy after two seconds |
| `FlashSession.Session.Look` | otsdaq-mu2e/FEInterfaces/RocFlashProgrammer.h:1117-1135 | a look reads DONE, PROG_RETURN and the firmware version in this order, with the time since the request; no answer only if a read threw |
| `FlashSession.Session.LookRound` | otsdaq-mu2e/FEInterfaces/RocFlashProgrammer.h:1117-1207 | a round keeps the evidence, never reopens a ROC, and after both time limits leaves none open; what it saw and reset is what the links were read for and reset |
| `FlashSession.Session.WatchAll` | otsdaq-mu2e/FEInterfaces/RocFlashProgrammer.h:1108-1211 | ends as time advances, each requested ROC with exactly one outcome |
| `FlashSession.Session.Activate` | otsdaq-mu2e/FEInterfaces/RocFlashProgrammer.h:1083-1215 | Programmed if and only if the last poll gives the evidence (answering, idle, PROG_RETURN 0, went down or changed to the expected version, version as expected); Failed otherwise, the ROC not having taken the IAP or its polls rejecting it; nothing but IAPs was sent, to verified ROCs only |
| `FlashOutcome.EndSafe` | otsdaq-mu2e/FEInterfaces/RocFlashProgrammer.h:15-16 | outside [start, start + padded image + 64 kB) the flash is what it was, and every erase and write was addressed inside |
| `FlashOutcome.EndHolds` | otsdaq-mu2e/FEInterfaces/RocFlashProgrammer.h:10-15 | what was verified is what the flash holds at the end: always with a new MiV, and with an older one unless a read was sent with another answer still to come or to be read |
| `FlashOutcome.EndInOrder` | otsdaq-mu2e/FEInterfaces/RocFlashProgrammer.h:1009-1080 | an older MiV to which the session sent every read only after it had seen an answer to the one before, and which answered nobody else meanwhile, was not mixed up |
| `FlashSession.Session.Run` | otsdaq-mu2e/FEInterfaces/RocFlashProgrammer.h:272-287 | true if and only if every ROC reached the requested state; a refused preflight sends nothing; safety of the flash on every run including failing ones; Verified, Programmed or sent the IAP implies the flash holds the image, in the sense of the row above; the end of every ROC is explained by what was seen on its link |
| `FlashReport.ExplainAll` | otsdaq-mu2e/FEInterfaces/RocFlashProgrammer.h:272-287 | the parts of a session add up: a ROC is failed only if it could not be probed, all attempts at a segment or the CRC of the image failed, it did not take the IAP, or its looks rejected it; Programmed only on its looks |
| `Crc32.TableStep` | otsdaq-mu2e/FEInterfaces/RocFlashProgrammer.h:112-125 | one table look-up does eight bits of the bitwise definition |
| `Crc32.PolynomialIsReflected` | otsdaq-mu2e/FEInterfaces/RocFlashProgrammer.h:112-125 | bit i of the constant is set if and only if 31 - i is an exponent of the generator x^32 + x^26 + x^23 + x^22 + x^16 + x^12 + x^11 + x^10 + x^8 + x^7 + x^5 + x^4 + x^2 + x + 1 |
| `Crc32.BuildTable` | otsdaq-mu2e/FEInterfaces/RocFlashProgrammer.h:112-122 | entry i is i sent through eight bits |
| `Crc32.Crc32` | otsdaq-mu2e/FEInterfaces/RocFlashProgrammer.h:109-127 | the table-driven loop equals the bit-by-bit definition of section 8 of RFC 1952 for every byte string and every start value |
| `Crc32.CheckValue` | otsdaq-mu2e/FEInterfaces/RocFlashProgrammer.h:109-127 | the CRC of the characters 123456789 is 0xCBF43926 |
| `Crc32.Chaining` | otsdaq-mu2e/FEInterfaces/RocFlashProgrammer.h:109-127 | continuing from the CRC of a prefix gives the CRC of the concatenation |
| `Crc32.WindowDetected` | otsdaq-mu2e/FEInterfaces/RocFlashProgrammer.h:107-127 | two strings of equal length that differ only inside one window of four consecutive bytes have different CRCs |
| `FlashCrc.DamagedSegmentFails` | otsdaq-mu2e/FEInterfaces/RocFlashProgrammer.h:993-998 | a segment damaged only inside such a window never passes |
| `FlashCrc.CheckNumber` | otsdaq-mu2e/FEInterfaces/RocFlashProgrammer.h:109-127 | the same as the number the session compares with the two words of a reply |
| `FlashFile.MatchingSegment` | otsdaq-mu2e/FEInterfaces/RocFlashProgrammer.h:993-998 | a segment whose CRC-32 agrees is that of the file, or differs from it in two bytes that are four or more apart |
| `FlashFile.ProgramFile` | otsdaq-mu2e/FEInterfaces/RocFlashProgrammer.h:272-287 | a whole session with the CRC-32 and the SHA-256 of the source: it passes only the file with the expected SHA-256, and every vouched ROC holds that file in this sense |
| `Sha256.Sha256Hex` | otsdaq-mu2e/FEInterfaces/RocFlashProgrammer.h:130-186 | the loop over padded blocks equals the definition of sections 5.1.1 and 6.2.2 of FIPS 180-4, in hexadecimal |
| `Sha256Example.HashOfAbc` | otsdaq-mu2e/FEInterfaces/RocFlashProgrammer.h:130-186 | the hash of the message abc is the one that FIPS 180-4 gives as its first example |
| `Sha256Example.TextOfAbc` | otsdaq-mu2e/FEInterfaces/RocFlashProgrammer.h:182-186 | and its text, digit by digit |
| `Sha256Example.TwoBlocks` | otsdaq-mu2e/FEInterfaces/RocFlashProgrammer.h:142-181 | a second block is hashed from where the first one ended |
| `Sha256.PadMessage` | otsdaq-mu2e/FEInterfaces/RocFlashProgrammer.h:135-141 | the two padding loops append 0x80, the least number of zeros and the length, big endian |
| `Sha256.Pad` | otsdaq-mu2e/FEInterfaces/RocFlashProgrammer.h:135-141 | the padded length is a multiple of 64 |
| `Sha256.PadInjective` | otsdaq-mu2e/FEInterfaces/RocFlashProgrammer.h:135-141 | below 2^61 bytes different messages have different paddings |
| `Sha256.Expand` | otsdaq-mu2e/FEInterfaces/RocFlashProgrammer.h:145-155 | the 64 words of the message schedule, filled in place |
| `Sha256.CompressBlock` | otsdaq-mu2e/FEInterfaces/RocFlashProgrammer.h:156-181 | 64 rounds on eight working variables equal the compression function |
| `ConfigurePhases.Cfo.ConfigPhase` | otsdaq-mu2e/CFOandDTCCore/CFOandDTCCoreVInterface.h:95-101 | the phase is the number of iterations since the first call, the base being set lazily |
| `ConfigurePhases.Cfo.ConfigureForTimingChain` | otsdaq-mu2e/FEInterfaces/CFOFrontEndInterfaceImpl.cc:2629-2721 | another sub-step exactly while the clock has not locked, never beyond sub-step 12 |
| `ConfigurePhases.Cfo.CheckTimingChain` | otsdaq-mu2e/FEInterfaces/CFOFrontEndInterfaceImpl.cc:2175-2318 | thrown exactly if a DTC is unreachable, still unlocked on the retry, or the reset failed; otherwise one retry or the next phase |
| `ConfigurePhases.Cfo.FixEdges` | otsdaq-mu2e/FEInterfaces/CFOFrontEndInterfaceImpl.cc:2331-2502 | one pass: counts consecutive clean passes, leaves after the second, throws on a toggle from pass 10 on |
| `ConfigurePhases.Cfo.Configure` | otsdaq-mu2e/FEInterfaces/CFOFrontEndInterfaceImpl.cc:2083-2573 | each call runs its phase and sub-step and asks for exactly the work that is left |
| `ConfigurePhases.Cfo.RunPass` | otsdaq-mu2e/FEInterfaces/CFOFrontEndInterfaceImpl.cc:2083-2573 | for all hardware answers: phases 0..13 in order in bounded sub-steps (12, 1, 11 where repeated), a phase called again exactly as the answers ask for it, the edge fix left exactly after two clean passes in a row, thrown exactly if the answers of the last call make it give up, done at phase 13 otherwise |
| `RocAction.HandshakeTellsIffIdle` | otsdaq-mu2e/FEInterfaces/ROCPolarFireCoreInterfaceImpl.cc:648-692 | DONE low then high after the command proves completion if and only if the processor was idle when it was sent |
| `RocAction.ActionFinishes` | otsdaq-mu2e/FEInterfaces/ROCPolarFireCoreInterfaceImpl.cc:648-692 | a command sent from idle with DONE seen low and high after it is finished and stays so |
| `RocAction.DeadLinkPasses` | otsdaq-mu2e/FEInterfaces/ROCPolarFireCoreInterfaceImpl.cc:710-803 | on a link that dies after the command was taken up the polls read low and then high with the command unfinished |
| `RocAction.Roc.WaitDone` | otsdaq-mu2e/FEInterfaces/ROCPolarFireCoreInterfaceImpl.cc:655-690 | bounded polls; a normal return has read the awaited value last and only then |
| `RocAction.Roc.RunAction` | otsdaq-mu2e/FEInterfaces/ROCPolarFireCoreInterfaceImpl.cc:641-703 | lock free on every exit; normal return: one command sent, DONE dropped and rose after it, finished if the processor was idle |
| `RocAction.Roc.WriteSPIFlashBlock` | otsdaq-mu2e/FEInterfaces/ROCPolarFireCoreInterfaceImpl.cc:579-705 | more than 512 words are refused before the lock; otherwise 8, the address, the number of words and the data are sent, under the handshake; throws only with a reason |
| `RocAction.Roc.EraseSPIFlashBlock` | otsdaq-mu2e/FEInterfaces/ROCPolarFireCoreInterfaceImpl.cc:710-803 | 3, the address and the size are sent, under the handshake with the 180 s limit, without status; throws only with a reason |
| `RocAction.Roc.ProgramFromSPIByIndex` | otsdaq-mu2e/FEInterfaces/ROCPolarFireCoreInterfaceImpl.cc:808-892 | 4, the index and 0 are sent, under the handshake; a non-zero status throws, and otherwise only a read or write that throws or a time-out does |
| `RocAction.Roc.ProgramFromSPIByAddress` | otsdaq-mu2e/FEInterfaces/ROCPolarFireCoreInterfaceImpl.cc:897-981 | 5, the address and 0 are sent, under the handshake; a non-zero status throws, and otherwise only a read or write that throws or a time-out does |
| `RocAction.Roc.LaunchSPIFlashBlockRead` | otsdaq-mu2e/FEInterfaces/ROCPolarFireCoreInterfaceImpl.cc:318-365 | 7, the address and the number of bytes are sent; takes the lock and keeps it exactly on a normal return |
| `RocAction.Roc.CollectSPIFlashBlockRead` | otsdaq-mu2e/FEInterfaces/ROCPolarFireCoreInterfaceImpl.cc:368-444 | gives the lock back exactly once on every path; a normal return has seen DONE together with the expected reply size in one look, within bounded polls, and has that many words |
| `RocAction.Roc.ReadSPIFlashBlock` | otsdaq-mu2e/FEInterfaces/ROCPolarFireCoreInterfaceImpl.cc:308-315 | the command of the address and number of bytes, then the reply; takes and gives back the lock equally often |
| `RocAction.Parameter` | otsdaq-mu2e/FEInterfaces/ROCPolarFireCoreInterfaceImpl.cc:331-338 | the two words of a 32-bit parameter determine it |

## Left out

- DutyRatio.GetRatioOfOnPerEvents: exact fractions stand for the doubles of the source; truncation in double precision
  can give a ratio one hundredth lower (29 % becomes 28).
- DutyRatio.ResolvedAccuracy: the same; the duration conversion is not modelled.
- Unsigned wrap-around of event tags and of the iteration index; 32-bit overflow of millisecond counters.
- Torn overwrites of a single 64-bit instruction while the processor fetches it.
- ROOT output, logging, files, the run-plan compiler and the binary form of instructions.
- `extractSharedRunPlanEventDuration`: the event duration read back from the plan; the operand collection it shares with
  the join is modelled.
- SingleShotJoin.ChunksShowTotal: the time-out of the wait between chunks and the polls of the tag are not modelled, only
  what the last poll found; of a fine chunk only the read-back of the single shots is used.
- The super-cycle plan.
- FlashOutcome.EndHolds: of an older MiV whose answers may have been mixed up nothing is claimed; `RetriedReadMisleads`
  shows such a ROC passing a piece that its flash does not hold, and `EndInOrder` when there is none.
- FlashOutcome.EndInOrder: says nothing of a ROC with a new MiV that was taken for an older one.
- Neighbours.JoinSparesExactly: the only-if half is stated for bits that no OR mask carries and that slot 0 keeps while a
  coarse shot waits, as a single-shot join of the bit arranges it.
- FlashSession.Session.WaitLegacyAll: that the command really is complete is not claimed; as in the source the read-back decides.
- FlashSession.Session.Command: the source has the same send-and-wait steps twice, in erase and in write; the model has them once.
- What a reset of the link does on the DTC: it is recorded that and when it is asked for.
- Progress and log callbacks, error texts, `summary`, and the unused helpers `tagged` and `waitLegacyDone`.
- The DTC front end's share of the configure phases, its subsystem-iteration turns, and the hardware register writes of
  each phase.
- `isActionDone` with lock release, the non-blocking action variants, `autoProgramFromSPI`, `forceClearActionLock` and the
  directory write.
- RocAction.Roc.RunAction: waiting for another thread that holds the action lock is not modelled; the lock is free at the call.
- Buffer tests, loopback, topology discovery, run-info database, tables, user interface: measurement, plumbing or reporting.
