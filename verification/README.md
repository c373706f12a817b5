# DDR3 calibration and its companions, modelled in Dafny

The repository is the software of a Cyclone V SoC FPGA design: the DDR3 calibration sequencer that
runs before U-Boot, the U-Boot sources, and Linux programs that drive FPGA cores.  This project
models the parts that compute something and proves what they promise.  Loops are loops over arrays
and register fields, as in the source; each is proved against a specification, and the lemmas say
what the specification means.

| file | what it models |
|---|---|
| `EdgeSweeps.dfy` | the two edge sweeps of the per-bit deskew, over an arbitrary pass/fail oracle |
| `Centring.dfy` | the integer arithmetic of centring, with C division |
| `Deskew.dfy` | rejection, centring and verdict of read and write deskew |
| `DataMask.dfy` | the longest-run search for the data-mask delay |
| `CentreStages.dfy` | the stages made of one deskew, their notes in the error record, and what a calibrated interface does |
| `PassMasks.dfy` | how a test folds the error words of ranks and virtual groups into a mask |
| `DqsEnable.dfy` | centring of the DQS-enable window on phase and delay taps |
| `Calibrate.dfy` | the group loop, the first-error record, and the read-latency search |
| `Microcode.dfy` | the delay loops of the RW manager's instruction ROM, and the code that loads them |
| `Mailbox.dfy` | the debug mailbox between sequencer firmware and a host |
| `ShaPadding.dfy` | SHA-256 padding, against section 5.1.1 of FIPS 180-4 |
| `I2cMaster.dfy` | the retrying OpenCores I2C master driver |
| `StorageEnum.dfy` | the U-Boot API's storage enumeration |
| `RsaKey.dfy` | the conversion of a 1024-bit hexadecimal key and its printing |

The build of the sequencer is the one `sequencer_defines.h` selects: DDR3, Cyclone V, hard PHY, full
rate, one shadow register, DQS centred on the input side only.  Chain lengths, tap delays, numbers of
pins, ranks and groups are parameters.

Hardware is an oracle.  A deskew test is a function of sweep, bit, DQ delay and DQS delay, so that the
two sweeps may disagree about the origin.  Results that need a stable interface say so: `Deskew.Eye`
is a bit whose answer depends only on DQ delay minus DQS shift and whose passing positions have no
hole, and `DataMask.Steady` is a mask test that answers alike in both phases.

## Findings

What the proofs showed the code not to do:

- Read deskew, upper clamp (`sequencer.c:5360`).  The clamp subtracts what register `i` holds, where
  the bit's own register is `test_bgn + i`.  A clamped bit of the second or a later read group of a
  write group can land short of the chain's end.  `Deskew.BestInChainIff` says exactly when the
  delay is still the best one, and `Deskew.ClampExample` is a group that fails by it although the end
  of the chain would have served.  The verdict stays right (`Deskew.VfifoCenter`), since the margins are
  computed from the delay really programmed.  On the write side, and with one read group to a write
  group as configured here, the two registers are the same.
- Both deskews, a bit that fails at the origin on the left sweep and passes there on the right sweep:
  such a bit is rejected although it passed a test (`Deskew.PassedYetEdgeless` is such a group).
  `Deskew.EdgelessExactly` gives the exact condition, `Deskew.RejectedIffNeverPassed` the case of a repeatable origin.
- `set_failing_group_stage` is given the number of a DQ pin, not of a group, by both deskews
  (`sequencer.c:5292`, `sequencer.c:5294`, `sequencer.c:7408`).  `CentreStages.NotedNamesGroupIff`: it
  names the group at fault only for pin 0 of group 0, or with one pin to a group.
  `CentreStages.NotedIsGroupNumberIff`: as configured it is the number of a group at all only for
  half of the pins of group 0.
- A rejected write deskew leaves DQS where the right sweep ended, which is where it started only if
  DQS started at the end of its chain (`Deskew.WritesDq`); a rejected read deskew puts it back.
- The mask search takes the leftmost of the longest windows.  It fails if that one starts beyond the
  origin, although a mask delay may work: `DataMask.UsableIff` is the exact condition on the
  interface, `DataMask.UsableDelayMissed` an interface on which a working delay is missed.  With a
  single window nothing is lost (`DataMask.SucceedsIffPossible`).
- The write mask of a virtual group is as wide as a read group (`sequencer.c:719`).
  `PassMasks.ExactIff` gives the layouts for which a mask assembled that way is right.
- A note of a failure that a retry made good stays in the error record of a successful calibration:
  `Calibrate.RecordIsEmptyIff` says exactly when the record is empty,
  `Calibrate.SuccessWithErrorStage` is a successful run that leaves an error stage.
- SHA-256 padding is wrong for message lengths 888 to 897, where the range table starts too late, and
  from 952 on, where no range applies and the block count is an uninitialised local.
- Storage enumeration reports only the first device of a group, since the hint that there are more is
  never given for a first device; the comment at `api_storage.c:212-226` promises all.
  `StorageEnum.CompleteIff` gives the exact condition.
- An upper-case or other foreign character in a key counts as -1; the printed key then differs from
  the key read (`RsaKey.RoundTripIff`).

## Model

| member | source | states |
|---|---|---|
| EdgeSweeps.SccGroup.LeftEdges | hps_isw_handoff/soc_system_hps_0/sequencer.c:5130-5188 | for any oracle: the sweep records exactly the taps before the first permitted stop; a left edge is the last passing tap, a right edge the negated first passing tap and withdrawn if nothing passed; DQ delays end at 0 and pins of other groups are untouched |
| EdgeSweeps.SccGroup.RightEdges | hps_isw_handoff/soc_system_hps_0/sequencer.c:5202-5260 | the same for the DQS sweep, for read and write rules at once: which taps are recorded, where DQS ends, and both edges of every bit in terms of first and last passes |
| EdgeSweeps.LeftStopIff | hps_isw_handoff/soc_system_hps_0/sequencer.c:5152-5158 | the sticky mask and the "nothing passed" flag fire the stop exactly when no bit passes this tap and every bit passed an earlier one |
| EdgeSweeps.RightStopIff | hps_isw_handoff/soc_system_hps_0/sequencer.c:5224-5231 | the same for the right sweep, whose mask starts with the bits the left sweep settled |
| EdgeSweeps.SettledEdges | hps_isw_handoff/soc_system_hps_0/sequencer.c:5242-5252 | marking marginal bits at the first tap only leaves every bit with the edge it should have, however the sweep ended |
| EdgeSweeps.SccGroup.MarkMarginal | hps_isw_handoff/soc_system_hps_0/sequencer.c:7351-7364 | a write sweep that stops on its first tap still leaves -1 as the right edge of a bit that passed on the left sweep only |
| Centring.AimCentres | hps_isw_handoff/soc_system_hps_0/sequencer.c:5311-5357 | truncating division and the increment of positive offsets leave the two margins of a bit equal or one tap apart for every sign and parity of the smallest offset |
| Centring.AimIsBest | hps_isw_handoff/soc_system_hps_0/sequencer.c:5311-5357 | no other position has a larger smaller margin |
| Deskew.EdgelessExactly | hps_isw_handoff/soc_system_hps_0/sequencer.c:5274-5298 | for any oracle: the exact condition, in terms of the tests executed, under which a bit is found without an edge |
| Deskew.RejectedIffNeverPassed | hps_isw_handoff/soc_system_hps_0/sequencer.c:5130-5298 | if the origin answers alike both times, a bit is found without an edge if and only if it failed every test the two sweeps executed, including those that stopped them; both sides |
| Deskew.PassedYetEdgeless | hps_isw_handoff/soc_system_hps_0/sequencer.c:5232-5260 | a group whose bits all pass a test of the right sweep and all are found without an edge, on either side |
| Deskew.EdgesAreTheWindow | hps_isw_handoff/soc_system_hps_0/sequencer.c:5138-5260 | although either sweep may stop early, the edges found are the two ends of the bit's window within reach |
| Deskew.VerdictIsExact | hps_isw_handoff/soc_system_hps_0/sequencer.c:5279-5443 | on window-shaped eyes the verdict is success if and only if every bit passes at the DQ and DQS delays the deskew leaves programmed, whatever was clamped, centred or rejected |
| Deskew.AcceptedIffAllPass | hps_isw_handoff/soc_system_hps_0/sequencer.c:5352-5443 | the two exported margins are nonnegative exactly when every bit passes at the programmed delays |
| Deskew.UnclampedIsAccepted | hps_isw_handoff/soc_system_hps_0/sequencer.c:5300-5379 | if all bits have a window and no DQ delay needed a clamp, the group is accepted and every bit centred to one tap, even if DQS was clamped |
| Deskew.UnclampedBitIsCentred | hps_isw_handoff/soc_system_hps_0/sequencer.c:5353-5379 | a bit whose own delay was not clamped has margins at most one tap apart, for any oracle and whatever happened to the other bits |
| Deskew.ReadDqsHalves | hps_isw_handoff/soc_system_hps_0/sequencer.c:5311-5330 | where DQS goes from any start, inside its chain and at either end of it, by the edges alone |
| Deskew.InReachIsAccepted | hps_isw_handoff/soc_system_hps_0/sequencer.c:5300-5443 | if half the smallest offset fits into the DQS chain and no offset exceeds the smallest by more than twice the DQ chain, the group is accepted, every bit passes, and each DQ delay is half of what its offset exceeds the smallest by |
| Deskew.LateEyeExample | hps_isw_handoff/soc_system_hps_0/sequencer.c:5094-5443 | a group whose DQS starts at 4 taps is accepted with DQS at 8 and DQ at 0 |
| Deskew.MarginsAddUp | hps_isw_handoff/soc_system_hps_0/sequencer.c:5369-5378 | for every bit, clamped or not, left and right margin together are the width between its edges, so the exported margins together never exceed the narrowest window |
| Deskew.BestInChainIff | hps_isw_handoff/soc_system_hps_0/sequencer.c:5359-5365 | the programmed delay is the best of the bit's chain exactly if the bit was not clamped from above or the register that clamp reads held 0 |
| Deskew.ClampCostsGroup | hps_isw_handoff/soc_system_hps_0/sequencer.c:5359-5361 | for a second read group with two given eyes, any run programs bit 1 short of the end of its chain and fails, while the end of the chain would pass |
| Deskew.ClampExample | hps_isw_handoff/soc_system_hps_0/sequencer.c:5094-5443 | that case arises from a read deskew of real registers |
| Deskew.RejectionMovesDqs | hps_isw_handoff/soc_system_hps_0/sequencer.c:7332-7410 | a rejected group recorded a tap of the right sweep, so DQS is where it started exactly if it started at the end of its chain |
| Deskew.CentreBits | hps_isw_handoff/soc_system_hps_0/sequencer.c:5300-5396 | the centring loop programs every register by the rule and exports the least of the margins the bits really have there |
| Deskew.FindSmallestOffset | hps_isw_handoff/soc_system_hps_0/sequencer.c:5301-5309 | the index of a bit whose offset is minimal |
| Deskew.DeskewGroup | hps_isw_handoff/soc_system_hps_0/sequencer.c:5128-5443 | the shared scheme: rejection names the first bit without an edge with DQ delays at 0, acceptance programs registers and margins by the rule; other pins are untouched |
| Deskew.VfifoCenter | hps_isw_handoff/soc_system_hps_0/sequencer.c:5094-5443 | read deskew from any start: sweeps exact, delays in their chains; rejected, DQS is restored; centred, DQS has moved from its start by half the smallest offset, rounded up, as far as its chain goes; other pins untouched; success if and only if every bit passes as programmed |
| Deskew.WritesDq | hps_isw_handoff/soc_system_hps_0/sequencer.c:7258-7494 | the DQ half of write deskew: the same verdict; accepted, DQS is back where it started and every bit at the best delay of its chain; rejected, DQS is where the right sweep left it, which is its start only at the end of the chain; other pins untouched |
| Deskew.WritesCenter | hps_isw_handoff/soc_system_hps_0/sequencer.c:7258-7762 | both halves of write deskew: on window-shaped eyes success if and only if every DQ bit passes as programmed and a usable mask run exists; the mask test then passes where the delay was put |
| DataMask.CentreDm | hps_isw_handoff/soc_system_hps_0/sequencer.c:7645-7762 | the window used is the leftmost longest passing run of the joined axis, DQS is put back, the delay is inside its chain, and the margin is nonnegative if and only if the delay lies in the window, and if and only if some run that starts at a mask delay is no shorter than every run beyond the origin; the delay is the middle of the window, rounded down, and 0 if the middle lies beyond the origin |
| DataMask.SearchDqs | hps_isw_handoff/soc_system_hps_0/sequencer.c:7698-7734 | no run that ends in the DQS phase beats the best window, although the search may have left early |
| DataMask.DmStep | hps_isw_handoff/soc_system_hps_0/sequencer.c:7658-7684 | one tap of the first phase keeps the best window best and the current run maximal |
| DataMask.DqsStep | hps_isw_handoff/soc_system_hps_0/sequencer.c:7705-7734 | the same in the second phase, where a run from before the origin counts the origin once |
| DataMask.JoinAtOrigin | hps_isw_handoff/soc_system_hps_0/sequencer.c:7691-7696 | exactly the run that touches delay 0 is carried into the DQS phase |
| DataMask.ExitIsSafe | hps_isw_handoff/soc_system_hps_0/sequencer.c:7729-7732 | once the early exit fires no run in the rest of the chain can be longer than the best one |
| DataMask.MarginMeansPass | hps_isw_handoff/soc_system_hps_0/sequencer.c:7747-7762 | on a steady interface a nonnegative margin means that the mask test passes at the programmed delay |
| DataMask.UsableIff | hps_isw_handoff/soc_system_hps_0/sequencer.c:7645-7762 | for any oracle: the search ends on a window that starts at a mask delay if and only if such a run exists that no run beyond the origin exceeds |
| DataMask.UsableDelayMissed | hps_isw_handoff/soc_system_hps_0/sequencer.c:7698-7762 | a steady interface on which mask delay 2 works and the search fails |
| DataMask.SucceedsIffPossible | hps_isw_handoff/soc_system_hps_0/sequencer.c:7645-7762 | with a single window the mask centring succeeds if and only if some mask delay passes at all |
| PassMasks.RankMask | hps_isw_handoff/soc_system_hps_0/sequencer.c:3793-3813 | the shift-and-or loop sets a bit exactly if some group reports it clean at its place |
| PassMasks.Test | hps_isw_handoff/soc_system_hps_0/sequencer.c:6425-6473 | for any layout: a mask bit is set exactly if every rank that is not skipped sets it; the two verdicts are "all bits" and "some bit" |
| PassMasks.ExactIff | hps_isw_handoff/soc_system_hps_0/sequencer.c:718-721 | a layout shows the clean bits of all error words correctly if and only if the mask is as wide as a group, or there is one group and the mask is no narrower |
| PassMasks.ReadTest | hps_isw_handoff/soc_system_hps_0/sequencer.c:3762-3836 | bit vg*w+k is set exactly if bit k of group vg is clean on every rank that is not skipped; the verdicts quantify over those bits of the error words |
| DqsEnable.CentreWindow | hps_isw_handoff/soc_system_hps_0/sequencer.c:4549-4580 | phase and delay taps are in range and phase is never 0; less some whole VFIFO cycles the middle of the window lies above the phase taps by at most one, and the delay taps are the fewest that reach it; within one phase tap, phase 1 stands alone |
| DqsEnable.ReducedByCycles | hps_isw_handoff/soc_system_hps_0/sequencer.c:4553-4556 | the reduced middle differs from the middle by whole VFIFO cycles |
| DqsEnable.CentreIsInWindow | hps_isw_handoff/soc_system_hps_0/sequencer.c:4549-4580 | with the right VFIFO count the point programmed lies in the working window if that is two taps wide |
| Calibrate.Sequencer.RunLfifo | hps_isw_handoff/soc_system_hps_0/sequencer.c:6159-6219 | succeeds exactly if the initial latency passes; then the latency set is one above the lowest of the unbroken passing run, never more than initial plus one |
| Calibrate.LowestOfRunMeans | hps_isw_handoff/soc_system_hps_0/sequencer.c:6163-6179 | the search's lower end: everything from it to the start passes, and the latency below it fails or is 0 |
| Calibrate.LowestIsMinimum | hps_isw_handoff/soc_system_hps_0/sequencer.c:6141-6205 | if more latency never hurts, it is the smallest latency that works |
| Calibrate.Sequencer.SetFailing | hps_isw_handoff/soc_system_hps_0/sequencer.c:591-611 | the record stays the first failure noted |
| Calibrate.Sequencer.RunGroups | hps_isw_handoff/soc_system_hps_0/sequencer.c:9208-9403 | succeeds exactly if no group fails; attempts a prefix of the groups not skipped, all of them with the sweep-all flag, otherwise up to the first that fails; notes failures in order |
| Calibrate.Sequencer.MemCalibrate | hps_isw_handoff/soc_system_hps_0/sequencer.c:9169-9413 | for every pattern of stage outcomes: returns 1 exactly if no group fails and the latency search passes or is bypassed; the record holds the first note of the first stage that is not clean, taking groups in order and within a group first read stages, writes, last read stages, with its number and group, then the latency search; it is empty exactly after a success in which no stage recovered from a noted failure |
| Calibrate.EachOnce | hps_isw_handoff/soc_system_hps_0/sequencer.c:9206-9232 | the groups attempted in full are the ones not skipped, each once, in order |
| Calibrate.EmptyRecordIffCalibrated | hps_isw_handoff/soc_system_hps_0/sequencer.c:591-611 | where no stage that runs recovers from a noted failure, the record is empty if and only if calibration succeeds |
| Calibrate.RecordIsEmptyIff | hps_isw_handoff/soc_system_hps_0/sequencer.c:591-611 | for every pattern of outcomes: the record is empty if and only if calibration succeeds and no stage that ran recovered from a failure it had noted |
| Calibrate.RecordFollowsStages | hps_isw_handoff/soc_system_hps_0/sequencer.c:9208-9415 | the first failure noted by any run, by the outcomes of its stages and their order alone |
| Calibrate.RecordIsUnique | hps_isw_handoff/soc_system_hps_0/sequencer.c:9208-9415 | the cases of that description are all there are, and they determine the record |
| Calibrate.RecordOutlivesRecovery | hps_isw_handoff/soc_system_hps_0/sequencer.c:5748-6009 | a successful calibration leaves a failure on record exactly if a stage of some group that was not skipped recovered from one |
| Calibrate.SuccessWithErrorStage | hps_isw_handoff/soc_system_hps_0/sequencer.c:5748-6009 | a calibration that succeeds with an error stage on record |
| CentreStages.NotedNamesGroupIff | hps_isw_handoff/soc_system_hps_0/sequencer.c:5285-5297 | the number noted for a rejected deskew is that of the group at fault if and only if it is pin 0 of group 0, or pin 0 with one pin to a group |
| CentreStages.NotedIsGroupNumberIff | hps_isw_handoff/soc_system_hps_0/sequencer.c:591-593 | when the number noted is a group number at all, as the callee asserts; as configured only for pins 0 to 3 of group 0 |
| CentreStages.EndOfReads | hps_isw_handoff/soc_system_hps_0/sequencer.c:6091-6137 | the last read stage: what it notes, in which order, and that on window-shaped eyes it succeeds if and only if every pin passes as programmed; the record it leaves when it is the first to fail, by stage, substage and number |
| CentreStages.Writes | hps_isw_handoff/soc_system_hps_0/sequencer.c:8133-8155 | the write stage, likewise, with the mask |
| CentreStages.CalibratedGroupsWork | hps_isw_handoff/soc_system_hps_0/sequencer.c:9208-9415 | if the write and last read stages of a successful calibration ran on stable eyes, every pin of every group not skipped passes at the delays left behind, for reads, writes and the mask |
| Microcode.Loop | hps_isw_handoff/soc_system_hps_0/sequencer.c:2039-2041 | a loop closed by a reloading counter jump runs one pass more than its counter, for any body that takes a fixed time and any nesting |
| Microcode.InitTiming | hps_isw_handoff/soc_system_hps_0/sequencer.c:2364-2398 | interpreting the ROM rows takes exactly the number of cycles the source's comment gives, for all counter values |
| Microcode.ReturnIsUnique | hps_isw_handoff/soc_system_hps_0/sequencer_auto_inst_init.c:145-158 | a program's running time is determined by where it starts |
| Microcode.ConfiguredWaits | hps_isw_handoff/soc_system_hps_0/sequencer_defines.h:153-160 | with the configured counters any return comes after 218923 and 221112 cycles, enough for 200 us and 500 us |
| Microcode.IdleLoop2 | hps_isw_handoff/soc_system_hps_0/sequencer.c:2043-2056 | the nested idle rows take the product of both counters plus one, and one cycle more an outer pass |
| Microcode.ChooseCounters | hps_isw_handoff/soc_system_hps_0/sequencer.c:2033-2056 | no 8- or 16-bit narrowing loses a value; the idle loops run at least as often as asked, exactly up to 256, then over by less than 256 or 65536 |
| Microcode.RwManager.DelayForNMemClocks | hps_isw_handoff/soc_system_hps_0/sequencer.c:2019-2085 | unless delays are skipped, the wait runs the one-loop program, the nested program, or the nested program over and over, for the cycles of the chosen idle loops, for every 32-bit clock count |
| Microcode.WaitCycles | hps_isw_handoff/soc_system_hps_0/sequencer.c:2026-2041 | the whole wait is longer than asked for, by less than a block and its overhead |
| Microcode.RwManager.MemInitialize | hps_isw_handoff/soc_system_hps_0/sequencer.c:2364-2403 | runs exactly the program that holds reset for 218923 cycles, then the one that has released it for 221112, then 251 cycles of idle; that is 200 us in reset and 500 us after it before the clock |
| Mailbox.Safety | hps_isw_handoff/soc_system_hps_0/tclrpt.c:613-731 | in every interleaving of host and firmware writes, commands are handled in order, each once and with its own parameter, and answered rightly before the next is issued |
| Mailbox.ParamsFollowCommands | hps_isw_handoff/soc_system_hps_0/tclrpt.c:672-775 | in every reachable state a group is marked exactly if an accepted command 15 named it after the last 14, or it was marked at the start and no 14 came; likewise ranks by 18 and 17 and the flags by 21 to 24; every answer follows from number and range of its command |
| Mailbox.NothingIsLost | hps_isw_handoff/soc_system_hps_0/tclrpt.c:613-731 | between transactions everything issued was handled, answered and seen, and no acknowledge was taken for a command |
| Mailbox.RequestIsAnswered | hps_isw_handoff/soc_system_hps_0/tclrpt.c:648-731 | however the steps interleave, a request is answered by the time the firmware has taken seven steps |
| Mailbox.SwappedOrderLosesRequests | hps_isw_handoff/soc_system_hps_0/tclrpt.c:613-622 | with the two writes in the other order a run exists in which a request is wiped out and never answered |
| Mailbox.PolledForEver | hps_isw_handoff/soc_system_hps_0/tclrpt.c:680-682 | with the writes swapped, a firmware whose request word was overwritten polls on for ever and handles nothing |
| ShaPadding.Padding | Soft/SHA_256.h:134-257 | for every message and any stale buffer and local: the words and block count it leaves, and for lengths 0..887 and 898..951 the words of the byte string the standard prescribes |
| ShaPadding.PackBytes | Soft/SHA_256.h:139-157 | the bytes are packed big-endian, words behind the last are untouched |
| ShaPadding.RightExactlyInRange | Soft/SHA_256.h:174-256 | the standard is met, whatever memory held before, if and only if the length is in one of the two ranges |
| ShaPadding.WrongIn888To897 | Soft/SHA_256.h:241-256 | in the gap the buffer is wrong on every run |
| ShaPadding.BlocksIsLeast | Soft/SHA_256.h:174-251 | the block count is the least that has room for the message, the one bit and the length |
| ShaPadding.PaddedAbc | Soft/SHA_256.h:139-257 | the sixteen words of the padded message "abc", as the standard prints them |
| ShaPadding.MessageIsRecoverable | Soft/SHA_256.h:144-172 | messages with the same padded words are the same |
| I2cMaster.Device.Transact | I2C_Opencore_software/main.c:281-346 | for every stream of status reads: it returns if and only if the stream begins with the answers of a complete call, which it has then read and no more, and otherwise runs the stream out; the log is the initial wait, the abandoned attempts and one good attempt, `bad_cycle_term` having grown by the abandoned ones; `busy_on_entry` by the bus-clearing turns |
| I2cMaster.Device.Write | I2C_Opencore_software/main.c:218-275 | for every stream of status reads: it returns if and only if the stream begins with the answers of a complete call, which it has then read and no more, and otherwise runs the stream out; the log is the initial wait, the abandoned attempts and one good attempt, `bad_cycle_term` having grown by the abandoned ones; whoever watches the accesses sees, last, the write address with START and the data with STOP, each ended with the required bits, and the bus released |
| I2cMaster.Device.WriteReg | I2C_Opencore_software/main.c:277-346 | for every stream of status reads: it returns if and only if the stream begins with the answers of a complete call, which it has then read and no more, and otherwise runs the stream out; the log is the initial wait, the abandoned attempts and one good attempt, `bad_cycle_term` having grown by the abandoned ones; whoever watches the accesses sees, last, the write address with START, the register, and the data with STOP, in that order, each ended with the required bits, and the bus released |
| I2cMaster.Device.Read | I2C_Opencore_software/main.c:348-405 | for every stream of status reads: it returns if and only if the stream begins with the answers of a complete call, which it has then read and no more, and otherwise runs the stream out; the log is the initial wait, the abandoned attempts and one good attempt, `bad_cycle_term` having grown by the abandoned ones; whoever watches the accesses sees, last, the read address with START, and a read with STOP that is not acknowledged, each ended with the required bits, and the bus released |
| I2cMaster.Device.ReadReg | I2C_Opencore_software/main.c:407-490 | for every stream of status reads: it returns if and only if the stream begins with the answers of a complete call, which it has then read and no more, and otherwise runs the stream out; the log is the initial wait, the abandoned attempts and one good attempt, `bad_cycle_term` having grown by the abandoned ones; whoever watches the accesses sees, last, the write address with START, the register, the read address with a repeated START, and a read with STOP that is not acknowledged, each ended with the required bits, and the bus released |
| I2cMaster.CallIsDecided | I2C_Opencore_software/main.c:218-490 | the stream of status reads decides the whole call: attempts, turns and ends are those of the only complete call it begins with |
| I2cMaster.CallsAreDisciplined | I2C_Opencore_software/main.c:277-490 | an observer of the log sees no command before the previous one settled, a START only after a read that said the bus is free or while the master holds it, and at the end the whole script, every phase ended with the required bits |
| I2cMaster.CallEnds | I2C_Opencore_software/main.c:218-490 | a call on any script that ends in STOP ends, for every observer, with exactly the commands of the script and a released bus |
| I2cMaster.RoutinesAreScripts | I2C_Opencore_software/main.c:246-486 | the four routines are scripts the discipline covers |
| I2cMaster.AddressByteIff | I2C_Opencore_software/main.c:377-377 | the byte sent carries address and direction exactly for 7-bit addresses (section 3.1.10 of UM10204) |
| StorageEnum.Api.StorGet | software/spl_bsp/uboot-socfpga/api/api_storage.c:116-177 | what the cookie becomes, when a device is reported, and when the hint for more is given |
| StorageEnum.Api.StorType | software/spl_bsp/uboot-socfpga/api/api_storage.c:183-193 | the group a device sits in, if any |
| StorageEnum.Api.EnumStor | software/spl_bsp/uboot-socfpga/api/api_storage.c:205-296 | one group, in each case of cookie and flags: start with the first device, go on to the next slot, or refuse; other groups untouched |
| StorageEnum.Api.EnumStorage | software/spl_bsp/uboot-socfpga/api/api_storage.c:308-321 | from any cookie and flags: a device it reports is active and in a group; resumed after any group it reports exactly the next group with an active first device |
| StorageEnum.Api.DevEnum | software/spl_bsp/uboot-socfpga/api/api.c:214-244 | from any cookie and flags: it leaves none, the network device, or a storage device that can be opened; started afresh or resumed it goes through the network device, then groups in order, then nothing |
| StorageEnum.Api.OpenStor | software/spl_bsp/uboot-socfpga/api/api_storage.c:336-347 | a cookie is accepted if and only if it names an active storage device |
| StorageEnum.Api.EnumerateAll | software/spl_bsp/uboot-socfpga/api/api.c:214-244 | called until nothing is left it reports the specified list and ends within groups plus two calls |
| StorageEnum.ReportedInOrder | software/spl_bsp/uboot-socfpga/api/api_storage.c:308-321 | groups are reported in strictly increasing order, no device twice |
| StorageEnum.ReportedGroup | software/spl_bsp/uboot-socfpga/api/api_storage.c:323-347 | every device reported sits in a group and is active, so opening it succeeds |
| StorageEnum.CompleteIff | software/spl_bsp/uboot-socfpga/api/api_storage.c:116-177 | all active devices are reported if and only if each is the first of its group |
| RsaKey.Convert | Soft/RSA.h:163-178 | with 32-bit wrap-around word k becomes the value of the k-th eight digits from the end |
| RsaKey.Power | Soft/RSA.h:154-161 | the n-th power |
| RsaKey.NumberIsValue | Soft/RSA.h:132-178 | for lower-case hexadecimal keys the words make the number the key denotes |
| RsaKey.RoundTripIff | Soft/RSA.h:80-178 | printing gives the key back if and only if all its characters are lower-case digits |
| RsaKey.ConvertAndShow | Soft/RSA.h:80-178 | the two routines one after the other: both statements for every 256-character key |
| RsaKey.ShowResult | Soft/RSA.h:80-87 | words from the most significant down, eight digits each |

## Left out

- Memory mapping, UART and SPI pokes, file I/O, threads and the LED switch: plumbing, or a small table.
- The AES, RSA and SHA cores: hardware of which only registers are visible.
- Sequencer code outside the configured build, mode registers, ODT masks, controller set-up: constants and straight-line writes.
- Steps 1 to 5 of the DQS-enable search: step 6 takes their result as a window that starts at one phase tap or later.
- Register loading: a delay counts as in effect once its register is written; the separate load and update strobes are not modelled.
- Debug reports, figures of merit, and the copies of edges kept for them.
- Analog noise beyond a fresh answer for each sweep: one setting is tested once a sweep, so one oracle a sweep covers any noise.
- Calibrate.Sequencer.MemCalibrate: stages are outcomes with the notes their parts leave; how a stage comes to its outcome is modelled for the write stage and the last read stage (`CentreStages`), not for the first read stage with its searches for phase and DQS enable.
- CentreStages.EndOfReads: one shadow register, not skipped; that later stages leave the delays of a finished group alone is taken from the source's order of stages.
- Calibrate.Sequencer.RunLfifo: the read test is a function of the latency.
- PassMasks.Test: the error word is a function of rank and virtual group; counters and jump addresses of the issued read or write program are not modelled.  A pin count that is no multiple of the number of virtual groups leaves the pins beyond the last full group in no group; PassMasks.ReadTest takes it to be a multiple, and both need the mask to fit in 32 bits.
- Deskew.VfifoCenter: answers of the write test after a write deskew are one more oracle; the shift that picks a read group's bits out of it is not modelled.
- Deskew.WritesCenter: the recovery command after a failing mask test has no effect here.
- Microcode.InitTiming: the fields of an instruction word (return bit, jump bit, counter number) and the rule that a jump tests before it counts are assumptions from the source's comments; the sequencer's hardware is not part of the repository.
- Mailbox.Safety: the host's program is not in the repository; it is assumed to request only after it saw READY and to acknowledge only after it saw a response.  The command that updates parameters leaves the loop and is excluded.  Calibration itself, and commands that write single delay chains, are not modelled; the loop is compiled only without the hard processor system.
- ShaPadding.Padding: `char` is an unsigned byte, as on ARM; lengths are such that eight times the length fits an `int`; the buffer is long enough for the writes.
- I2cMaster.Device.Transact: the four routines are one loop over their list of phases; a call that has not returned yet is a stream of reads that ran out.
- StorageEnum.Api.EnumerateAll: the calling loop is a client's; device details other than the cookie are left out, and devices in two slots are excluded.
- RsaKey.Convert: a digit product beyond the range of `int` wraps around to 32 bits.
