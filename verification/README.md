# LimeSDR-QPCIe firmware: verified models

Models of the state-heavy parts of the LimeSDR-QPCIe firmware, with proofs of what they promise. Check the whole
project with `dafny verify dfyconfig.toml`.

**DDR3 calibration** (`sequencer.c`, in the build its defines select: DDR3, Cyclone V, hard PHY, full rate, one
rank, phase 0 of the DQS enable never used, DQS centring on input and not on output).

- `Windows`, `DelayChains`, `Centering`, `WritePath`: per-bit read and write deskew. Each bit's memory test passes on
  an interval of skew, (DQS delay) - (DQ delay); the hardware test is a function of the delay registers. A bit may be
  marginal: its top setting passes in the left sweep and fails in the right one, which is what the code's rule for a
  failing setting 0 is for. The main results say what is in the registers afterwards and exactly when centring
  succeeds.
- `DataMask`: the data-mask search, for an arbitrary pass pattern.
- `DqsEnable`: the FIFO ring, the search for the first edge, the window around it, and the encoding of its centre;
  when the search succeeds, how it fails otherwise, and that it has one way to go.
- `GroupPath`: these stages one after another on the registers of a group, and exactly when they succeed.
- `Calibration`, `Delay`: which failure a run records, the search over output settings, the read latency, and the idle
  loops.

**The HAL** (`nios4usb_bsp/HAL/src`).

- `Alarms`, `AlarmList`: the alarm scheduler on a wrapping 32-bit counter refines one on an unbounded clock.
- `Files`, `FileLaws`, `FileTable`: the descriptor table, its allocator and its exclusive lock.
- `Numerals`, `LogPrintf`, `Formats`, `AltPrintf`: the two integer printers; what they print reads back, and what every
  format string prints.
- `TimeOfDay`: setting and reading the clock.

**The application** (`nios4usb_app`).

- `Tamer`: the oscillator tamer's control register and the tuning states of the main loop.

Code that works in place is modelled in place (classes over arrays and fields, with the source's loops), each method
tied to functions of its inputs or old state; the properties of whole runs are lemmas about those functions. `CInt`
holds C's integer arithmetic where it differs from Dafny's.

## What the code does not promise

Found false or weaker than documented, each stated exactly:

- Starting an alarm with a delay of 2^32 - 1 makes it fire at the next tick, unless the counter is at its last value
  (`Alarms.StartMatchesIff`).
- `settimeofday` multiplies ticks in 32 bits, so a clock set after the product wraps is off for good
  (`TimeOfDay.ReadingExactIff`, `TimeOfDay.SlipsAfterAnHour`); and it is exact only at rates that divide a million
  (`TimeOfDay.RateExactIff`), at others being up to a second ahead even at whole seconds (`TimeOfDay.WholeSeconds`).
- `alt_fd_lock` stops its scan one short of the high-water mark, against its documentation, so a lock may be granted
  while another descriptor is open (`Files.GrantIsExclusiveIff`, `Files.GrantNotExclusive`). Closing releases a lock
  except on the reserved descriptors (`Files.CloseReleasesLockIff`, `Files.ReservedLockStays`), and `fcntl` sets flags
  of free slots (`Files.RunClearIff`, `Files.SetFlOnFreeIff`).
- The logging printf reads a precision and ignores it, which the standard does not (`LogPrintf.PrecisionIgnoredIff`,
  `LogPrintf.DirectiveStandardIff`, `LogPrintf.StringPrecisionIff`, `LogPrintf.PrecisionLost`).
- The data-mask search may settle on a run no DM delay can reach (`DataMask.UnusableIff`,
  `DataMask.LongestMayBeUnusable`).
- The upper clamp of read deskew reads the DQ register numbered by the bit, not by the pin. The delay is then the
  centred one only if that register holds 0 (`Centering.GivenIsCentredIff`), as it does where pins are numbered from 0:
  in this build, which has one read group to a write group. With more, a bit that would pass can be put outside its
  window (`Centering.MisreadSpoils`), and centring then reports failure.
- From a first edge at phase 1, the end of the DQS-enable window is counted one phase short, and from no other, which
  moves the centre half a phase (`DqsEnable.Strobe.EndCountedIff`, `DqsEnable.Strobe.WindowCutShort`). The assertion on the length of the delay chain is one step too weak
  (`DqsEnable.Strobe.CheckIsOneShort`).
- An output phase may leave the DQS input delay where later phases skip settings that work
  (`Calibration.Calibrator.CarriedIff`, `Calibration.Calibrator.WorkingSettingMissed`).
- An interrupt bit seen while the tamer is disabled starts its tuning (`Tamer.StepFitsIff`).

## Model

| member | source | states |
|---|---|---|
| `Centering.CentreReads` | limesdr-qpcie-lms7_trx/ip/ddr3_av_2x32/ddr3_av_2x32/ddr3_av_2x32_s0_software/sequencer.c:5094-5443 | on success every bit passes at the DQ and DQS delays left in the registers, without a marginal top setting if its window reaches the starting delay; the failing bit is the first with no passing position in the swept range, and then the DQS delay is restored; otherwise every register holds the value given, clamps included, for any numbering of the pins, and success is exactly that every bit lies within its observed edges; every register stays in range and pins outside the group are untouched |
| `Centering.CentreWrites` | limesdr-qpcie-lms7_trx/ip/ddr3_av_2x32/ddr3_av_2x32/ddr3_av_2x32_s0_software/sequencer.c:7228-7498 | the same for the DQ part of write centring, where the strobe stays put and there is one clamp |
| `WritePath.CentreGroupWrites` | limesdr-qpcie-lms7_trx/ip/ddr3_av_2x32/ddr3_av_2x32/ddr3_av_2x32_s0_software/sequencer.c:7228-7943 | the whole of write centring: success exactly when the data margins hold and the mask pin's best run begins at or left of zero skew; then all data bits and the mask pin pass where they are left |
| `GroupPath.CalibrateGroup` | limesdr-qpcie-lms7_trx/ip/ddr3_av_2x32/ddr3_av_2x32/ddr3_av_2x32_s0_software/sequencer.c:9234-9330 | one group's stages without retries succeed exactly when an enable setting is found and every centring can succeed, judged by the windows and registers at the start: the reads by the read test from the starting DQS delay, the writes and the mask pin, and the reads again by the write test from the delay the first centring leaves; then read bits, write bits and mask pin pass the write test where they are left |
| `GroupPath.EnableAndRead` | limesdr-qpcie-lms7_trx/ip/ddr3_av_2x32/ddr3_av_2x32/ddr3_av_2x32_s0_software/sequencer.c:5920-5950 | the search for an enable setting and the first read centring: success exactly when both succeed, the course of the search given |
| `GroupPath.FindEnable` | limesdr-qpcie-lms7_trx/ip/ddr3_av_2x32/ddr3_av_2x32/ddr3_av_2x32_s0_software/sequencer.c:5044-5088 | the DQ delays are spread for the search and back at 0 after it, whatever it finds; other pins are untouched |
| `GroupPath.Stagger` | limesdr-qpcie-lms7_trx/ip/ddr3_av_2x32/ddr3_av_2x32/ddr3_av_2x32_s0_software/sequencer.c:5053-5066 | each bit's delay while searching, spread over the chain and within its range |
| `GroupPath.StaggeredEvenly` | limesdr-qpcie-lms7_trx/ip/ddr3_av_2x32/ddr3_av_2x32/ddr3_av_2x32_s0_software/sequencer.c:5053-5066 | the delays start at 0 and are evenly spaced, in the largest steps that keep the last bit within the chain |
| `GroupPath.ReadBits` | limesdr-qpcie-lms7_trx/ip/ddr3_av_2x32/ddr3_av_2x32/ddr3_av_2x32_s0_software/sequencer.c:5094-5443 | read centring succeeds exactly when every bit has a position and can be put inside its edges, in terms of windows, starting delay and registers before; and the DQS delay it then leaves |
| `GroupPath.WriteBits` | limesdr-qpcie-lms7_trx/ip/ddr3_av_2x32/ddr3_av_2x32/ddr3_av_2x32_s0_software/sequencer.c:7228-7943 | write centring succeeds exactly when every data bit and the mask pin can be centred, in terms of windows, pass pattern and starting delay |
| `GroupPath.ReadAgain` | limesdr-qpcie-lms7_trx/ip/ddr3_av_2x32/ddr3_av_2x32/ddr3_av_2x32_s0_software/sequencer.c:6091-6137 | the second read centring, by the write test, on the same exact condition |
| `GroupPath.MisreadBelow` | limesdr-qpcie-lms7_trx/ip/ddr3_av_2x32/ddr3_av_2x32/ddr3_av_2x32_s0_software/sequencer.c:5359-5360 | what the upper clamp wrongly reads depends only on registers of pins before the group's |
| `Centering.ReadsSucceedIff` | limesdr-qpcie-lms7_trx/ip/ddr3_av_2x32/ddr3_av_2x32/ddr3_av_2x32_s0_software/sequencer.c:5300-5379 | given a window for each bit, read centring succeeds exactly when no bit's edges cross and, where the upper DQ clamp fires, the right edge can be reached with what the clamp gives; in terms of the edges, the starting delay and the registers before, for any numbering of the pins |
| `Centering.WritesSucceedIff` | limesdr-qpcie-lms7_trx/ip/ddr3_av_2x32/ddr3_av_2x32/ddr3_av_2x32_s0_software/sequencer.c:7414-7491 | write centring succeeds exactly when no bit's edges cross and none lies wholly right of zero skew |
| `Centering.ReadBitCentredIff` | limesdr-qpcie-lms7_trx/ip/ddr3_av_2x32/ddr3_av_2x32/ddr3_av_2x32_s0_software/sequencer.c:5321-5379 | saturating the strobe is exactly made up by the DQ delay unless the upper DQ clamp binds; and when a bit centred so ends inside its edges |
| `Centering.StrobeLeaves` | limesdr-qpcie-lms7_trx/ip/ddr3_av_2x32/ddr3_av_2x32/ddr3_av_2x32_s0_software/sequencer.c:5321-5363 | what the strobe's move leaves for a bit's own delay is never negative, so the lower DQ clamp never binds |
| `Centering.NeverTooLate` | limesdr-qpcie-lms7_trx/ip/ddr3_av_2x32/ddr3_av_2x32/ddr3_av_2x32_s0_software/sequencer.c:5323-5328 | the DQS delay never saturates high |
| `Centering.StrobeMovesMost` | limesdr-qpcie-lms7_trx/ip/ddr3_av_2x32/ddr3_av_2x32/ddr3_av_2x32_s0_software/sequencer.c:5321-5328 | unless the strobe ends at 0, some bit is left nothing to do: it makes as much of the move as it can |
| `Centering.GivenIsCentredIff` | limesdr-qpcie-lms7_trx/ip/ddr3_av_2x32/ddr3_av_2x32/ddr3_av_2x32_s0_software/sequencer.c:5359-5360 | a bit gets its centred delay exactly when the upper clamp does not fire or the register it wrongly reads holds 0, so always when pins are numbered from 0 |
| `Centering.MisreadSpoils` | limesdr-qpcie-lms7_trx/ip/ddr3_av_2x32/ddr3_av_2x32/ddr3_av_2x32_s0_software/sequencer.c:5359-5360 | a second read group in which a bit that would pass with the largest delay is put outside its edges |
| `Centering.WriteBitCentredIff` | limesdr-qpcie-lms7_trx/ip/ddr3_av_2x32/ddr3_av_2x32/ddr3_av_2x32_s0_software/sequencer.c:7451-7491 | for writes the upper DQ clamp never binds; when a bit ends inside its edges |
| `Centering.OffsetBalanced` | limesdr-qpcie-lms7_trx/ip/ddr3_av_2x32/ddr3_av_2x32/ddr3_av_2x32_s0_software/sequencer.c:5301-5379 | the minimum-index rounding moves each bit by half its own left-right distance, an odd one rounded up exactly when the least distance is odd, so its two margins differ by at most one |
| `Centering.InsideMeansPassing` | limesdr-qpcie-lms7_trx/ip/ddr3_av_2x32/ddr3_av_2x32/ddr3_av_2x32_s0_software/sequencer.c:5373-5378 | a swept skew lies within the observed edges exactly when the bit passes there |
| `Centering.EdgeBounds` | limesdr-qpcie-lms7_trx/ip/ddr3_av_2x32/ddr3_av_2x32/ddr3_av_2x32_s0_software/sequencer.c:5138-5260 | observed edges lie in the swept range, and cross only for a marginal one-setting window |
| `Centering.FindWindows` | limesdr-qpcie-lms7_trx/ip/ddr3_av_2x32/ddr3_av_2x32/ddr3_av_2x32_s0_software/sequencer.c:5130-5298 | both sweeps and the window check: edges are the windows cut to the swept range, the failing bit is the first without one |
| `Centering.CheckWindows` | limesdr-qpcie-lms7_trx/ip/ddr3_av_2x32/ddr3_av_2x32/ddr3_av_2x32_s0_software/sequencer.c:5274-5298 | the check for illegal edge values finds exactly the first bit no swept setting passes |
| `Centering.FindMinMid` | limesdr-qpcie-lms7_trx/ip/ddr3_av_2x32/ddr3_av_2x32/ddr3_av_2x32_s0_software/sequencer.c:5300-5309 | the first bit with the least left-right difference |
| `Centering.Align` | limesdr-qpcie-lms7_trx/ip/ddr3_av_2x32/ddr3_av_2x32/ddr3_av_2x32_s0_software/sequencer.c:5348-5379 | each bit gets the delay the code gives it, clamps and misread register included; both margins are non-negative exactly when all bits are inside their edges |
| `Centering.AlignBit` | limesdr-qpcie-lms7_trx/ip/ddr3_av_2x32/ddr3_av_2x32/ddr3_av_2x32_s0_software/sequencer.c:5353-5378 | one bit of the alignment, its exact delay when the upper clamp reads the register with the wrong number included |
| `Centering.ReadsRegister` | limesdr-qpcie-lms7_trx/ip/ddr3_av_2x32/ddr3_av_2x32/ddr3_av_2x32_s0_software/sequencer.c:5359-5360 | what the register numbered by the bit holds when that bit is aligned: another group's delay, an earlier bit's, or 0 |
| `Centering.OffsetFromMin` | limesdr-qpcie-lms7_trx/ip/ddr3_av_2x32/ddr3_av_2x32/ddr3_av_2x32_s0_software/sequencer.c:5355 | truncating division in the shift is rounding down, because differences from the minimum are never negative |
| `Centering.SettleReads` | limesdr-qpcie-lms7_trx/ip/ddr3_av_2x32/ddr3_av_2x32/ddr3_av_2x32_s0_software/sequencer.c:5300-5443 | from edges to registers, in the read direction |
| `Centering.SettleWrites` | limesdr-qpcie-lms7_trx/ip/ddr3_av_2x32/ddr3_av_2x32/ddr3_av_2x32_s0_software/sequencer.c:7413-7498 | from edges to registers, in the write direction |
| `Centering.MoveStrobe` | limesdr-qpcie-lms7_trx/ip/ddr3_av_2x32/ddr3_av_2x32/ddr3_av_2x32_s0_software/sequencer.c:5323-5328 | the new DQS delay is the wanted one, clamped to its range |
| `Centering.RoundUp` | limesdr-qpcie-lms7_trx/ip/ddr3_av_2x32/ddr3_av_2x32/ddr3_av_2x32_s0_software/sequencer.c:5311-5316 | adding one to positive values before truncating halves rounds up for both signs |
| `Windows.EdgesAreExact` | limesdr-qpcie-lms7_trx/ip/ddr3_av_2x32/ddr3_av_2x32/ddr3_av_2x32_s0_software/sequencer.c:5138-5298 | after both sweeps a bit has two real edges exactly when some swept setting passes it, and then they are the ends of its window cut to the swept range, wherever the window lies |
| `Windows.LeftStepKeeps` | limesdr-qpcie-lms7_trx/ip/ddr3_av_2x32/ddr3_av_2x32/ddr3_av_2x32_s0_software/sequencer.c:5159-5172 | one setting of the left sweep keeps the record of what was seen, sentinels included |
| `Windows.LeftStopIsComplete` | limesdr-qpcie-lms7_trx/ip/ddr3_av_2x32/ddr3_av_2x32/ddr3_av_2x32_s0_software/sequencer.c:5144-5157 | stopping the left sweep early loses nothing |
| `Windows.RightStepKeeps` | limesdr-qpcie-lms7_trx/ip/ddr3_av_2x32/ddr3_av_2x32/ddr3_av_2x32_s0_software/sequencer.c:5232-5258 | one setting of the right sweep keeps the record, the marginal rule for setting 0 included |
| `Windows.RightStopIsComplete` | limesdr-qpcie-lms7_trx/ip/ddr3_av_2x32/ddr3_av_2x32/ddr3_av_2x32_s0_software/sequencer.c:5216-5230 | stopping the right sweep early loses nothing |
| `DelayChains.Group.LeftSweep` | limesdr-qpcie-lms7_trx/ip/ddr3_av_2x32/ddr3_av_2x32/ddr3_av_2x32_s0_software/sequencer.c:5130-5177 | the left sweep over a whole group: edges exact for each bit, DQ delays back at 0, other pins untouched |
| `DelayChains.Group.RightSweep` | limesdr-qpcie-lms7_trx/ip/ddr3_av_2x32/ddr3_av_2x32/ddr3_av_2x32_s0_software/sequencer.c:5178-5260 | the right sweep over a whole group, in either direction's variant |
| `DelayChains.Group.ResetUnseen` | limesdr-qpcie-lms7_trx/ip/ddr3_av_2x32/ddr3_av_2x32/ddr3_av_2x32_s0_software/sequencer.c:5179-5200 | right edges of bits never seen are forgotten; the mask starts with exactly the bits already settled |
| `DelayChains.Group.NoteLeft` | limesdr-qpcie-lms7_trx/ip/ddr3_av_2x32/ddr3_av_2x32/ddr3_av_2x32_s0_software/sequencer.c:5159-5172 | the loop over bits updates every bit's edges |
| `DelayChains.Group.NoteRight` | limesdr-qpcie-lms7_trx/ip/ddr3_av_2x32/ddr3_av_2x32/ddr3_av_2x32_s0_software/sequencer.c:5232-5258 | the loop over bits updates every bit's edges |
| `DelayChains.Group.StopRight` | limesdr-qpcie-lms7_trx/ip/ddr3_av_2x32/ddr3_av_2x32/ddr3_av_2x32_s0_software/sequencer.c:7351-7361 | the write direction's extra edge rule when the right sweep stops at once |
| `DelayChains.Group.StopLeft` | limesdr-qpcie-lms7_trx/ip/ddr3_av_2x32/ddr3_av_2x32/ddr3_av_2x32_s0_software/sequencer.c:5156-5158 | the early stop is complete for every bit of the group |
| `DelayChains.Group.SettledStep` | limesdr-qpcie-lms7_trx/ip/ddr3_av_2x32/ddr3_av_2x32/ddr3_av_2x32_s0_software/sequencer.c:5224-5225 | why a bit may be in the sticky mask |
| `DelayChains.Group.ApplyGroupDelay` | limesdr-qpcie-lms7_trx/ip/ddr3_av_2x32/ddr3_av_2x32/ddr3_av_2x32_s0_software/sequencer.c:5140 | the group's DQ delays are set, the others kept |
| `DataMask.CentreMask` | limesdr-qpcie-lms7_trx/ip/ddr3_av_2x32/ddr3_av_2x32/ddr3_av_2x32_s0_software/sequencer.c:7645-7766 | the two stitched sweeps with early exit find the first longest passing run of the whole range for every pass pattern; the margin is non-negative exactly when the delay left lies in that run, exactly when the run begins at or left of zero; then the test passes there; the delay is in range; a midpoint not right of zero is balanced, rounded right by at most half a step, and otherwise the delay is 0; the margin is the distance to the run's left end, or -1 without a run |
| `DataMask.SweepMask` | limesdr-qpcie-lms7_trx/ip/ddr3_av_2x32/ddr3_av_2x32/ddr3_av_2x32_s0_software/sequencer.c:7656-7693 | the descending DM sweep |
| `DataMask.SweepStrobe` | limesdr-qpcie-lms7_trx/ip/ddr3_av_2x32/ddr3_av_2x32/ddr3_av_2x32_s0_software/sequencer.c:7695-7730 | the ascending DQS sweep, early exit included, completes the search |
| `DataMask.StrobeStep` | limesdr-qpcie-lms7_trx/ip/ddr3_av_2x32/ddr3_av_2x32/ddr3_av_2x32_s0_software/sequencer.c:7696-7730 | one DQS setting; stopping there is complete |
| `DataMask.Note` | limesdr-qpcie-lms7_trx/ip/ddr3_av_2x32/ddr3_av_2x32/ddr3_av_2x32_s0_software/sequencer.c:7703-7722 | one test result, also when zero skew is measured a second time |
| `DataMask.EarlyExit` | limesdr-qpcie-lms7_trx/ip/ddr3_av_2x32/ddr3_av_2x32/ddr3_av_2x32_s0_software/sequencer.c:7724-7727 | the exit condition is sound |
| `DataMask.ExtendKeeps` | limesdr-qpcie-lms7_trx/ip/ddr3_av_2x32/ddr3_av_2x32/ddr3_av_2x32_s0_software/sequencer.c:7703-7717 | a passing setting extends the current run and the best one correctly |
| `DataMask.FailKeeps` | limesdr-qpcie-lms7_trx/ip/ddr3_av_2x32/ddr3_av_2x32/ddr3_av_2x32_s0_software/sequencer.c:7718-7722 | a failing setting ends the current run and leaves the best one |
| `DataMask.FirstLongestIsUnique` | limesdr-qpcie-lms7_trx/ip/ddr3_av_2x32/ddr3_av_2x32/ddr3_av_2x32_s0_software/sequencer.c:7711-7717 | the answer is determined by the pass pattern; its length is 0 exactly when nothing passes |
| `DataMask.LongestMayBeUnusable` | limesdr-qpcie-lms7_trx/ip/ddr3_av_2x32/ddr3_av_2x32/ddr3_av_2x32_s0_software/sequencer.c:7745-7758 | a pattern for which the search settles on a run no DM delay reaches although a usable DM delay passes |
| `DataMask.UnusableIff` | limesdr-qpcie-lms7_trx/ip/ddr3_av_2x32/ddr3_av_2x32/ddr3_av_2x32_s0_software/sequencer.c:7711-7758 | the search settles on a run no DM delay reaches exactly when one right of zero is longer than every run that begins at or left of it |
| `DqsEnable.Strobe.FirstEdge` | limesdr-qpcie-lms7_trx/ip/ddr3_av_2x32/ddr3_av_2x32/ddr3_av_2x32_s0_software/sequencer.c:4145-4192 | the grid search returns the lexicographically first passing delay, position and phase with its accumulated delay, or shows there is none |
| `DqsEnable.Strobe.Rows` | limesdr-qpcie-lms7_trx/ip/ddr3_av_2x32/ddr3_av_2x32/ddr3_av_2x32_s0_software/sequencer.c:4153-4181 | all positions at one delay; the FIFO comes round to where it began |
| `DqsEnable.Strobe.Row` | limesdr-qpcie-lms7_trx/ip/ddr3_av_2x32/ddr3_av_2x32/ddr3_av_2x32_s0_software/sequencer.c:4154-4171 | all settable phases at one position |
| `DqsEnable.Strobe.DtapsPerPtap` | limesdr-qpcie-lms7_trx/ip/ddr3_av_2x32/ddr3_av_2x32/ddr3_av_2x32_s0_software/sequencer.c:4082-4090 | the largest number of delay steps short of a phase step |
| `DqsEnable.Strobe.DelayCounts` | limesdr-qpcie-lms7_trx/ip/ddr3_av_2x32/ddr3_av_2x32/ddr3_av_2x32_s0_software/sequencer.c:4145-4181 | the delay of a setting counts nothing for nothing, one step for each delay step and phase, and a row of phases for each position |
| `DqsEnable.Strobe.GridDelaysDistinct` | limesdr-qpcie-lms7_trx/ip/ddr3_av_2x32/ddr3_av_2x32/ddr3_av_2x32_s0_software/sequencer.c:4082-4154 | no two grid points have the same delay |
| `DqsEnable.Strobe.UntilFailing` | limesdr-qpcie-lms7_trx/ip/ddr3_av_2x32/ddr3_av_2x32/ddr3_av_2x32_s0_software/sequencer.c:4120-4141 | step 1 stops at exactly the second failing position, or the ring has fewer than two |
| `DqsEnable.Strobe.RefineBegin` | limesdr-qpcie-lms7_trx/ip/ddr3_av_2x32/ddr3_av_2x32/ddr3_av_2x32_s0_software/sequencer.c:4198-4233 | step 3a: the begin becomes the lowest passing delay one phase back, or stays because none passes or there is no phase to go back to |
| `DqsEnable.Strobe.FindEnd` | limesdr-qpcie-lms7_trx/ip/ddr3_av_2x32/ddr3_av_2x32/ddr3_av_2x32_s0_software/sequencer.c:4330-4371 | step 4a: the first failing phase after the first one tried, everything between having passed, with its accumulated delay; or all of the rows looked at pass; a failure of the first one moves the begin instead |
| `DqsEnable.Strobe.EndStep` | limesdr-qpcie-lms7_trx/ip/ddr3_av_2x32/ddr3_av_2x32/ddr3_av_2x32_s0_software/sequencer.c:4334-4360 | one phase of step 4a |
| `DqsEnable.Strobe.NextPhase` | limesdr-qpcie-lms7_trx/ip/ddr3_av_2x32/ddr3_av_2x32/ddr3_av_2x32_s0_software/sequencer.c:4311-4328 | the next phase, crossing into the next FIFO position |
| `DqsEnable.Strobe.BackOff` | limesdr-qpcie-lms7_trx/ip/ddr3_av_2x32/ddr3_av_2x32/ddr3_av_2x32_s0_software/sequencer.c:4379-4397 | step 5a goes back to the last settable phase, and the counted delay with it |
| `DqsEnable.Strobe.PhaseWindow` | limesdr-qpcie-lms7_trx/ip/ddr3_av_2x32/ddr3_av_2x32/ddr3_av_2x32_s0_software/sequencer.c:4198-4403 | steps 3a to 5a: begin and end as found, the end being the phase before the first failing one after the start of the search; or no such phase in the rows looked at |
| `DqsEnable.Strobe.EndStartsAfter` | limesdr-qpcie-lms7_trx/ip/ddr3_av_2x32/ddr3_av_2x32/ddr3_av_2x32_s0_software/sequencer.c:4311-4328 | the search for the end starts one phase after the first edge, two from phase 1 |
| `DqsEnable.Strobe.EndCountedIff` | limesdr-qpcie-lms7_trx/ip/ddr3_av_2x32/ddr3_av_2x32/ddr3_av_2x32_s0_software/sequencer.c:4311-4397 | the end of a window on the phase grid is counted at its true delay exactly when the first edge is not at phase 1; from there it is one phase short, and the middle encoded comes half a phase, rounded, before the true one |
| `DqsEnable.Strobe.WindowCutShort` | limesdr-qpcie-lms7_trx/ip/ddr3_av_2x32/ddr3_av_2x32/ddr3_av_2x32_s0_software/sequencer.c:4311-4397 | a read test that passes in phases 1 to 4 of a position, and the window found for it, a phase short |
| `DqsEnable.Strobe.RefineEnd` | limesdr-qpcie-lms7_trx/ip/ddr3_av_2x32/ddr3_av_2x32/ddr3_av_2x32_s0_software/sequencer.c:4427-4441 | the end in delay steps is the last of the delays that pass in a row |
| `DqsEnable.Strobe.FindWindow` | limesdr-qpcie-lms7_trx/ip/ddr3_av_2x32/ddr3_av_2x32/ddr3_av_2x32_s0_software/sequencer.c:4145-4442 | the window around the first edge, or that no grid point passes, or that no end is found for it |
| `DqsEnable.Strobe.Reduce` | limesdr-qpcie-lms7_trx/ip/ddr3_av_2x32/ddr3_av_2x32/ddr3_av_2x32_s0_software/sequencer.c:4552-4560 | reduction keeps the middle congruent modulo the period and brings it into 1..period |
| `DqsEnable.Strobe.PeriodIsPosition` | limesdr-qpcie-lms7_trx/ip/ddr3_av_2x32/ddr3_av_2x32/ddr3_av_2x32_s0_software/sequencer.c:4552-4556 | the period of the reduction is what one FIFO position adds to a delay |
| `DqsEnable.Strobe.WrittenReproduces` | limesdr-qpcie-lms7_trx/ip/ddr3_av_2x32/ddr3_av_2x32/ddr3_av_2x32_s0_software/sequencer.c:4552-4578 | what is written for a middle reproduces it, in terms of delays alone |
| `DqsEnable.Strobe.Encode` | limesdr-qpcie-lms7_trx/ip/ddr3_av_2x32/ddr3_av_2x32/ddr3_av_2x32_s0_software/sequencer.c:4561-4578 | phase in 1..max and delay reproduce the middle with an error of less than one delay step, rounding up to phase 1 in the phase-0 case; the delay passes its maximum by one only if the chain is shorter than needed |
| `DqsEnable.Strobe.PhaseSteps` | limesdr-qpcie-lms7_trx/ip/ddr3_av_2x32/ddr3_av_2x32/ddr3_av_2x32_s0_software/sequencer.c:4562-4563 | phase steps needed to reach the delay |
| `DqsEnable.Strobe.DelaySteps` | limesdr-qpcie-lms7_trx/ip/ddr3_av_2x32/ddr3_av_2x32/ddr3_av_2x32_s0_software/sequencer.c:4565 | delay steps needed on top |
| `DqsEnable.Strobe.EncodableIff` | limesdr-qpcie-lms7_trx/ip/ddr3_av_2x32/ddr3_av_2x32/ddr3_av_2x32_s0_software/sequencer.c:4562-4580 | every delay of a period has a setting exactly when one phase step fits in the delay chain |
| `DqsEnable.Strobe.CheckIsOneShort` | limesdr-qpcie-lms7_trx/ip/ddr3_av_2x32/ddr3_av_2x32/ddr3_av_2x32_s0_software/sequencer.c:4089 | the code's assertion about the chain allows one step too many: at its limit some delay has no setting |
| `DqsEnable.Strobe.PushUntilPassing` | limesdr-qpcie-lms7_trx/ip/ddr3_av_2x32/ddr3_av_2x32/ddr3_av_2x32_s0_software/sequencer.c:4582-4598 | the last loop finds a passing position or shows that none of the ring passes |
| `DqsEnable.Strobe.FindPhase` | limesdr-qpcie-lms7_trx/ip/ddr3_av_2x32/ddr3_av_2x32/ddr3_av_2x32_s0_software/sequencer.c:4043-4616 | the course of the whole search: success exactly when the ring has a second failing position, the grid from there a passing setting, its window an end not before its begin, and the setting that encodes the window's middle a passing position; each way of failing is the truth; on success the setting left passes and is in range; and what is written reproduces the window's middle: some whole FIFO positions on, its delay is the middle's rounded up to a delay step, unless the middle lies in the first phase of a position, which gives phase 1, or the chain is too short |
| `DqsEnable.Strobe.GoesOneWay` | limesdr-qpcie-lms7_trx/ip/ddr3_av_2x32/ddr3_av_2x32/ddr3_av_2x32_s0_software/sequencer.c:4043-4616 | the course, the window and the setting written are determined by what the read test answers |
| `DqsEnable.Strobe.WindowUnique` | limesdr-qpcie-lms7_trx/ip/ddr3_av_2x32/ddr3_av_2x32/ddr3_av_2x32_s0_software/sequencer.c:4145-4442 | there is one window from a FIFO position, and none when there is no edge or no end |
| `DqsEnable.Strobe.SecondFailureUnique` | limesdr-qpcie-lms7_trx/ip/ddr3_av_2x32/ddr3_av_2x32/ddr3_av_2x32_s0_software/sequencer.c:4120-4135 | the position where step 1 stops is determined |
| `DqsEnable.Strobe.WrittenUnique` | limesdr-qpcie-lms7_trx/ip/ddr3_av_2x32/ddr3_av_2x32/ddr3_av_2x32_s0_software/sequencer.c:4561-4578 | the setting written for a delay is determined |
| `DqsEnable.Strobe.Place` | limesdr-qpcie-lms7_trx/ip/ddr3_av_2x32/ddr3_av_2x32/ddr3_av_2x32_s0_software/sequencer.c:4549-4598 | step 6: the setting written reproduces the middle to less than one delay step, counted over whole FIFO positions, and a passing position found exactly when there is one |
| `DqsEnable.Strobe.Incr` | limesdr-qpcie-lms7_trx/ip/ddr3_av_2x32/ddr3_av_2x32/ddr3_av_2x32_s0_software/sequencer.c:3874-3905 | one position on; the hardware position stays start + v modulo the ring |
| `DqsEnable.Strobe.Decr` | limesdr-qpcie-lms7_trx/ip/ddr3_av_2x32/ddr3_av_2x32/ddr3_av_2x32_s0_software/sequencer.c:3922-3929 | undone by one increment; position and count stay in step |
| `Calibration.Calibrator.SetFailing` | limesdr-qpcie-lms7_trx/ip/ddr3_av_2x32/ddr3_av_2x32/ddr3_av_2x32_s0_software/sequencer.c:591-611 | the failure kept is always the first one reported |
| `Calibration.Calibrator.constructor` | limesdr-qpcie-lms7_trx/ip/ddr3_av_2x32/ddr3_av_2x32/ddr3_av_2x32_s0_software/sequencer.c:9148-9180 | a run begins with no error and the answers and sizes given |
| `Calibration.Calibrator.MemCalibrate` | limesdr-qpcie-lms7_trx/ip/ddr3_av_2x32/ddr3_av_2x32/ddr3_av_2x32_s0_software/sequencer.c:9148-9436 | success exactly when every group not skipped comes through its three stages and, none being skipped, the read test passes at the latency the run began with, with or without sweeping all groups; a failed run keeps its first report; every report is true; a successful run has on record at most what retried attempts reported |
| `Calibration.Calibrator.RunMeans` | limesdr-qpcie-lms7_trx/ip/ddr3_av_2x32/ddr3_av_2x32/ddr3_av_2x32_s0_software/sequencer.c:9208-9413 | the same of a run from any group on, as a function of what the hardware answers: when it succeeds, that failing it has reported, and that all reports are true |
| `Calibration.Calibrator.RunStopsAt` | limesdr-qpcie-lms7_trx/ip/ddr3_av_2x32/ddr3_av_2x32/ddr3_av_2x32_s0_software/sequencer.c:9239-9330 | without sweeping on after a failure, the run reports what its groups up to the first failing one report, in order, and no more |
| `Calibration.Calibrator.RunGoesThrough` | limesdr-qpcie-lms7_trx/ip/ddr3_av_2x32/ddr3_av_2x32/ddr3_av_2x32_s0_software/sequencer.c:9208-9403 | sweeping on, or if no group fails, it reports what all groups report, in order, and the read latency exactly if that fails with none bad or skipped |
| `Calibration.Calibrator.GroupMeans` | limesdr-qpcie-lms7_trx/ip/ddr3_av_2x32/ddr3_av_2x32/ddr3_av_2x32_s0_software/sequencer.c:9239-9330 | a group's reports are true; there is one if it fails, and only retried attempts' if it does not |
| `Calibration.Calibrator.Groups` | limesdr-qpcie-lms7_trx/ip/ddr3_av_2x32/ddr3_av_2x32/ddr3_av_2x32_s0_software/sequencer.c:9208-9403 | the loop over the groups reports and decides as specified, with and without sweeping on after a failure |
| `Calibration.Calibrator.CalibrateGroup` | limesdr-qpcie-lms7_trx/ip/ddr3_av_2x32/ddr3_av_2x32/ddr3_av_2x32_s0_software/sequencer.c:9239-9330 | succeeds exactly when the group is readable and both later centrings are good; what it reports, exactly |
| `Calibration.Calibrator.Vfifo` | limesdr-qpcie-lms7_trx/ip/ddr3_av_2x32/ddr3_av_2x32/ddr3_av_2x32_s0_software/sequencer.c:5748-6009 | succeeds exactly when some setting it tries works: even output delays, phases while the guaranteed read passes, DQS input delays from where the register was left; and what it reports, exactly |
| `Calibration.Calibrator.SearchMeans` | limesdr-qpcie-lms7_trx/ip/ddr3_av_2x32/ddr3_av_2x32/ddr3_av_2x32_s0_software/sequencer.c:5794-5998 | the search over settings succeeds exactly when one it tries works; failing, its last report is of the group, in the guaranteed read exactly when nothing was tried, and otherwise by whether the last pair of output delay and phase tried had an enable window at the largest DQS input delay; and all other reports are of bits without a window at settings it tried |
| `Calibration.Calibrator.FailureEndsIn` | limesdr-qpcie-lms7_trx/ip/ddr3_av_2x32/ddr3_av_2x32/ddr3_av_2x32_s0_software/sequencer.c:5794-5998 | the substage a failed search reports, in terms of what was tried and what the enable search answers |
| `Calibration.Calibrator.StartIs` | limesdr-qpcie-lms7_trx/ip/ddr3_av_2x32/ddr3_av_2x32/ddr3_av_2x32_s0_software/sequencer.c:5849-5861 | the DQS input delay each phase begins with: the reserve, and then what the attempt at the largest delay left |
| `Calibration.Calibrator.SearchReportsAll` | limesdr-qpcie-lms7_trx/ip/ddr3_av_2x32/ddr3_av_2x32/ddr3_av_2x32_s0_software/sequencer.c:5290-5296 | a failed search has reported every bit it found without a window |
| `Calibration.Calibrator.CentringReported` | limesdr-qpcie-lms7_trx/ip/ddr3_av_2x32/ddr3_av_2x32/ddr3_av_2x32_s0_software/sequencer.c:8133-8155 | a later centring that fails is the last thing on record of its group, its bit without a window just before |
| `Calibration.Calibrator.PhasesMean` | limesdr-qpcie-lms7_trx/ip/ddr3_av_2x32/ddr3_av_2x32/ddr3_av_2x32_s0_software/sequencer.c:5804-5992 | an output delay succeeds exactly when a setting it tries works, and otherwise leaves the register for the next |
| `Calibration.Calibrator.PhaseMeans` | limesdr-qpcie-lms7_trx/ip/ddr3_av_2x32/ddr3_av_2x32/ddr3_av_2x32_s0_software/sequencer.c:5849-5985 | an output phase succeeds exactly when a DQS input delay from the register's value up works, and otherwise leaves what its attempt at the largest delay leaves |
| `Calibration.Calibrator.CarriedIff` | limesdr-qpcie-lms7_trx/ip/ddr3_av_2x32/ddr3_av_2x32/ddr3_av_2x32_s0_software/sequencer.c:5849-5861 | the delay a failed phase began with is carried into the next exactly when its attempt at the largest delay found an enable window and centring put the delay back |
| `Calibration.Calibrator.WorkingSettingMissed` | limesdr-qpcie-lms7_trx/ip/ddr3_av_2x32/ddr3_av_2x32/ddr3_av_2x32_s0_software/sequencer.c:5849-5861 | a group for which a setting works that the search no longer tries, so that it fails |
| `Calibration.Calibrator.Phases` | limesdr-qpcie-lms7_trx/ip/ddr3_av_2x32/ddr3_av_2x32/ddr3_av_2x32_s0_software/sequencer.c:5804-5988 | one output delay in place: outcome, register and reports as specified |
| `Calibration.Calibrator.Phase` | limesdr-qpcie-lms7_trx/ip/ddr3_av_2x32/ddr3_av_2x32/ddr3_av_2x32_s0_software/sequencer.c:5849-5985 | one output phase in place: outcome, register and reports as specified |
| `Calibration.Calibrator.Attempt` | limesdr-qpcie-lms7_trx/ip/ddr3_av_2x32/ddr3_av_2x32/ddr3_av_2x32_s0_software/sequencer.c:5920-5958 | one DQS input delay, and what it leaves in the register and on record |
| `Calibration.Calibrator.Report` | limesdr-qpcie-lms7_trx/ip/ddr3_av_2x32/ddr3_av_2x32/ddr3_av_2x32_s0_software/sequencer.c:5290-5296 | a centring that fails is on record, its bit without a window first |
| `Calibration.Calibrator.Writes` | limesdr-qpcie-lms7_trx/ip/ddr3_av_2x32/ddr3_av_2x32/ddr3_av_2x32_s0_software/sequencer.c:8133-8155 | a failing write centring is on record, its bit first |
| `Calibration.Calibrator.VfifoEnd` | limesdr-qpcie-lms7_trx/ip/ddr3_av_2x32/ddr3_av_2x32/ddr3_av_2x32_s0_software/sequencer.c:6091-6137 | a failing repeated read centring is on record, its bit first |
| `Calibration.Calibrator.Lfifo` | limesdr-qpcie-lms7_trx/ip/ddr3_av_2x32/ddr3_av_2x32/ddr3_av_2x32_s0_software/sequencer.c:6143-6219 | fails exactly when the starting latency does, and is then on record |
| `Calibration.ReadLatencySearch` | limesdr-qpcie-lms7_trx/ip/ddr3_av_2x32/ddr3_av_2x32/ddr3_av_2x32_s0_software/sequencer.c:6161-6194 | one more than the lowest latency reached with everything above it passing; the one below fails or is 0 |
| `Delay.DelayForClocks` | limesdr-qpcie-lms7_trx/ip/ddr3_av_2x32/ddr3_av_2x32/ddr3_av_2x32_s0_software/sequencer.c:2019-2085 | the wait is long enough exactly when delay loops are not skipped or at most one clock is asked for; not skipped, it is exact up to 256 clocks, then less than 256 long, then less than 65536 long; no counter loses bits |
| `Alarms.RunRefines` | limesdr-qpcie-lms7_trx/software/nios4usb_bsp/HAL/src/alt_tick.c:87-148 | over every run of ticks, starts and stops, however often the counter wraps, the 32-bit scheduler calls the same alarms at the same events as one on an unbounded clock |
| `Alarms.FirstCall` | limesdr-qpcie-lms7_trx/software/nios4usb_bsp/HAL/src/alt_alarm_start.c:78-99 | an alarm started with n is first called at exactly the (n+1)-th later tick, whatever other alarms do |
| `Alarms.NextCall` | limesdr-qpcie-lms7_trx/software/nios4usb_bsp/HAL/src/alt_tick.c:117-138 | the 32-bit scheduler's next call comes at exactly the tick due, and reschedules the alarm by the returned number of ticks or drops it |
| `Alarms.EveryCall` | limesdr-qpcie-lms7_trx/software/nios4usb_bsp/HAL/src/alt_tick.c:115-138 | every later call comes exactly the returned number of ticks after the last, and none in between, over runs of any length and any wrap-around |
| `Alarms.EveryCallFromStart` | limesdr-qpcie-lms7_trx/software/nios4usb_bsp/HAL/src/alt_alarm_start.c:78-99 | the same from the start of the alarm on, the first call after n + 1 ticks |
| `Alarms.StoppedIsNeverCalled` | limesdr-qpcie-lms7_trx/software/nios4usb_bsp/HAL/src/alt_tick.c:66-73 | a stopped alarm, registered or not, is called at no later event of any run until it is started again |
| `Alarms.NewestFirst` | limesdr-qpcie-lms7_trx/software/nios4usb_bsp/HAL/src/alt_alarm_start.c:98-98 | of two alarms due at the same tick, after any run that leaves both alone, the one started later is called first |
| `Alarms.OrderIsKept` | limesdr-qpcie-lms7_trx/software/nios4usb_bsp/HAL/src/alt_tick.c:100-141 | the order in which two alarms are registered outlasts every event about neither of them |
| `Alarms.AfterRefines` | limesdr-qpcie-lms7_trx/software/nios4usb_bsp/HAL/src/alt_tick.c:87-148 | after every run the 32-bit scheduler still agrees with the unbounded one |
| `Alarms.NextCallOnClock` | limesdr-qpcie-lms7_trx/software/nios4usb_bsp/HAL/src/alt_tick.c:117-138 | the next call on the unbounded clock |
| `Alarms.StartMatchesIff` | limesdr-qpcie-lms7_trx/software/nios4usb_bsp/HAL/src/alt_alarm_start.c:82-96 | the started alarm has the right due time exactly when n <= 2^32 - 2 or the counter is at its last value; otherwise it fires at the very next tick |
| `Alarms.StepRefines` | limesdr-qpcie-lms7_trx/software/nios4usb_bsp/HAL/src/alt_tick.c:87-141 | one event keeps the agreement |
| `Alarms.TickRefines` | limesdr-qpcie-lms7_trx/software/nios4usb_bsp/HAL/src/alt_tick.c:96-141 | one tick keeps the agreement and calls the same alarms |
| `Alarms.TickMatches` | limesdr-qpcie-lms7_trx/software/nios4usb_bsp/HAL/src/alt_tick.c:109-139 | one alarm at one tick fires exactly when due, and what is left of it agrees |
| `Alarms.WokenMatches` | limesdr-qpcie-lms7_trx/software/nios4usb_bsp/HAL/src/alt_tick.c:109-112 | the rollover flag holds exactly while the due time lies in a later epoch |
| `Alarms.RearmedMatches` | limesdr-qpcie-lms7_trx/software/nios4usb_bsp/HAL/src/alt_tick.c:127-137 | rescheduling sets time and flag right for every nonzero answer |
| `Alarms.StartRefines` | limesdr-qpcie-lms7_trx/software/nios4usb_bsp/HAL/src/alt_alarm_start.c:80-98 | starting keeps the agreement when the delay is representable |
| `Alarms.StopRefines` | limesdr-qpcie-lms7_trx/software/nios4usb_bsp/HAL/src/alt_tick.c:66-73 | stopping keeps the agreement |
| `Alarms.StepRegistered` | limesdr-qpcie-lms7_trx/software/nios4usb_bsp/HAL/src/alt_tick.c:100-141 | an alarm is untouched by events about others and called only at its due tick |
| `AlarmList.Scheduler.Tick` | limesdr-qpcie-lms7_trx/software/nios4usb_bsp/HAL/src/alt_tick.c:87-148 | the walk over the list in place does what the tick event says, alarms called in list order |
| `AlarmList.Scheduler.Serve` | limesdr-qpcie-lms7_trx/software/nios4usb_bsp/HAL/src/alt_tick.c:104-139 | the loop body on one alarm |
| `AlarmList.Scheduler.Visit` | limesdr-qpcie-lms7_trx/software/nios4usb_bsp/HAL/src/alt_tick.c:100-141 | one position of the walk, removal included |
| `AlarmList.Scheduler.Start` | limesdr-qpcie-lms7_trx/software/nios4usb_bsp/HAL/src/alt_alarm_start.c:64-112 | registers the alarm or returns the error, changing nothing |
| `AlarmList.Scheduler.Stop` | limesdr-qpcie-lms7_trx/software/nios4usb_bsp/HAL/src/alt_tick.c:66-73 | removes the alarm, wherever it is |
| `Files.LockHolds` | limesdr-qpcie-lms7_trx/software/nios4usb_bsp/HAL/src/alt_open.c:64-171 | from locking a descriptor until it is unlocked or closed, through every sequence of opens, closes, fcntls, locks and unlocks, failing ones included, it stays locked and no open of its device succeeds |
| `FileLaws.OpenDeniedIff` | limesdr-qpcie-lms7_trx/software/nios4usb_bsp/HAL/src/alt_open.c:64-151 | after any run from a fresh table with room left, an open of a device is denied exactly when some descriptor of it took a lock in that run which no call has given up since |
| `FileLaws.LockedAfterIff` | limesdr-qpcie-lms7_trx/software/nios4usb_bsp/HAL/src/alt_fd_lock.c:54-75 | a descriptor is locked after any run exactly when a call in it took the lock and none since gave it up, or it was locked before and none did |
| `FileLaws.LockedNextIff` | limesdr-qpcie-lms7_trx/software/nios4usb_bsp/HAL/src/alt_fd_lock.c:54-75 | the same for one call |
| `FileLaws.UnlockUnlocks` | limesdr-qpcie-lms7_trx/software/nios4usb_bsp/HAL/src/alt_fd_unlock.c:52-56 | after an unlock the descriptor is not locked, and nothing else has changed |
| `FileLaws.LockLocks` | limesdr-qpcie-lms7_trx/software/nios4usb_bsp/HAL/src/alt_fd_lock.c:54-75 | a lock that is not refused leaves the descriptor locked and nothing else changed; a refused one changes nothing |
| `FileLaws.OpenOutcome` | limesdr-qpcie-lms7_trx/software/nios4usb_bsp/HAL/src/alt_open.c:105-171 | just how an open comes out: an unknown name, a full table, a locked device, a failing device, in this order, and otherwise success |
| `FileLaws.HeldIff` | limesdr-qpcie-lms7_trx/software/nios4usb_bsp/HAL/src/alt_open.c:79-87 | the scan of an open finds a lock exactly when some descriptor of the device is locked |
| `FileLaws.SetFlSets` | limesdr-qpcie-lms7_trx/software/nios4usb_bsp/HAL/src/alt_fcntl.c:86-92 | F_SETFL makes each settable flag what is asked for, and changes nothing else |
| `FileLaws.MergedBits` | limesdr-qpcie-lms7_trx/software/nios4usb_bsp/HAL/src/alt_fcntl.c:89-90 | the settable bits are the argument's and the others as before |
| `FileLaws.CloseFrees` | limesdr-qpcie-lms7_trx/software/nios4usb_bsp/HAL/src/alt_release_fd.c:44-51 | closing frees the descriptor, its flags gone, unless it is one of the reserved three, and changes nothing else |
| `FileLaws.OpenOtherBits` | limesdr-qpcie-lms7_trx/software/nios4usb_bsp/HAL/src/alt_open.c:144-144 | an opened descriptor has the caller's flags apart from the lock and device bits |
| `FileLaws.HighWaterIs` | limesdr-qpcie-lms7_trx/software/nios4usb_bsp/HAL/src/alt_get_fd.c:77-89 | over every run the high-water mark is the highest descriptor ever taken, by opens that failed afterwards too |
| `Files.OpenRefused` | limesdr-qpcie-lms7_trx/software/nios4usb_bsp/HAL/src/alt_open.c:79-87 | an open of a device locked through another descriptor fails |
| `Files.NextKeepsInv` | limesdr-qpcie-lms7_trx/software/nios4usb_bsp/HAL/src/alt_get_fd.c:77-89 | every call keeps the table invariant: 0..2 never freed, free slots without lock or device bits, the high-water mark covers every slot in use from 3 up |
| `Files.InitialIsGood` | limesdr-qpcie-lms7_trx/software/nios4usb_bsp/HAL/src/alt_dev.c:111-149 | the initial table meets the invariant |
| `Files.NextKeepsLock` | limesdr-qpcie-lms7_trx/software/nios4usb_bsp/HAL/src/alt_fcntl.c:86-92 | only unlocking or closing gives up a lock |
| `Files.MergedKeepsLockBits` | limesdr-qpcie-lms7_trx/software/nios4usb_bsp/HAL/src/alt_fcntl.c:89-90 | F_SETFL keeps the lock and device bits |
| `Files.FailedOpenLeaksNothing` | limesdr-qpcie-lms7_trx/software/nios4usb_bsp/HAL/src/alt_open.c:118-166 | after a failing open every open descriptor is unchanged and every free one still free; no slot changes exactly when the one taken, if any, had no flags |
| `Files.FailedOpenChangesNothing` | limesdr-qpcie-lms7_trx/software/nios4usb_bsp/HAL/src/alt_open.c:118-166 | with no flags on free descriptors, a failing open changes no slot |
| `Files.RunClearIff` | limesdr-qpcie-lms7_trx/software/nios4usb_bsp/HAL/src/alt_fcntl.c:78-92 | over every run free descriptors keep zero flags exactly when no call sets one through a descriptor that is not open |
| `Files.NextClearIff` | limesdr-qpcie-lms7_trx/software/nios4usb_bsp/HAL/src/alt_fcntl.c:78-92 | the same for one call |
| `Files.InitialIsClear` | limesdr-qpcie-lms7_trx/software/nios4usb_bsp/HAL/src/alt_dev.c:131-149 | free descriptors begin with zero flags |
| `Files.OpenTakesLowestFree` | limesdr-qpcie-lms7_trx/software/nios4usb_bsp/HAL/src/alt_get_fd.c:77-89 | a successful open takes the lowest free descriptor, unlocked, and touches no other |
| `Files.GrantIsExclusiveIff` | limesdr-qpcie-lms7_trx/software/nios4usb_bsp/HAL/src/alt_fd_lock.c:61-69 | a granted lock is exclusive exactly when the descriptor at the high-water mark, which the scan leaves out, is not another of the device's; before the first open nothing is scanned |
| `Files.GrantNotExclusive` | limesdr-qpcie-lms7_trx/software/nios4usb_bsp/HAL/src/alt_fd_lock.c:61 | a table where the lock is granted while another descriptor is open on the device |
| `Files.CloseReleasesLockIff` | limesdr-qpcie-lms7_trx/software/nios4usb_bsp/HAL/src/alt_release_fd.c:44-51 | closing a locked descriptor releases the lock exactly when it is not one of the reserved three, whose closing changes nothing |
| `Files.ReservedLockStays` | limesdr-qpcie-lms7_trx/software/nios4usb_bsp/HAL/src/alt_release_fd.c:44-51 | from a fresh table, standard input locked and closed: no later open of its device succeeds until it is unlocked |
| `Files.SetFlOnFreeIff` | limesdr-qpcie-lms7_trx/software/nios4usb_bsp/HAL/src/alt_fcntl.c:78-92 | setting flags through a closed descriptor keeps the slot's flags zero exactly when none of the settable ones is asked for |
| `FileTable.Descriptors.Open` | limesdr-qpcie-lms7_trx/software/nios4usb_bsp/HAL/src/alt_open.c:105-171 | opening in place does what the table function says, status included |
| `FileTable.Descriptors.Claim` | limesdr-qpcie-lms7_trx/software/nios4usb_bsp/HAL/src/alt_open.c:138-151 | flags, lock check and the device's own open |
| `FileTable.Descriptors.FileLocked` | limesdr-qpcie-lms7_trx/software/nios4usb_bsp/HAL/src/alt_open.c:64-92 | marks the descriptor a device's and finds exactly whether another holds the lock |
| `FileTable.Descriptors.GetFd` | limesdr-qpcie-lms7_trx/software/nios4usb_bsp/HAL/src/alt_get_fd.c:54-101 | the first free slot and the high-water mark |
| `FileTable.Descriptors.ReleaseFd` | limesdr-qpcie-lms7_trx/software/nios4usb_bsp/HAL/src/alt_release_fd.c:44-51 | clears a slot past the reserved ones |
| `FileTable.Descriptors.Close` | limesdr-qpcie-lms7_trx/software/nios4usb_bsp/HAL/src/alt_close.c:64-101 | closes in place; the hook's failure is reported after the release |
| `FileTable.Descriptors.SetFl` | limesdr-qpcie-lms7_trx/software/nios4usb_bsp/HAL/src/alt_fcntl.c:66-101 | changes only the settable flags |
| `FileTable.Descriptors.OtherUser` | limesdr-qpcie-lms7_trx/software/nios4usb_bsp/HAL/src/alt_fd_lock.c:61-68 | the scan finds exactly whether another descriptor below the high-water mark is open on the device |
| `FileTable.Descriptors.Lock` | limesdr-qpcie-lms7_trx/software/nios4usb_bsp/HAL/src/alt_fd_lock.c:54-75 | grants or refuses as the scan below the high-water mark says |
| `FileTable.Descriptors.Unlock` | limesdr-qpcie-lms7_trx/software/nios4usb_bsp/HAL/src/alt_fd_unlock.c:52-56 | clears the lock bit only |
| `LogPrintf.FormatPrints` | limesdr-qpcie-lms7_trx/software/nios4usb_bsp/HAL/src/alt_log_printf.c:127-340 | every format made of text, per-cent signs and directives, of integers, characters and texts, with any zero flag, width, precisions and l's, prints each piece as it should for all arguments; no directive leaks flags, width, precision or argument into the next |
| `Formats.EveryFormat` | limesdr-qpcie-lms7_trx/software/nios4usb_bsp/HAL/src/alt_log_printf.c:127-340 | for every format string and all arguments, well-formed or not: text stands for itself, a directive prints what it alone and the next argument say, one with an unknown letter prints nothing and uses no argument, and one that does not end prints nothing |
| `Formats.PiecesAgree` | limesdr-qpcie-lms7_trx/software/nios4usb_bsp/HAL/src/alt_log_printf.c:127-340 | for a format spelt from pieces that is what the pieces mean |
| `Formats.RunOpened` | limesdr-qpcie-lms7_trx/software/nios4usb_bsp/HAL/src/alt_log_printf.c:141-199 | the middle of a directive, in any order of digits, full stops and l's: the zero flag and the width it spells |
| `Formats.LongIsIgnored` | limesdr-qpcie-lms7_trx/software/nios4usb_bsp/HAL/src/alt_log_printf.c:196-199 | an l changes nothing, wherever it stands |
| `Formats.UnknownLetter` | limesdr-qpcie-lms7_trx/software/nios4usb_bsp/HAL/src/alt_log_printf.c:202-338 | a directive with an unknown letter prints nothing and leaves its argument to the next one |
| `LogPrintf.DirectivesInOrder` | limesdr-qpcie-lms7_trx/software/nios4usb_bsp/HAL/src/alt_log_printf.c:204-333 | after pieces that take n arguments, what is printed is as if only the arguments from the n-th on had been given |
| `LogPrintf.Conversions` | limesdr-qpcie-lms7_trx/software/nios4usb_bsp/HAL/src/alt_log_printf.c:204-322 | which base, sign and case each integer directive shows |
| `LogPrintf.SetRight` | limesdr-qpcie-lms7_trx/software/nios4usb_bsp/HAL/src/alt_log_printf.c:324-333 | characters and texts stand at the right of their field, blanks before them |
| `LogPrintf.Spellings` | limesdr-qpcie-lms7_trx/software/nios4usb_bsp/HAL/src/alt_log_printf.c:202-338 | how each directive is spelt |
| `LogPrintf.IntegerReadsBack` | limesdr-qpcie-lms7_trx/software/nios4usb_bsp/HAL/src/alt_log_printf.c:206-297 | for every word, base, width and zero flag the printed text reads back as the value and is as long as the larger of the width and sign plus digits (subset of section 7.21.6.1 of ISO/IEC 9899:2011) |
| `LogPrintf.IntegerTextShape` | limesdr-qpcie-lms7_trx/software/nios4usb_bsp/HAL/src/alt_log_printf.c:257-296 | the same text character by character: blanks only in front and none with the zero flag, the minus sign if there is one, then digits of the case asked for, as many as there are, with zeros before them under the zero flag |
| `LogPrintf.MeaningIs` | limesdr-qpcie-lms7_trx/software/nios4usb_bsp/HAL/src/alt_log_printf.c:238-245 | the number meant is the word read as two's complement or as unsigned |
| `LogPrintf.RunPiece` | limesdr-qpcie-lms7_trx/software/nios4usb_bsp/HAL/src/alt_log_printf.c:132-338 | one piece, spelt out character by character, from text state to text state |
| `LogPrintf.RunWidth` | limesdr-qpcie-lms7_trx/software/nios4usb_bsp/HAL/src/alt_log_printf.c:176-190 | the width field builds up the number it spells |
| `LogPrintf.RunExtra` | limesdr-qpcie-lms7_trx/software/nios4usb_bsp/HAL/src/alt_log_printf.c:172-199 | precisions and l's, however many, change nothing that is printed |
| `LogPrintf.PrecisionIgnoredIff` | limesdr-qpcie-lms7_trx/software/nios4usb_bsp/HAL/src/alt_log_printf.c:170-195 | what is printed for an integer with a precision is what section 7.21.6.1 of ISO/IEC 9899:2011 says exactly when it asks for no more digits than there are and the zero flag pads nothing, or the zero flag pads to just as many, and it is not precision 0 of 0 |
| `LogPrintf.DirectiveStandardIff` | limesdr-qpcie-lms7_trx/software/nios4usb_bsp/HAL/src/alt_log_printf.c:132-300 | the same from the spelling of the directive to the output |
| `LogPrintf.PrecisionLost` | limesdr-qpcie-lms7_trx/software/nios4usb_bsp/HAL/src/alt_log_printf.c:170-195 | %.5d of 42 prints 42, where the standard has 00042 |
| `LogPrintf.StringPrecisionIff` | limesdr-qpcie-lms7_trx/software/nios4usb_bsp/HAL/src/alt_log_printf.c:324-333 | when ignoring the precision of a text agrees with the standard |
| `LogPrintf.NoWidth` | limesdr-qpcie-lms7_trx/software/nios4usb_bsp/HAL/src/alt_log_printf.c:146-147 | a missing width prints as width 0 |
| `LogPrintf.LayoutReads` | limesdr-qpcie-lms7_trx/software/nios4usb_bsp/HAL/src/alt_log_printf.c:257-279 | padding changes neither sign nor value |
| `LogPrintf.LayoutWidth` | limesdr-qpcie-lms7_trx/software/nios4usb_bsp/HAL/src/alt_log_printf.c:257-279 | padding fills exactly to the width |
| `LogPrintf.CountDigits` | limesdr-qpcie-lms7_trx/software/nios4usb_bsp/HAL/src/alt_log_printf.c:247-255 | the digit count and the highest place value, which never overflows the word |
| `LogPrintf.EmitDigits` | limesdr-qpcie-lms7_trx/software/nios4usb_bsp/HAL/src/alt_log_printf.c:281-296 | digits from the highest place down, none superfluous |
| `LogPrintf.EmitOne` | limesdr-qpcie-lms7_trx/software/nios4usb_bsp/HAL/src/alt_log_printf.c:286-294 | one digit and what remains to print |
| `LogPrintf.LogPrinter.PrintInteger` | limesdr-qpcie-lms7_trx/software/nios4usb_bsp/HAL/src/alt_log_printf.c:204-300 | fetching, sign, padding and digits come to the laid-out integer |
| `LogPrintf.LogPrinter.StripSign` | limesdr-qpcie-lms7_trx/software/nios4usb_bsp/HAL/src/alt_log_printf.c:238-245 | magnitude and sign of the word |
| `LogPrintf.LogPrinter.PrintLead` | limesdr-qpcie-lms7_trx/software/nios4usb_bsp/HAL/src/alt_log_printf.c:257-279 | sign and padding in their order |
| `LogPrintf.LogPrinter.RepChar` | limesdr-qpcie-lms7_trx/software/nios4usb_bsp/HAL/src/alt_log_printf.c:106-110 | a character repeated, none for a count of 0 or less |
| `LogPrintf.LogPrinter.Put` | limesdr-qpcie-lms7_trx/software/nios4usb_bsp/HAL/src/alt_log_printf.c:130-339 | one character moves the state machine as specified |
| `LogPrintf.LogPrinter.Print` | limesdr-qpcie-lms7_trx/software/nios4usb_bsp/HAL/src/alt_log_printf.c:114-341 | a whole format runs the state machine over it |
| `LogPrintf.LogPrinter.PrintPieces` | limesdr-qpcie-lms7_trx/software/nios4usb_bsp/HAL/src/alt_log_printf.c:114-341 | the printer's output for a spelt-out format is what its pieces mean |
| `Numerals.DigitsRead` | limesdr-qpcie-lms7_trx/software/nios4usb_bsp/HAL/src/alt_log_printf.c:281-296 | digits read back to the number, with no leading zero but zero's own |
| `Numerals.DigitsInCase` | limesdr-qpcie-lms7_trx/software/nios4usb_bsp/HAL/src/alt_log_printf.c:286-292 | every digit printed is 0 to 9 or a letter of the case asked for |
| `Numerals.DigitCharIs` | limesdr-qpcie-lms7_trx/software/nios4usb_bsp/HAL/src/alt_log_printf.c:286-292 | the sixteen digit characters of either case, in order |
| `Numerals.PlacesRead` | limesdr-qpcie-lms7_trx/software/nios4usb_bsp/HAL/src/alt_log_printf.c:282-296 | the same from any place down |
| `AltPrintf.PrintHex` | limesdr-qpcie-lms7_trx/software/nios4usb_bsp/HAL/src/alt_printf.c:84-113 | the hexadecimal digits of the word, reading back to it, without leading zeros, letters in lower case |
| `AltPrintf.PrintDown` | limesdr-qpcie-lms7_trx/software/nios4usb_bsp/HAL/src/alt_printf.c:103-112 | digits from a place down |
| `AltPrintf.PrintDigit` | limesdr-qpcie-lms7_trx/software/nios4usb_bsp/HAL/src/alt_printf.c:106-111 | one digit and what remains |
| `AltPrintf.LowDigitsArePlaces` | limesdr-qpcie-lms7_trx/software/nios4usb_bsp/HAL/src/alt_printf.c:103-112 | the nibbles from the top down are the digits of the number |
| `AltPrintf.TopNibble` | limesdr-qpcie-lms7_trx/software/nios4usb_bsp/HAL/src/alt_printf.c:98-101 | the loop stops at the highest digit that is not zero |
| `AltPrintf.NibbleIsPlace` | limesdr-qpcie-lms7_trx/software/nios4usb_bsp/HAL/src/alt_printf.c:106 | the masked and shifted nibble is the digit at its place |
| `TimeOfDay.SetThenGet` | limesdr-qpcie-lms7_trx/software/nios4usb_bsp/HAL/src/alt_settod.c:80-89 | read k ticks after being set to t, the clock shows t plus k tick lengths plus the slip of the 32-bit product, clamped at 0, in normal form |
| `TimeOfDay.SetThenGetAtAnyRate` | limesdr-qpcie-lms7_trx/software/nios4usb_bsp/HAL/src/alt_settod.c:80-89 | the same at every rate, with what the ticks since have added in place of tick lengths |
| `TimeOfDay.TickAdvances` | limesdr-qpcie-lms7_trx/software/nios4usb_bsp/HAL/src/alt_gettod.c:91-93 | each tick carries the microseconds on by its length, round a second, and the seconds are those whose ticks have all passed |
| `TimeOfDay.WholeSeconds` | limesdr-qpcie-lms7_trx/software/nios4usb_bsp/HAL/src/alt_gettod.c:91-93 | after k whole seconds the clock shows them exactly when k times what the tick length leaves of a second is a whole number of seconds; otherwise it is ahead by up to a second |
| `TimeOfDay.TickLength` | limesdr-qpcie-lms7_trx/software/nios4usb_bsp/HAL/src/alt_gettod.c:93-93 | a tick is the most whole microseconds that fit into a second rate times |
| `TimeOfDay.ReadingExactIff` | limesdr-qpcie-lms7_trx/software/nios4usb_bsp/HAL/src/alt_settod.c:82-84 | a reading is exact exactly when the product at setting time had wrapped a multiple of 15625 times, so always when it had not wrapped |
| `TimeOfDay.SlipZeroIff` | limesdr-qpcie-lms7_trx/software/nios4usb_bsp/HAL/src/alt_settod.c:83-84 | when the 32-bit product loses nothing modulo a million |
| `TimeOfDay.SlipsAfterAnHour` | limesdr-qpcie-lms7_trx/software/nios4usb_bsp/HAL/src/alt_settod.c:83-84 | at 100 ticks a second, set after 72 minutes: the reading is 33 ms early |
| `TimeOfDay.RateExactIff` | limesdr-qpcie-lms7_trx/software/nios4usb_bsp/HAL/src/alt_gettod.c:91-93 | ticks turn into time exactly at the rates that divide a million, and no others |
| `TimeOfDay.ImmediateReading` | limesdr-qpcie-lms7_trx/software/nios4usb_bsp/HAL/src/alt_settod.c:60-64 | when an immediate reading returns the time set, as the documentation promises |
| `TimeOfDay.MinusPlus` | limesdr-qpcie-lms7_trx/software/nios4usb_bsp/HAL/src/alt_gettod.c:91-93 | wrap-around in the reset time cancels |
| `TimeOfDay.NormalMicros` | limesdr-qpcie-lms7_trx/software/nios4usb_bsp/HAL/src/alt_gettod.c:95-112 | normalising keeps the time, clamps only below zero, and leaves microseconds in range |
| `TimeOfDay.SystemClock.SetTime` | limesdr-qpcie-lms7_trx/software/nios4usb_bsp/HAL/src/alt_settod.c:72-96 | stores reset time and zone, or reports that there is no clock |
| `TimeOfDay.SystemClock.GetTime` | limesdr-qpcie-lms7_trx/software/nios4usb_bsp/HAL/src/alt_gettod.c:70-123 | reads time and zone, or reports that there is no clock |
| `TimeOfDay.SystemClock.RaiseMicros` | limesdr-qpcie-lms7_trx/software/nios4usb_bsp/HAL/src/alt_gettod.c:95-107 | the borrowing loop ends and keeps the normal form |
| `TimeOfDay.SystemClock.LowerMicros` | limesdr-qpcie-lms7_trx/software/nios4usb_bsp/HAL/src/alt_gettod.c:109-112 | the carrying loop ends in normal form |
| `TimeOfDay.SystemClock.SetAndGet` | limesdr-qpcie-lms7_trx/software/nios4usb_bsp/HAL/src/alt_settod.c:56-64 | setting and reading in place returns the time and zone set, on the exact condition |
| `Tamer.RunFitsIff` | limesdr-qpcie-lms7_trx/software/nios4usb_app/main.c:955-1093 | over every run from power-up, at every loop head: nothing pending, the register and the byte last sent say exactly whether the tamer runs, the tuning state is the one for the number of interrupts in the session, and a disabled tamer is in its first state; exactly when no interrupt is seen from a tamer that is and stays disabled |
| `Tamer.StepFitsIff` | limesdr-qpcie-lms7_trx/software/nios4usb_app/main.c:955-1093 | one trip keeps all that, on the same exact condition; a stray interrupt starts the tuning of a disabled tamer |
| `Tamer.FitsRegister` | limesdr-qpcie-lms7_trx/software/nios4usb_app/vctcxo_tamer.c:26-92 | after the first enable exactly one of reset and interrupt enable is set, the acknowledge bit is clear, and register and last byte are 0x50 while the tamer runs and 0x01 while it is stopped |
| `Tamer.SessionServes` | limesdr-qpcie-lms7_trx/software/nios4usb_app/main.c:963-979 | a session has served exactly the interrupts since the trip that enabled it |
| `Tamer.SessionOrder` | limesdr-qpcie-lms7_trx/software/nios4usb_app/main.c:979-1091 | in every orderly run the tuning steps in a session are minimum, maximum, done, fine, one for each interrupt after the enabling trip, and the line's points are the counts of the first two interrupts |
| `Tamer.DisabledIsIdle` | limesdr-qpcie-lms7_trx/software/nios4usb_app/main.c:971-975 | in every orderly run a disabled tamer is in its first state with its interrupt off |
| `Tamer.CalibrationMeasures` | limesdr-qpcie-lms7_trx/software/nios4usb_app/main.c:983-1040 | a whole coarse calibration stores the two reported counts as the line's points and ends in fine tuning; the DAC drove its minimum and maximum while each was measured exactly when the host, from the trip that puts it there on, gave no other value and did not three-state it |
| `Tamer.HeldIff` | limesdr-qpcie-lms7_trx/software/nios4usb_app/main.c:979-1093 | between interrupts the DAC drives the same value exactly when the host neither moves nor three-states it |
| `Tamer.HeldSinceIff` | limesdr-qpcie-lms7_trx/software/nios4usb_app/main.c:979-1093 | the DAC is held from a tuning step on exactly when the host lets it be in that trip and in the quiet ones after it |
| `Tamer.CoarseStep` | limesdr-qpcie-lms7_trx/software/nios4usb_app/main.c:985-1040 | which point each coarse step stores, which value it shows, and that the DAC is left where the step puts it exactly when the host lets it be |
| `Tamer.FineStep` | limesdr-qpcie-lms7_trx/software/nios4usb_app/main.c:1042-1079 | in fine tuning an interrupt with an error flagged takes the DAC to the tuned value, where it stays exactly when the host lets it; without, only the host moves it; the points stay |
| `Tamer.FineTuningIff` | limesdr-qpcie-lms7_trx/software/nios4usb_app/main.c:1042-1079 | throughout fine tuning the DAC drives the value of the last flagged interrupt exactly when the host lets it be in every trip |
| `Tamer.RunAcks` | limesdr-qpcie-lms7_trx/software/nios4usb_app/vctcxo_tamer.c:122-152 | over every orderly run from power-up each interrupt is acknowledged exactly once |
| `Tamer.StepAcks` | limesdr-qpcie-lms7_trx/software/nios4usb_app/vctcxo_tamer.c:122-152 | a trip acknowledges its interrupt once and sends no acknowledgement otherwise |
| `Tamer.InterruptedAcks` | limesdr-qpcie-lms7_trx/software/nios4usb_app/vctcxo_tamer.c:122-152 | the acknowledgement is the last byte, with the counters stopped and the interrupt off |
| `Tamer.ModeChange` | limesdr-qpcie-lms7_trx/software/nios4usb_app/vctcxo_tamer.c:53-92 | however a mode is set, the interrupt is off until the last byte, every byte after the first carries the mode, and the counters go through reset |
| `Tamer.ModeRegister` | limesdr-qpcie-lms7_trx/software/nios4usb_app/vctcxo_tamer.c:53-92 | the register ends up as the last byte, with the counters in reset or the interrupt on, and its other bits as before |
| `Tamer.StartFits` | limesdr-qpcie-lms7_trx/software/nios4usb_app/main.c:966-970 | enabling starts a session in order |
| `Tamer.StopFits` | limesdr-qpcie-lms7_trx/software/nios4usb_app/main.c:971-975 | disabling ends it, an interrupt in the same trip included |
| `Tamer.OnFits` | limesdr-qpcie-lms7_trx/software/nios4usb_app/main.c:979-1093 | a trip within a session keeps it in order |
| `Tamer.MainLoop.SetTuneMode` | limesdr-qpcie-lms7_trx/software/nios4usb_app/vctcxo_tamer.c:53-92 | the register and every byte sent on the way, whose laws are ModeChange and ModeRegister; an invalid mode changes nothing |
| `Tamer.MainLoop.Isr` | limesdr-qpcie-lms7_trx/software/nios4usb_app/vctcxo_tamer.c:122-152 | interrupt off, counters stopped, packet filled, interrupt acknowledged |
| `Tamer.MainLoop.ResetCounters` | limesdr-qpcie-lms7_trx/software/nios4usb_app/vctcxo_tamer.c:26-35 | one bit of the cached register, sent |
| `Tamer.MainLoop.EnableIsr` | limesdr-qpcie-lms7_trx/software/nios4usb_app/vctcxo_tamer.c:37-46 | one bit of the cached register, sent |
| `Tamer.MainLoop.Tune` | limesdr-qpcie-lms7_trx/software/nios4usb_app/main.c:983-1085 | the state machine in place |
| `Tamer.MainLoop.Sample` | limesdr-qpcie-lms7_trx/software/nios4usb_app/main.c:962-976 | the enable bit and what a change of it does |
| `Tamer.MainLoop.Go` | limesdr-qpcie-lms7_trx/software/nios4usb_app/main.c:955-1093 | one trip in place does what the step function says |
| `Tamer.MainLoop.GoOn` | limesdr-qpcie-lms7_trx/software/nios4usb_app/main.c:955-1093 | a run of orderly trips in place stays in step with its session |

## Left out

- Register, SPI, I2C and FIFO traffic: test results, hook results, counts and host commands are inputs or functions.
- Noise: every test is a fixed function of the settings it depends on (the marginal bit apart).
- `Centering.CentreReads`: requires the DQS range above the start to be no wider than the DQ range, as without it the
  illegal edge value could be a real one; DQS-enable shifting with DQS is off in this build.
- `GroupPath.CalibrateGroup`: one attempt at each stage, the read test's windows being those at the enable setting found;
  that setting is not claimed to pass at the delays centring leaves, since it is searched with the DQ delays spread and
  before the DQS delay moves. The retries and what they report are in `Calibration`, whose stages answer by setting.
- `Centering.CentreWrites`: a group's DQ output registers are numbered from 0, as the code addresses them; a bit without
  a window leaves the strobe where the sweep ended.
- `WritePath.CentreGroupWrites`: the strobe's delay is held once for the data pins and once for the mask pin; the
  contract ties the two at the start and on success.
- Bit masks are sets of bit numbers; read groups and write groups correspond one to one, as DDR3 has them.
- `DqsEnable.Strobe.FindPhase`: delays are unbounded integers, so 32-bit overflow of the running totals is not modelled;
  the branch of step 3a for phase 0 cannot be reached in this build and is left out; working-tap counts and reports are.
- `Calibration.Calibrator.MemCalibrate`: the skip-everything mode, shadow registers to be skipped, non-destructive and
  debug builds; a stage's centring result is given per setting rather than recomputed from delay chains.
- Write levelling (not run on this device), tracking, figures of merit and all reports.
- `Delay.DelayForClocks`: few-cycle overheads of the outer loops, as in the source's own comment.
- `AlarmList.Scheduler.Stop`: an alarm that was never started, whose links the source would follow unset.
- Alarm callbacks that start or stop alarms, and interrupts inside sections that disable them.
- `AlarmList.Scheduler.Start`: an alarm already in the list, which the source would link twice.
- Device and filesystem lookup by name, `ioctl`, reading and writing through descriptors, and F_GETFL.
- `FileTable.Descriptors.Close`: descriptors that are not open, through which the source would call a null device.
- `LogPrintf.LogPrinter.Print`: a width too large for an int; reading an argument that is missing or of another kind
  gives 0 or no text; the format holds no NUL. `%c` and `%s` are modelled, without a reader for them.
- `AltPrintf.PrintHex`: masks and shifts are written as division and remainder by powers of 16.
- `TimeOfDay.SetThenGet`: a counter that wraps between setting and reading, and times past 2^31 seconds, where C's signed
  arithmetic overflows; null pointers.
- Slope, intercept and fine-tune arithmetic in floating point: the DAC value it comes to is an input of each trip.
- The LMS64C command switch, ADC, LM75 and PLL set-up, the I2C driver and the remaining HAL stubs.
