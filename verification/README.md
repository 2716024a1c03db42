# A verified model of the USRP playground

The system lets remote clients send a complex baseband signal over a radio and get
back what was received. A web service takes uploads and queues them, one worker takes
the oldest task, drives a transmit and a receive daemon over ZeroMQ, and stores the
capture; a browser page analyses it. The model follows that path:

| file | what it models |
|---|---|
| `complex.dfy`, `bits.dfy`, `dft.dfy` | exact complex arithmetic, 32-bit shifts, the discrete Fourier transform as a sum, and why bit reversal plus butterfly stages compute it |
| `fft.dfy`, `spectrum.dfy` | the in-place FFT of the browser benchmark, its zero padding, shift and peak search |
| `task_queue.dfy` | the `tasks` table as a state machine in which every transaction of every process is one step |
| `task_processes.dfy` | worker, cancelling handler and status loop as methods whose database calls are interleaved with arbitrary steps of the others |
| `mimo_format.dfy`, `blob_padding.dfy`, `upload.dfy` | the binary signal format in both implementations, padding of encoded signals, the server's payload checks |
| `req_sockets.dfy`, `radio_channel.dfy` | REQ sockets (RFC 28/REQREP) and the worker's radio driver with every exception path |
| `duty_cycle.dfy` | the sliding-window transmit limiter and its waiting loop |
| `rx_config.dfy`, `rx_refinement.dfy` | incremental receiver configuration: the daemon, and over whole runs when it agrees with setting everything and how far it can part |
| `streaming.dfy` | the daemons' sample loops, the transmit matrix and the life of the transmit streamer |
| `routing.dfy` | inventory validation, endpoints, device channels, and columns to channels and back |
| `text_lines.dfy`, `env_file.dfy` | text-mode lines, the `.env` editor and its cache |
| `slots.dfy` | connection slots |
| `capture.dfy` | guards, capture length and the burst inside the capture |
| `collections.dfy` | an option type and two sequence helpers |

Reading conventions. Nondeterminism stands for everything outside: a receive may time
out, a call into the host may raise, a streamer may take or deliver any number of
samples, other processes may commit anything they can between two transactions; answers
of the host that are failures are counted, so that success can be tied to them. Time
and amplitudes are exact reals; 32-bit floats in files and blobs are opaque 4-byte
words. Methods that change fields are proved against functions of the old state, and
what the system promises is proved about those functions.

## Where the code does not do what it is for

Each of these is kept as the code has it, with a concrete run or family of inputs and
the exact condition under which the promise holds.

- Cancelling is documented as "if their task hasn't started yet", but the row is deleted
  without a second look: `CancelDeletesPendingIff`, `CancelCanDeleteRunning`.
- A commit that fails although its row is there can leave a task behind in R, and then two
  are: exactly the harmless transactions keep every running task accounted for
  (`AccountedIff`), and a second one appears exactly with a claim over a running one
  (`SecondTaskIff`, `FailedFinishLeavesTwoRunning`). Rows that are gone do no harm
  (`MissingRowsAreHarmless`).
- Recovery after a restart commits all stale rows at once, so the deletion of one of
  several in between leaves the others in R: `RecoverStaleTasks`, `RecoveryLeavesRunning`.
- A 1-D upload whose length is no multiple of 4 passes the server's checks and then fails
  in the worker: `CheckPayload`, `OddUploadIsAccepted`.
- The FFT's stage loop never ends from 2^30 samples on, `nextPow2` never above 2^30:
  `StageLoopExits`, `NextPow2Exits`.
- A burst whose capture fails is not counted against the duty cycle. The limiter would
  admit a burst beyond the limit exactly if such airtime lies in the last window
  (`ExceededIffLost`, `LostBurstEscapes`); the excess is never more than what was lost
  (`EveryWindowWithLost`).
- The receive daemon remembers what was asked for, not what was set. Skipping is setting
  everything exactly if every skipped value would have come out the same as the last one
  asked for (`SkippingIsExactIff`; for the sampling rate `RatesExactIff`, and
  `RatesExactFromAny` when channels begin at different rates). Values that are apart always
  do (`ApartIsExact`). Otherwise tuning, gain and filter drift by one tolerance per skipped
  call and no further (`DriftBounded`, `DriftReached`, `SmallStepsMismatch`), while the rate,
  which is read back before it is skipped, never drifts (`RatesStayNear`).
- The transmit daemon compares sorted channel lists, so a reordered list keeps the old
  streamer: `RowsReachTheirChannels`, `ReorderedKeepsOldStreamer`; not so for ascending
  lists: `AscendingStaysAligned`.
- A LOAD_SIGNAL refused for its number of rows leaves a matrix behind that a later
  TRANSMIT_BURST sends: silence, or the signal that was placed before the mismatch. A
  LOAD_SIGNAL refused for anything else does not: `LoadSignal`, `TransmitAfterRefusal`.
- A setting written in an unusual spacing wins over the editor: `PutGet`, `StrayWins`,
  `ClearRemoves`.
- A value may bring further lines with it, by a carriage return alone too, since the file
  is read with universal newlines. It changes another key exactly if one of those lines
  sets that key (`PutOther`, `CarriageReturnSetsAnother`), and writing again does not take
  them away (`PutPut`).
- `_write_env_key` means to renew the cache's time stamp, but assigns a local variable:
  `WriteEnvKey`.
- The worker draws guards also when a minimum is above its maximum. Every draw then passes
  the browser's balance check exactly if the shortest and the longest one do
  (`EveryDrawInRangeIff`); with the bounds of one guard swapped a draw can fail and
  another pass, at the default rate too (`SwappedDraws`), and far enough apart none can (`SwappedNeverInRange`).
- Rounding the capture length can cost up to half a sample of the end guard:
  `BurstInsideIff`, `EndGuardIff`, `EndGuardCutShort`.

## Model

| member | source | states |
|---|---|---|
| Fft.FftInPlace | nginx/html/js/benchmark.js:16-49 | leaves exactly the DFT (the sum over j of x[j]·w^(jk)) in the arrays; refuses exactly the lengths that are no power of two, changing nothing |
| Fft.ReverseCarry | nginx/html/js/benchmark.js:21-23 | the inner carry loop terminates and takes j from the bit reversal of i−1 to that of i |
| Fft.BitReverse | nginx/html/js/benchmark.js:20-28 | the `i < j` swaps realise exactly the bit-reversal permutation |
| Fft.Butterflies | nginx/html/js/benchmark.js:35-46 | one block of butterflies with the running twiddle replaces exactly that block by its combination and leaves the rest alone |
| Fft.ButterflyStage | nginx/html/js/benchmark.js:34-47 | one pass over all blocks is one stage of the specification |
| Fft.StageLoopExits | nginx/html/js/benchmark.js:30 | with 32-bit doubling the stage loop ends exactly for n below 2^30 |
| Bits.PowerOfTwoTest | nginx/html/js/benchmark.js:18 | n & (n − 1) is zero exactly for zero and the powers of two |
| Bits.DigitIs | nginx/html/js/benchmark.js:18-23 | what the binary digits of a number are |
| Bits.Digits | nginx/html/js/benchmark.js:18-23 | binary digit by binary digit, the bitwise operators are "and", "or" and "not equal" |
| Dft.RevInvolution | nginx/html/js/benchmark.js:19-28 | bit reversal is an involution on indices below 2^m, so the permutation loses and duplicates nothing |
| Dft.CombineIsDft | nginx/html/js/benchmark.js:36-46 | a butterfly block turns the DFTs of even and odd samples into the DFT of all |
| Dft.StageAdvances | nginx/html/js/benchmark.js:30-48 | each stage doubles the length of the blocks that hold finished transforms |
| Dft.FftIsDft | nginx/html/js/benchmark.js:16-49 | for every power of two and every input, all stages after bit reversal give the DFT |
| Spectrum.NextPow2 | nginx/html/js/benchmark.js:51 | the least power of two that is at least n |
| Spectrum.NextPow2Exits | nginx/html/js/benchmark.js:51 | its loop ends exactly for n up to 2^30 |
| Spectrum.Padded | nginx/html/js/benchmark.js:56-60 | the signal followed by zeros up to that length |
| Spectrum.ShiftedSlot | nginx/html/js/benchmark.js:67-71 | slot k reads bin (k − n/2) mod n and its frequency index is k − n/2 |
| Spectrum.ShiftSlots | nginx/html/js/benchmark.js:63-72 | slot k has the magnitude of that bin and the frequency f with n·f = (k − n/2)·fs, so the middle slot is zero frequency and n slots span the sampling rate |
| Spectrum.FrequenciesIncrease | nginx/html/js/benchmark.js:65-70 | the frequency axis is strictly increasing |
| Spectrum.PeakIndex | nginx/html/js/benchmark.js:74-80 | the first slot of greatest magnitude |
| Spectrum.VertexWithinHalfStep | nginx/html/js/benchmark.js:81-88 | the parabola's vertex around a maximum is at most half a slot away |
| Spectrum.VertexIsHighest | nginx/html/js/benchmark.js:84-87 | the parabola through the peak slot and its neighbours is nowhere higher than at that vertex |
| Spectrum.PeakFrequency | nginx/html/js/benchmark.js:81-88 | the reported frequency is that vertex, within half a slot of the peak slot; a peak at the border is left alone |
| Spectrum.Spectrum | nginx/html/js/benchmark.js:55-90 | all of it together: the frequency axis in terms of fs and n alone, each slot with the magnitude of its bin of the padded signal's DFT, the first maximum, and a reported frequency at the vertex, at most fs / 2n from that slot |
| TaskQueue.NextKeepsInv | entrypoint/main.py:168-191 | every transaction of any process keeps the queue's invariant |
| TaskQueue.TaskLifeCycle | worker/worker.py:116-186 | over every run a task only moves from PD through R to D or is removed, is claimed at most once, never comes back, and D is final |
| TaskQueue.CancelDeletesPendingIff | entrypoint/main.py:175-184 | the row a vanished client's handler deletes is still pending exactly if the worker has not claimed it between the read and the delete |
| TaskQueue.CancelCanDeleteRunning | entrypoint/main.py:175-184 | a run in which the deleted task is running |
| TaskQueue.AnyTime | entrypoint/admin_router.py:173-193 | clients, administrators and crashes may come at any moment |
| TaskQueue.CancelledWasPending | entrypoint/main.py:175-178 | only a task that was read as pending is ever being cancelled |
| TaskQueue.NextKeepsAccount | worker/worker.py:122-165 | a transaction keeps every running task accounted for exactly if it is harmless: a finish or recovery that fails has nothing in R to take |
| TaskQueue.AccountedIff | worker/worker.py:116-167 | over every run, at every moment, exactly if every transaction was harmless |
| TaskQueue.OneTaskOnTheAir | worker/worker.py:122-141 | and then at most one row is in R at every moment |
| TaskQueue.SecondTaskIff | worker/worker.py:126-128 | a second row in R appears in a run exactly with a claim that succeeds over a running one |
| TaskQueue.MissingRowsAreHarmless | worker/worker.py:116-186 | whatever is deleted and wherever the worker crashes, only a database failure is harmful |
| TaskQueue.OneTaskOnTheAirFromStart | worker/worker.py:146-167 | so without one, at most one row is in R at every moment of every run from a fresh start |
| TaskQueue.FailedFinishLeavesTwoRunning | worker/worker.py:130-143 | a run with a failed finishing commit after which two rows are in R |
| TaskQueue.NextKeepsOrder | worker/worker.py:122 | with increasing creation times, a selected or claimed task is never younger than a pending one |
| TaskQueue.ClaimsTheOldest | worker/worker.py:122-128 | the claimed task is still the oldest pending one when its claim commits |
| TaskQueue.PositionZeroOnceClaimed | entrypoint/main.py:505-511 | a task in R or D shows queue position 0 |
| TaskQueue.PositionZeroIffOldest | entrypoint/main.py:481-483 | a pending task is at position 0 exactly if it is an oldest one |
| TaskQueue.PositionsAscend | entrypoint/main.py:481-483 | the positions of pending tasks ascend with their creation times, below the number of pending tasks |
| TaskQueue.QueueAdvances | entrypoint/main.py:481-483 | every successful claim brings a waiting task one place forward, and nothing ever moves it back |
| TaskQueue.FirstComeFirstServed | worker/worker.py:122-128 | a pending task at position p is claimed or removed within the next p + 1 successful claims, over every run |
| TaskProcesses.PollAndProcess | worker/worker.py:116-143 | the whole trace: with a pending task an oldest one is selected; it is claimed exactly if the commit succeeds and no client deleted it before, and only then finished; work is reported exactly if that also succeeds, which is exactly if the task is in D |
| TaskProcesses.RecoverStaleTasks | worker/worker.py:146-167 | its two transactions; if both are accepted no row is left in R, unless some but not all stale rows were deleted in between |
| TaskProcesses.RecoveryLeavesRunning | worker/worker.py:153-165 | a reachable state in which an accepted recovery leaves a task in R |
| TaskProcesses.CleanupOldTasks | worker/worker.py:170-186 | its two transactions; of the rows that were there it removes exactly the expired ones, and none if its commit fails |
| TaskProcesses.CancelPendingTask | entrypoint/main.py:168-191 | its two transactions, exactly for a task it has read as pending; the row it returns is the one in the table at its second transaction, still pending exactly if it was not claimed in between |
| TaskProcesses.WatchTask | entrypoint/main.py:473-537 | message i tells the status and position that the table has at poll i; one message a poll until the task is done or its row is gone; the stream has non-decreasing state, non-increasing position, and position 0 once running or done |
| TaskProcesses.ClientsKeep | entrypoint/main.py:168-191 | whatever clients do, the worker's place, its claims and the states of remaining rows stay |
| TaskProcesses.ClientsDelete | entrypoint/admin_router.py:173-193 | of the rows that were there clients and administrators leave exactly those they do not delete |
| MimoFormat.EncodeMimo | usrp_testbed_library/mimo_format.py:39-56 | header and payload of every matrix that fits the header; an error for the others |
| MimoFormat.EncodeMimoClient | usrp_playground/client.py:27-36 | produces the same bytes as the server's encoder |
| MimoFormat.FillWords | usrp_testbed_library/mimo_format.py:48-53 | the strided stores write every channel's samples interleaved, channel after channel |
| MimoFormat.DecodeMimo | usrp_testbed_library/mimo_format.py:59-77 | decodes as specified, and fails exactly on truncated blobs |
| MimoFormat.WhereSamplesAre | usrp_testbed_library/mimo_format.py:48-53 | sample s of channel k is in the eight bytes from 16 + 8(k·n + s), real part first |
| MimoFormat.EncodeSisoInPlace | usrp_testbed_library/mimo_format.py:80-86 | the two strided stores interleave the signal |
| MimoFormat.MimoRoundTrip | usrp_testbed_library/mimo_format.py:39-77 | decoding an encoded matrix, with any bytes after it, returns the matrix |
| MimoFormat.SisoRoundTrip | usrp_testbed_library/mimo_format.py:80-94 | decoding an encoded 1-D signal returns the signal |
| MimoFormat.AnyRoundTrip | usrp_testbed_library/mimo_format.py:97-115 | decode_any after encode_any returns the signal exactly if a 1-D signal does not start with the magic bytes |
| MimoFormat.Pack32RoundTrip | usrp_testbed_library/mimo_format.py:46 | header fields survive for all values below 2^32 |
| MimoFormat.HeaderBytes | usrp_testbed_library/mimo_format.py:39-46 | the sixteen bytes of the header: magic, channels and samples, low byte first |
| BlobPadding.PadBlob | usrp_playground/cli.py:8-29 | the appended chunks make up the padded blob |
| BlobPadding.PaddingCommutes | usrp_playground/client.py:244-274 | padding the encoded bytes equals encoding the signal padded with zero samples before and after on every channel: for every matrix, and for a 1-D signal exactly unless it begins with the magic bytes |
| BlobPadding.PaddedSisoIsNotMimo | usrp_playground/cli.py:8-29 | with at least one sample of padding no 1-D blob is mistaken for a MIMO one |
| Upload.CheckPayload | entrypoint/main.py:379-453 | the exact verdict on every upload; an accepted one decodes in the worker to exactly the recorded shape, except 1-D lengths that are no multiple of 4, which fail there; everything that fits is accepted, and so is every listen request |
| Upload.OddUploadIsAccepted | entrypoint/main.py:436-437 | nine bytes that the server accepts and the worker cannot decode |
| Upload.EncodedShape | worker/worker.py:86-92 | what a client encodes is what the worker will transmit: every matrix, and a 1-D signal exactly unless it has two samples or more and begins with the magic |
| ReqSockets.ReplyAnswersLatest | worker/channel.py:220-268 | with strict alternation a reply always answers the latest request on its socket |
| RadioChannel.UsrpChannel.Sock | worker/channel.py:220-268 | a cached or new idle socket, exactly if nothing failed; one that did not answer its PING is never cached |
| RadioChannel.UsrpChannel.Configure | worker/channel.py:270-432 | succeeds exactly if nothing failed, and then both sockets are idle, picked, and have answered a configuration of this call; a failure leaves every socket known to the reset |
| RadioChannel.UsrpChannel.ListenBeforeTalk | worker/channel.py:471-540 | when enabled, returns with idle sockets after one capture more than the channel was found busy, fewer than the retries; with idle sockets it raises only after as many busy captures as there are retries |
| RadioChannel.UsrpChannel.ResetSockets | worker/channel.py:542-556 | from any state to no cached socket; exactly those that were are closed |
| RadioChannel.UsrpChannel.TryBurst | worker/channel.py:624-703 | succeeds exactly if nothing failed, and then as exactly the documented exchange; otherwise the flags of the exception handler name exactly the sockets of a burst with an outstanding request |
| RadioChannel.UsrpChannel.Recover | worker/channel.py:705-723 | waits for what the flags name, and leaves every socket closed and none cached |
| RadioChannel.UsrpChannel.SendAndReceive | worker/channel.py:558-730 | from idle sockets to idle sockets on every path, receiving only replies to its own requests, with at most one burst; it succeeds if nothing failed, and never over a failure other than a busy channel; the reply to every request is waited for, and a lost one is never a reason to try again except that of a capture already given up; a success has configured both sides, listened first if asked to, and ends with exactly the exchange load, flush, arm capture, burst, both replies |
| RadioChannel.UsrpChannel.ReceiveOnly | worker/channel.py:757-838 | the same without any burst, exactly if nothing failed, ending with exactly flush and capture |
| RadioChannel.UsrpChannel.WithRfRetry | worker/worker.py:26-44 | every attempt but the last ended in a transient error, a transient error ends the last of the given number only, and each attempt starts from idle sockets; where nothing fails the first attempt succeeds |
| RadioChannel.NoStaleReplies | worker/channel.py:705-723 | no task ever receives a reply to a request of an earlier task or attempt |
| RadioChannel.CapturedBeforeSent | worker/channel.py:655-690 | every burst was requested right after the capture, and is counted |
| DutyCycle.Limiter.Check | worker/channel.py:437-469 | decides on the pruned history as it would on all recorded bursts: too long exactly above maxPercent / 100 of the window, admitted exactly if it fits what the last window left of that |
| DutyCycle.PrunedTotal | worker/channel.py:453-454 | the pruned list's total is the total over the complete history since the cutoff |
| DutyCycle.PruneAgain | worker/channel.py:453 | pruning twice is pruning once, so nothing needed later is lost |
| DutyCycle.Limiter.WaitUntilAdmitted | worker/channel.py:604-610 | the waiting loop ends, with at most one refusal per second of the window, admitted exactly if 100 times the duration is at most maxPercent times the window |
| DutyCycle.EveryWindowBounded | worker/channel.py:437-469 | 100 times the airtime in every window of the complete history is at most maxPercent times the window, though it is recorded after the check |
| DutyCycle.AirtimeBounded | worker/channel.py:701 | the same for the airtime itself, wherever inside its admission each burst was on the air |
| DutyCycle.Limiter.HistoryBounded | worker/channel.py:437-469 | so for everything a limiter has recorded, after any calls |
| DutyCycle.Limiter.SendWithRetry | worker/worker.py:26-44 | of the bursts of all attempts, each admitted on its own, exactly that of a success is recorded; how many there are |
| DutyCycle.EveryWindowWithLost | worker/channel.py:690-701 | every window of everything on the air holds at most the allowed airtime and what was lost in it |
| DutyCycle.Limiter.AirBounded | worker/channel.py:690-701 | so for everything a limiter let on the air |
| DutyCycle.ExceededIffLost | worker/channel.py:437-469 | at any moment the limiter would admit a burst beyond the limit exactly if the last window holds unrecorded airtime |
| DutyCycle.LostBurstEscapes | worker/channel.py:705-723 | under any settings that allow airtime, one failed capture is enough |
| RxConfig.RxDaemon.ConfigureUsrp | usrp_testbed_library/rx_daemon.py:96-253 | the loop with its change detection is one incremental step; rejected requests change nothing |
| RxConfig.CallSpelledOut | usrp_testbed_library/rx_daemon.py:176-226 | setting by setting: set exactly if new or further than its tolerance from what the cache has, and the cache then has what was asked for |
| RxConfig.RateSpelledOut | usrp_testbed_library/rx_daemon.py:131-164 | the rate is set exactly if it is further than 1 Hz from the last one asked for or from what a requested channel reads |
| RxConfig.RxDaemon.HandleConfigure | usrp_testbed_library/rx_daemon.py:519-554 | OK exactly if on every requested channel rate and frequency read back within 1 Hz, gain within 0.05 dB, and the antenna is the requested one |
| RxConfig.RxDaemon.CheckMismatch | usrp_testbed_library/usrp_common.py:535-585 | the channels that do not match, and none exactly if all match |
| RxConfig.MatchesIff | usrp_testbed_library/usrp_common.py:535-585 | what matching means for each of the four settings |
| RxRefinement.FreshIsTuned | usrp_testbed_library/rx_daemon.py:64-94 | the cache read from the hardware at start describes it exactly if setting a reading gives it again |
| RxRefinement.FreshIsRateTuned | usrp_testbed_library/rx_daemon.py:70-73 | so does the rate remembered at start, exactly if all channels read it and setting it gives it again |
| RxRefinement.RemembersLastCall | usrp_testbed_library/rx_daemon.py:220-226 | what a call is compared with is the last call for that channel, skipped or not |
| RxRefinement.StepIff | usrp_testbed_library/rx_daemon.py:176-226 | one call leaves the tuning that setting everything leaves exactly if every value it skips would have come out the same |
| RxRefinement.SkippingIsExactIff | usrp_testbed_library/rx_daemon.py:121-253 | over every run, after every call, exactly if every call was such |
| RxRefinement.RatesExactIff | usrp_testbed_library/rx_daemon.py:131-164 | over every run, the requested channels run at the rate that setting it gives after every call, exactly if each requested rate that is close to the last one and to what became of it comes out the same |
| RxRefinement.SettingTunesRates | usrp_testbed_library/rx_daemon.py:153-164 | a call that sets the rate sets it on every channel |
| RxRefinement.RatesExactFromAny | usrp_testbed_library/rx_daemon.py:131-164 | the same as RatesExactIff from any readings, in terms of these and the requested rates |
| RxRefinement.RatesStayNear | usrp_testbed_library/rx_daemon.py:162-164 | after every call of any run on any hardware a rate that was not set is at most one tolerance from the requested one |
| RxRefinement.ApartIsHarmless | usrp_testbed_library/rx_daemon.py:176-183 | no call loses tuning, gain or filter when the distinct values of a run are further apart than the tolerances |
| RxRefinement.ApartRatesAreHarmless | usrp_testbed_library/rx_daemon.py:131 | nor the rate |
| RxRefinement.ApartRatesFromAny | usrp_testbed_library/rx_daemon.py:131-164 | not even when channels begin at different rates, if these and what the hardware makes of the requested ones are apart too |
| RxRefinement.ApartIsExact | usrp_testbed_library/rx_daemon.py:121-253 | so over such a run skipping is setting everything after every call: tuning, gain, antenna and filter everywhere, and the rate on the requested channels |
| RxRefinement.TunedIsWithin | usrp_testbed_library/rx_daemon.py:64-94 | runs begin without drift |
| RxRefinement.DriftBounded | usrp_testbed_library/rx_daemon.py:176-226 | for any calls and any hardware, tuning, gain and filter are set to a value at most as many tolerances from the last one asked for as calls in a row have skipped it |
| RxRefinement.DriftInUnits | usrp_testbed_library/rx_daemon.py:176-226 | that is 1 Hz a skipped call for tuning and filter, and 0.05 dB for the gain |
| RxRefinement.DriftReached | usrp_testbed_library/rx_daemon.py:176-226 | and for each of them there are n calls that skip it n times and end n tolerances away |
| RxRefinement.SmallStepsMismatch | usrp_testbed_library/rx_daemon.py:538-554 | two small steps are reported as a mismatch on hardware where setting everything would have matched |
| Streaming.TxDaemon.Assemble | usrp_testbed_library/tx_daemon.py:504-553 | every row is its interference over its synchronisation signal over zeros, at the longest length; a refused signal leaves the matrix half filled |
| Streaming.Place | usrp_testbed_library/tx_daemon.py:536-550 | writes exactly the prefix of the rows of the listed channels |
| Streaming.TxDaemon.ConfigureUsrp | usrp_testbed_library/tx_daemon.py:140-220 | when matrix and streamer are renewed, kept or dropped, and that a rebuild never fails |
| Streaming.AcceptableIff | usrp_testbed_library/tx_daemon.py:140-157 | a channel request is accepted exactly if it names a channel, only existing ones, and none on both lists |
| Streaming.TxDaemon.LoadSignal | usrp_testbed_library/tx_daemon.py:364-411 | ready exactly if every given signal is readable and fits its channels; a failure leaves a matrix exactly if only the number of rows was wrong, and which signals |
| Streaming.SendAll | usrp_testbed_library/tx_daemon.py:578-607 | terminates for any partial acceptance; accepted pieces join to each channel's row (a prefix of it on a timeout); begin of burst on the first send only, end of burst on every send that reaches the last sample, so on the last |
| Streaming.TxDaemon.TransmitWithDelay | usrp_testbed_library/tx_daemon.py:560-607 | the same for the configured channels, and the exact refusals |
| Streaming.TxDaemon.TransmitAfterRefusal | usrp_testbed_library/tx_daemon.py:531-570 | a burst after a refused load is refused itself unless only the rows were wrong; then it sends silence or the half-placed signal |
| Streaming.TxDaemon.TransmitTest | worker/channel.py:633-690 | configure, load, transmit: position p sends row p; the streamer's channel order; the exact refusals |
| Streaming.RowsReachTheirChannels | usrp_testbed_library/tx_daemon.py:172-178 | with different rows, every channel radiates its own row exactly if the streamer's order is the requested one |
| Streaming.AscendingStaysAligned | usrp_testbed_library/tx_daemon.py:334-347 | ascending channel lists always have the right streamer |
| Streaming.ReorderedKeepsOldStreamer | usrp_testbed_library/tx_daemon.py:172-178 | [1, 0] and then [0, 1] keeps the streamer of the first |
| Streaming.ReceiveWithDelay | usrp_testbed_library/rx_daemon.py:343-381 | exactly the first n samples of every row, in order, and the iteration cap is hit only after a hundred recvs that were not full |
| Streaming.RxStreams.ConfigureUsrp | usrp_testbed_library/rx_daemon.py:116-249 | when the receive streamer is renewed and in which order, and the exact refusals |
| Streaming.FullOnes | usrp_testbed_library/rx_daemon.py:351-357 | full chunks alone cannot use up the iterations |
| Routing.WriteInventory | entrypoint/inventory.py:51-175 | accepts exactly the valid inventories and stores every name, role and port without surrounding blanks, and channel indices and gains as they are |
| Routing.RoleIs | usrp_testbed_library/endpoints.py:30-35 | a role field is "tx" or "rx" exactly if it is that in any case, among blanks |
| Routing.EndpointsFromInventory | usrp_testbed_library/endpoints.py:38-53 | every named device, at the position i of its last entry, with ports 5600 + 4i to 5603 + 4i in their order, and its role |
| Routing.PortsDisjoint | usrp_testbed_library/endpoints.py:24-27 | no two sockets of the testbed share a port |
| Routing.ChannelsHaveEndpoints | worker/channel.py:229-246 | for every channel of a valid, stripped inventory both endpoints exist and neither is refused for its role |
| Routing.StoreAndResolve | entrypoint/inventory.py:51-175 | so for every channel of every inventory that write_inventory stores, from the submitted text on |
| Routing.ResolvedChannels | worker/channel.py:93-135 | a device channel is the explicit index or the number of earlier channels on the same USRP |
| Routing.PickChannels | worker/channel.py:298-398 | a test is refused exactly for no channel at all, an unknown one, a missing gain, spanning devices or a device channel twice |
| Routing.DefaultsNeverCollide | worker/channel.py:345-350 | without explicit indices the duplicate check never trips |
| Routing.DefaultsAreIdentity | worker/channel.py:580-583 | and a MIMO test drives device channels 0 to n − 1 in order |
| Routing.SendColumns | worker/channel.py:572-640 | column i of the client's array is what streamer position i sends; that position is the i-th picked device channel whenever those ascend, explicit indices included, and device channel i with default ones |
| Routing.ReceiveColumns | worker/channel.py:732-755 | the exact refusals; row i comes back as column i, from streamer position i, which is the i-th picked device channel whenever those ascend |
| TextLines.ReadJoin | entrypoint/settings_store.py:62-86 | lines that were read and are written back are read again |
| TextLines.StripIs | entrypoint/settings_store.py:30-38 | stripping takes the blanks from both ends and nothing else |
| TextLines.AsciiSpace | entrypoint/settings_store.py:30-38 | which ASCII characters are blanks |
| TextLines.TranslateUnits | entrypoint/settings_store.py:63-64 | what open() makes of CR LF, of CR alone and of any other character |
| EnvFile.LineSets | entrypoint/settings_store.py:30-44 | a line of blanks, a name, blanks, an equals sign and anything sets that name to what the rest stands for |
| EnvFile.SaysNothingIff | entrypoint/settings_store.py:30-34 | a line sets nothing exactly if it has no equals sign or begins, after blanks, with # |
| EnvFile.ValueOf | entrypoint/settings_store.py:37-43 | a value is the rest without a comment that a space precedes, without blanks around it, and without one pair of quotes of either kind |
| EnvFile.SplitValue | entrypoint/settings_store.py:37-43 | every rest of a line is of that form |
| EnvFile.MatchedIff | entrypoint/settings_store.py:70 | the editor recognises the lines with at most one space before the equals sign, after any blanks |
| EnvFile.PutReplaces | entrypoint/settings_store.py:66-76 | a key in one line has that line replaced by key=value, and every other character of the file stays |
| EnvFile.PutAppends | entrypoint/settings_store.py:77-83 | a key in no line is added as key=value in a line of its own at the end |
| EnvFile.PutReadsBack | entrypoint/settings_store.py:60-86 | what open() yields after a write: the edited lines, each entry as all the lines that its value breaks into |
| EnvFile.PutGet | entrypoint/settings_store.py:60-81 | writing then reading a key gives the value exactly if it is one clean line and no line in another spacing follows (or that line says the same) |
| EnvFile.PutOther | entrypoint/settings_store.py:60-81 | another key keeps its value in every file, with duplicates, comments and a missing final newline, exactly if no further line of the written value sets it |
| EnvFile.CarriageReturnSetsAnother | entrypoint/settings_store.py:71 | a carriage return in a value is enough for one that does |
| EnvFile.PutPut | entrypoint/settings_store.py:60-81 | writing twice is writing the last, to the character, exactly if the first value was one line |
| EnvFile.ClearRemoves | entrypoint/settings_store.py:322-336 | clearing leaves other keys alone and removes the key exactly if no line sets it in another spacing |
| EnvFile.StrayWins | entrypoint/settings_store.py:70-74 | the lines with two or more blanks before "=" that keep winning |
| EnvFile.SettingsStore.ParseEnvFile | entrypoint/settings_store.py:25-47 | the last line with a key wins |
| EnvFile.SettingsStore.FileGet | entrypoint/settings_store.py:50-57 | what the file says, both inside and after the cache's life time, if the cache was in step |
| EnvFile.SettingsStore.WriteEnvKey | entrypoint/settings_store.py:60-88 | the new file and cache; the cache stays in step exactly if reading the file gives the value |
| EnvFile.SettingsStore.ClearOverride | entrypoint/settings_store.py:322-336 | the new file and cache, and when they stay in step |
| Slots.Server.Reserve | entrypoint/main.py:200-214 | admits exactly below both caps in force and counts the handler in |
| Slots.Server.Release | entrypoint/main.py:573-579 | counts it out; an address without handlers is forgotten |
| Slots.Server.Serve | entrypoint/main.py:200-214 | over any interleaving of handshakes and endings, under caps that may change, the live handlers and every answer are exactly what the caps in force give; the counters equal the live handlers |
| Slots.CapsHold | entrypoint/main.py:200-214 | under fixed caps neither is ever exceeded |
| Capture.CaptureHoldsBurst | worker/channel.py:654-655 | the capture has at least n samples exactly if the guards do not take away half a sample |
| Capture.DrawnIff | worker/channel.py:169-177 | a guard is drawn from between its two bounds, in whichever order they are |
| Capture.EveryDrawInRange | nginx/html/js/benchmark.js:409-420 | with minima at most the maxima the balance check passes every draw |
| Capture.EveryDrawInRangeIff | worker/channel.py:169-177 | for any bounds, every draw passes the balance check exactly if the shortest and the longest do |
| Capture.SwappedDraws | worker/channel.py:175-176 | at the default rate, swapped bounds under which one draw fails and another passes |
| Capture.SwappedNeverInRange | nginx/html/js/benchmark.js:499-501 | with the sums of the bounds swapped by more than four samples no capture passes |
| Capture.BurstInsideIff | usrp_testbed_library/rx_daemon.py:327-341 | the exact skew of the two time references, lateness of the warm-up and rounding for which the whole burst is captured |
| Capture.EndGuardIff | worker/channel.py:655 | a skew of just the end guard is good exactly if the sample count was not rounded down |
| Capture.EndGuardCutShort | worker/channel.py:140-150 | guards at the default rate for which it was |
| Capture.BurstCaptured | worker/channel.py:650-655 | it is captured with the warm-up in time and the skew between the begin guard and half a sample less than the end guard |

## Left out

- Fft.FftInPlace: exact reals instead of rounded 32-bit floats; cosine and sine enter only through the twiddle laws w(2L)² = w(L) and w(L)^(L/2) = −1; both arrays have one length.
- Spectrum.Spectrum: magnitudes come from any given function of the two parts, and the conversion to decibels is not modelled.
- MimoFormat.DecodeMimo: `I + 1j * Q` is taken to keep both words, which floating point does except for infinities, NaN and negative zero.
- MimoFormat.EncodeMimo: the conversion of the input array to complex64 happens before the model starts.
- DutyCycle.EveryWindowBounded: settings are fixed during a run, the clock never runs backwards, and DUTY_CYCLE_ENABLED is on.
- RadioChannel.UsrpChannel.SendAndReceive: the contents of requests and replies are dropped, only their order and sockets are kept; the duty-cycle history with the bursts of failed attempts is the object of `duty_cycle.dfy`, and the two share no state.
- RadioChannel.UsrpChannel.WithRfRetry: stated for send_and_receive; for receive_only it is the same loop; whether the text of an error makes it transient is left open, except that a lost reply is not.
- RxRefinement.SkippingIsExactIff: the sampling rate is one of the whole device; hardware exceptions in the middle of a call and the streamer's renewal are not modelled; setting one value is taken not to disturb the others.
- Streaming.TxDaemon.ConfigureUsrp: gains, powers, rates and frequencies of the transmitter, whose power-reference mode records gains it does not set.
- Streaming.TxDaemon.LoadSignal: reading an HDF5 file is one of three outcomes.
- Streaming.SendAll: the time specification of the first send, and how long a send may take.
- Streaming.ReceiveWithDelay: the warm-up before the timed command; `capture.dfy` has its timing.
- Routing.WriteInventory: labels and powers; a gain is a number or absent; the fallbacks from identifier to older fields; lower-casing covers ASCII; the identifier of a device is already a string.
- EnvFile.PutGet: keys are names as every editable key is; encodings are not modelled.
- EnvFile.SettingsStore.WriteEnvKey: environment and cache after a failed write to the disk.
- Slots.Server.Serve: caps that change while handlers are live (admission is stated under the caps in force).
- Capture.BurstInsideIff: how the two daemons come to their time references.
- TaskProcesses.WatchTask: database errors during polling, the sleeping server and the final transfer of the result.
- Tasks run on one worker; a second worker process is not part of the model.
- `_op_guard` of the daemons, device discovery, reference clocks and the combined daemon's agent.
- Authentication, tokens, mail, imports, tags, logs, dashboards, plots, shell scripts and notebooks.
