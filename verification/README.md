# Verification of the terminal limiter, the line-speed tester and the credential frame

Three programs of the repository are modelled and proved about in Dafny:

* the **terminal limiter** (`dirver/maclimit/maclimit.c`), a kernel module that
  lets a limited number of LAN terminals through: packet hooks, an ARP hook and
  one kernel thread that talk through a one-slot mailbox;
* the **line-speed tester** (`lab/net/speedtest/speedtest.c`): packet building
  and checksums, the paced sender, the compute thread with its counters and the
  receive hook it shares with the command handler;
* the **credential frame** (`lab/c/des3/des3_encrypt.c`): padding, triple
  encryption, framing and hex dump.

`dafny verify dfyconfig.toml` checks everything.

## How the model is laid out

| file | models |
|---|---|
| `Maclimit.dfy` | the shared variables, and one uninterrupted packet or ARP hook as a function |
| `MaclimitMachine.dfy` | the limiter as a concurrent system, one action per access to shared memory; `Step` is total, an action that is not enabled changes nothing, so every interleaving is a sequence of actions and `Run` folds it |
| `MaclimitBound.dfy`, `MaclimitTight.dfy` | the exact overshoot of the list |
| `MaclimitAtomic.dfy`, `MaclimitWhole.dfy` | exact guarantees when packet hooks are not interrupted, and that the uninterrupted hook is the split one |
| `MaclimitMailbox.dfy`, `MaclimitFlag.dfy` | what the one-slot mailbox hands over, and who writes its flag and payload |
| `MaclimitProbe.dfy` | which entries a probing pass judges alive, with the thread split between lines 155 and 156 |
| `MaclimitWake.dfy`, `MaclimitNodes.dfy` | lost wake-ups and removal, node accounting |
| `MaclimitLimiter.dfy`, `MaclimitProc.dfy` | the module's functions as methods over its variables; the proc file's text |
| `Octets.dfy`, `Checksum.dfy`, `SpeedPacket.dfy` | bytes, the Internet checksum (RFC 1071), the test frame (RFC 791, RFC 768) |
| `SpeedPacing.dfy` | the paced send loop |
| `SpeedStatus.dfy`, `SpeedRun.dfy`, `SpeedCompute.dfy` | counters, a whole run with senders, loop, fifo and compute thread, and the compute thread's own loop |
| `SpeedLeftover.dfy` | runs with wrong figures, and what the run before does to the next |
| `SpeedCommand.dfy`, `SpeedRxHook.dfy` | which senders a command starts; the receive hook across commands |
| `DesFrame.dfy`, `DesMessage.dfy` | the frame and its inverse; the buffers it is assembled in |

In the limiter's system the environment decides packet contents, lock and
allocation outcomes, ARP frames, configuration and removal; hook contexts are
split between reading the filters, walking the list under the read lock,
comparing with the limit, reading the flag, each of the four payload writes, the
flag write and the wake-up. The walk is one step because the thread changes the
list only under the write lock. The largest limit configured counts the initial
limit of 1. Memory accesses are sequentially consistent.

What the proofs found about the code, each stated below as a theorem:

* With n packet hooks running at once the list can exceed the limit by n, and
  by no more.
* The mailbox is safe exactly when at most one packet hook runs at a time; with
  two the thread can link a node mixing two posts.
* Flag and payload are written in turns exactly when one packet hook runs at a
  time and no ARP hook is interrupted: a split ARP hook can mark an entry alive
  after the mailbox was freed.
* Between lines 155 and 156 an ARP frame is compared with the previous entry's
  MAC, so an entry that answered no probe can be spared. When no ARP hook is
  interrupted an entry that answered before it was judged is not replaced.
* Clearing the flag and setting the task state in two steps can lose a wake-up.
  The thread then sleeps until removal, exactly when no packet hook is posting
  and no ARP hook is under way for the compared MAC.
* One interruptible packet hook is enough for a terminal to be listed twice.
* Removal can hang too: a stop request that arrives during a turn of the thread
  is missed, and kthread_stop then waits for some other wake-up.
* Every replacement leaks the node allocated at line 180.
* The loss figure subtracts errors twice: one damaged packet makes it 2^64 - 1.
* What a run leaves in the fifo is counted for the next run; if the packet size
  changed, as an error once the new checksum is stored.
* A command that finds a compute thread to stop leaves its own run on the probe
  hook. Such a run reports everything as lost exactly when neither thread had
  counted a packet since line 614, and none was waiting, as its thread started.
* A direction whose sender a command has to stop is not started by it. If only
  one of the two is started, line 574 is given a NULL task.
* A speed of 4096, or any multiple, makes the interval divide by zero.
* Padding of an empty user name is empty, unlike RFC 5652 section 6.3.
* In every mode but 2 and 3 the shell is handed an uninitialised buffer.

Where the code and its documentation disagree the model follows the code: the
limiter's README allows 0 to 255 terminals and the words enable/disable; the
code takes any `long` and a number.

## Model

| member | source | states |
|---|---|---|
| MaclimitBound.LengthBound | dirver/maclimit/maclimit.c:252-280 | for every interleaving of n split packet hooks, any number of uninterrupted ones, ARP hooks, thread and reconfiguration, the list is at most n longer than the largest limit ever configured |
| MaclimitBound.StepKeeps | dirver/maclimit/maclimit.c:202-214 | the measure behind the bound (length, pending addition, snapshots below t) stays at most t + n for every t not below the highest limit, over any step |
| MaclimitTight.BoundReached | dirver/maclimit/maclimit.c:252-279 | for every n >= 1 and every limit h >= 1 some interleaving of n hooks makes the list h + n long, so the bound is exact |
| MaclimitTight.Fill | dirver/maclimit/maclimit.c:143-150 | one hook context and the thread can fill the list to any length up to the limit |
| MaclimitAtomic.ExactList | dirver/maclimit/maclimit.c:252-280 | with uninterrupted packet hooks every reachable list is within the limit, has no duplicate MAC, and does not contain the MAC of the request in progress |
| MaclimitTight.DistinctExactly | dirver/maclimit/maclimit.c:249-279 | no run lists a MAC twice if and only if packet hooks are not interrupted |
| MaclimitAtomic.AtMostLimitAdmitted | dirver/maclimit/maclimit.c:268-280 | in every such state with a full list the MACs let through are the listed ones, as many as the list is long, at most the largest limit configured |
| MaclimitAtomic.OvershootAdmitted | dirver/maclimit/maclimit.c:252-280 | with n interruptible hooks a full list lets through its own MACs only, at most n more than the largest limit |
| MaclimitWhole.WholeIsSplitAlone | dirver/maclimit/maclimit.c:228-283 | a split hook context that runs from idle to idle alone has the effect of the single-step hook and returns its verdict, on every packet and lock outcome |
| MaclimitWhole.ReturnsWhenIdle | dirver/maclimit/maclimit.c:253-283 | a split context returns a verdict exactly with the step that makes it idle |
| MaclimitWhole.WholeArpIsSplitAlone | dirver/maclimit/maclimit.c:317-325 | the same of the ARP hook, for every frame |
| MaclimitMailbox.WholePostsOnce | dirver/maclimit/maclimit.c:141-194 | with one packet hook context every list entry is one whole post, posts are linked in order and at most once, and the payload does not change while the thread works on it |
| MaclimitMailbox.TornPost | dirver/maclimit/maclimit.c:204-210 | with two or more contexts a node can be linked whose fields come from two different packets and which was never posted |
| MaclimitMailbox.SafeIffOneContext | dirver/maclimit/maclimit.c:202-215 | the one-slot hand-over is safe over all runs if and only if at most one packet hook runs at a time |
| MaclimitFlag.EveryStepOwned | dirver/maclimit/maclimit.c:141-214 | with one packet hook context, or uninterrupted ones, and no ARP hook interrupted: in every run only a packet hook moves the flag off NO_ADD_TASK, only an ARP hook makes check ok, the thread does the rest, and the payload is written only while the mailbox is free and the thread not reading it |
| MaclimitFlag.LateMark | dirver/maclimit/maclimit.c:317-322 | with an interruptible ARP hook some run reaches a step of it that breaks this ownership: it writes ARP_REPLAY_OK after the mailbox was freed |
| MaclimitFlag.OwnedExactly | dirver/maclimit/maclimit.c:202-214 | that ownership holds over all runs if and only if one packet hook runs at a time and no ARP hook is split |
| MaclimitProbe.JudgedByMarks | dirver/maclimit/maclimit.c:153-188 | with one packet hook at a time and any split ARP hooks, in every run a probed entry is kept exactly when some mark landed since line 155, a pass that reaches an entry found a mark for every entry before it, and the entry being replaced is the first one without |
| MaclimitProbe.JudgedByFrames | dirver/maclimit/maclimit.c:155-176 | with uninterrupted ARP hooks, whatever arrives: entry j is kept exactly when its own frame arrives from line 156 to the final look, or a frame from the MAC compared before arrives between lines 155 and 156; that MAC is the one probed last, for j > 0 the previous entry's |
| MaclimitProbe.ComparesLast | dirver/maclimit/maclimit.c:156-156 | in every run the compared MAC is that of the entry line 156 was last taken for, in this pass or an earlier one, and 0 before the first |
| MaclimitProbe.FiveWaits | dirver/maclimit/maclimit.c:157-169 | with one packet hook at a time and any split ARP hooks, the probing of an unmarked entry ends after exactly five waits, that of a marked one at its next test |
| MaclimitProbe.SparedReachable | dirver/maclimit/maclimit.c:155-172 | some run of one packet hook and uninterrupted frames keeps an entry that answered nothing |
| MaclimitProbe.OwnEarlyFrame | dirver/maclimit/maclimit.c:155-172 | in a list of one entry the MAC compared before can be the entry's own, so that its frame spares it although it comes before its first probe |
| MaclimitWake.CoveredExactly | dirver/maclimit/maclimit.c:194-196 | a step leaves a posted request unattended exactly when it delivers the only wake-up due between the thread's lines 194 and 195 |
| MaclimitWake.CoveredThroughout | dirver/maclimit/maclimit.c:194-211 | a run passes through a state in which nobody is due to look at a posted request if and only if one of its steps loses a wake-up that way |
| MaclimitWake.NeverSleptThrough | dirver/maclimit/maclimit.c:194-196 | if lines 194 and 195 were one step, no run would ever sleep on a posted request |
| MaclimitWake.StuckReachable | dirver/maclimit/maclimit.c:194-211 | with the two steps apart one packet hook suffices to reach: thread asleep, request in the flag, no hook under way |
| MaclimitWake.StuckForever | dirver/maclimit/maclimit.c:204-213 | from there no sequence of packets, ARP frames and reconfigurations changes the list or the flag or wakes the thread |
| MaclimitWake.StuckExactly | dirver/maclimit/maclimit.c:195-213 | with a request in the flag, the thread stays asleep under every sequence of packets, ARP frames and reconfigurations if and only if it is in that state |
| MaclimitWake.LostForGood | dirver/maclimit/maclimit.c:195-211 | after a lost wake-up the thread's next step puts it to sleep for good exactly when no packet hook is posting and no ARP hook is under way for the compared MAC |
| MaclimitWake.StopCompletes | dirver/maclimit/maclimit.c:497-503 | the thread ends after a stop request without outside help exactly when the request finds it in schedule() or at its loop test |
| MaclimitWake.MissedUntilWoken | dirver/maclimit/maclimit.c:138-196 | a stop request that was missed stays missed, and removal waits, until another wake-up reaches the sleeping thread |
| MaclimitNodes.NodesConserved | dirver/maclimit/maclimit.c:116-130 | in every run nodes allocated = in the list + in the thread's hand + freed + extra ones of line 180, and after removal exactly the extra ones are lost |
| MaclimitNodes.ListChanges | dirver/maclimit/maclimit.c:145-182 | until removal a step changes the list only by one new first entry or by exchanging one entry in place |
| MaclimitLimiter.Limiter.NetHookFunc | dirver/maclimit/maclimit.c:216-284 | the packet is dropped exactly when limiting is on, it is not UDP and from br0, the trylock succeeded, no entry has its MAC and the list is not below the limit; the request placed is ADD_IMMEDIATE below the limit and ADD_CHECK otherwise, and only in a free mailbox; nothing else changes |
| MaclimitLimiter.Limiter.SendAddOptToThread | dirver/maclimit/maclimit.c:202-215 | a request is placed, all four fields and then the flag, only in a free mailbox, and otherwise nothing changes |
| MaclimitLimiter.WindowEffect | dirver/maclimit/maclimit.c:157-169 | whatever packets and ARP frames arrive during a probe wait, the only effect is the mark, set exactly when the probed MAC was heard |
| MaclimitLimiter.Limiter.SetUpProbe | dirver/maclimit/maclimit.c:155-156 | a frame between the two lines counts if it comes from the MAC compared before, one right after them if it is the entry's own |
| MaclimitLimiter.Limiter.ProbeLoop | dirver/maclimit/maclimit.c:157-169 | the loop sends nothing to an entry already marked, and otherwise ends after the first window with its answer or after five, with the flag telling which |
| MaclimitLimiter.Limiter.ProbeEntry | dirver/maclimit/maclimit.c:155-169 | after an entry's probing the flag says whether a frame counted for it, in the two lines or in its probes' windows |
| MaclimitLimiter.Limiter.CheckPass | dirver/maclimit/maclimit.c:151-188 | the pass stops at the first entry no frame counted for, or at the end when there is none; it exchanges that entry for the new terminal if a node could be allocated; order, length and all else are kept |
| MaclimitLimiter.SentEnds | dirver/maclimit/maclimit.c:157-169 | probing ends with the first window that brings the entry's answer, or with the fifth when none does |
| MaclimitLimiter.ProbeBudget | dirver/maclimit/maclimit.c:157-159 | no more than five probes per entry are sent before any entry is reached |
| MaclimitLimiter.Limiter.Turn | dirver/maclimit/maclimit.c:141-194 | one turn of the thread: an immediate request adds its node in front, a check request replaces exactly the first entry no frame counted for, of which there is one unless all had one, within five probes per entry, and the mailbox is free afterwards |
| MaclimitLimiter.Limiter.WriteProc | dirver/maclimit/maclimit.c:411-452 | the option loop reads the limit at the start of the text and the switch after the first blank that starts an option, keeps what has no option, and rejects long texts |
| MaclimitLimiter.Limiter.Configure | dirver/maclimit/maclimit.c:411-452 | writing a text of at most 20 characters made of a number, blanks and a number, followed by a newline or anything else that ends the number, sets the limit to the first, and the switch to the second exactly when that fits an int |
| MaclimitLimiter.Limiter.ConfigureLimit | dirver/maclimit/maclimit.c:425-445 | a number of at most 18 digits, with blanks behind it or not, and a terminator set the limit and leave the switch as it is |
| MaclimitProc.LineReadBack | dirver/maclimit/maclimit.c:425-445 | the same in terms of what is parsed: where the second option starts and what simple_strtoul reads at both |
| MaclimitProc.DigitsOfDec | dirver/maclimit/maclimit.c:434 | reading the digits of a printed number gives the number back |
| Checksum.ComputeCsum | lab/net/speedtest/speedtest.c:248-252 | the summing and folding loop computes the complemented one's-complement sum (RFC 1071) |
| Checksum.OddPadded | lab/net/speedtest/speedtest.c:248-248 | an odd last byte is summed as if a zero byte followed (RFC 1071 section 1) |
| Checksum.SameCsum | lab/net/speedtest/speedtest.c:351-351 | two buffers get the same checksum exactly when their word sums agree modulo 65535 and are both zero or both not |
| Checksum.OneByteChangesCsum | lab/net/speedtest/speedtest.c:351-354 | a change of any one byte changes the checksum |
| Checksum.WordExchangeIsMissed | lab/net/speedtest/speedtest.c:351-354 | an exchange of two whole words never does |
| SpeedPacket.MakeSpeedtestPkt | lab/net/speedtest/speedtest.c:177-259 | for every size from 42 to 65549 the field-by-field builder produces a frame of that size with the right addresses, type, lengths, ports and filler in network order, or fails exactly when device or buffer is missing |
| SpeedPacket.FrameBytes | lab/net/speedtest/speedtest.c:211-251 | every fixed field and both lengths of the frame, read back from its bytes |
| SpeedPacket.FrameVerifies | lab/net/speedtest/speedtest.c:246-252 | over the frame's own bytes, pseudo-header included, both folded sums are 0xffff |
| SpeedPacket.HeadersVerify | lab/net/speedtest/speedtest.c:246-252 | for every payload the folded sums of the IP header and of pseudo-header plus datagram are 0xffff |
| SpeedPacket.UdpCheckNeverZero | lab/net/speedtest/speedtest.c:247-250 | for no size does the builder store a zero UDP checksum, which would mean none was computed |
| SpeedPacket.StoredIsPseudo | lab/net/speedtest/speedtest.c:438-438 | the reference checksum equals the UDP pseudo-header's sum modulo 65535 for every payload and both directions |
| SpeedPacket.CleanMatches | lab/net/speedtest/speedtest.c:351-363 | a frame that only gained a 4-byte tag, whatever the tag, matches the stored checksum |
| SpeedPacket.OneByteMismatches | lab/net/speedtest/speedtest.c:351-363 | a tagged frame with any one byte changed at offset 18 or later does not |
| SpeedPacket.MissedExactlyWhen | lab/net/speedtest/speedtest.c:351-363 | any other received bytes are taken for undamaged exactly when their word sum is congruent to the sent one and not zero |
| SpeedPacing.NeverTooFast | lab/net/speedtest/speedtest.c:445-472 | at every transmission, for any clock readings, failures and stops, bits sent per time since the start are at most the configured binary megabits per second |
| SpeedPacing.NeverTooSlow | lab/net/speedtest/speedtest.c:450-460 | for any interval, on a clock read at least every g nanoseconds, packet k has been sent once k + 1 gaps of interval + g have passed, and not before k + 1 gaps of interval + 1 |
| SpeedPacing.IntervalIsLargest | lab/net/speedtest/speedtest.c:445-445 | the interval is the largest whole number of nanoseconds that fits into a second as often as there are packets per second |
| SpeedPacing.PpsMeans | lab/net/speedtest/speedtest.c:445-445 | below 4096 megabits the packets per second are the whole packets of that size in a second at the configured speed |
| SpeedPacing.RateReached | lab/net/speedtest/speedtest.c:445-472 | at the configured speed and size, on a clock read at least every g nanoseconds, packet k has left once the time elapsed holds k + 1 packets at the configured rate, each up to g late |
| SpeedPacing.PacedLoop | lab/net/speedtest/speedtest.c:445-472 | the loop with its wrapping time arithmetic transmits at the specified turns, only at turns of its own and none after a stop, and counts exactly the successful ones |
| SpeedPacing.NoIntervalExactly | lab/net/speedtest/speedtest.c:445-445 | the interval's arithmetic divides by zero exactly when the packet is empty or a second at the configured speed modulo 4096 holds less than one packet |
| SpeedPacing.WholeMultiplesHaveNone | lab/net/speedtest/speedtest.c:445-445 | at speed 4096 and its multiples it does so for every packet size |
| SpeedStatus.LossMeans | lab/net/speedtest/speedtest.c:407-407 | send = received + errors + loss modulo 2^64, and the loss figure is the number of undelivered packets exactly when no error was counted |
| SpeedStatus.OwnDirection | lab/net/speedtest/speedtest.c:79-92 | frames built for a direction's port are recognised as that direction's, tagged or not |
| SpeedStatus.DirectionMeans | lab/net/speedtest/speedtest.c:89-90 | a frame belongs to direction 0 exactly when its source bytes are all 0x10, to direction 1 exactly when they are all 0x40, and otherwise to neither |
| SpeedRun.Conservation | lab/net/speedtest/speedtest.c:345-367 | in every state of every run from line 614 on, whatever earlier runs left in loop and fifo and while the earlier compute thread still counts and drains: packets handed over plus those left = in the loop + in the fifo + received + lost + drained; counters are true modulo 2^64; once the checksum is stored one-byte damage is always an error and no undamaged packet is |
| SpeedRun.LossAtEnd | lab/net/speedtest/speedtest.c:405-409 | at the end of every such run the counters and the loss figure add up, and the figure is the number of undelivered packets exactly when no error was counted and nothing was left from earlier runs |
| SpeedLeftover.ErrorSpoilsLoss | lab/net/speedtest/speedtest.c:407-407 | some run sends one packet, counts it as received and as an error, and ends with a loss figure of 2^64 - 1 |
| SpeedLeftover.LeftoverReachable | lab/net/speedtest/speedtest.c:391-397 | a packet that comes back between the drain and line 397 stays in the fifo of the finished run |
| SpeedLeftover.LeftoverSpoils | lab/net/speedtest/speedtest.c:345-397 | from such a finished run the next one can count a packet as received before its senders have begun |
| SpeedLeftover.OverlapSpoils | lab/net/speedtest/speedtest.c:612-649 | the earlier compute thread can count a packet for the new run after line 614, which then starts without the fast hook, with an empty fifo and one packet received |
| SpeedLeftover.OtherSizeIsError | lab/net/speedtest/speedtest.c:351-354 | once the checksum is stored, an undamaged packet of any other size is counted as an error |
| SpeedLeftover.AllReportedLost | lab/net/speedtest/speedtest.c:405-409 | any run ends with nothing received and everything sent reported as lost exactly when neither compute thread counted a packet of the direction since line 614 |
| SpeedLeftover.OutcomeFixed | lab/net/speedtest/speedtest.c:143-166 | a run whose compute thread starts without the fast hook ends so exactly when at that moment none had been counted and none was in the fifo |
| SpeedLeftover.SureToLoseAll | lab/net/speedtest/speedtest.c:612-649 | seen from line 614, all runs that start without the fast hook end so if and only if no packet of the direction is in the loop, and none in the fifo unless the earlier thread is already draining it |
| SpeedRun.CleanMatchesStored | lab/net/speedtest/speedtest.c:348-363 | in the run's terms: undamaged frames match the stored checksum and one-byte-damaged ones do not |
| SpeedCompute.SpeedTest.ComputeFunc | lab/net/speedtest/speedtest.c:334-413 | with senders and arrivals at work throughout, the thread leaves at the latest at the first turn that is told to stop or sees the senders gone for more than five seconds, and only at such a turn; counters and fifo are then what the log of everything that happened makes of them |
| SpeedCompute.SpeedTest.CountOne | lab/net/speedtest/speedtest.c:347-362 | a frame from 10:10:10:10:10:10 or 40:40:40:40:40:40 is counted for direction 0 or 1, and as an error exactly when its checksum differs; a frame from anywhere else changes no counter |
| SpeedCompute.FinalFigures | lab/net/speedtest/speedtest.c:345-409 | the final figures of a direction: what its sender counted until the end, every packet that waited or came in before the thread left its main loop, those of them that differed from the checksum in force when they were taken, and the loss from these |
| SpeedCompute.TurnsMean | lab/net/speedtest/speedtest.c:345-367 | what the main loop counts is what waited and what came in, each packet once and in order |
| SpeedCompute.SpeedTest.LookAll | lab/net/speedtest/speedtest.c:345-394 | either fifo loop ends with the fifo empty, having taken or freed one packet after another between whatever happens outside |
| SpeedCompute.LogMeans | lab/net/speedtest/speedtest.c:348-364 | over any log of arrivals, stored checksums, sent packets and counted frames each counter moves by the number of its events modulo 2^64 |
| SpeedCompute.GracePeriod | lab/net/speedtest/speedtest.c:369-388 | leaving without a stop request means that every check over more than five seconds of clock saw no sender |
| SpeedCompute.LeavesExactly | lab/net/speedtest/speedtest.c:369-388 | a turn ends the loop if and only if it is told to stop or ends such an idle streak |
| SpeedRxHook.FastAllRun | lab/net/speedtest/speedtest.c:633-649 | if every earlier compute thread had restored the probe hook before the command set the fast one, the fast one stays until the new thread's own exit |
| SpeedRxHook.FastExactlyWhen | lab/net/speedtest/speedtest.c:395-397 | once the earlier threads are through, the run has the fast hook exactly when none of them was late |
| SpeedRxHook.StoppingLosesFastPath | lab/net/speedtest/speedtest.c:543-550 | a command that had to stop a compute thread always leaves its run without the fast hook |
| SpeedCommand.StartedExactly | lab/net/speedtest/speedtest.c:591-618 | a command creates a sender for a direction exactly when it asks for one and no sender of that direction runs line 491 between its lines 593 and 611 |
| SpeedCommand.StoppedNotStarted | lab/net/speedtest/speedtest.c:554-618 | in no run does a command create a sender for a direction whose sender it had to stop |
| SpeedCommand.CrashesExactly | lab/net/speedtest/speedtest.c:568-578 | a command that created a sender ends in line 574 on a NULL task exactly when it did not create both |
| SpeedCommand.NullExactly | lab/net/speedtest/speedtest.c:573-574 | line 574 meets NULL for a direction exactly when this command created no sender for it |
| SpeedCommand.StartsNothing | lab/net/speedtest/speedtest.c:591-633 | some command that asks for both directions finds both sending, stops them and starts nothing |
| SpeedCommand.CrashReachable | lab/net/speedtest/speedtest.c:568-578 | some command finds one direction sending and ends in line 574 on a NULL task |
| SpeedRxHook.SecondCommandLosesFastPath | lab/net/speedtest/speedtest.c:635-648 | from a run with the fast hook, one further command that starts a run reaches a run without it |
| DesFrame.PadMeans | lab/c/des3/des3_encrypt.c:68-86 | padding gives whole blocks, every added byte being the number of added bytes; it equals RFC 5652 section 6.3 exactly for non-empty input, and is undone by unpadding |
| DesFrame.PadInjective | lab/c/des3/des3_encrypt.c:68-86 | two inputs padded alike are the same |
| DesFrame.BlocksInverse | lab/c/des3/des3_encrypt.c:101-104 | decrypting block by block undoes encrypting, for every bijective cipher and keys |
| DesFrame.BlockAt | lab/c/des3/des3_encrypt.c:101-104 | block i of the result is block i of the input, encrypted, decrypted and encrypted with the three keys in turn |
| DesFrame.FrameBytes | lab/c/des3/des3_encrypt.c:107-131 | the frame byte by byte: type 1, random, time, digest, and each encrypted block under the keys random, time and zero |
| DesFrame.FrameRoundTrip | lab/c/des3/des3_encrypt.c:107-131 | from the frame alone the user name is recovered, and its digest is the hash of its random bytes, the password and its time bytes |
| DesFrame.DumpRoundTrip | lab/c/des3/des3_encrypt.c:23-33 | the same, user name and digest, from the hex text |
| DesFrame.HexRoundTrip | lab/c/des3/des3_encrypt.c:28-30 | the hex text decodes to the bytes |
| DesFrame.HexAt | lab/c/des3/des3_encrypt.c:28-30 | the text has the two lower-case hexadecimal digits of byte i at positions 2i and 2i + 1 |
| DesMessage.SetPkcs7Padding | lab/c/des3/des3_encrypt.c:68-86 | the in-place loop writes the padded input and touches nothing behind it |
| DesMessage.CreateEncryptKey | lab/c/des3/des3_encrypt.c:47-53 | the 24 key bytes are random, time and a zero third key |
| DesMessage.CreateOnuKey | lab/c/des3/des3_encrypt.c:54-67 | the digest hashes random, password and time in this order |
| DesMessage.CreateEncryptData | lab/c/des3/des3_encrypt.c:87-106 | the block loop writes the encrypted padded user name at the front of the buffer |
| DesMessage.CreateEncryptMessage | lab/c/des3/des3_encrypt.c:107-131 | the assembled buffer holds the frame, of 33 bytes plus the padded length |
| DesMessage.CreateSendMessage | lab/c/des3/des3_encrypt.c:132-164 | mode 2 without a user name sends 35 bytes, the serial number cut or zero-filled to 24 and then admin/admin; mode 2 with one, and mode 3, send a frame that gives back the user name and the digest; other modes send nothing; the dump is what the dump buffer holds up to its terminator after the hex text is written over it |
| DesMessage.OutPutFileStr | lab/c/des3/des3_encrypt.c:23-33 | the loop writes the hex text and a terminator over the front of its uninitialised buffer, and nothing when there are no bytes |
| DesMessage.DumpExactly | lab/c/des3/des3_encrypt.c:26-31 | the text handed to the shell is the hex text exactly when there is something to dump or the buffer happened to start with a terminator |
| DesMessage.DumpNeedsMode | lab/c/des3/des3_encrypt.c:138-164 | the dump is the message's hex text whatever the buffer held if and only if the mode is 2 or 3 |

## Left out

- Kernel plumbing: module load and unload order, hook, proc and timer registration, CPU binding, printk.
- Weak memory ordering: flag and payload accesses are taken in program order, as one copy of memory.
- The hook's wake-up after the thread was stopped: the task pointer is NULL then, and the model treats the wake-up as having no effect.
- `connect_num` is unbounded here; its 32-bit counter would need 2^31 list entries to wrap.
- MaclimitLimiter.Limiter.CheckPass: takes ARP frames as uninterrupted; MaclimitProbe.JudgedByMarks has them split.
- MaclimitProbe.JudgedByFrames: takes ARP hooks as uninterrupted; with split ones MaclimitProbe.JudgedByMarks holds, where a mark may come from an earlier entry's frame.
- MaclimitProbe.JudgedByMarks: takes packet hooks one at a time; two can overwrite the flag during a pass, as MaclimitFlag.OwnedExactly shows.
- MaclimitProc.LineReadBack: texts whose second number runs on into digits or an x the stack holds behind the text are covered only by MaclimitLimiter.Limiter.WriteProc.
- `copy_from_user`, skb allocation and device lookup are inputs that succeed or fail.
- SpeedPacket.MakeSpeedtestPkt: sizes below 42, where skb_put is called with a negative length, and above 65549, where the 16-bit total length wraps, are not modelled.
- SpeedPacing.PacedLoop: speeds of 100 and more, which are not paced, and the configurations SpeedPacing.NoIntervalExactly names; clock readings are below 2^64 - 10^9.
- jiffies do not wrap: a 64-bit machine.
- SpeedRun starts when line 614 zeroes a direction's counters: the two directions' zeroings are one step, and every statement is about one direction. By SpeedCommand.CrashesExactly a run that gets going has both.
- A sender whose packet could not be built, or that was stopped before its function began, never clears its task; the stop loop at line 559 then does not end.
- Two commands at once: one command runs at a time.
- The loop's effect on addresses and duplicates: SpeedRun takes the source address as kept, at least 18 bytes as returned, and no packet as duplicated.
- The probe timer and its ready flag, the status page, the transmit hook.
- Failure to create a kernel thread, after which the task pointers hold an error value.
- DES and MD5 themselves: any family of bijections on eight bytes and any 16-byte function.
- rand(), time(), the shell command and the read-back in main.
- lab/c/des3/des3_encrypt2.c, which does not compile as written; the key-event and character-device demos, the redirect and connection-tracking modules, the client and server samples and the scripts.
