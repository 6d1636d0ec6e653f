# sipbench in Dafny

A model of the stateful core of sipbench, a SIP load generator, with proofs. Run `dafny verify dfyconfig.toml`.

| file | models |
|---|---|
| `Distributor.dfy`, `WrapFairness.dfy` | smooth weighted round robin, its precomputed table, and the wrapping counter that serves it |
| `Ring.dfy`, `XdpTx.dfy`, `XdpFrames.dfy`, `XdpWire.dfy`, `XdpReuse.dfy`, `XdpRx.dfy`, `XdpSocket.dfy` | the AF_XDP rings, the transmit pipeline, frame ownership on both sides, the bytes on their way and when they are overwritten, the socket's methods |
| `PortAllocator.dfy`, `Dialogs.dfy`, `DialogRuns.dfy`, `DialogPorts.dfy` | the RTP port allocator alone, and shared by any number of interleaved dialogs; the course of a dialog and its ports |
| `LoneDialogs.dfy`, `PortSlack.dfy`, `PortRange.dfy`, `DialogRules.dfy`, `RulesLeft.dfy` | runs built from dialogs that move alone; the allocator's slack and range under concurrency; the dialogs' eBPF rules, and which of them are left at the end |
| `Player.dfy`, `PlayerStops.dfy`, `PacketBuilder.dfy`, `Ebpf.dfy` | the media player's goroutines, what stopping does to them, the packets it builds, and the XDP program that counts them |
| `PcmTables.dfy`, `Pcm.dfy`, `RtpStream.dfy` | G.711 companding, buffer conversions, and the generated RTP streams |
| `TimeRange.dfy` | the text of weighted time ranges and the scheduler behind it |
| `Wrappers.dfy`, `Widths.dfy`, `Arith.dfy`, `Sums.dfy`, `Bits.dfy`, `Bytes.dfy` | shared types and arithmetic |

Code that one goroutine runs on its own is a class or a method with loops. Code whose point is that several
goroutines (or the kernel) interleave is a state machine: one atomic shared access per step, any order of steps,
theorems about every run. The allocator exists in both forms, and a dialog that runs alone is proved to do what the
class does.

What the proofs say about the code, beyond "it works":

- The schedule table is exact if and only if no weight is negative and the first one is positive (or all are zero).
  The comparison of a stale credit with a live one does not matter for positive weights, but it breaks the schedule
  when the first weight is 0. `NewTimeRange` reads 0 as 1, so its schedules are exact if and only if no weight is
  negative, which the parser accepts.
- The counter behind `Next` wraps at 2^32. Fairness survives the wrap if and only if the weights, over some common
  divisor, add up to a power of two of at most 2^32; with weights 1 and 2 the wrap serves the wrong entry.
- In a range at least 10 wide `getPort`, called by one goroutine at a time, walks through exactly the ports of the
  range, in cyclic order, if and only if the limit is at most 65534, or is 65535 with a lower bound that is odd or 0.
- The slack of 10 covers `n` concurrent `getPort` calls if and only if `n <= 5`, or `n <= 6` when the width of the
  range is odd.
- Racing callers keep ports exclusive and of the right parity, but with two of them a port at or above the limit can
  be reserved: the reserved ports stay in the range if and only if calls of `getPort` never overlap.
- A UAC that is given port 0 never frees it, because `Close` reads 0 as "no port". With an odd lower bound this
  cannot happen. With an even one it can as soon as two calls overlap, for the range 20000 to 60000 too, because
  racing callers climb past the limit to 65534, from where `nextPort` wraps to 0. So UACs have given all ports back
  at the end of every run if and only if the lower bound is odd, or positive with calls that never overlap. UASs
  always have.
- RTCP rules are never deleted: a run leaves one if and only if some plain dialog's update has succeeded. An RTP rule is
  left only with a UAC's port 0, so finished runs leave none exactly where they give all ports back.
- `Close` frees a port before it deletes the rule. Every dialog past its update keeps its rules in all runs with at
  most `d` live dialogs if and only if `d <= 1`: with two, one can take the port in between and lose its rule. More
  live dialogs are safe in runs that never hand a port out in between.
- With the latest `m` transmit calls in flight, and no others, the next one gets a frame of its own if and only if `m` is
  below the completion ring size; in general, if and only if no call in flight is a multiple of that size old.
  `SendMsg` tests neither. So with a bound of `d` on the calls in flight, and of `m` on how many calls ago each was
  made, the kernel reads the bytes as they were sent in all runs if and only if `d <= 1` or `m` is at most the ring
  size, also when it reports in order: one sender that stops between copy and channel while a ring's worth of others
  passes has its bytes overwritten. The ring sizes in `ua.go` do not prevent that.
- Transmit frames lie inside the UMEM if and only if `--xdp-size` is at least 16.
- The G.711 error bounds hold for every sample but -32768, whose negation overflows.

Two statements of the documentation differ from the code. `GetRxDescs` speaks of a parameter `rx` it does not have
(`pkg/xdp/xdp.go:445-446`); and the time-range comment (`pkg/time_range.go:91-95`) describes digits only, while signs
are accepted too. The model follows the code.

## Model

| member | source | states |
|---|---|---|
| Distributor.Calc | pkg/distributor/distributor.go:53-68 | one in-place pass of `calc` moves weights, credits and names as the credit scheme says, including the stale comparison, and returns the resource at which the chain of takeovers ends |
| Distributor.WinnerIff | pkg/distributor/distributor.go:57-63 | the winner is exactly the slot that ends the chain of takeovers: from the first slot always on to the next one whose stale credit exceeds the live credit of the slot before; a tie takes nothing over |
| Distributor.LeaderDominates | pkg/distributor/distributor.go:57-63 | although a stale credit is compared with a live one, the leader's live credit bounds every stale credit seen |
| Distributor.WinnerIsPositive | pkg/distributor/distributor.go:57-65 | credits that sum to 0 give a winner whose credit is positive before the total is taken from it |
| Distributor.CreditsSumToZero | pkg/distributor/distributor.go:53-68 | after any number of `calc` calls, on any weights, the credits sum to 0 |
| Distributor.CreditsAboveMinusTotal | pkg/distributor/distributor.go:53-68 | no credit ever reaches minus the total weight |
| Distributor.CreditIsEarnedMinusSpent | pkg/distributor/distributor.go:53-68 | after t calls a credit is t times the weight minus the total weight per pick of that resource |
| Distributor.PrefixBounds | pkg/distributor/distributor.go:53-68 | in every prefix of the schedule no resource is a full pick ahead and none falls behind by more than (k-1)(W-1)/W picks |
| Distributor.ExactIffFirstIsPositive | pkg/distributor/distributor.go:35-51 | the table holds each resource exactly its weight times if and only if no weight is negative and the total is 0 or the first weight is positive |
| Distributor.CreditsReturnToZero | pkg/distributor/distributor.go:45-47 | unrolling an exact table leaves all credits at 0 again |
| Distributor.StreamIsPeriodic | pkg/distributor/distributor.go:44-70 | the endless stream of `calc` has the total weight as a period, so the table read cyclically is that stream |
| Distributor.EveryWindowIsExact | pkg/distributor/distributor.go:44-70 | any W consecutive positions of the stream hold each resource exactly its weight times |
| Distributor.TotalWeight | pkg/distributor/distributor.go:40-43 | the first loop adds the weights up |
| Distributor.CalcAt | pkg/distributor/distributor.go:45-47 | call t of `calc` returns pick t of the endless stream and moves the credits along it |
| Distributor.Unroll | pkg/distributor/distributor.go:44-47 | the table is the first stretch of the endless stream of `calc` |
| Distributor.RoundRobin.Next | pkg/distributor/distributor.go:18-21 | bumps the counter modulo 2^32 and serves the slot it names modulo the length cast to uint32 |
| Distributor.WeightedRoundRobin.constructor | pkg/distributor/distributor.go:35-51 | the table it serves is the first total-weight picks of `calc`, also for no resources at all |
| Distributor.WeightedRoundRobin.Next | pkg/distributor/distributor.go:70 | returns the pick of `calc` at the counter's position modulo the total weight |
| WrapFairness.NextRefinesStream | pkg/distributor/distributor.go:18-21 | call m of `Next` serves stream position m for all calls before the counter wraps, and for all calls if the weights fit the wrap |
| WrapFairness.RefinesForEverIff | pkg/distributor/distributor.go:18-21 | all calls of `Next`, past any number of wraps, serve the endless stream if and only if the weights over some common divisor add up to a divisor of 2^32 |
| WrapFairness.FairForEverIff | pkg/distributor/distributor.go:18-21 | any total-weight consecutive calls, past any number of wraps, use each resource exactly its weight times if and only if the same holds |
| WrapFairness.FittingIsFair | pkg/distributor/distributor.go:18-21 | any total-weight consecutive calls before the wrap, or ever if the weights fit it, use each resource exactly its weight times |
| WrapFairness.WrapCanSkip | pkg/distributor/distributor.go:18-21 | with weights 1 and 2 the call that wraps the counter serves a different resource than the stream |
| Ring.SlotsDiffer | pkg/xdp/xdp.go:313 | indices less than a ring size apart name different slots, across the wrap of the 32-bit index (also lines 399) |
| Ring.SlotIsRemainder | pkg/xdp/xdp.go:313 | the mask takes the index modulo the ring size (also lines 399) |
| Ring.PutAppends | pkg/xdp/xdp.go:399-400 | storing and then bumping the producer appends to the queue and overwrites nothing in it |
| Ring.DropRemoves | pkg/xdp/xdp.go:541-543 | advancing the consumer by at most the occupancy removes exactly that many entries from the front |
| Ring.CountsAreExact | pkg/xdp/xdp.go:548-605 | the clamped 32-bit differences are the real numbers of entries and of free slots |
| XdpTx.RefinesFifo | pkg/xdp/xdp.go:391-402 | seen step by step, the TX ring is a FIFO queue: the worker enqueues, the kernel dequeues, nothing else touches it |
| XdpTx.CompletionQueue | pkg/xdp/xdp.go:359-364 | the completion ring is a FIFO queue too, every completed entry is counted, and `Complete` never passes what the kernel produced (also lines 541-543) |
| XdpTx.StepKeepsInv | pkg/xdp/xdp.go:349-402 | every step of senders, worker, transmitter and kernel keeps the pipeline's invariant (also lines 629-640) |
| XdpTx.EveryRunIsSafe | pkg/xdp/xdp.go:349-402 | in every interleaving each descriptor sent is in exactly one place, in order, so the kernel has read a prefix of what was sent; no ring overflows; every frame the kernel took is held, reported or reaped once (also lines 541-605, 629-640) |
| XdpFrames.SameFrameIff | pkg/xdp/xdp.go:469-476 | two `GetTxDesc` calls share a frame exactly when they are a multiple of the completion ring size apart, across the 64-bit wrap |
| XdpFrames.FramesInTurn | pkg/xdp/xdp.go:469-476 | the calls go round the transmit frames in turn, from the first frame behind the receive frames on and past the 64-bit wrap |
| XdpFrames.NextFrameIsExclusiveIff | pkg/xdp/xdp.go:469-476 | with the m latest descriptors in flight the next frame is none of theirs exactly when m is below the completion ring size |
| XdpFrames.FramesInBoundsIff | pkg/xdp/xdp.go:129-131 | every transmit frame lies in the UMEM exactly when it has room for the frames of both halves (also lines 469-483) |
| XdpFrames.UaFramesInBoundsIff | ua.go:109-117 | with the sizes of `initXDP` that means an XDP size of at least 16 |
| XdpFrames.TxFramesAvoidRx | pkg/xdp/xdp.go:469-476 | transmit frames never meet receive frames, and "no free desc" cannot occur (also lines 629-633) |
| XdpFrames.NextIsFreeIff | pkg/xdp/xdp.go:469-476 | the next frame is that of no call in flight if and only if none of them is a multiple of the completion ring size old |
| XdpFrames.LiveFramesDiffer | pkg/xdp/xdp.go:469-476 | while only free frames are given out, no two messages in flight share a frame |
| XdpFrames.WindowCanClose | ua.go:109-117 | with a TX ring at least as large as the completion ring, as in `initXDP`, a run without kernel progress puts two messages with one frame in flight |
| XdpWire.WireStepKeepsInv | pkg/xdp/xdp.go:629-640 | every step of senders, worker and kernel, a call that is given a frame in use aside, keeps each descriptor tied to its message, its frame and its place in the rings (also lines 349-402) |
| XdpWire.KernelReadsWhatWasSent | pkg/xdp/xdp.go:629-640 | in every run that gives out free frames only, the kernel takes the messages in the order sent and reads the bytes of each as its sender meant them, up to the report of its frame (also lines 391-402) |
| XdpReuse.BytesKeptIff | pkg/xdp/xdp.go:629-640 | in all runs with at most d calls in flight, each among the m latest, with reports in any order or in order, the kernel finds every message as sent, if and only if d is at most 1 or m at most the completion ring size (also lines 391-402, 469-483) |
| XdpReuse.InFlightKeptIff | pkg/xdp/xdp.go:629-640 | with a limit of d on the number of calls in flight alone, if and only if d is at most 1 (also lines 391-402, 469-483) |
| XdpReuse.LatestKeptIff | pkg/xdp/xdp.go:629-640 | with a limit of m on their age alone, if and only if m is at most the completion ring size (also lines 391-402, 469-483) |
| XdpReuse.PairsLoseBytes | pkg/xdp/xdp.go:629-640 | any limit that admits two calls in flight, a ring size apart, and reports in order has a run from any empty socket in which the kernel finds the later call's byte in the earlier one's message (also lines 391-402, 469-483) |
| XdpRx.FrameOfIsQuotient | pkg/xdp/xdp.go:315 | the frame of an address is the address divided by the frame size |
| XdpRx.ExactlyOnePlace | pkg/xdp/xdp.go:305-347 | in a conserved state each frame is in exactly one of free, fill ring, kernel, RX ring |
| XdpRx.FillConserves | pkg/xdp/xdp.go:305-323 | filling distinct free descriptors that fit keeps every frame in one place |
| XdpRx.FillToQueue | pkg/xdp/xdp.go:311-318 | filling appends the addresses in order |
| XdpRx.ReceiveConserves | pkg/xdp/xdp.go:327-347 | receiving keeps every frame in one place, wherever in its frame the kernel put the data |
| XdpRx.CallsCanRun | pkg/xdp/xdp.go:305-347 | `Fill` with distinct free descriptors and `Receive` with any number never index out of range, however stale their counts |
| XdpRx.EveryRxRunConserves | pkg/xdp/xdp.go:305-347 | no sequence of calls and kernel steps loses or duplicates a receive frame, overruns the fill ring or receives what is not there, although the counts are read before they are used; `numFilled` counts the frames in use (also lines 447-467, 548-590) |
| XdpSocket.SharedRing.TryPut | pkg/xdp/xdp.go:393-400 | refuses exactly when the ring is full, else appends |
| XdpSocket.SharedRing.NumAvailable | pkg/xdp/xdp.go:579-605 | counts the entries produced and not consumed |
| XdpSocket.SharedRing.NumFree | pkg/xdp/xdp.go:548-575 | counts the free slots |
| XdpSocket.SharedRing.Complete | pkg/xdp/xdp.go:541-543 | drops that many entries from the front |
| XdpSocket.Socket.constructor | pkg/xdp/xdp.go:117-122 | a new socket has every frame free, nothing in its rings, and a transmit index whose first increment wraps to 0 (also lines 288-292) |
| XdpSocket.Socket.Fill | pkg/xdp/xdp.go:305-323 | submits as many descriptors as fit, keeps every frame in exactly one place |
| XdpSocket.Socket.Receive | pkg/xdp/xdp.go:327-347 | returns the oldest received descriptors, frees exactly their frames |
| XdpSocket.Socket.GetRxDescs | pkg/xdp/xdp.go:447-467 | gives distinct descriptors of free receive frames that `Fill` may take, all of them if fewer than asked for |
| XdpSocket.Socket.GetTxDesc | pkg/xdp/xdp.go:469-476 | names the frame of the wrapping 64-bit index |
| XdpSocket.FillLoop | pkg/xdp/xdp.go:311-318 | the loop leaves the ring with the addresses appended and the frames marked busy |
| XdpSocket.ReceiveLoop | pkg/xdp/xdp.go:333-342 | the loop returns the front of the ring, drops it and marks the frames free |
| PortAllocator.CyclesIff | ua.go:141-144 | the uint16 step from port to port goes through exactly the ports of the range, cyclically, if and only if the limit is at most 65534, or 65535 with a lower bound that is odd or 0 |
| PortAllocator.VisitedIsCyclic | ua.go:138-147 | from any slot the search sees the slots in cyclic order, all of them in as many turns as there are slots |
| PortAllocator.FreeSlotExists | ua.go:133-136 | fewer reserved ports than slots leave a slot free |
| PortAllocator.BaseUa.constructor | ua.go:54-62 | the allocator starts empty at the lower bound, for any range; it is consistent when the range cycles |
| PortAllocator.BaseUa.TryNext | ua.go:139-144 | one turn: the set gains the probed port, the next port moves one step |
| PortAllocator.BaseUa.Search | ua.go:138-147 | the loop ends on the first free slot cyclically, at most as many turns ahead as that slot lies |
| PortAllocator.BaseUa.GetPort | ua.go:133-151 | refuses exactly within 10 of the limit; else reserves the first free slot cyclically from the next port within as many turns as there are slots, and counts 2 |
| PortAllocator.BaseUa.FreePort | ua.go:153-158 | deletes the given ports and takes 2 off for each, reserved or not |
| PortAllocator.BaseUa.FreeOwnPorts | ua.go:153-158 | a dialog that frees its own distinct ports leaves count and set in agreement |
| PortAllocator.PairsAreDisjoint | dialog.go:175 | different ports of one parity have disjoint RTP/RTCP pairs, modulo 2^16 (also lines 334) |
| Dialogs.FreesOwnPortOnce | dialog.go:266-267 | the port `Close` deletes is reserved, owned by that dialog alone, and owned by nobody afterwards (also lines 466-467) |
| Dialogs.OwnedFollows | ua.go:138-158 | what any step adds to or takes from the reserved set it adds to or takes from its dialog's share |
| Dialogs.BooksFollow | ua.go:148 | what any step changes in `portsUsed` and the gauge it changes in its dialog's share (also lines 157) |
| Dialogs.ControlStaysOk | dialog.go:146-253 | a dialog asks for ports only where its code does and closes only what it holds, on every path (also lines 327-393) |
| DialogPorts.PortsMatchStreams | dialog.go:67-90 | at every point of every run a SIPREC dialog holds and still gets exactly one port per audio stream of its body, a plain one exactly one port from its update on, and nobody one before the first `getPort` (also lines 146-253, 327-393) |
| DialogPorts.UpdatesAllPorts | dialog.go:88 | a SIPREC dialog updates its rules with exactly one port per stream, a plain one with one port (also lines 175, 334) |
| DialogPorts.CourseInOrder | dialog.go:146-253 | when nothing goes wrong the calls of the three handlers come in the order of the code (also lines 53-144, 327-393) |
| DialogPorts.StopReturns | dialog.go:146-253 | every failure and every end from outside leads to the return and so to `Close`, but for a body that is read as SIPREC and a hung-up UAC that stops its media first (also lines 53-144, 327-393) |
| Dialogs.StepKeepsInv | dialog.go:29-44 | every step of every dialog keeps ownership, parity and the counters (also lines 53-144, 146-253, 262-298, 312-325, 327-393, 463-492) |
| DialogRuns.EveryRunIsSafe | ua.go:133-158 | for any dialogs, exits and interleaving the reserved set is the disjoint union of what the dialogs own, closed ones owning nothing but a leaked port 0, RTP/RTCP pairs are apart, and the gauge counts the live dialogs |
| DialogRuns.QuietAtTheEnd | dialog.go:262-298 | when all dialogs have closed the gauge is 0, `portsUsed` is twice the reserved ports, and of these only port 0 can be left, and only by a UAC (also lines 463-492) |
| DialogRules.NoRtpRuleRemains | dialog.go:269 | when all dialogs have closed no RTP rule but that of port 0 can be left (also lines 468) |
| DialogRules.RtcpRuleStays | dialog.go:268-269 | an RTCP rule, once created, stays for ever |
| RulesLeft.RtcpRuleIffUpdated | dialog.go:268-269 | a run, finished or not, has an RTCP rule at its end if and only if an update of some plain dialog has succeeded in it (also lines 175, 334) |
| RulesLeft.RtcpRuleIsLeft | dialog.go:268-269 | for every range and kind of dialog a run of one dialog ends with an RTCP rule and nobody live (also lines 175, 334) |
| RulesLeft.RtpRuleIffZeroUpdated | dialog.go:466-468 | a finished run of UACs leaves an RTP rule if and only if the lower bound is even and a UAC with port 0 has updated (also lines 334) |
| RulesLeft.EndsUnruledIff | dialog.go:262-298 | with at most n calls of `getPort` at a time no finished run of one kind of dialog leaves an RTP rule, if and only if that kind is UAS, the lower bound is odd, or it is positive and n = 1 (also lines 463-492) |
| DialogRules.LiveDialogsHaveRules | dialog.go:266-277 | in every run that hands no port out between its release and the deletion of its rule, each dialog past its update has the rules of all its RTP ports |
| DialogRules.StepKeepsRulesInv | dialog.go:266-277 | any step but such an early reuse keeps dialogs' claims on ports apart and their rules in place |
| DialogRules.RuleCanBeLost | dialog.go:266-277 | for every range, port 0 for a UAC aside, a run of two dialogs of one kind with one early reuse ends with a dialog past its update that lost its rule (also lines 467-478) |
| DialogRules.RulesKeptIff | dialog.go:266-277 | in all runs of one kind of dialog with at most d live at a time each dialog past its update has the rules of all its RTP ports, if and only if d is at most 1 (also lines 467-478) |
| PortSlack.SlackCoversIff | ua.go:134-150 | the slack of 10 leaves every searching caller a free port, in every run with at most n callers at once, if and only if n is at most 5, or 6 for an odd width |
| PortSlack.SearcherHasRoom | ua.go:134-150 | a caller past the guard and without a port bounds the reserved ports by the width minus 12 plus 2n |
| LoneDialogs.LoneTurnIsTryNext | ua.go:138-147 | a dialog that searches alone does exactly one serialised turn: same set, same next port, same decision to loop |
| PortRange.RaceLeavesRange | ua.go:139-144 | for every range two racing callers, UASs or UACs, have a run in which a port at or above the limit is reserved |
| PortRange.OneCallerKeepsRange | ua.go:138-150 | with calls that never overlap every reserved port is one of the range, in all runs of any mix of dialogs |
| PortRange.RangeKeptIff | ua.go:138-150 | with at most n calls at a time every reserved port is one of the range, in all runs of one kind of dialog, if and only if n is at most 1 |
| PortRange.PortZeroLeaks | dialog.go:466-467 | for every even lower bound a run of UACs, of one call if it is 0 and else with two racing ones, after which every dialog has closed and port 0 is still reserved and counted and has its rule |
| PortRange.EndsEmptyIff | dialog.go:262-298 | with at most n calls of `getPort` at a time all ports are given back when all dialogs have closed, in all runs of one kind of dialog, if and only if that kind is UAS, the lower bound is odd, or it is positive and n = 1 (also lines 463-492) |
| PortRange.EveryRunEndsEmptyIff | dialog.go:262-298 | over all interleavings the same holds if and only if that kind is UAS or the lower bound is odd (also lines 463-492) |
| Player.EveryRunIsSafe | media.go:118-182 | for any calls of the owner and any scheduling no channel is closed twice, `playing` tells whether the current one is open, the streams come in call order without interleaving, and the counters count them |
| Player.LaterAreWaiting | media.go:128-143 | when a player sends, no later player has sent anything |
| Player.SendAppends | media.go:147-157 | a packet goes out behind everything sent so far |
| Player.StepKeepsInv | media.go:118-182 | every step of owner and players keeps mutual exclusion, channel state, order and counters |
| PlayerStops.ToldSendsNoMore | media.go:137-144 | from any state of any run, a player whose channel is closed or whose context has ended tries no packet more in any continuation, save one it has in hand |
| PlayerStops.StopSilences | media.go:164-177 | `stop` ends with `playing` false and the running player told, at once or after closing its channel |
| PlayerStops.SilenceAfterStop | media.go:164-182 | once `stop` or `Close` has returned, or the context has ended, at most one packet more goes out in any continuation until a playback begins |
| PlayerStops.PlaybackStarts | media.go:118-127 | `playback` of a list, after closing the channel of the player before it, is about to start a player of that list |
| PlayerStops.SpawnStarts | media.go:124-128 | the new player has the whole list before it and an open channel |
| PlayerStops.UntoldCanSendAll | media.go:128-159 | from any state of any run a player that has not been told to stop has a continuation in which all that is left of its list goes out, in order and with nothing in between |
| Player.PlaybackControl.Playback | media.go:118-127 | an empty list changes nothing; otherwise the running player is told to stop and a fresh open channel becomes current |
| Player.PlaybackControl.Stop | media.go:164-177 | closes the channel of the running player, once |
| Player.PlaybackControl.Close | media.go:179-182 | nothing plays afterwards |
| PacketBuilder.PktSerialize | media.go:184-206 | refuses bad hardware addresses and then changes nothing; else writes addresses, protocol fields and truncated ports and leaves every other byte |
| PacketBuilder.Folded | media.go:213 | the end-around carry ends, keeps the residue modulo 2^16-1, and gives 0 for 0 only |
| PacketBuilder.ComplementFolds | media.go:213 | a sum and the complement of its fold fold to all ones |
| PacketBuilder.HeaderWords | media.go:213 | the sum over the header is that of its ten big-endian words, byte by byte |
| PacketBuilder.VerifiesIff | media.go:213 | that sum is a positive multiple of 2^16-1 exactly when it folds to 0xFFFF |
| PacketBuilder.PktChecksum | media.go:208-219 | whatever the checksum field held, the header bytes add up to zero in one's complement afterwards and both lengths match the payload |
| PacketBuilder.FoldChecksum | media.go:213 | the folding loop ends with the complement of the folded sum |
| PacketBuilder.ComputeChecksum | media.go:213 | the loop adds the words up whose sum `HeaderWords` writes out |
| PacketBuilder.BuildFrame | media.go:147-151 | what the player sends is a checksummed UDP frame to the remote port with exactly the payload, and otherwise the prepared header |
| Ebpf.HtonsIsTheKey | ebpf/ebpf.go:119-121 | on either byte order the key of a port is what the kernel loads for it, and different ports have different keys |
| Ebpf.ParsesIff | ebpf/src/xdp_sipbench.c:41-61 | the program takes a frame for a port's key if and only if it is an IPv4 UDP frame without options to that port |
| Ebpf.SeenCounts | ebpf/src/xdp_sipbench.c:62-71 | a rule counts exactly the frames to its port and their UDP lengths |
| Ebpf.BuiltFramesCount | media.go:184-219 | every built frame counts under its remote port only, with its payload plus 8 bytes |
| Ebpf.DropsIff | ebpf/src/xdp_sipbench.c:30-72 | a frame is dropped if and only if it is cut short, has IPv4 options, or goes to the port of some rule; all else is passed |
| Ebpf.Manager.Sipbench | ebpf/src/xdp_sipbench.c:30-72 | for any bytes, the action that `DropsIff` and the effect on the rules that `SeenCounts` characterise |
| Ebpf.KeysOf | ebpf/ebpf.go:79-81 | one key per port |
| Ebpf.Manager.Update | ebpf/ebpf.go:74-87 | each given port has a rule of zero packets and bytes afterwards, whatever was there; the others are untouched |
| Ebpf.UpdateZeroes | ebpf/ebpf.go:74-87 | the same of an update within a run |
| Ebpf.Manager.LookupAndDelete | ebpf/ebpf.go:89-108 | returns what each port's rule has counted, zeros without a rule, and removes exactly these rules |
| Ebpf.RuleCountsItsPort | ebpf/ebpf.go:74-108 | from an update on and before the deletion, from any rules, a rule holds exactly the number and bytes of the frames to its port, whatever happens to others |
| Ebpf.CountersAgree | media.go:156-157 | from an update on, among any other traffic, updates and deletions, the counters of a rule whose port receives just what one player sent equal that player's |
| PcmTables.ALawExponent | pkg/pcm/pcm.go:58-75 | the A-law compress table is floor(log2) plus 1 |
| PcmTables.MuLawExponent | pkg/pcm/pcm.go:10-27 | the mu-law compress table is floor(log2) |
| PcmTables.ALawDecompressIsMiddle | pkg/pcm/pcm.go:156-189 | all 256 A-law values are the middles of their steps |
| PcmTables.MuLawDecompressIsMiddle | pkg/pcm/pcm.go:109-142 | all 256 mu-law values are the middles of their steps, except -1 for code 0x7F |
| Pcm.ALawBoundIff | pkg/pcm/pcm.go:77-97 | decode after encode is within 8 below 256 and within a 32nd above, if and only if the sample is not -32768 |
| Pcm.MuLawBoundIff | pkg/pcm/pcm.go:29-46 | decode after encode is within a 32nd of the biased sample, if and only if the sample is not -32768 |
| Pcm.ALawMonotone | pkg/pcm/pcm.go:77-97 | A-law decode after encode keeps the order of samples |
| Pcm.MuLawMonotone | pkg/pcm/pcm.go:29-46 | mu-law decode after encode keeps the order of samples |
| Pcm.ALawCodeReturns | pkg/pcm/pcm.go:77-97 | every A-law code survives decode and encode (also lines 156-189) |
| Pcm.MuLawCodeReturns | pkg/pcm/pcm.go:29-46 | every mu-law code survives decode and encode, 0x7F included (also lines 109-142) |
| Pcm.SampleOfBytes | pkg/pcm/pcm.go:149-151 | the two bytes written for a sample are its value modulo 2^16, low byte first, and read back as that sample |
| Pcm.BytesOfSample | pkg/pcm/pcm.go:104 | the sample read from two bytes is, modulo 2^16, the first plus 256 times the second, and is written as those bytes |
| Pcm.Flip5IsXor | pkg/pcm/pcm.go:95 | inverting bits 0 and 2 of each half is exclusive or with 0x55 |
| Pcm.Encode | pkg/pcm/pcm.go:48-56 | fails exactly when the output is too small and then changes nothing; else one code per sample and the rest untouched (also lines 99-107) |
| Pcm.Decode | pkg/pcm/pcm.go:144-154 | fails exactly when the output is too small and then changes nothing; else two bytes per code and the rest untouched (also lines 191-201) |
| Pcm.ALawBufferReturns | pkg/pcm/pcm.go:99-107 | A-law buffers of any length survive decode and encode (also lines 191-201) |
| Pcm.MuLawBufferReturns | pkg/pcm/pcm.go:48-56 | mu-law buffers of any length survive decode and encode (also lines 144-154) |
| RtpStream.CountersAdvance | rtp/white_noise.go:34-35 | the wrapping increments keep sequence number and timestamp at their place in the stream |
| RtpStream.MakePacket | rtp/white_noise.go:22-48 | packet i has 172 bytes, its RTP header, and the A-law codes of its block |
| RtpStream.FillBlock | rtp/white_noise.go:27-31 | the block's little-endian samples are the random numbers drawn |
| RtpStream.WhiteNoise | rtp/white_noise.go:11-52 | fifty packets per second of duration, none for a duration that is not positive, each with its place's header and its own samples |
| RtpStream.LoadPCM | rtp/pcm.go:12-62 | one packet per whole 320-byte block of the file, in order, packet i from block i |
| RtpStream.PausesTelescope | media.go:132-135 | the player's pauses add up to the time of the packet, for any list |
| RtpStream.StreamIsPaced | media.go:132-135 | packets with the generators' headers are paced at 20 ms a packet from the start |
| RtpStream.FileIsPaced | rtp/pcm.go:12-62 | so is the stream made from a file |
| RtpStream.NoiseIsPaced | rtp/white_noise.go:11-52 | and the white noise |
| TimeRange.SplitJoined | pkg/time_range.go:101 | splitting undoes joining for parts free of the separator |
| TimeRange.DecimalDigits | pkg/time_range.go:73 | numbers are decimal: the last digit is the remainder by ten, the digits before it the quotient |
| TimeRange.ParseIntIff | pkg/time_range.go:73 | exactly the decimal numerals within int64, with or without a sign, are accepted, as the numbers they write (also lines 64) |
| TimeRange.SecondsWrap | pkg/time_range.go:77 | seconds become nanoseconds modulo 2^64 within int64 |
| TimeRange.ItemParses | pkg/time_range.go:55-89 | every text of the documented grammar with numbers in range parses to the range and weight it denotes |
| TimeRange.ListParses | pkg/time_range.go:91-110 | so does every list of such texts |
| TimeRange.SignsAreAccepted | pkg/time_range.go:64 | a sign is accepted outside the grammar, so a weight can be negative (also lines 73) |
| TimeRange.AcceptsIff | pkg/time_range.go:55-89 | an item parses if and only if it is a text of the grammar with optional signs before its numbers, a minus before the first one excepted |
| TimeRange.ParseAll | pkg/time_range.go:104-110 | the first bad item is the error, else all items in order |
| TimeRange.Schedule | pkg/time_range.go:116-129 | the scheduler gets every range with its weight, 0 read as 1; a negative total fails |
| TimeRange.NewTimeRange | pkg/time_range.go:96-130 | which error or which range any text gives |
| TimeRange.DrawIsWithin | pkg/time_range.go:27-43 | a single range yields its time or one inside it |
| TimeRange.DrawCovers | pkg/time_range.go:27-43 | and any time inside it can be the one |
| TimeRange.DenotedFits | pkg/time_range.go:42 | no text of the grammar denotes a width that `Int64N` would refuse |
| TimeRange.GetMany | pkg/time_range.go:51-53 | the m-th `Get` lies within the range the schedule serves at call m |
| TimeRange.ScheduleIsExactIff | pkg/time_range.go:116-129 | the schedule of a list of ranges is exact if and only if no weight is negative |
| TimeRange.GetsAreFair | pkg/time_range.go:116-129 | any total-weight consecutive `Get`s before the counter wraps, or ever if the weights fit the wrap, use each range exactly its weight times, once if the weight is 0 |
| TimeRange.GrammarListIsFair | pkg/time_range.go:91-130 | so every list of the documented grammar is served fairly |

## Left out

- Socket creation, mmap, bind, `Close`, `Poll` and the sendto call in `pkg/xdp/xdp.go`: foreign memory and system calls. Only sizes and initial values are kept. `Poll` reaps completions on its caller's goroutine; the model has one reaper.
- The kernel is an abstract actor: it consumes the TX and fill rings, and produces on the completion and RX rings while they have room.
- Memory ordering: every shared access is one sequentially consistent step. The plain `u.nextPort += 2` is a separate load and store.
- A player that is told to stop, and one that is not, is scheduled whenever it likes: no bound on the time to its next select is modelled.
- Timers, sleeps and tickers: any scheduling is allowed instead.
- SIP signalling, SDP and multipart parsing, routing and ARP lookups: each call in a dialog has an arbitrary outcome. The state-ended callbacks and `close(d.done)` are not modelled.
- Dialogs, players and the transmit pipeline are modelled on values, not as classes, because their point is interleaving. Update in place of a dialog's fields is a new value of that dialog.
- Dialogs.StepKeepsInv: does not model the panic of `audioInfos[0]` on an SDP without audio (`dialog.go:183`, `418`, `443`); a crash ends the run.
- PortRange.RangeKeptIff: covers widths of at least 10 (in a narrower range every call is refused) and limits up to 65534, or 65535 with an odd lower bound (for others see `CyclesIff`). For UACs the lower bound is positive: with 0 the first UAC keeps port 0 and its count for ever, which can close a narrow range before racing callers leave it. `OneCallerKeepsRange` holds there too.
- DialogRules.RulesKeptIff: excludes UACs with a lower bound of 0 for the same reason; that one live dialog at a time keeps its rules holds there too.
- DialogRuns.EveryRunIsSafe: a lower bound below 2^16 is assumed; the flags are not validated in the code.
- Ebpf.Manager.Update: does not model errors of the kernel's batch calls, the 65535-entry limit, or a duplicate port in one list.
- Ebpf.CountersAgree: assumes that nobody else sends to that port, whose frames alone it counts; other traffic is arbitrary.
- WrapFairness.RefinesForEverIff: tables of 2^32 entries and more, whose length the cast to uint32 truncates, are not covered.
- PacketBuilder.ComputeChecksum: gopacket's sum is not part of the repository; the sum of RFC 1071 stands for it.
- PacketBuilder.PktChecksum: payloads are at most 1558 bytes, what fits the buffer.
- Pcm.Encode: a trailing half sample panics in the code and is a precondition here. One loop stands for the A-law and the mu-law loop, which differ in the table only.
- PcmTables.ALawExponent: rows of the compress tables whose 16 entries are equal are written once.
- RtpStream.WhiteNoise: does not model int64 overflow of `duration*1000`. Random samples are arbitrary values in their range.
- RtpStream.LoadPCM: the file is its bytes; a read error, or a read that is short before the end, is not modelled.
- TimeRange.NewTimeRange: strconv and strings are modelled by what they document; the text of error messages is not modelled.
- TimeRange.GetMany: a width of 2^63 ns or more panics in `Int64N` and is excluded; no text of the grammar has one.
- `rtp/pcap.go`, `pkg/randutils/rand.go`, `routing/routing.go`, `arp/arp.go`, the call maker in `uac.go`, metrics, logging, flags: input and output, or easy members.
