/** media.go, playback, stop and Close: one owner goroutine starts and stops player goroutines that share a
    buffer under a mutex. Every shared access is a separate step; players are scheduled in any order. */
module Player {
  import opened Widths
  import opened Wrappers
  import opened Bytes

  datatype Packet = Packet(ts: nat, payload: seq<byte>)

  /** A player goroutine: before mu.Lock, at the top of its loop, past the select, or returned. */
  datatype Phase = Waiting | AtSelect | AtSend | Finished

  /** `kept` is the history of its sends: one flag per packet tried, false where SendMsg failed. */
  datatype Player = Player(pkts: seq<Packet>, phase: Phase, kept: seq<bool>)

  datatype Call = Playback(pkts: seq<Packet>) | Stop

  /** The owner between calls, before close(m.done) and before `done := make(...)`. */
  datatype Owner = Ready | Closing(call: Call) | Spawning(pkts: seq<Packet>)

  /** The done channel of player i is `open[i]`; `done` says which of them m.done holds. */
  datatype Media = Media(
    playing: bool, done: Option<nat>, open: seq<bool>, owner: Owner,
    players: seq<Player>, mu: Option<nat>, cancelled: bool, panicked: bool,
    sent: seq<Packet>, counters: Counters)

  datatype Counters = Counters(txPkts: nat, txLossPkts: nat, txBytes: nat)

  datatype Step =
    | Begin(call: Call)      // playing.Swap(true) or playing.CompareAndSwap(true, false)
    | CloseDone              // close(m.done)
    | Spawn                  // done := make(...); m.done = done; go ...
    | Cancel                 // the dialog's context ends
    | Lock(i: nat)
    | Select(i: nat)
    | Send(i: nat, ok: bool)

  predicate Enabled(m: Media, step: Step)
  {
    match step
    case Begin(_) => m.owner.Ready?
    case CloseDone => m.owner.Closing?
    case Spawn => m.owner.Spawning?
    case Cancel => true
    case Lock(i) => i < |m.players| && m.players[i].phase.Waiting? && m.mu.None?
    case Select(i) => i < |m.players| && i < |m.open| && m.players[i].phase.AtSelect?
    case Send(i, _) => i < |m.players| && m.players[i].phase.AtSend? && |m.players[i].kept| < |m.players[i].pkts|
  }

  function At(m: Media, i: nat, phase: Phase): Media
    requires i < |m.players|
  {
    m.(players := m.players[i := m.players[i].(phase := phase)])
  }

  function BeginCall(m: Media, call: Call): Media
  {
    match call
    case Playback(pkts) =>
      if pkts == [] then m
      else m.(playing := true, owner := if m.playing then Closing(call) else Spawning(pkts))
    case Stop =>
      if !m.playing then m
      else if m.done.None? then m.(playing := false)
      else m.(playing := false, owner := Closing(call))
  }

  /** Closing a nil or closed channel panics. */
  function CloseChannel(m: Media, call: Call): Media
  {
    var after := m.(owner := if call.Playback? then Spawning(call.pkts) else Ready);
    if m.done.Some? && m.done.value < |m.open| && m.open[m.done.value]
    then after.(open := m.open[m.done.value := false])
    else after.(panicked := true)
  }

  function CountSent(c: Counters, pkt: Packet): Counters
  {
    Counters(Add64(c.txPkts, 1), c.txLossPkts, Add64(c.txBytes, |pkt.payload| + 8))
  }

  function CountLost(c: Counters): Counters
  {
    Counters(c.txPkts, Add64(c.txLossPkts, 1), c.txBytes)
  }

  function Tried(p: Player, ok: bool): Player
  {
    Player(p.pkts, AtSelect, p.kept + [ok])
  }

  /** One packet tried: sent and counted, or counted lost. */
  function Try(m: Media, i: nat, ok: bool): Media
    requires Enabled(m, Send(i, ok))
  {
    var p := m.players[i];
    var pkt := p.pkts[|p.kept|];
    var after := m.(players := m.players[i := Tried(p, ok)]);
    if ok
    then after.(sent := m.sent + [pkt], counters := CountSent(m.counters, pkt))
    else after.(counters := CountLost(m.counters))
  }

  function Apply(m: Media, step: Step): Media
    requires Enabled(m, step)
  {
    match step
    case Begin(call) => BeginCall(m, call)
    case CloseDone => CloseChannel(m, m.owner.call)
    case Spawn =>
      m.(done := Some(|m.players|), open := m.open + [true], owner := Ready,
         players := m.players + [Player(m.owner.pkts, Waiting, [])])
    case Cancel => m.(cancelled := true)
    case Lock(i) => At(m, i, AtSelect).(mu := Some(i))
    case Select(i) =>
      if |m.players[i].kept| >= |m.players[i].pkts| || m.cancelled || !m.open[i]
      then At(m, i, Finished).(mu := None)
      else At(m, i, AtSend)
    case Send(i, ok) => Try(m, i, ok)
  }

  function New(): Media
  {
    Media(false, None, [], Ready, [], None, false, false, [], Counters(0, 0, 0))
  }

  // ---------------------------------------------------------------- what has been sent, player by player

  /** The packets among the first n tried that went out. */
  function Kept(pkts: seq<Packet>, kept: seq<bool>, n: nat): seq<Packet>
    requires n <= |kept| && n <= |pkts|
  {
    if n == 0 then [] else Kept(pkts, kept, n - 1) + if kept[n - 1] then [pkts[n - 1]] else []
  }

  function SentBy(p: Player): seq<Packet>
  {
    if |p.kept| <= |p.pkts| then Kept(p.pkts, p.kept, |p.kept|) else []
  }

  /** What the first n players sent, in the order of the calls that started them. */
  function InCallOrder(ps: seq<Player>, n: nat): seq<Packet>
    requires n <= |ps|
  {
    if n == 0 then [] else InCallOrder(ps, n - 1) + SentBy(ps[n - 1])
  }

  function Losses(kept: seq<bool>, n: nat): nat
    requires n <= |kept|
  {
    if n == 0 then 0 else Losses(kept, n - 1) + if kept[n - 1] then 0 else 1
  }

  function AllLosses(ps: seq<Player>, n: nat): nat
    requires n <= |ps|
  {
    if n == 0 then 0 else AllLosses(ps, n - 1) + Losses(ps[n - 1].kept, |ps[n - 1].kept|)
  }

  /** Payload and UDP header bytes of the first n packets. */
  function UdpBytes(pkts: seq<Packet>, n: nat): nat
    requires n <= |pkts|
  {
    if n == 0 then 0 else UdpBytes(pkts, n - 1) + |pkts[n - 1].payload| + 8
  }

  lemma {:induction false} KeptPrefix(pkts: seq<Packet>, a: seq<bool>, b: seq<bool>, n: nat)
    requires n <= |a| && n <= |b| && n <= |pkts|
    requires forall k :: 0 <= k < n ==> a[k] == b[k]
    ensures Kept(pkts, a, n) == Kept(pkts, b, n) && Losses(a, n) == Losses(b, n)
  {
    if n > 0 {
      KeptPrefix(pkts, a, b, n - 1);
    }
  }

  lemma {:induction false} OrderPrefix(a: seq<Player>, b: seq<Player>, n: nat)
    requires n <= |a| && n <= |b|
    requires forall k :: 0 <= k < n ==> a[k].pkts == b[k].pkts && a[k].kept == b[k].kept
    ensures InCallOrder(a, n) == InCallOrder(b, n) && AllLosses(a, n) == AllLosses(b, n)
  {
    if n > 0 {
      OrderPrefix(a, b, n - 1);
    }
  }

  /** Players that have tried nothing add nothing. */
  lemma {:induction false} IdleTail(ps: seq<Player>, m: nat, n: nat)
    requires m <= n <= |ps| && forall k :: m <= k < n ==> ps[k].kept == []
    ensures InCallOrder(ps, n) == InCallOrder(ps, m) && AllLosses(ps, n) == AllLosses(ps, m)
  {
    if m < n {
      IdleTail(ps, m, n - 1);
    }
  }

  lemma {:induction false} BytesPrefix(a: seq<Packet>, b: seq<Packet>, n: nat)
    requires n <= |a| && n <= |b| && forall k :: 0 <= k < n ==> a[k] == b[k]
    ensures UdpBytes(a, n) == UdpBytes(b, n)
  {
    if n > 0 {
      BytesPrefix(a, b, n - 1);
    }
  }

  // ---------------------------------------------------------------- the invariant

  predicate Active(p: Player) { p.phase.AtSelect? || p.phase.AtSend? }

  /** The mutex holder is the one active player. */
  ghost predicate MutexInv(m: Media)
  {
    && (m.mu.Some? ==> m.mu.value < |m.players|)
    && forall i :: 0 <= i < |m.players| ==> (Active(m.players[i]) <==> m.mu == Some(i))
  }

  /** All done channels but the last are closed; the last is open exactly while `playing` says so. */
  ghost predicate ChannelInv(m: Media)
  {
    var n := |m.players|;
    && |m.open| == n
    && m.done == (if n == 0 then None else Some(n - 1))
    && (forall i :: 0 <= i < n - 1 ==> !m.open[i])
    && !m.panicked
    && match m.owner
       case Ready => m.playing <==> n > 0 && m.open[n - 1]
       case Closing(call) => n > 0 && m.open[n - 1] && (m.playing <==> call.Playback?)
       case Spawning(_) => m.playing && (n > 0 ==> !m.open[n - 1])
  }

  /** A list is sent from its head; it is cut short only by a closed channel or the end of the context. */
  predicate PlayerOk(p: Player, stopped: bool)
  {
    && |p.kept| <= |p.pkts|
    && (p.phase.Waiting? ==> p.kept == [])
    && (p.phase.AtSend? ==> |p.kept| < |p.pkts|)
    && (p.phase.Finished? ==> |p.kept| == |p.pkts| || stopped)
  }

  ghost predicate PlayersInv(m: Media)
    requires |m.open| == |m.players|
  {
    forall i :: 0 <= i < |m.players| ==> PlayerOk(m.players[i], m.cancelled || !m.open[i])
  }

  /** Once a later player has had the mutex, no earlier one gets past its select. */
  ghost predicate Overtaken(m: Media)
  {
    forall i, j :: 0 <= i < j < |m.players| && !m.players[j].phase.Waiting? ==> !m.players[i].phase.AtSend?
  }

  ghost predicate StreamInv(m: Media)
  {
    m.sent == InCallOrder(m.players, |m.players|)
  }

  ghost predicate CountersOk(c: Counters, sent: seq<Packet>, losses: nat)
  {
    c == Counters(|sent| % TWO_TO_THE_64, losses % TWO_TO_THE_64, UdpBytes(sent, |sent|) % TWO_TO_THE_64)
  }

  ghost predicate CountersInv(m: Media)
  {
    CountersOk(m.counters, m.sent, AllLosses(m.players, |m.players|))
  }

  ghost predicate Inv(m: Media)
  {
    && MutexInv(m)
    && ChannelInv(m)
    && PlayersInv(m)
    && Overtaken(m)
    && StreamInv(m)
    && CountersInv(m)
  }

  lemma NewHasInv()
    ensures Inv(New())
  {
  }

  lemma StepKeepsMutex(m: Media, step: Step)
    requires MutexInv(m) && Enabled(m, step)
    ensures MutexInv(Apply(m, step))
  {
  }

  lemma OwnerKeepsChannels(m: Media, step: Step)
    requires ChannelInv(m) && Enabled(m, step) && (step.Begin? || step.CloseDone? || step.Spawn?)
    ensures ChannelInv(Apply(m, step))
  {
  }

  lemma StepKeepsChannels(m: Media, step: Step)
    requires ChannelInv(m) && Enabled(m, step)
    ensures ChannelInv(Apply(m, step))
  {
    if step.Begin? || step.CloseDone? || step.Spawn? {
      OwnerKeepsChannels(m, step);
    }
  }

  lemma PlayerStaysOk(m: Media, step: Step)
    requires Enabled(m, step) && (step.Lock? || step.Select? || step.Send?) && step.i < |m.open|
    requires PlayerOk(m.players[step.i], m.cancelled || !m.open[step.i])
    ensures PlayerOk(Apply(m, step).players[step.i], m.cancelled || !m.open[step.i])
  {
  }

  lemma OwnerKeepsPlayers(m: Media, step: Step)
    requires |m.open| == |m.players| && PlayersInv(m)
    requires Enabled(m, step) && !step.Lock? && !step.Select? && !step.Send?
    ensures |Apply(m, step).open| == |Apply(m, step).players| && PlayersInv(Apply(m, step))
  {
  }

  lemma OthersStayPut(m: Media, step: Step)
    requires Enabled(m, step) && (step.Lock? || step.Select? || step.Send?)
    ensures var w := Apply(m, step);
            && w.open == m.open && w.cancelled == m.cancelled
            && w.players == m.players[step.i := w.players[step.i]]
  {
  }

  lemma StepKeepsPlayers(m: Media, step: Step)
    requires |m.open| == |m.players| && PlayersInv(m) && Enabled(m, step)
    ensures |Apply(m, step).open| == |Apply(m, step).players| && PlayersInv(Apply(m, step))
  {
    if step.Lock? || step.Select? || step.Send? {
      OthersStayPut(m, step);
      PlayerStaysOk(m, step);
    } else {
      OwnerKeepsPlayers(m, step);
    }
  }

  lemma StepKeepsOvertaken(m: Media, step: Step)
    requires Overtaken(m) && MutexInv(m) && ChannelInv(m) && Enabled(m, step)
    ensures Overtaken(Apply(m, step))
  {
  }

  /** When a player sends, no later player has sent anything. */
  lemma LaterAreWaiting(m: Media, i: nat, j: nat)
    requires ChannelInv(m) && PlayersInv(m) && Overtaken(m) && i < j < |m.players| && m.players[i].phase.AtSend?
    ensures m.players[j].kept == []
  {
    assert PlayerOk(m.players[j], m.cancelled || !m.open[j]);
  }

  lemma TriedAppends(p: Player, ok: bool)
    requires |p.kept| < |p.pkts|
    ensures SentBy(Tried(p, ok)) == SentBy(p) + (if ok then [p.pkts[|p.kept|]] else [])
    ensures Losses(Tried(p, ok).kept, |p.kept| + 1) == Losses(p.kept, |p.kept|) + (if ok then 0 else 1)
  {
    KeptPrefix(p.pkts, p.kept, p.kept + [ok], |p.kept|);
  }

  /** A packet goes out behind everything sent before, if later players have sent nothing. */
  lemma SendAppends(ps: seq<Player>, i: nat, ok: bool)
    requires i < |ps| && |ps[i].kept| < |ps[i].pkts| && forall j :: i < j < |ps| ==> ps[j].kept == []
    ensures var qs := ps[i := Tried(ps[i], ok)];
            && InCallOrder(qs, |ps|) == InCallOrder(ps, |ps|) + (if ok then [ps[i].pkts[|ps[i].kept|]] else [])
            && AllLosses(qs, |ps|) == AllLosses(ps, |ps|) + (if ok then 0 else 1)
  {
    var qs := ps[i := Tried(ps[i], ok)];
    IdleTail(ps, i + 1, |ps|);
    IdleTail(qs, i + 1, |ps|);
    OrderPrefix(ps, qs, i);
    TriedAppends(ps[i], ok);
  }

  lemma SentIsCounted(c: Counters, sent: seq<Packet>, losses: nat, pkt: Packet)
    requires CountersOk(c, sent, losses)
    ensures CountersOk(CountSent(c, pkt), sent + [pkt], losses)
  {
    BytesPrefix(sent, sent + [pkt], |sent|);
    CountOn(|sent|, 1);
    CountOn(UdpBytes(sent, |sent|), |pkt.payload| + 8);
  }

  lemma LossIsCounted(c: Counters, sent: seq<Packet>, losses: nat)
    requires CountersOk(c, sent, losses)
    ensures CountersOk(CountLost(c), sent, losses + 1)
  {
    CountOn(losses, 1);
  }

  lemma CountOn(x: nat, d: nat)
    ensures Add64(x % TWO_TO_THE_64, d) == (x + d) % TWO_TO_THE_64
  {
  }

  lemma SendKeepsStream(m: Media, i: nat, ok: bool)
    requires ChannelInv(m) && PlayersInv(m) && Overtaken(m) && Enabled(m, Send(i, ok))
    ensures StreamInv(m) ==> StreamInv(Apply(m, Send(i, ok)))
    ensures AllLosses(Apply(m, Send(i, ok)).players, |m.players|)
         == AllLosses(m.players, |m.players|) + (if ok then 0 else 1)
  {
    forall j | i < j < |m.players| ensures m.players[j].kept == [] {
      LaterAreWaiting(m, i, j);
    }
    SendAppends(m.players, i, ok);
  }

  lemma SendKeepsCounters(m: Media, i: nat, ok: bool)
    requires ChannelInv(m) && PlayersInv(m) && Overtaken(m) && CountersInv(m) && Enabled(m, Send(i, ok))
    ensures CountersInv(Apply(m, Send(i, ok)))
  {
    SendKeepsStream(m, i, ok);
    if ok {
      SentIsCounted(m.counters, m.sent, AllLosses(m.players, |m.players|), m.players[i].pkts[|m.players[i].kept|]);
    } else {
      LossIsCounted(m.counters, m.sent, AllLosses(m.players, |m.players|));
    }
  }

  ghost predicate SameHistory(a: seq<Player>, b: seq<Player>)
  {
    && |a| <= |b|
    && (forall k :: 0 <= k < |a| ==> a[k].pkts == b[k].pkts && a[k].kept == b[k].kept)
    && (forall k :: |a| <= k < |b| ==> b[k].kept == [])
  }

  lemma OwnerKeepsHistory(m: Media, step: Step)
    requires Enabled(m, step) && !step.Lock? && !step.Select? && !step.Send?
    ensures SameHistory(m.players, Apply(m, step).players)
    ensures Apply(m, step).sent == m.sent && Apply(m, step).counters == m.counters
  {
  }

  lemma TurnKeepsHistory(m: Media, step: Step)
    requires Enabled(m, step) && (step.Lock? || step.Select?)
    ensures SameHistory(m.players, Apply(m, step).players)
    ensures Apply(m, step).sent == m.sent && Apply(m, step).counters == m.counters
  {
  }

  lemma QuietKeepsHistory(m: Media, step: Step)
    requires Enabled(m, step) && !step.Send?
    ensures SameHistory(m.players, Apply(m, step).players)
    ensures Apply(m, step).sent == m.sent && Apply(m, step).counters == m.counters
  {
    if step.Lock? || step.Select? {
      TurnKeepsHistory(m, step);
    } else {
      OwnerKeepsHistory(m, step);
    }
  }

  lemma HistoryIsTheStream(a: seq<Player>, b: seq<Player>)
    requires SameHistory(a, b)
    ensures InCallOrder(b, |b|) == InCallOrder(a, |a|) && AllLosses(b, |b|) == AllLosses(a, |a|)
  {
    OrderPrefix(a, b, |a|);
    IdleTail(b, |a|, |b|);
  }

  lemma StepKeepsInv(m: Media, step: Step)
    requires Inv(m) && Enabled(m, step)
    ensures Inv(Apply(m, step))
  {
    StepKeepsMutex(m, step);
    StepKeepsChannels(m, step);
    StepKeepsPlayers(m, step);
    StepKeepsOvertaken(m, step);
    if step.Send? {
      SendKeepsStream(m, step.i, step.ok);
      SendKeepsCounters(m, step.i, step.ok);
    } else {
      QuietKeepsHistory(m, step);
      HistoryIsTheStream(m.players, Apply(m, step).players);
    }
  }

  // ---------------------------------------------------------------- every run

  /** The state after an interleaving, if every step of it was enabled in turn. */
  function Run(m: Media, steps: seq<Step>): Option<Media>
  {
    if steps == [] then Some(m)
    else
      match Run(m, steps[..|steps| - 1])
      case None => None
      case Some(u) =>
        var step := steps[|steps| - 1];
        if Enabled(u, step) then Some(Apply(u, step)) else None
  }

  lemma {:induction false} RunKeepsInv(m: Media, steps: seq<Step>)
    requires Inv(m)
    ensures Run(m, steps).Some? ==> Inv(Run(m, steps).value)
  {
    if steps != [] && Run(m, steps).Some? {
      RunKeepsInv(m, steps[..|steps| - 1]);
      StepKeepsInv(Run(m, steps[..|steps| - 1]).value, steps[|steps| - 1]);
    }
  }

  /** Between calls of the owner, `playing` holds exactly when the current done channel is open. */
  ghost predicate PlayingMeansOpen(m: Media)
  {
    m.owner.Ready? ==> (m.playing <==> m.done.Some? && m.done.value < |m.open| && m.open[m.done.value])
  }

  lemma InvIsSafe(m: Media)
    requires ChannelInv(m)
    ensures !m.panicked && PlayingMeansOpen(m)
  {
  }

  /** For any calls of the owner and any scheduling: no channel is closed twice, `playing` is right, the
      players' streams do not interleave and come in the order of the calls, each list is sent from its head,
      and the counters agree with what was sent. */
  lemma EveryRunIsSafe(steps: seq<Step>)
    requires Run(New(), steps).Some?
    ensures var m := Run(New(), steps).value;
            && !m.panicked
            && PlayingMeansOpen(m)
            && |m.open| == |m.players| && PlayersInv(m)
            && m.sent == InCallOrder(m.players, |m.players|)
            && CountersOk(m.counters, m.sent, AllLosses(m.players, |m.players|))
  {
    NewHasInv();
    RunKeepsInv(New(), steps);
    InvIsSafe(Run(New(), steps).value);
  }

  // ---------------------------------------------------------------- the owner's methods

  class Channel {
    var open: bool

    constructor ()
      ensures open
    {
      open := true;
    }

    /** Closing a closed channel panics. */
    method Close()
      requires open
      modifies this
      ensures !open
    {
      open := false;
    }
  }

  /** The fields playback, stop and Close change, between calls of their one owner. */
  class PlaybackControl {
    var playing: bool
    var done: Channel?

    ghost predicate Valid()
      reads this, done
    {
      playing <==> done != null && done.open
    }

    constructor ()
      ensures Valid() && !playing && done == null
    {
      playing, done := false, null;
    }

    /** An empty list changes nothing; otherwise the running player, if any, is told to stop and a new open
        channel is handed to the new one. */
    method Playback(pkts: seq<Packet>)
      requires Valid()
      modifies this, done
      ensures Valid()
      ensures pkts == [] ==> playing == old(playing) && done == old(done)
      ensures pkts != [] ==> playing && done != old(done) && fresh(done)
      ensures old(done) != null ==> old(done).open == (old(done.open) && pkts == [])
    {
      if pkts == [] {
        return;
      }
      var was := playing;
      playing := true;
      if was {
        done.Close();
      }
      done := new Channel();
    }

    /** Closes the channel of the running player, once. */
    method Stop()
      requires Valid()
      modifies this, done
      ensures Valid() && !playing && done == old(done)
      ensures done != null ==> !done.open
    {
      if !playing {
        return;
      }
      playing := false;
      if done != null {
        done.Close();
      }
    }

    method Close()
      requires Valid()
      modifies this, done
      ensures Valid() && !playing && done == old(done)
      ensures done != null ==> !done.open
    {
      Stop();
    }
  }
}
