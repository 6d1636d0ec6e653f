/** What stop, Close and the end of the context do to the players of media.go: who is told sends at most the packet in
    hand, who is not can send its whole list. */
module PlayerStops {
  import opened Wrappers
  import opened Player

  /** Player i has been told to stop: its done channel is closed, or the context has ended. */
  predicate Told(m: Media, i: nat)
  {
    i < |m.players| && i < |m.open| && (m.cancelled || !m.open[i])
  }

  /** Past the select, with a packet in hand. */
  function InHand(p: Player): nat { if p.phase.AtSend? then 1 else 0 }

  /** The step leaves the player told, its history a prefix, and no more to come than before. */
  predicate NoMore(m: Media, t: Media, i: nat)
    requires i < |m.players|
  {
    && Told(t, i) && m.players[i].kept <= t.players[i].kept
    && |t.players[i].kept| + InHand(t.players[i]) <= |m.players[i].kept| + InHand(m.players[i])
  }

  lemma ToldOwnTurn(m: Media, step: Step)
    requires Enabled(m, step) && (step.Lock? || step.Select? || step.Send?) && Told(m, step.i)
    ensures NoMore(m, Apply(m, step), step.i)
  {
  }

  lemma ToldOwnerTurn(m: Media, step: Step, i: nat)
    requires ChannelInv(m) && Told(m, i) && Enabled(m, step) && !step.Lock? && !step.Select? && !step.Send?
    ensures NoMore(m, Apply(m, step), i)
  {
  }

  lemma ToldStep(m: Media, step: Step, i: nat)
    requires ChannelInv(m) && Told(m, i) && Enabled(m, step)
    ensures NoMore(m, Apply(m, step), i)
  {
    if step.Lock? || step.Select? || step.Send? {
      if step.i == i {
        ToldOwnTurn(m, step);
      } else {
        OthersStayPut(m, step);
      }
    } else {
      ToldOwnerTurn(m, step, i);
    }
  }

  lemma {:induction false} ToldRun(m: Media, steps: seq<Step>, i: nat)
    requires Inv(m) && Told(m, i) && Run(m, steps).Some?
    ensures NoMore(m, Run(m, steps).value, i)
  {
    if steps != [] {
      var init := steps[..|steps| - 1];
      ToldRun(m, init, i);
      RunKeepsInv(m, init);
      ToldStep(Run(m, init).value, steps[|steps| - 1], i);
    }
  }

  /** In no continuation does a player that has been told try a packet more, save the one in hand. */
  lemma ToldSendsNoMore(before: seq<Step>, after: seq<Step>, i: nat)
    requires Run(New(), before).Some? && Told(Run(New(), before).value, i)
    requires Run(Run(New(), before).value, after).Some?
    ensures var m := Run(New(), before).value; var t := Run(m, after).value;
            && i < |t.players| && m.players[i].kept <= t.players[i].kept
            && |t.players[i].kept| <= |m.players[i].kept| + InHand(m.players[i])
  {
    NewHasInv();
    RunKeepsInv(New(), before);
    ToldRun(Run(New(), before).value, after, i);
  }

  // ---------------------------------------------------------------- silence after stop

  /** stop or Close has returned and no playback has begun since, or the context has ended. */
  predicate Silenced(m: Media)
  {
    m.cancelled || (m.owner.Ready? && !m.playing)
  }

  lemma SilencedAreTold(m: Media, i: nat)
    requires ChannelInv(m) && Silenced(m) && i < |m.players|
    ensures Told(m, i)
  {
  }

  predicate StartsPlayback(step: Step)
  {
    step.Begin? && step.call.Playback? && step.call.pkts != []
  }

  /** A packet in anybody's hand. */
  function AnyInHand(m: Media): nat
  {
    if m.mu.Some? && m.mu.value < |m.players| then InHand(m.players[m.mu.value]) else 0
  }

  lemma SilentTurn(m: Media, step: Step)
    requires MutexInv(m) && ChannelInv(m) && Silenced(m) && Enabled(m, step)
    requires step.Lock? || step.Select? || step.Send?
    ensures var t := Apply(m, step);
            Silenced(t) && m.sent <= t.sent && |t.sent| + AnyInHand(t) <= |m.sent| + AnyInHand(m)
  {
    SilencedAreTold(m, step.i);
  }

  lemma SilentOwner(m: Media, step: Step)
    requires MutexInv(m) && ChannelInv(m) && Silenced(m) && Enabled(m, step)
    requires !step.Lock? && !step.Select? && !step.Send? && (m.cancelled || !StartsPlayback(step))
    ensures var t := Apply(m, step);
            Silenced(t) && t.sent == m.sent && AnyInHand(t) == AnyInHand(m)
  {
  }

  /** No playback begins in the run, unless the context has ended. */
  predicate StaysSilent(m: Media, steps: seq<Step>)
  {
    steps != [] ==>
      && StaysSilent(m, steps[..|steps| - 1])
      && (Run(m, steps[..|steps| - 1]).Some? && StartsPlayback(steps[|steps| - 1]) ==>
            Run(m, steps[..|steps| - 1]).value.cancelled)
  }

  lemma {:induction false} SilentRun(m: Media, steps: seq<Step>)
    requires Inv(m) && Silenced(m) && Run(m, steps).Some? && StaysSilent(m, steps)
    ensures var t := Run(m, steps).value;
            Silenced(t) && m.sent <= t.sent && |t.sent| + AnyInHand(t) <= |m.sent| + AnyInHand(m)
  {
    if steps != [] {
      var init, last := steps[..|steps| - 1], steps[|steps| - 1];
      SilentRun(m, init);
      RunKeepsInv(m, init);
      var u := Run(m, init).value;
      if last.Lock? || last.Select? || last.Send? {
        SilentTurn(u, last);
      } else {
        SilentOwner(u, last);
      }
    }
  }

  /** Once stop or Close has returned, or the context has ended, at most the one packet in hand still goes out, until
      a playback begins. */
  lemma SilenceAfterStop(before: seq<Step>, after: seq<Step>)
    requires Run(New(), before).Some? && Silenced(Run(New(), before).value)
    requires Run(Run(New(), before).value, after).Some? && StaysSilent(Run(New(), before).value, after)
    ensures var m := Run(New(), before).value; var t := Run(m, after).value;
            m.sent <= t.sent && |t.sent| <= |m.sent| + AnyInHand(m) <= |m.sent| + 1
  {
    NewHasInv();
    RunKeepsInv(New(), before);
    SilentRun(Run(New(), before).value, after);
  }

  // ---------------------------------------------------------------- what the calls bring about

  /** stop is over at once or after closing the channel, and then all is silenced. */
  lemma StopSilences(m: Media)
    requires ChannelInv(m) && m.owner.Ready?
    ensures var t := Apply(m, Begin(Stop));
            Silenced(t) || (t.owner == Closing(Stop) && !t.playing && Silenced(Apply(t, CloseDone)))
  {
  }

  /** playback of a list, after closing the channel of the player before it if there is one, starts a player of that
      list with an open channel. */
  lemma PlaybackStarts(m: Media, pkts: seq<Packet>)
    requires ChannelInv(m) && m.owner.Ready? && pkts != []
    ensures var t := Apply(m, Begin(Playback(pkts)));
            && (t.owner == Spawning(pkts) || t.owner == Closing(Playback(pkts)))
            && (t.owner.Closing? ==> Apply(t, CloseDone).owner == Spawning(pkts))
  {
  }

  lemma SpawnStarts(m: Media)
    requires ChannelInv(m) && m.owner.Spawning?
    ensures var t := Apply(m, Spawn);
            && t.players == m.players + [Player(m.owner.pkts, Waiting, [])]
            && t.open == m.open + [true] && t.owner.Ready? && t.playing
  {
  }

  // ---------------------------------------------------------------- who is not told can send all

  /** A set of states that is closed under steps. */
  ghost predicate Closed(reach: Media -> bool)
  {
    forall m, step {:trigger Apply(m, step)} :: reach(m) && Enabled(m, step) ==> reach(Apply(m, step))
  }

  ghost predicate Reachable(m: Media, t: Media)
  {
    exists steps :: Run(m, steps) == Some(t)
  }

  lemma ReachableIsClosed(m: Media) returns (reach: Media -> bool)
    ensures Closed(reach) && reach(m) && forall t :: reach(t) <==> Reachable(m, t)
  {
    reach := t => Reachable(m, t);
    assert Run(m, []) == Some(m);
    forall t, step | reach(t) && Enabled(t, step) ensures reach(Apply(t, step)) {
      var steps :| Run(m, steps) == Some(t);
      var more := steps + [step];
      assert more[..|more| - 1] == steps;
      assert Run(m, more) == Some(Apply(t, step));
    }
  }

  /** Player i is not told and has the mutex. */
  ghost predicate Free(m: Media, i: nat)
  {
    && Inv(m) && i < |m.players| && !Told(m, i)
    && m.players[i].phase.AtSelect? && |m.players[i].kept| <= |m.players[i].pkts|
  }

  /** What is left of a player's list. */
  function Rest(p: Player): seq<Packet>
    requires |p.kept| <= |p.pkts|
  {
    p.pkts[|p.kept|..]
  }

  ghost predicate HasSentAll(m: Media, i: nat)
  {
    i < |m.players| && m.players[i].phase.Finished? && |m.players[i].kept| == |m.players[i].pkts|
  }

  /** One packet goes out. */
  lemma SendsOne(reach: Media -> bool, m: Media, i: nat) returns (t: Media)
    requires Closed(reach) && reach(m) && Free(m, i) && Rest(m.players[i]) != []
    ensures reach(t) && Free(t, i) && t.players[i].pkts == m.players[i].pkts
    ensures |t.players[i].kept| == |m.players[i].kept| + 1 && t.sent == m.sent + [Rest(m.players[i])[0]]
  {
    var u := Apply(m, Select(i));
    StepKeepsInv(m, Select(i));
    t := Apply(u, Send(i, true));
    StepKeepsInv(u, Send(i, true));
  }

  /** Having sent one packet more, with one fewer left. */
  lemma RestOneLess(sent: seq<Packet>, p: Player, q: Player)
    requires q.pkts == p.pkts && |q.kept| == |p.kept| + 1 <= |p.pkts|
    ensures |Rest(q)| < |Rest(p)| && sent + [Rest(p)[0]] + Rest(q) == sent + Rest(p)
  {
  }

  lemma {:induction false} SendsRest(reach: Media -> bool, m: Media, i: nat) returns (t: Media)
    requires Closed(reach) && reach(m) && Free(m, i)
    ensures reach(t) && HasSentAll(t, i) && t.sent == m.sent + Rest(m.players[i])
    decreases |Rest(m.players[i])|
  {
    if Rest(m.players[i]) == [] {
      t := Apply(m, Select(i));
    } else {
      var u := SendsOne(reach, m, i);
      RestOneLess(m.sent, m.players[i], u.players[i]);
      t := SendsRest(reach, u, i);
    }
  }

  /** The states differ in player k and the mutex only, and in what was lost. */
  predicate SameButFor(m: Media, t: Media, k: nat)
  {
    && t.sent == m.sent && t.open == m.open && t.cancelled == m.cancelled && |t.players| == |m.players|
    && forall i :: 0 <= i < |m.players| && i != k ==> t.players[i] == m.players[i]
  }

  lemma DropsHand(reach: Media -> bool, m: Media, k: nat) returns (t: Media)
    requires Closed(reach) && reach(m) && Inv(m) && k < |m.players| && m.players[k].phase.AtSend?
    ensures reach(t) && Inv(t) && SameButFor(m, t, k) && t.players[k].phase.AtSelect?
  {
    assert PlayerOk(m.players[k], m.cancelled || !m.open[k]);
    t := Apply(m, Send(k, false));
    StepKeepsInv(m, Send(k, false));
  }

  lemma Stops(reach: Media -> bool, m: Media, k: nat) returns (t: Media)
    requires Closed(reach) && reach(m) && Inv(m) && Told(m, k) && m.players[k].phase.AtSelect?
    ensures reach(t) && Inv(t) && SameButFor(m, t, k) && t.mu.None?
  {
    t := Apply(m, Select(k));
    StepKeepsInv(m, Select(k));
  }

  /** Another player that holds the mutex lets go of it without sending. */
  lemma LetsGo(reach: Media -> bool, m: Media, k: nat) returns (t: Media)
    requires Closed(reach) && reach(m) && Inv(m) && Told(m, k) && Active(m.players[k])
    ensures reach(t) && Inv(t) && SameButFor(m, t, k) && t.mu.None?
  {
    t := m;
    if m.players[k].phase.AtSend? {
      t := DropsHand(reach, m, k);
    }
    t := Stops(reach, t, k);
  }

  /** A player that has not been told is the last one. */
  lemma NotToldIsLast(m: Media, i: nat)
    requires ChannelInv(m) && i < |m.players| && !Told(m, i)
    ensures forall k: nat :: k < |m.players| && k != i ==> Told(m, k)
  {
  }

  /** A waiting player gets the mutex. */
  lemma GetsMutex(reach: Media -> bool, m: Media, i: nat) returns (t: Media)
    requires Closed(reach) && reach(m) && Inv(m) && i < |m.players| && !Told(m, i) && m.players[i].phase.Waiting?
    ensures reach(t) && Free(t, i) && t.players[i].pkts == m.players[i].pkts && t.players[i].kept == m.players[i].kept
    ensures t.sent == m.sent
  {
    NotToldIsLast(m, i);
    t := m;
    if m.mu.Some? {
      t := LetsGo(reach, m, m.mu.value);
    }
    var u := t;
    t := Apply(u, Lock(i));
    StepKeepsInv(u, Lock(i));
  }

  lemma SendsInHand(reach: Media -> bool, m: Media, i: nat) returns (t: Media)
    requires Closed(reach) && reach(m) && Inv(m) && i < |m.players| && !Told(m, i) && m.players[i].phase.AtSend?
    ensures PlayerOk(m.players[i], false) && reach(t) && Free(t, i) && t.players[i].pkts == m.players[i].pkts
    ensures |t.players[i].kept| == |m.players[i].kept| + 1 && t.sent == m.sent + [Rest(m.players[i])[0]]
  {
    assert PlayerOk(m.players[i], m.cancelled || !m.open[i]);
    t := Apply(m, Send(i, true));
    StepKeepsInv(m, Send(i, true));
  }

  /** A player that is never told has, from every state of every run, a continuation in which it sends all that is
      left of its list, in order and with nothing in between, and ends. */
  lemma UntoldCanSendAll(before: seq<Step>, i: nat) returns (after: seq<Step>)
    requires Run(New(), before).Some?
    requires i < |Run(New(), before).value.players| && !Told(Run(New(), before).value, i)
    ensures var m := Run(New(), before).value;
            && |m.players[i].kept| <= |m.players[i].pkts| && Run(m, after).Some?
            && HasSentAll(Run(m, after).value, i)
            && Run(m, after).value.sent == m.sent + Rest(m.players[i])
  {
    var m := Run(New(), before).value;
    NewHasInv();
    RunKeepsInv(New(), before);
    var t := CanSendAll(m, i);
    after :| Run(m, after) == Some(t);
  }

  lemma CanSendAll(m: Media, i: nat) returns (t: Media)
    requires Inv(m) && i < |m.players| && !Told(m, i)
    ensures |m.players[i].kept| <= |m.players[i].pkts|
    ensures Reachable(m, t) && HasSentAll(t, i) && t.sent == m.sent + Rest(m.players[i])
  {
    var reach := ReachableIsClosed(m);
    assert PlayerOk(m.players[i], m.cancelled || !m.open[i]);
    match m.players[i].phase
    case Waiting =>
      t := GetsMutex(reach, m, i);
      t := SendsRest(reach, t, i);
    case AtSelect => t := SendsRest(reach, m, i);
    case AtSend =>
      var u := SendsInHand(reach, m, i);
      RestOneLess(m.sent, m.players[i], u.players[i]);
      t := SendsRest(reach, u, i);
    case Finished => t := m;
  }
}
