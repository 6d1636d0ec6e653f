/** The eBPF rules of the dialogs: who still has to delete each one, which are left behind, and when a live dialog
    can lose its own. */
module DialogRules {
  import opened Widths
  import opened Wrappers
  import opened PortAllocator
  import opened Dialogs
  import opened DialogRuns
  import opened LoneDialogs

  // ---------------------------------------------------------------- rules left behind

  /** The dialog still stands for the rule of this port. */
  predicate StandsFor(o: Owner, p: nat)
  {
    p in o.held && !((o.phase.Leaving? || o.phase.Gone?) && o.phase.freed)
  }

  ghost predicate HasOwner(s: Ua, p: nat)
  {
    exists t :: 0 <= t < |s.owners| && StandsFor(s.owners[t], p)
  }

  ghost predicate HeldOk(r: Range, o: Owner)
  {
    && (forall p :: p in o.held ==> PortOk(r, p))
    && (o.phase.Probing? || o.phase.Probed? || o.phase.Counting? ==> PortOk(r, o.phase.port))
  }

  /** Every RTP rule belongs to some dialog that has yet to delete it. */
  ghost predicate RulesHaveOwners(s: Ua)
  {
    && (forall t :: 0 <= t < |s.owners| ==> HeldOk(s.shared.range, s.owners[t]))
    && forall p :: p in s.shared.rules && p % 2 == s.shared.range.min % 2 ==> HasOwner(s, p)
  }

  lemma HeldStaysOk(u: Shared, o: Owner, c: Choice)
    requires HeldOk(u.range, o) && PortOk(u.range, u.nextPort)
    ensures HeldOk(u.range, Next(u, o, c))
  {
  }

  lemma UpdateAddsOwn(u: Shared, o: Owner, c: Choice, p: nat)
    requires p % 2 == u.range.min % 2 && HeldOk(u.range, o)
    requires p in UpdatedRules(o, c)
    ensures p in o.held && o.phase.Running?
  {
    assert o.held != [] ==> o.held[0] in o.held;
  }

  lemma RulesOfTurn(u: Shared, o: Owner, c: Choice, p: nat)
    requires p % 2 == u.range.min % 2 && HeldOk(u.range, o)
    requires p in Effect(u, o, c).rules
    ensures p in u.rules || StandsFor(o, p)
    ensures StandsFor(o, p) ==> StandsFor(Next(u, o, c), p)
  {
    if p !in u.rules {
      UpdateAddsOwn(u, o, c, p);
    }
  }

  lemma TurnKeepsRuleOwner(s: Ua, t: nat, c: Choice, p: nat)
    requires RulesHaveOwners(s) && t < |s.owners| && p % 2 == s.shared.range.min % 2
    requires p in Apply(s, Turn(t, c)).shared.rules
    ensures HasOwner(Apply(s, Turn(t, c)), p)
  {
    RulesOfTurn(s.shared, s.owners[t], c, p);
    assert HasOwner(s, p);
    var k :| 0 <= k < |s.owners| && StandsFor(s.owners[k], p);
    assert StandsFor(Apply(s, Turn(t, c)).owners[k], p);
  }

  lemma StepKeepsRuleOwners(s: Ua, step: Step)
    requires RulesHaveOwners(s) && Inv(s) && Enabled(s, step)
    ensures RulesHaveOwners(Apply(s, step))
  {
    var v := Apply(s, step);
    if step.Spawn? {
      forall p | HasOwner(s, p) ensures HasOwner(v, p) {
        var k :| 0 <= k < |s.owners| && StandsFor(s.owners[k], p);
        assert StandsFor(v.owners[k], p);
      }
    } else {
      HeldStaysOk(s.shared, s.owners[step.t], step.c);
      forall p | p in v.shared.rules && p % 2 == s.shared.range.min % 2 ensures HasOwner(v, p) {
        TurnKeepsRuleOwner(s, step.t, step.c, p);
      }
    }
  }

  lemma {:induction false} RunKeepsRuleOwners(s: Ua, steps: seq<Step>)
    requires RulesHaveOwners(s) && Inv(s)
    ensures Run(s, steps).Some? ==> RulesHaveOwners(Run(s, steps).value)
  {
    if steps != [] && Run(s, steps).Some? {
      RunKeepsInv(s, steps[..|steps| - 1]);
      RunKeepsRuleOwners(s, steps[..|steps| - 1]);
      StepKeepsRuleOwners(Run(s, steps[..|steps| - 1]).value, steps[|steps| - 1]);
    }
  }

  /** After every dialog has closed, the only RTP rule that can be left is that of port 0. */
  lemma NoRtpRuleRemains(r: Range, steps: seq<Step>)
    requires r.min < TWO_TO_THE_16 && Run(Start(r), steps).Some? && AllGone(Run(Start(r), steps).value)
    ensures forall p :: p in Run(Start(r), steps).value.shared.rules && p % 2 == r.min % 2 ==> p == 0
  {
    var s := Run(Start(r), steps).value;
    StartHasInv(r);
    RunKeepsInv(Start(r), steps);
    RunKeepsRuleOwners(Start(r), steps);
    RunKeepsRange(Start(r), steps);
    forall p | p in s.shared.rules && p % 2 == r.min % 2 ensures p == 0 {
      assert HasOwner(s, p);
      var t :| 0 <= t < |s.owners| && StandsFor(s.owners[t], p);
      LeftoverIsZero(s.owners[t], p);
    }
  }

  lemma RtcpRuleSurvives(u: Shared, o: Owner, c: Choice, p: nat)
    requires HeldOk(u.range, o) && p in u.rules && p % 2 != u.range.min % 2
    ensures p in Effect(u, o, c).rules
  {
  }

  /** An RTCP rule, once created, is never deleted: Close looks up and deletes the RTP ports only. */
  lemma {:induction false} RtcpRuleStays(s: Ua, steps: seq<Step>, p: nat)
    requires Inv(s) && RulesHaveOwners(s)
    requires p in s.shared.rules && p % 2 != s.shared.range.min % 2 && Run(s, steps).Some?
    ensures p in Run(s, steps).value.shared.rules
  {
    if steps != [] {
      var init, last := steps[..|steps| - 1], steps[|steps| - 1];
      RunKeepsRuleOwners(s, init);
      RunKeepsRange(s, init);
      RtcpRuleStays(s, init, p);
      var u := Run(s, init).value;
      if last.Turn? {
        RtcpRuleSurvives(u.shared, u.owners[last.t], last.c, p);
      }
    }
  }

  // ---------------------------------------------------------------- rules of live dialogs

  /** After a successful Update and before Close. */
  predicate PastUpdate(pc: Pc)
  {
    pc.NewMedia? || pc.Progress? || pc.EarlyMedia? || pc.Ringing? || pc.Decide? || pc.Answer? || pc.AnswerMedia?
    || pc.Talking? || pc.SendBye?
    || pc.RecProgress? || pc.RecRinging? || pc.RecDecide? || pc.RecAnswer? || pc.RecTalking? || pc.RecBye?
    || pc.CallInvite? || pc.CallWaitAnswer? || pc.CallAck? || pc.CallMedia? || pc.CallTalking? || pc.CallStop?
    || pc.CallBye?
  }

  /** The dialog runs past its Update and all its RTP ports have rules. */
  predicate HasRules(u: Shared, o: Owner)
  {
    o.phase.Running? && PastUpdate(o.phase.pc) ==> forall p :: p in o.held ==> p in u.rules
  }

  ghost predicate EveryoneHasRules(s: Ua)
  {
    forall t :: 0 <= t < |s.owners| ==> HasRules(s.shared, s.owners[t])
  }

  /** The step reserves a port whose previous owner has freed it but has yet to delete its rule. */
  ghost predicate ReusesEarly(s: Ua, step: Step)
    requires Enabled(s, step)
  {
    step.Turn? && s.owners[step.t].phase.Probing? && s.owners[step.t].phase.port !in s.shared.ports
    && exists k :: 0 <= k < |s.owners| && k != step.t && StandsFor(s.owners[k], s.owners[step.t].phase.port)
  }

  /** No step of the run reuses a port early. */
  ghost predicate NeverEarly(s: Ua, steps: seq<Step>)
  {
    steps != [] ==>
      var init := steps[..|steps| - 1];
      NeverEarly(s, init)
      && (Run(s, steps).Some? ==> !ReusesEarly(Run(s, init).value, steps[|steps| - 1]))
  }

  predicate InHand(o: Owner, p: nat)
  {
    (o.phase.Counting? && o.phase.port == p) || (o.phase.Probed? && !o.phase.loaded && o.phase.port == p)
  }

  /** The dialog has or is about to have the rule of this port. */
  predicate Claims(o: Owner, p: nat)
  {
    StandsFor(o, p) || InHand(o, p)
  }

  ghost predicate Apart(o: Owner, other: Owner)
  {
    forall p :: Claims(o, p) ==> !Claims(other, p)
  }

  ghost predicate AllApart(s: Ua)
  {
    forall i, j :: 0 <= i < |s.owners| && 0 <= j < |s.owners| && i != j ==> Apart(s.owners[i], s.owners[j])
  }

  /** A plain UAS dialog asks for one port only. */
  predicate PlainOk(o: Owner)
  {
    match o.phase
    case Running(pc) =>
      (pc.Trying? || pc.ContentType? || pc.ParseSdp? || pc.AudioPort? || pc.RecParse? ==> o.held == [])
      && (pc.UpdateRule? || pc.CallUpdate? ==> |o.held| <= 1)
    case Searching(pc) => pc.AudioPort? || pc.CallPort? ==> o.held == []
    case Probing(pc, _) => pc.AudioPort? || pc.CallPort? ==> o.held == []
    case Probed(pc, _, _, _) => pc.AudioPort? || pc.CallPort? ==> o.held == []
    case Counting(pc, _) => pc.AudioPort? || pc.CallPort? ==> o.held == []
    case _ => true
  }

  lemma PlainStaysOk(u: Shared, o: Owner, c: Choice)
    requires PlainOk(o) && ControlOk(o)
    ensures PlainOk(Next(u, o, c))
  {
  }

  /** A dialog's own step gives it its rules. */
  lemma OwnStepKeepsRules(u: Shared, o: Owner, c: Choice)
    requires PlainOk(o) && ControlOk(o) && HasRules(u, o)
    ensures HasRules(Effect(u, o, c), Next(u, o, c))
  {
    assert |o.held| == 1 ==> o.held == [o.held[0]];
  }

  /** Another dialog's step takes no rule of it away. */
  lemma OtherStepKeepsRules(u: Shared, o: Owner, c: Choice, other: Owner)
    requires HasRules(u, other) && Apart(o, other)
    ensures HasRules(Effect(u, o, c), other)
  {
    if o.phase.Unruling? && other.phase.Running? {
      forall p | p in other.held ensures p !in o.held {
        assert Claims(other, p);
        assert Claims(o, p) <==> p in o.held;
      }
    }
  }

  /** A step claims at most the port it reserves. */
  lemma ClaimsOfStep(u: Shared, o: Owner, c: Choice, p: nat)
    requires Claims(Next(u, o, c), p)
    ensures Claims(o, p) || (o.phase.Probing? && o.phase.port == p && p !in u.ports)
  {
  }

  lemma InHandIsReserved(s: Ua, k: nat, p: nat)
    requires Ownership(s) && k < |s.owners| && InHand(s.owners[k], p)
    ensures p in s.shared.ports
  {
    PoolHasPart(Owned, s.owners, k, |s.owners|);
    assert p in Owned(s.owners[k]);
    assert p in multiset(s.shared.ports);
  }

  lemma StepKeepsApart(s: Ua, t: nat, c: Choice, k: nat)
    requires AllApart(s) && Ownership(s) && t < |s.owners| && k < |s.owners| && k != t
    requires !ReusesEarly(s, Turn(t, c))
    ensures Apart(Next(s.shared, s.owners[t], c), s.owners[k]) && Apart(s.owners[k], Next(s.shared, s.owners[t], c))
  {
    forall p | Claims(Next(s.shared, s.owners[t], c), p) ensures !Claims(s.owners[k], p) {
      ClaimsOfStep(s.shared, s.owners[t], c, p);
      assert Apart(s.owners[t], s.owners[k]);
      if InHand(s.owners[k], p) {
        InHandIsReserved(s, k, p);
      }
    }
  }

  ghost predicate RulesInv(s: Ua)
  {
    && EveryoneHasRules(s)
    && AllApart(s)
    && forall t :: 0 <= t < |s.owners| ==> PlainOk(s.owners[t])
  }

  lemma StepKeepsRulesInv(s: Ua, step: Step)
    requires Inv(s) && RulesInv(s) && Enabled(s, step) && !ReusesEarly(s, step)
    ensures RulesInv(Apply(s, step))
  {
    var v := Apply(s, step);
    if step.Turn? {
      var t := step.t;
      PlainStaysOk(s.shared, s.owners[t], step.c);
      OwnStepKeepsRules(s.shared, s.owners[t], step.c);
      forall k | 0 <= k < |s.owners| && k != t
        ensures Apart(v.owners[t], s.owners[k]) && Apart(s.owners[k], v.owners[t]) && HasRules(v.shared, s.owners[k])
      {
        StepKeepsApart(s, t, step.c, k);
        OtherStepKeepsRules(s.shared, s.owners[t], step.c, s.owners[k]);
      }
    }
  }

  lemma {:induction false} RunKeepsRulesInv(s: Ua, steps: seq<Step>)
    requires Inv(s) && RulesInv(s) && NeverEarly(s, steps)
    ensures Run(s, steps).Some? ==> RulesInv(Run(s, steps).value)
  {
    if steps != [] && Run(s, steps).Some? {
      RunKeepsInv(s, steps[..|steps| - 1]);
      RunKeepsRulesInv(s, steps[..|steps| - 1]);
      StepKeepsRulesInv(Run(s, steps[..|steps| - 1]).value, steps[|steps| - 1]);
    }
  }

  /** In every run that hands out no port between its release and the deletion of its rule, every dialog past
      its Update has the rules of all its RTP ports. */
  lemma LiveDialogsHaveRules(r: Range, steps: seq<Step>)
    requires r.min < TWO_TO_THE_16 && Run(Start(r), steps).Some? && NeverEarly(Start(r), steps)
    ensures EveryoneHasRules(Run(Start(r), steps).value)
  {
    StartHasInv(r);
    RunKeepsRulesInv(Start(r), steps);
  }

  // ---------------------------------------------------------------- one live dialog at a time

  /** At no point of the run does the gauge of live dialogs exceed d. */
  predicate AtMostLive(s: Ua, steps: seq<Step>, d: nat)
  {
    && (steps != [] ==> AtMostLive(s, steps[..|steps| - 1], d))
    && (Run(s, steps).Some? ==> Run(s, steps).value.shared.current <= d)
  }

  /** In a process with dialogs of one kind, at most d of them live at a time, every dialog past its Update has the
      rules of all its RTP ports. */
  ghost predicate RulesKept(r: Range, d: nat, kind: Kind)
  {
    forall steps :: Run(Start(r), steps).Some? && AtMostLive(Start(r), steps, d) ==>
      var s := Run(Start(r), steps).value; AllOf(s, kind) ==> EveryoneHasRules(s)
  }

  /** A port some closed dialog still stands for is still reserved. */
  lemma GoneKeepsReserved(s: Ua, k: nat, p: nat)
    requires Inv(s) && k < |s.owners| && s.owners[k].phase.Gone? && StandsFor(s.owners[k], p)
    ensures p in s.shared.ports
  {
    PoolHasPart(Owned, s.owners, k, |s.owners|);
    assert p in Owned(s.owners[k]);
    assert p in multiset(s.shared.ports);
  }

  lemma OneLiveIsNotEarly(s: Ua, step: Step)
    requires Inv(s) && s.shared.current <= 1 && Enabled(s, step)
    ensures !ReusesEarly(s, step)
  {
    if ReusesEarly(s, step) {
      var t, p := step.t, s.owners[step.t].phase.port;
      var k :| 0 <= k < |s.owners| && k != t && StandsFor(s.owners[k], p);
      if s.owners[k].phase.Gone? {
        GoneKeepsReserved(s, k, p);
      } else {
        TotalHasTwoParts(Live, s.owners, t, k, |s.owners|);
      }
    }
  }

  lemma {:induction false} OneLiveIsNeverEarly(s: Ua, steps: seq<Step>)
    requires Inv(s) && Run(s, steps).Some? && AtMostLive(s, steps, 1)
    ensures NeverEarly(s, steps)
  {
    if steps != [] {
      var init := steps[..|steps| - 1];
      OneLiveIsNeverEarly(s, init);
      RunKeepsInv(s, init);
      OneLiveIsNotEarly(Run(s, init).value, steps[|steps| - 1]);
    }
  }

  lemma {:induction false} FewerLive(s: Ua, steps: seq<Step>, d: nat, e: nat)
    requires d <= e && AtMostLive(s, steps, d)
    ensures AtMostLive(s, steps, e)
  {
    if steps != [] {
      FewerLive(s, steps[..|steps| - 1], d, e);
    }
  }

  lemma OneLiveKeepsRules(r: Range, d: nat, kind: Kind)
    requires r.min < TWO_TO_THE_16 && d <= 1
    ensures RulesKept(r, d, kind)
  {
    forall steps | Run(Start(r), steps).Some? && AtMostLive(Start(r), steps, d)
      ensures EveryoneHasRules(Run(Start(r), steps).value)
    {
      StartHasInv(r);
      FewerLive(Start(r), steps, d, 1);
      OneLiveIsNeverEarly(Start(r), steps);
      LiveDialogsHaveRules(r, steps);
    }
  }

  // ---------------------------------------------------------------- early reuse loses a rule

  /** Two new dialogs have both read the same next port and stand before LoadOrStore. */
  lemma TwoAtOnePort(reach: Ua -> bool, r: Range, kind: Kind) returns (s: Ua)
    requires Closed(reach, 2) && Open(reach, kind) && reach(Start(r)) && r.Width() >= 10
    ensures reach(s) && Callers(s) == 2 && s.shared == Start(r).shared.(current := 2)
    ensures s.owners == [Caller(kind, Probing(PortPc(kind), r.min)), Caller(kind, Probing(PortPc(kind), r.min))]
  {
    var u, v := Start(r).shared.(current := 1), Start(r).shared.(current := 2);
    var x := Caller(kind, Probing(PortPc(kind), r.min));
    ReadsNext(u, kind);
    NewDialog(reach, 2, Start(r), kind, u, x);
    ReadsNext(v, kind);
    NewDialog(reach, 2, Ua(u, [] + [x]), kind, v, x);
    s := Ua(v, [] + [x] + [x]);
  }

  /** From LoadOrStore of a free port to the counter. */
  lemma ProbeToCounter(u: Shared, kind: Kind, p: nat) returns (v: Shared)
    requires u.range.min < u.range.max <= TWO_TO_THE_16 && u.nextPort < TWO_TO_THE_16 && p !in u.ports
    ensures Alone(u, Caller(kind, Probing(PortPc(kind), p)), v, Caller(kind, Counting(PortPc(kind), p)))
    ensures v.range == u.range && v.nextPort < TWO_TO_THE_16 && v.ports == u.ports + {p}
  {
    v := u.(ports := u.ports + {p}, nextPort := u.range.Advance(u.nextPort));
    LoneProbe(u, Caller(kind, Probing(PortPc(kind), p)), PortPc(kind), p);
  }

  /** From LoadOrStore of a free port through Close, up to the rule deletion. */
  lemma ProbeToUnruling(u: Shared, kind: Kind, p: nat) returns (v: Shared)
    requires u.range.min < u.range.max <= TWO_TO_THE_16 && u.nextPort < TWO_TO_THE_16 && p !in u.ports
    requires Frees(kind, p)
    ensures Alone(u, Caller(kind, Probing(PortPc(kind), p)), v, Holder(kind, p, Unruling))
    ensures v.range == u.range && v.nextPort < TWO_TO_THE_16 && v.ports == u.ports
  {
    var w := ProbeToCounter(u, kind, p);
    CounterToUnruling(w, kind, p);
    v := w.(ports := w.ports - {p});
    ThenAlone(u, Caller(kind, Probing(PortPc(kind), p)), w, Caller(kind, Counting(PortPc(kind), p)),
              v, Holder(kind, p, Unruling));
  }

  /** From LoadOrStore of a free port to the call. */
  lemma ProbeToRules(u: Shared, kind: Kind, p: nat) returns (v: Shared)
    requires u.range.min < u.range.max <= TWO_TO_THE_16 && u.nextPort < TWO_TO_THE_16 && p !in u.ports
    ensures Alone(u, Caller(kind, Probing(PortPc(kind), p)), v, Holder(kind, p, Running(RuledPc(kind))))
  {
    var w := ProbeToCounter(u, kind, p);
    CounterToRules(w, kind, p);
    v := w.(portsUsed := w.portsUsed + 2, rules := w.rules + {p, Uint16(p + 1)});
    ThenAlone(u, Caller(kind, Probing(PortPc(kind), p)), w, Caller(kind, Counting(PortPc(kind), p)),
              v, Holder(kind, p, Running(RuledPc(kind))));
  }

  /** Dialog t of two moves alone. */
  lemma OneOfTwoMoves(reach: Ua -> bool, s: Ua, t: nat, v: Shared, x: Owner) returns (w: Ua)
    requires Closed(reach, 2) && reach(s) && |s.owners| == 2 && t < 2 && Callers(s) - Calling(s.owners[t]) < 2
    requires Alone(s.shared, s.owners[t], v, x)
    ensures reach(w) && w.shared == v && |w.owners| == 2 && w.owners[t] == x && w.owners[1 - t] == s.owners[1 - t]
    ensures Callers(w) == Callers(s) - Calling(s.owners[t]) + Calling(x)
  {
    AloneIsReachable(reach, 2, s, t, v, x);
    w := Ua(v, s.owners[t := x]);
  }

  /** The first of two dialogs at one port takes it, uses it and frees it, but has yet to delete its rule. */
  lemma FirstFrees(reach: Ua -> bool, r: Range, kind: Kind) returns (s: Ua)
    requires Closed(reach, 2) && Open(reach, kind) && reach(Start(r))
    requires r.min < r.max <= TWO_TO_THE_16 && r.Width() >= 10 && Frees(kind, r.min)
    ensures reach(s) && |s.owners| == 2 && Callers(s) == 1
    ensures s.owners[0] == Holder(kind, r.min, Unruling) && s.owners[1] == Caller(kind, Probing(PortPc(kind), r.min))
    ensures s.shared.range == r && s.shared.nextPort < TWO_TO_THE_16 && s.shared.ports == {}
  {
    s := TwoAtOnePort(reach, r, kind);
    var v := ProbeToUnruling(s.shared, kind, r.min);
    s := OneOfTwoMoves(reach, s, 0, v, Holder(kind, r.min, Unruling));
  }

  /** Now the second one takes the port and creates its rule, which the first one deletes. */
  lemma SecondLoses(reach: Ua -> bool, kind: Kind, s: Ua, p: nat) returns (w: Ua)
    requires Closed(reach, 2) && reach(s) && |s.owners| == 2 && Callers(s) == 1
    requires s.owners[0] == Holder(kind, p, Unruling) && s.owners[1] == Caller(kind, Probing(PortPc(kind), p))
    requires s.shared.range.min < s.shared.range.max <= TWO_TO_THE_16
    requires s.shared.nextPort < TWO_TO_THE_16 && s.shared.ports == {}
    ensures reach(w) && |w.owners| == 2
    ensures w.owners[1] == Holder(kind, p, Running(RuledPc(kind))) && p !in w.shared.rules
  {
    var v := ProbeToRules(s.shared, kind, p);
    w := OneOfTwoMoves(reach, s, 1, v, Holder(kind, p, Running(RuledPc(kind))));
    UnrulingToGone(v, kind, p);
    v := v.(rules := v.rules - {p}, current := v.current - 1);
    w := OneOfTwoMoves(reach, w, 0, v, Holder(kind, p, Gone(true)));
  }

  /** Early reuse really loses a rule, with two dialogs: the second one takes the port between the first one's
      release and its rule deletion, and goes on without a rule afterwards. */
  lemma RuleCanBeLost(r: Range, kind: Kind) returns (s: Ua)
    requires r.min < r.max <= TWO_TO_THE_16 && r.Width() >= 10 && Frees(kind, r.min)
    ensures Reachable(r, 2, s) && AllOf(s, kind) && |s.owners| == 2 && !HasRules(s.shared, s.owners[1])
  {
    var reach := ReachableIsClosed(r, 2, kind);
    s := FirstFrees(reach, r, kind);
    s := SecondLoses(reach, kind, s, r.min);
    assert r.min in s.owners[1].held;
  }

  lemma {:induction false} LiveAtMostAll(s: seq<Owner>, n: nat)
    requires n <= |s|
    ensures Total(Live, s, n) <= n
  {
    if n > 0 {
      LiveAtMostAll(s, n - 1);
    }
  }

  /** The gauge never exceeds the number of dialogs the run has seen. */
  lemma {:induction false} NoMoreThanSeen(s: Ua, steps: seq<Step>, d: nat)
    requires Inv(s) && Run(s, steps).Some? && |Run(s, steps).value.owners| <= d
    ensures AtMostLive(s, steps, d)
  {
    if steps != [] {
      NoMoreThanSeen(s, steps[..|steps| - 1], d);
    }
    RunKeepsInv(s, steps);
    LiveAtMostAll(Run(s, steps).value.owners, |Run(s, steps).value.owners|);
  }

  lemma TwoLiveLoseRules(r: Range, d: nat, kind: Kind)
    requires r.min < r.max <= TWO_TO_THE_16 && r.Width() >= 10 && Frees(kind, r.min) && d >= 2
    ensures !RulesKept(r, d, kind)
  {
    var s := RuleCanBeLost(r, kind);
    var steps :| Run(Start(r), steps) == Some(s) && NeverMoreThan(Start(r), steps, 2);
    StartHasInv(r);
    NoMoreThanSeen(Start(r), steps, d);
  }

  /** Dialogs keep their rules in all runs exactly when they never overlap. */
  lemma RulesKeptIff(r: Range, d: nat, kind: Kind)
    requires r.min < r.max <= TWO_TO_THE_16 && r.Width() >= 10 && Frees(kind, r.min)
    ensures RulesKept(r, d, kind) <==> d <= 1
  {
    if d <= 1 {
      OneLiveKeepsRules(r, d, kind);
    } else {
      TwoLiveLoseRules(r, d, kind);
    }
  }
}
