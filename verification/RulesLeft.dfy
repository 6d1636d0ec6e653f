/** What the rule map holds when all dialogs have closed. */
module RulesLeft {
  import opened Widths
  import opened Wrappers
  import opened PortAllocator
  import opened Dialogs
  import opened DialogRuns
  import opened LoneDialogs
  import opened PortRange
  import opened DialogRules

  /** Some RTCP rule is there: one of the other parity than RtpPortMin. */
  ghost predicate HasRtcpRule(s: Ua)
  {
    exists p :: p in s.shared.rules && p % 2 != s.shared.range.min % 2
  }

  ghost predicate HasRtpRule(s: Ua)
  {
    exists p :: p in s.shared.rules && p % 2 == s.shared.range.min % 2
  }

  /** The Update of a plain dialog, for its RTP and RTCP port, succeeds. */
  predicate PlainUpdate(o: Owner, c: Choice)
  {
    c.Go? && (o.phase == Running(UpdateRule) || o.phase == Running(CallUpdate))
  }

  /** At some step of the run an Update of a plain dialog succeeds. */
  predicate Updated(s: Ua, steps: seq<Step>)
  {
    steps != [] &&
    var init, last := steps[..|steps| - 1], steps[|steps| - 1];
    || Updated(s, init)
    || (Run(s, init).Some? && Enabled(Run(s, init).value, last) && last.Turn?
        && PlainUpdate(Run(s, init).value.owners[last.t], last.c))
  }

  // ---------------------------------------------------------------- RTCP rules

  /** A plain dialog has a port when it updates. */
  predicate HasPort(o: Owner)
  {
    o.phase == Running(UpdateRule) || o.phase == Running(CallUpdate) ==> o.held != []
  }

  ghost predicate AllHavePorts(s: Ua)
  {
    forall t :: 0 <= t < |s.owners| ==> HasPort(s.owners[t])
  }

  lemma KeepsPort(u: Shared, o: Owner, c: Choice)
    requires HasPort(o) && ControlOk(o)
    ensures HasPort(Next(u, o, c))
  {
  }

  lemma OtherParity(p: nat)
    ensures Uint16(p + 1) % 2 != p % 2
  {
  }

  lemma UpdateAddsRtcp(u: Shared, o: Owner, c: Choice)
    requires HasPort(o) && HeldOk(u.range, o) && PlainUpdate(o, c)
    ensures exists p :: p in Effect(u, o, c).rules && p % 2 != u.range.min % 2
  {
    OtherParity(o.held[0]);
    assert o.held[0] in o.held;
    assert Uint16(o.held[0] + 1) in Effect(u, o, c).rules;
  }

  lemma OnlyUpdateAddsRtcp(u: Shared, o: Owner, c: Choice, p: nat)
    requires HeldOk(u.range, o) && p in Effect(u, o, c).rules && p !in u.rules && p % 2 != u.range.min % 2
    ensures PlainUpdate(o, c)
  {
  }

  lemma StepRtcp(s: Ua, step: Step)
    requires Inv(s) && RulesHaveOwners(s) && AllHavePorts(s) && Enabled(s, step)
    ensures AllHavePorts(Apply(s, step))
    ensures HasRtcpRule(Apply(s, step))
       <==> HasRtcpRule(s) || (step.Turn? && PlainUpdate(s.owners[step.t], step.c))
  {
    var v := Apply(s, step);
    if step.Turn? {
      var o := s.owners[step.t];
      KeepsPort(s.shared, o, step.c);
      if HasRtcpRule(s) {
        var p :| p in s.shared.rules && p % 2 != s.shared.range.min % 2;
        RtcpRuleSurvives(s.shared, o, step.c, p);
        assert p in v.shared.rules;
      } else if PlainUpdate(o, step.c) {
        UpdateAddsRtcp(s.shared, o, step.c);
      } else if HasRtcpRule(v) {
        var p :| p in v.shared.rules && p % 2 != s.shared.range.min % 2;
        OnlyUpdateAddsRtcp(s.shared, o, step.c, p);
      }
    }
  }

  lemma {:induction false} RunRtcp(r: Range, steps: seq<Step>)
    requires r.min < TWO_TO_THE_16 && Run(Start(r), steps).Some?
    ensures AllHavePorts(Run(Start(r), steps).value)
    ensures HasRtcpRule(Run(Start(r), steps).value) <==> Updated(Start(r), steps)
  {
    if steps != [] {
      var init := steps[..|steps| - 1];
      StartHasInv(r);
      RunKeepsInv(Start(r), init);
      RunKeepsRuleOwners(Start(r), init);
      RunRtcp(r, init);
      StepRtcp(Run(Start(r), init).value, steps[|steps| - 1]);
    }
  }

  /** A finished run leaves an RTCP rule exactly when an Update of a plain dialog has succeeded; so does any run. */
  lemma RtcpRuleIffUpdated(r: Range, steps: seq<Step>)
    requires r.min < TWO_TO_THE_16 && Run(Start(r), steps).Some?
    ensures HasRtcpRule(Run(Start(r), steps).value) <==> Updated(Start(r), steps)
  {
    RunRtcp(r, steps);
  }

  /** A whole life of one dialog, up to the end. */
  lemma OneLife(u: Shared, kind: Kind) returns (v: Shared, x: Owner)
    requires u.range.min < u.range.max <= TWO_TO_THE_16 && u.nextPort < TWO_TO_THE_16
    requires HasRoom(u) && u.nextPort !in u.ports
    ensures Alone(u, Caller(kind, Running(PortPc(kind))), v, x) && x.phase.Gone? && x.kind == kind
    ensures v.range == u.range && Uint16(u.nextPort + 1) in v.rules
  {
    var p := u.nextPort;
    var w := u.(ports := u.ports + {p}, nextPort := u.range.Advance(p));
    ReachesCounter(u, kind);
    if Frees(kind, p) {
      CounterToRuledGone(w, kind, p);
      v := w.(ports := w.ports - {p}, rules := w.rules + {p, Uint16(p + 1)} - {p}, current := w.current - 1);
      x := Holder(kind, p, Gone(true));
    } else {
      CounterToLeak(w);
      v := w.(portsUsed := w.portsUsed + 2, rules := w.rules + {0, 1}, current := w.current - 1);
      x := Holder(Uac, 0, Gone(false));
    }
    ThenAlone(u, Caller(kind, Running(PortPc(kind))), w, Caller(kind, Counting(PortPc(kind), p)), v, x);
  }

  /** For every range and kind there is a finished run that leaves one. */
  lemma RtcpRuleIsLeft(r: Range, kind: Kind) returns (s: Ua)
    requires r.min < r.max <= TWO_TO_THE_16 && r.Width() >= 10
    ensures Reachable(r, 1, s) && AllOf(s, kind) && AllGone(s) && HasRtcpRule(s)
  {
    var reach := ReachableIsClosed(r, 1, kind);
    var v, x := OneLife(Start(r).shared.(current := 1), kind);
    NewDialog(reach, 1, Start(r), kind, v, x);
    s := Ua(v, [] + [x]);
    LoneEnd(s, x, r.min);
  }

  lemma LoneEnd(s: Ua, x: Owner, p: nat)
    requires s.owners == [] + [x] && x.phase.Gone? && s.shared.range.min == p && Uint16(p + 1) in s.shared.rules
    ensures AllGone(s) && HasRtcpRule(s)
  {
    OtherParity(p);
  }

  // ---------------------------------------------------------------- RTP rules

  /** At some step of the run an Update succeeds whose dialog holds port 0. */
  predicate UpdatedZero(s: Ua, steps: seq<Step>)
  {
    steps != [] &&
    var init, last := steps[..|steps| - 1], steps[|steps| - 1];
    || UpdatedZero(s, init)
    || (Run(s, init).Some? && Enabled(Run(s, init).value, last) && last.Turn?
        && PlainUpdate(Run(s, init).value.owners[last.t], last.c) && Run(s, init).value.owners[last.t].held == [0])
  }

  /** A UAC's step creates the rule of port 0 exactly by such an update, and deletes it never. */
  lemma UacAndZeroRule(u: Shared, o: Owner, c: Choice)
    requires o.kind.Uac? && ControlOk(o) && HasPort(o) && HeldOk(u.range, o) && u.range.min % 2 == 0
    ensures 0 in Effect(u, o, c).rules <==> 0 in u.rules || (PlainUpdate(o, c) && o.held == [0])
  {
    if o.held != [] {
      assert o.held[0] in o.held && o.held == [o.held[0]];
      OtherParity(o.held[0]);
    }
  }

  lemma {:induction false} RunZeroRule(r: Range, steps: seq<Step>)
    requires r.min < TWO_TO_THE_16 && r.min % 2 == 0 && Run(Start(r), steps).Some?
    requires AllOf(Run(Start(r), steps).value, Uac)
    ensures 0 in Run(Start(r), steps).value.shared.rules <==> UpdatedZero(Start(r), steps)
  {
    if steps != [] {
      var init, last := steps[..|steps| - 1], steps[|steps| - 1];
      var s := Run(Start(r), init).value;
      KindsStay(s, last, Uac);
      StartHasInv(r);
      RunKeepsInv(Start(r), init);
      RunKeepsRange(Start(r), init);
      RunKeepsRuleOwners(Start(r), init);
      RunRtcp(r, init);
      RunZeroRule(r, init);
      if last.Turn? {
        UacAndZeroRule(s.shared, s.owners[last.t], last.c);
      }
    }
  }

  lemma KindsStay(s: Ua, step: Step, kind: Kind)
    requires Enabled(s, step) && AllOf(Apply(s, step), kind)
    ensures AllOf(s, kind)
  {
    forall t | 0 <= t < |s.owners| ensures s.owners[t].kind == kind {
      assert Apply(s, step).owners[t].kind == kind;
    }
  }

  /** A finished run of UACs leaves an RTP rule exactly when the lower bound is even and a UAC with port 0 has
      updated. */
  lemma RtpRuleIffZeroUpdated(r: Range, steps: seq<Step>)
    requires r.min < TWO_TO_THE_16 && Run(Start(r), steps).Some?
    requires var s := Run(Start(r), steps).value; AllOf(s, Uac) && AllGone(s)
    ensures HasRtpRule(Run(Start(r), steps).value) <==> r.min % 2 == 0 && UpdatedZero(Start(r), steps)
  {
    NoRtpRuleRemains(r, steps);
    RunKeepsRange(Start(r), steps);
    if r.min % 2 == 0 {
      RunZeroRule(r, steps);
    }
  }

  lemma LeftRuleIsLeakedPort(r: Range, n: nat, s: Ua)
    requires r.min < TWO_TO_THE_16 && Reachable(r, n, s) && AllGone(s) && HasRtpRule(s)
    ensures r.min % 2 == 0 && 0 in s.shared.ports && exists t :: 0 <= t < |s.owners| && s.owners[t].kind.Uac?
  {
    var steps :| Run(Start(r), steps) == Some(s) && NeverMoreThan(Start(r), steps, n);
    StartHasInv(r);
    RunKeepsInv(Start(r), steps);
    RunKeepsRuleOwners(Start(r), steps);
    RunKeepsRange(Start(r), steps);
    var p :| p in s.shared.rules && p % 2 == s.shared.range.min % 2;
    assert HasOwner(s, p);
    var t :| 0 <= t < |s.owners| && StandsFor(s.owners[t], p);
    LeftoverIsZero(s.owners[t], p);
    GoneKeepsReserved(s, t, p);
  }

  /** In all finished runs of one kind of dialog with at most n callers of getPort at a time no RTP rule is left. */
  ghost predicate EndsUnruled(r: Range, n: nat, kind: Kind)
  {
    forall s :: Reachable(r, n, s) && AllOf(s, kind) && AllGone(s) ==> !HasRtpRule(s)
  }

  /** Exactly where all ports are given back no RTP rule is left. */
  lemma EndsUnruledIff(r: Range, n: nat, kind: Kind)
    requires Ordinary(r) && n > 0
    ensures EndsUnruled(r, n, kind) <==> kind.Uas? || r.min % 2 == 1 || (0 < r.min && n <= 1)
  {
    if kind.Uas? || r.min % 2 == 1 || (0 < r.min && n <= 1) {
      EndsEmptyIff(r, n, kind);
      forall s | Reachable(r, n, s) && AllOf(s, kind) && AllGone(s) ensures !HasRtpRule(s) {
        if HasRtpRule(s) {
          LeftRuleIsLeakedPort(r, n, s);
        }
      }
    } else {
      var s := PortZeroLeaks(r, n);
      ReachableHasInv(r, n, s);
      assert 0 in s.shared.rules;
    }
  }
}
