/** Building runs of the dialogs: each in turn moves alone while the others stand still. */
module LoneDialogs {
  import opened Widths
  import opened Wrappers
  import opened PortAllocator
  import opened Dialogs
  import opened DialogRuns

  /** getPort calls past the guard and not yet counted. */
  function Callers(s: Ua): int
  {
    Total(Calling, s.owners, |s.owners|)
  }

  /** At no point of the run are there more than n callers. */
  predicate NeverMoreThan(s: Ua, steps: seq<Step>, n: nat)
  {
    && (steps != [] ==> NeverMoreThan(s, steps[..|steps| - 1], n))
    && (Run(s, steps).Some? ==> Callers(Run(s, steps).value) <= n)
  }

  ghost predicate Reachable(r: Range, n: nat, s: Ua)
  {
    exists steps :: Run(Start(r), steps) == Some(s) && NeverMoreThan(Start(r), steps, n)
  }

  /** One process has dialogs of one kind only. */
  ghost predicate AllOf(s: Ua, kind: Kind)
  {
    forall t :: 0 <= t < |s.owners| ==> s.owners[t].kind == kind
  }

  /** A set of states that is closed under the turns which leave at most n callers, */
  ghost predicate Closed(reach: Ua -> bool, n: nat)
  {
    forall s, t: nat, c {:trigger Apply(s, Turn(t, c))} ::
      reach(s) && t < |s.owners| && Callers(Apply(s, Turn(t, c))) <= n ==> reach(Apply(s, Turn(t, c)))
  }

  /** and under new dialogs of this kind. */
  ghost predicate Open(reach: Ua -> bool, kind: Kind)
  {
    forall s {:trigger Apply(s, Spawn(kind))} :: reach(s) ==> reach(Apply(s, Spawn(kind)))
  }

  lemma ReachableIsClosed(r: Range, n: nat, kind: Kind) returns (reach: Ua -> bool)
    requires r.min < TWO_TO_THE_16
    ensures Closed(reach, n) && Open(reach, kind) && reach(Start(r))
    ensures forall s :: reach(s) <==> Reachable(r, n, s) && AllOf(s, kind)
  {
    reach := s => Reachable(r, n, s) && AllOf(s, kind);
    assert Run(Start(r), []) == Some(Start(r)) && NeverMoreThan(Start(r), [], n);
    forall s, t: nat, c | reach(s) && t < |s.owners| && Callers(Apply(s, Turn(t, c))) <= n
      ensures reach(Apply(s, Turn(t, c)))
    {
      StepIsReachable(r, n, s, Turn(t, c));
    }
    forall s | reach(s) ensures reach(Apply(s, Spawn(kind))) {
      ReachableHasInv(r, n, s);
      OneMoreOwner(s.shared, s.owners, Apply(s, Spawn(kind)).shared, Apply(s, Spawn(kind)).owners[|s.owners|]);
      StepIsReachable(r, n, s, Spawn(kind));
    }
  }

  lemma StepIsReachable(r: Range, n: nat, s: Ua, step: Step)
    requires Reachable(r, n, s) && Enabled(s, step) && Callers(Apply(s, step)) <= n
    ensures Reachable(r, n, Apply(s, step))
  {
    var steps :| Run(Start(r), steps) == Some(s) && NeverMoreThan(Start(r), steps, n);
    var more := steps + [step];
    assert more[..|more| - 1] == steps;
    assert Run(Start(r), more) == Some(Apply(s, step)) && NeverMoreThan(Start(r), more, n);
  }

  lemma ReachableHasInv(r: Range, n: nat, s: Ua)
    requires r.min < TWO_TO_THE_16 && Reachable(r, n, s)
    ensures Inv(s) && s.shared.range == r && Callers(s) <= n
  {
    var steps :| Run(Start(r), steps) == Some(s) && NeverMoreThan(Start(r), steps, n);
    StartHasInv(r);
    RunKeepsInv(Start(r), steps);
    RunKeepsRange(Start(r), steps);
  }

  // ---------------------------------------------------------------- one dialog moving alone

  /** A dialog's own steps, answered by cs. */
  function Solo(u: Shared, o: Owner, cs: seq<Choice>): (Shared, Owner)
  {
    if cs == [] then (u, o)
    else
      var (v, x) := Solo(u, o, cs[..|cs| - 1]);
      (Effect(v, x, cs[|cs| - 1]), Next(v, x, cs[|cs| - 1]))
  }

  /** Steps of its own take the dialog and the shared state from (u, o) to (v, x). */
  ghost predicate Alone(u: Shared, o: Owner, v: Shared, x: Owner)
  {
    exists cs :: Solo(u, o, cs) == (v, x)
  }

  lemma StandStill(u: Shared, o: Owner)
    ensures Alone(u, o, u, o)
  {
    assert Solo(u, o, []) == (u, o);
  }

  lemma ThenTurn(u: Shared, o: Owner, v: Shared, x: Owner, c: Choice, w: Shared, y: Owner)
    requires Alone(u, o, v, x) && Effect(v, x, c) == w && Next(v, x, c) == y
    ensures Alone(u, o, w, y)
  {
    var cs :| Solo(u, o, cs) == (v, x);
    var more := cs + [c];
    assert more[..|more| - 1] == cs;
    assert Solo(u, o, more) == (w, y);
  }

  lemma {:induction false} ThenAlone(u: Shared, o: Owner, v: Shared, x: Owner, w: Shared, y: Owner)
    requires Alone(u, o, v, x) && Alone(v, x, w, y)
    ensures Alone(u, o, w, y)
  {
    var cs :| Solo(v, x, cs) == (w, y);
    ThenSolo(u, o, v, x, cs);
  }

  lemma {:induction false} ThenSolo(u: Shared, o: Owner, v: Shared, x: Owner, cs: seq<Choice>)
    requires Alone(u, o, v, x)
    ensures Alone(u, o, Solo(v, x, cs).0, Solo(v, x, cs).1)
  {
    if cs != [] {
      var init, last := cs[..|cs| - 1], cs[|cs| - 1];
      ThenSolo(u, o, v, x, init);
      var (w, y) := Solo(v, x, init);
      ThenTurn(u, o, w, y, last, Effect(w, y, last), Next(w, y, last));
    }
  }

  lemma {:induction false} SoloIsReachable(reach: Ua -> bool, n: nat, s: Ua, t: nat, cs: seq<Choice>)
    requires Closed(reach, n) && reach(s) && t < |s.owners| && Callers(s) - Calling(s.owners[t]) < n
    ensures var (v, x) := Solo(s.shared, s.owners[t], cs);
            reach(Ua(v, s.owners[t := x]))
  {
    if cs == [] {
      assert s.owners[t := s.owners[t]] == s.owners;
    } else {
      SoloIsReachable(reach, n, s, t, cs[..|cs| - 1]);
      var (v, x) := Solo(s.shared, s.owners[t], cs[..|cs| - 1]);
      var w := Ua(v, s.owners[t := x]);
      var step := Turn(t, cs[|cs| - 1]);
      var y := Next(v, x, step.c);
      assert w.owners[t := y] == s.owners[t := y];
      TotalUpdate(Calling, s.owners, t, y, |s.owners|);
      assert Apply(w, step) == Ua(Effect(v, x, step.c), s.owners[t := y]);
    }
  }

  /** Dialog t moving alone leads to a reachable state, if there is room for it among the callers. */
  lemma AloneIsReachable(reach: Ua -> bool, n: nat, s: Ua, t: nat, v: Shared, x: Owner)
    requires Closed(reach, n) && reach(s) && t < |s.owners| && Callers(s) - Calling(s.owners[t]) < n
    requires Alone(s.shared, s.owners[t], v, x)
    ensures reach(Ua(v, s.owners[t := x]))
    ensures Callers(Ua(v, s.owners[t := x])) == Callers(s) - Calling(s.owners[t]) + Calling(x)
  {
    var cs :| Solo(s.shared, s.owners[t], cs) == (v, x);
    SoloIsReachable(reach, n, s, t, cs);
    TotalUpdate(Calling, s.owners, t, x, |s.owners|);
  }

  // ---------------------------------------------------------------- a dialog's life

  function FirstPc(kind: Kind): Pc { if kind.Uas? then Trying else CallPort }

  /** Where a plain UAS and a UAC ask for their port. */
  function PortPc(kind: Kind): Pc { if kind.Uas? then AudioPort else CallPort }

  /** Where they stand when their rules have been created. */
  function RuledPc(kind: Kind): Pc { if kind.Uas? then NewMedia else CallInvite }

  function Caller(kind: Kind, phase: Phase): Owner { Owner(kind, [], phase) }

  function Holder(kind: Kind, p: nat, phase: Phase): Owner { Owner(kind, [p], phase) }

  /** A dialog of this kind that is given this port gives it back: Close takes a UAC's port 0 for none. */
  predicate Frees(kind: Kind, p: nat)
  {
    kind.Uas? || p != 0
  }

  predicate HasRoom(u: Shared)
  {
    u.range.Width() - u.portsUsed >= 10
  }

  lemma LocalTurn(u: Shared, o: Owner, c: Choice)
    requires o.phase.Running? && UpdatedRules(o, c) == {}
    ensures Effect(u, o, c) == u
  {
    assert u.rules + {} == u.rules;
  }

  /** A new dialog gets to where it asks for its port. */
  lemma AsksForPort(u: Shared, kind: Kind)
    ensures Alone(u, Caller(kind, Running(FirstPc(kind))), u, Caller(kind, Running(PortPc(kind))))
  {
    var o := Caller(kind, Running(FirstPc(kind)));
    StandStill(u, o);
    if kind.Uas? {
      var a, b, c := Caller(Uas, Running(ContentType)), Caller(Uas, Running(ParseSdp)), Caller(Uas, Running(AudioPort));
      LocalTurn(u, o, Go);
      ThenTurn(u, o, u, o, Go, u, a);
      LocalTurn(u, a, Go);
      ThenTurn(u, o, u, a, Go, u, b);
      LocalTurn(u, b, Go);
      ThenTurn(u, o, u, b, Go, u, c);
    }
  }

  lemma OneMoreOwner(u: Shared, others: seq<Owner>, v: Shared, x: Owner)
    ensures Callers(Ua(v, others + [x])) == Callers(Ua(u, others)) + Calling(x)
  {
    TotalAppend(Calling, others, x, |others|);
  }

  lemma SpawnIsReachable(reach: Ua -> bool, u: Shared, others: seq<Owner>, kind: Kind, v: Shared, x: Owner)
    requires Open(reach, kind) && reach(Ua(u, others))
    requires v == u.(current := u.current + 1) && x == Caller(kind, Running(FirstPc(kind)))
    ensures reach(Ua(v, others + [x])) && Callers(Ua(v, others + [x])) == Callers(Ua(u, others))
  {
    assert Apply(Ua(u, others), Spawn(kind)) == Ua(v, others + [x]);
    OneMoreOwner(u, others, v, x);
  }

  lemma LastOwnerMoves(reach: Ua -> bool, n: nat, u: Shared, others: seq<Owner>, o: Owner, v: Shared, x: Owner)
    requires Closed(reach, n) && reach(Ua(u, others + [o])) && Callers(Ua(u, others + [o])) - Calling(o) < n
    requires Alone(u, o, v, x)
    ensures reach(Ua(v, others + [x]))
    ensures Callers(Ua(v, others + [x])) == Callers(Ua(u, others + [o])) - Calling(o) + Calling(x)
  {
    AloneIsReachable(reach, n, Ua(u, others + [o]), |others|, v, x);
    assert (others + [o])[|others| := x] == others + [x];
  }

  /** A new dialog is spawned and moves alone. */
  lemma NewDialog(reach: Ua -> bool, n: nat, s: Ua, kind: Kind, v: Shared, x: Owner)
    requires Closed(reach, n) && Open(reach, kind) && reach(s) && Callers(s) < n
    requires Alone(s.shared.(current := s.shared.current + 1), Caller(kind, Running(PortPc(kind))), v, x)
    ensures reach(Ua(v, s.owners + [x]))
    ensures Callers(Ua(v, s.owners + [x])) == Callers(s) + Calling(x)
  {
    var u, o := s.shared.(current := s.shared.current + 1), Caller(kind, Running(FirstPc(kind)));
    SpawnIsReachable(reach, s.shared, s.owners, kind, u, o);
    AsksForPort(u, kind);
    ThenAlone(u, o, u, Caller(kind, Running(PortPc(kind))), v, x);
    LastOwnerMoves(reach, n, u, s.owners, o, v, x);
  }

  lemma PassesGuard(u: Shared, kind: Kind)
    requires HasRoom(u)
    ensures Alone(u, Caller(kind, Running(PortPc(kind))), u, Caller(kind, Searching(PortPc(kind))))
  {
    var o := Caller(kind, Running(PortPc(kind)));
    StandStill(u, o);
    LocalTurn(u, o, Go);
    ThenTurn(u, o, u, o, Go, u, Caller(kind, Searching(PortPc(kind))));
  }

  lemma ReadsNext(u: Shared, kind: Kind)
    requires HasRoom(u)
    ensures Alone(u, Caller(kind, Running(PortPc(kind))), u, Caller(kind, Probing(PortPc(kind), u.nextPort)))
  {
    PassesGuard(u, kind);
    ThenTurn(u, Caller(kind, Running(PortPc(kind))), u, Caller(kind, Searching(PortPc(kind))), Go,
             u, Caller(kind, Probing(PortPc(kind), u.nextPort)));
  }

  /** From LoadOrStore of p to the end of the turn. */
  lemma LoneProbe(u: Shared, o: Owner, pc: Pc, p: nat)
    requires u.range.min < u.range.max <= TWO_TO_THE_16 && u.nextPort < TWO_TO_THE_16 && o.phase == Probing(pc, p)
    ensures Alone(u, o, u.(ports := u.ports + {p}, nextPort := u.range.Advance(u.nextPort)),
                  o.(phase := EndTurn(pc, p, p in u.ports)))
  {
    var w := u.(ports := u.ports + {p}, nextPort := Uint16(u.nextPort + 2));
    var x := o.(phase := Probed(pc, p, p in u.ports, CompareNext));
    ProbeToCompare(u, o, pc, p);
    LoneCompare(w, x, pc, p, p in u.ports);
    ThenAlone(u, o, w, x,
              w.(nextPort := if w.nextPort >= Uint16(w.range.max) then Uint16(w.range.min) else w.nextPort),
              x.(phase := EndTurn(pc, p, p in u.ports)));
  }

  lemma ProbeToCompare(u: Shared, o: Owner, pc: Pc, p: nat)
    requires o.phase == Probing(pc, p)
    ensures Alone(u, o, u.(ports := u.ports + {p}, nextPort := Uint16(u.nextPort + 2)),
                  o.(phase := Probed(pc, p, p in u.ports, CompareNext)))
  {
    var q, loaded := u.nextPort, p in u.ports;
    var v := u.(ports := u.ports + {p});
    var probed := (spot: Spot) => o.(phase := Probed(pc, p, loaded, spot));
    StandStill(u, o);
    ThenTurn(u, o, u, o, Go, v, probed(LoadNext));
    ThenTurn(u, o, v, probed(LoadNext), Go, v, probed(StoreNext(q)));
    ThenTurn(u, o, v, probed(StoreNext(q)), Go, v.(nextPort := Uint16(q + 2)), probed(CompareNext));
  }

  /** From the comparison to the end of the turn. */
  lemma LoneCompare(u: Shared, o: Owner, pc: Pc, p: nat, loaded: bool)
    requires o.phase == Probed(pc, p, loaded, CompareNext)
    ensures Alone(u, o, u.(nextPort := if u.nextPort >= Uint16(u.range.max) then Uint16(u.range.min) else u.nextPort),
                  o.(phase := EndTurn(pc, p, loaded)))
  {
    var reset, done := o.(phase := Probed(pc, p, loaded, ResetNext)), o.(phase := EndTurn(pc, p, loaded));
    StandStill(u, o);
    if u.nextPort >= Uint16(u.range.max) {
      ThenTurn(u, o, u, o, Go, u, reset);
      ThenTurn(u, o, u, reset, Go, u.(nextPort := Uint16(u.range.min)), done);
    } else {
      ThenTurn(u, o, u, o, Go, u, done);
    }
  }

  /** A searching dialog that runs alone does what one serialised turn of getPort does: it adds the port to the
      set, moves nextPort on by Advance, and loops or leaves by whether the port was taken. */
  lemma LoneTurnIsTryNext(u: Shared, o: Owner, pc: Pc)
    requires u.range.min < u.range.max <= TWO_TO_THE_16 && u.nextPort < TWO_TO_THE_16 && o.phase == Searching(pc)
    ensures Alone(u, o, u.(ports := u.ports + {u.nextPort}, nextPort := u.range.Advance(u.nextPort)),
                  o.(phase := EndTurn(pc, u.nextPort, u.nextPort in u.ports)))
  {
    var probing := o.(phase := Probing(pc, u.nextPort));
    StandStill(u, o);
    ThenTurn(u, o, u, o, Go, u, probing);
    LoneProbe(u, probing, pc, u.nextPort);
    ThenAlone(u, o, u, probing, u.(ports := u.ports + {u.nextPort}, nextPort := u.range.Advance(u.nextPort)),
              o.(phase := EndTurn(pc, u.nextPort, u.nextPort in u.ports)));
  }

  /** A dialog takes the port nextPort names and gets as far as the counter. */
  lemma ReachesCounter(u: Shared, kind: Kind)
    requires u.range.min < u.range.max <= TWO_TO_THE_16 && u.nextPort < TWO_TO_THE_16
    requires HasRoom(u) && u.nextPort !in u.ports
    ensures Alone(u, Caller(kind, Running(PortPc(kind))),
                  u.(ports := u.ports + {u.nextPort}, nextPort := u.range.Advance(u.nextPort)),
                  Caller(kind, Counting(PortPc(kind), u.nextPort)))
  {
    var o, searching := Caller(kind, Running(PortPc(kind))), Caller(kind, Searching(PortPc(kind)));
    PassesGuard(u, kind);
    LoneTurnIsTryNext(u, searching, PortPc(kind));
    ThenAlone(u, o, u, searching, u.(ports := u.ports + {u.nextPort}, nextPort := u.range.Advance(u.nextPort)),
              Caller(kind, Counting(PortPc(kind), u.nextPort)));
  }

  /** A dialog takes the port nextPort names and stops before its store to nextPort. */
  lemma StopsBeforeStore(u: Shared, kind: Kind)
    requires HasRoom(u) && u.nextPort !in u.ports
    ensures Alone(u, Caller(kind, Running(PortPc(kind))), u.(ports := u.ports + {u.nextPort}),
                  Caller(kind, Probed(PortPc(kind), u.nextPort, false, StoreNext(u.nextPort))))
  {
    var o, p, v := Caller(kind, Running(PortPc(kind))), u.nextPort, u.(ports := u.ports + {u.nextPort});
    var probed := (spot: Spot) => Caller(kind, Probed(PortPc(kind), p, false, spot));
    ReadsNext(u, kind);
    ThenTurn(u, o, u, Caller(kind, Probing(PortPc(kind), p)), Go, v, probed(LoadNext));
    ThenTurn(u, o, v, probed(LoadNext), Go, v, probed(StoreNext(p)));
  }

  /** The port is counted and the rules are about to be created. */
  lemma CounterToUpdate(u: Shared, kind: Kind, p: nat)
    ensures Alone(u, Caller(kind, Counting(PortPc(kind), p)),
                  u.(portsUsed := u.portsUsed + 2), Holder(kind, p, Running(AfterPort(PortPc(kind)))))
  {
    var o := Caller(kind, Counting(PortPc(kind), p));
    assert [] + [p] == [p];
    StandStill(u, o);
    ThenTurn(u, o, u, o, Go, u.(portsUsed := u.portsUsed + 2), Holder(kind, p, Running(AfterPort(PortPc(kind)))));
  }

  lemma UpdateTurn(u: Shared, kind: Kind, p: nat)
    ensures var o := Holder(kind, p, Running(AfterPort(PortPc(kind))));
            && Effect(u, o, Go) == u.(rules := u.rules + {p, Uint16(p + 1)})
            && Next(u, o, Go) == Holder(kind, p, Running(RuledPc(kind)))
  {
  }

  lemma CounterToRules(u: Shared, kind: Kind, p: nat)
    ensures Alone(u, Caller(kind, Counting(PortPc(kind), p)),
                  u.(portsUsed := u.portsUsed + 2, rules := u.rules + {p, Uint16(p + 1)}),
                  Holder(kind, p, Running(RuledPc(kind))))
  {
    var v, x := u.(portsUsed := u.portsUsed + 2), Holder(kind, p, Running(AfterPort(PortPc(kind))));
    CounterToUpdate(u, kind, p);
    UpdateTurn(v, kind, p);
    ThenTurn(u, Caller(kind, Counting(PortPc(kind), p)), v, x, Go,
             v.(rules := v.rules + {p, Uint16(p + 1)}), Holder(kind, p, Running(RuledPc(kind))));
  }

  /** Close, up to the rule deletion, of a dialog that frees its port. */
  lemma ReturnToUnruling(u: Shared, kind: Kind, p: nat)
    requires Frees(kind, p)
    ensures Alone(u, Holder(kind, p, Running(Return)),
                  u.(ports := u.ports - {p}, portsUsed := u.portsUsed - 2), Holder(kind, p, Unruling))
  {
    var o, v := Holder(kind, p, Running(Return)), u.(ports := u.ports - {p});
    StandStill(u, o);
    LocalTurn(u, o, Go);
    ThenTurn(u, o, u, o, Go, u, Holder(kind, p, Deleting([p])));
    ThenTurn(u, o, u, Holder(kind, p, Deleting([p])), Go, v, Holder(kind, p, Uncounting));
    ThenTurn(u, o, v, Holder(kind, p, Uncounting), Go,
             v.(portsUsed := u.portsUsed - 2), Holder(kind, p, Unruling));
  }

  lemma UnrulingToGone(u: Shared, kind: Kind, p: nat)
    ensures Alone(u, Holder(kind, p, Unruling),
                  u.(rules := u.rules - {p}, current := u.current - 1), Holder(kind, p, Gone(true)))
  {
    var o, v := Holder(kind, p, Unruling), u.(rules := u.rules - {p});
    assert (set q | q in [p]) == {p};
    StandStill(u, o);
    ThenTurn(u, o, u, o, Go, v, Holder(kind, p, Leaving(true)));
    ThenTurn(u, o, v, Holder(kind, p, Leaving(true)), Go,
             v.(current := u.current - 1), Holder(kind, p, Gone(true)));
  }

  /** The rest of a short life: the port is counted, the rules are refused, and Close gives the port back. */
  lemma CounterToGone(u: Shared, kind: Kind, p: nat)
    requires Frees(kind, p)
    ensures Alone(u, Caller(kind, Counting(PortPc(kind), p)),
                  u.(ports := u.ports - {p}, rules := u.rules - {p}, current := u.current - 1),
                  Holder(kind, p, Gone(true)))
  {
    var w := u.(ports := u.ports - {p});
    CounterToUnruling(u, kind, p);
    UnrulingToGone(w, kind, p);
    ThenAlone(u, Caller(kind, Counting(PortPc(kind), p)), w, Holder(kind, p, Unruling),
              w.(rules := w.rules - {p}, current := w.current - 1), Holder(kind, p, Gone(true)));
  }

  lemma CounterToUnruling(u: Shared, kind: Kind, p: nat)
    requires Frees(kind, p)
    ensures Alone(u, Caller(kind, Counting(PortPc(kind), p)), u.(ports := u.ports - {p}), Holder(kind, p, Unruling))
  {
    var v := u.(portsUsed := u.portsUsed + 2);
    CounterToReturn(u, kind, p);
    ReturnToUnruling(v, kind, p);
    ThenAlone(u, Caller(kind, Counting(PortPc(kind), p)), v, Holder(kind, p, Running(Return)),
              v.(ports := v.ports - {p}, portsUsed := v.portsUsed - 2), Holder(kind, p, Unruling));
  }

  lemma CounterToReturn(u: Shared, kind: Kind, p: nat)
    ensures Alone(u, Caller(kind, Counting(PortPc(kind), p)),
                  u.(portsUsed := u.portsUsed + 2), Holder(kind, p, Running(Return)))
  {
    var o, v := Caller(kind, Counting(PortPc(kind), p)), u.(portsUsed := u.portsUsed + 2);
    var x := Holder(kind, p, Running(AfterPort(PortPc(kind))));
    CounterToUpdate(u, kind, p);
    LocalTurn(v, x, Stop);
    ThenTurn(u, o, v, x, Stop, v, Holder(kind, p, Running(Return)));
  }

  lemma RuledStops(u: Shared, kind: Kind, p: nat)
    ensures var o := Holder(kind, p, Running(RuledPc(kind)));
            Effect(u, o, Stop) == u && Next(u, o, Stop) == Holder(kind, p, Running(Return))
  {
    LocalTurn(u, Holder(kind, p, Running(RuledPc(kind))), Stop);
  }

  lemma RulesToReturn(u: Shared, kind: Kind, p: nat)
    ensures Alone(u, Caller(kind, Counting(PortPc(kind), p)),
                  u.(portsUsed := u.portsUsed + 2, rules := u.rules + {p, Uint16(p + 1)}),
                  Holder(kind, p, Running(Return)))
  {
    var v := u.(portsUsed := u.portsUsed + 2, rules := u.rules + {p, Uint16(p + 1)});
    var x := Holder(kind, p, Running(RuledPc(kind)));
    CounterToRules(u, kind, p);
    RuledStops(v, kind, p);
    ThenTurn(u, Caller(kind, Counting(PortPc(kind), p)), v, x, Stop, v, Holder(kind, p, Running(Return)));
  }

  /** A UAC that was given port 0, from the counter to its end: its rules are created, and Close takes the port for
      none and keeps port and rules. */
  lemma CounterToLeak(u: Shared)
    ensures Alone(u, Caller(Uac, Counting(CallPort, 0)),
                  u.(portsUsed := u.portsUsed + 2, rules := u.rules + {0, 1}, current := u.current - 1),
                  Holder(Uac, 0, Gone(false)))
  {
    var o, v := Caller(Uac, Counting(CallPort, 0)), u.(portsUsed := u.portsUsed + 2, rules := u.rules + {0, 1});
    RulesToReturn(u, Uac, 0);
    LocalTurn(v, Holder(Uac, 0, Running(Return)), Go);
    ThenTurn(u, o, v, Holder(Uac, 0, Running(Return)), Go, v, Holder(Uac, 0, Leaving(false)));
    ThenTurn(u, o, v, Holder(Uac, 0, Leaving(false)), Go, v.(current := u.current - 1), Holder(Uac, 0, Gone(false)));
  }

  /** A dialog that frees its port, from the counter to its end with its rules created. */
  lemma CounterToRuledGone(u: Shared, kind: Kind, p: nat)
    requires Frees(kind, p)
    ensures Alone(u, Caller(kind, Counting(PortPc(kind), p)),
                  u.(ports := u.ports - {p}, rules := u.rules + {p, Uint16(p + 1)} - {p}, current := u.current - 1),
                  Holder(kind, p, Gone(true)))
  {
    var w := u.(ports := u.ports - {p}, rules := u.rules + {p, Uint16(p + 1)});
    RulesToUnruling(u, kind, p);
    UnrulingToGone(w, kind, p);
    ThenAlone(u, Caller(kind, Counting(PortPc(kind), p)), w, Holder(kind, p, Unruling),
              w.(rules := w.rules - {p}, current := w.current - 1), Holder(kind, p, Gone(true)));
  }

  lemma RulesToUnruling(u: Shared, kind: Kind, p: nat)
    requires Frees(kind, p)
    ensures Alone(u, Caller(kind, Counting(PortPc(kind), p)),
                  u.(ports := u.ports - {p}, rules := u.rules + {p, Uint16(p + 1)}), Holder(kind, p, Unruling))
  {
    var v := u.(portsUsed := u.portsUsed + 2, rules := u.rules + {p, Uint16(p + 1)});
    RulesToReturn(u, kind, p);
    ReturnToUnruling(v, kind, p);
    ThenAlone(u, Caller(kind, Counting(PortPc(kind), p)), v, Holder(kind, p, Running(Return)),
              v.(ports := v.ports - {p}, portsUsed := v.portsUsed - 2), Holder(kind, p, Unruling));
  }
}
