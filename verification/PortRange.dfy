/** When the reserved ports stay in the configured range, and when a run that has ended has given them all back:
    the uint16 counter nextPort of ua.go is loaded, stored, compared and reset in separate steps. */
module PortRange {
  import opened Widths
  import opened Wrappers
  import opened PortAllocator
  import opened Dialogs
  import opened DialogRuns
  import opened LoneDialogs

  /** In a process with dialogs of one kind and at most n callers of getPort at a time, every reserved port is a slot
      of the range. */
  ghost predicate RangeKept(r: Range, n: nat, kind: Kind)
  {
    forall s :: Reachable(r, n, s) && AllOf(s, kind) ==> AllSlots(s.shared)
  }

  ghost predicate AllSlots(u: Shared)
  {
    forall p :: p in u.ports ==> u.range.IsSlot(p)
  }

  // ---------------------------------------------------------------- one caller keeps the range

  /** What a lone caller knows of nextPort. */
  predicate TurnOk(u: Shared, o: Owner)
  {
    match o.phase
    case Searching(_) => u.range.IsSlot(u.nextPort)
    case Probing(_, p) => u.range.IsSlot(p) && u.range.IsSlot(u.nextPort)
    case Probed(_, _, _, spot) => (
      match spot
      case LoadNext => u.range.IsSlot(u.nextPort)
      case StoreNext(v) => u.range.IsSlot(v)
      case CompareNext => 2 <= u.nextPort && u.range.IsSlot(u.nextPort - 2)
      case ResetNext => true)
    case Counting(_, _) => u.range.IsSlot(u.nextPort)
    case _ => true
  }

  ghost predicate RangeInv(s: Ua)
  {
    && AllSlots(s.shared)
    && (Callers(s) == 0 ==> s.shared.range.IsSlot(s.shared.nextPort))
    && forall t :: 0 <= t < |s.owners| ==> TurnOk(s.shared, s.owners[t])
  }

  /** A turn of the only caller, or one that makes it the only caller. */
  lemma OwnTurnKeepsRange(u: Shared, o: Owner, c: Choice)
    requires Ordinary(u.range) && AllSlots(u) && TurnOk(u, o) && ControlOk(o)
    requires !InGetPort(o) ==> u.range.IsSlot(u.nextPort)
    ensures AllSlots(Effect(u, o, c)) && TurnOk(Effect(u, o, c), Next(u, o, c))
    ensures !InGetPort(Next(u, o, c)) ==> u.range.IsSlot(Effect(u, o, c).nextPort)
    ensures Effect(u, o, c).range == u.range
  {
  }

  /** A turn outside getPort moves no port in and leaves nextPort alone. */
  lemma OutsideTurnKeepsRange(u: Shared, o: Owner, c: Choice)
    requires AllSlots(u) && !InGetPort(o) && !InGetPort(Next(u, o, c))
    ensures AllSlots(Effect(u, o, c)) && TurnOk(Effect(u, o, c), Next(u, o, c))
    ensures Effect(u, o, c).nextPort == u.nextPort && Effect(u, o, c).range == u.range
  {
  }

  /** While a dialog is in getPort, no other one is. */
  lemma OthersAreOutside(s: Ua, t: nat)
    requires Callers(s) <= 1 && t < |s.owners| && InGetPort(s.owners[t])
    ensures forall k :: 0 <= k < |s.owners| && k != t ==> !InGetPort(s.owners[k])
  {
    forall k | 0 <= k < |s.owners| && k != t ensures !InGetPort(s.owners[k]) {
      TotalHasTwoParts(Calling, s.owners, t, k, |s.owners|);
    }
  }

  lemma NobodyInside(s: Ua, t: nat)
    requires t < |s.owners|
    ensures Callers(s) >= Calling(s.owners[t])
  {
    TotalHasPart(Calling, s.owners, t, |s.owners|);
  }

  lemma InsideTurnKeepsRange(s: Ua, t: nat, c: Choice)
    requires Inv(s) && RangeInv(s) && t < |s.owners| && Ordinary(s.shared.range)
    requires Callers(s) <= 1 && Callers(Apply(s, Turn(t, c))) <= 1
    requires InGetPort(s.owners[t]) || InGetPort(Apply(s, Turn(t, c)).owners[t])
    ensures RangeInv(Apply(s, Turn(t, c)))
  {
    var v := Apply(s, Turn(t, c));
    TotalUpdate(Calling, s.owners, t, v.owners[t], |s.owners|);
    NobodyInside(s, t);
    NobodyInside(v, t);
    OwnTurnKeepsRange(s.shared, s.owners[t], c);
    if InGetPort(s.owners[t]) {
      OthersAreOutside(s, t);
    } else {
      OthersAreOutside(v, t);
    }
  }

  lemma StepKeepsRange(s: Ua, step: Step)
    requires Inv(s) && RangeInv(s) && Enabled(s, step) && Ordinary(s.shared.range)
    requires Callers(s) <= 1 && Callers(Apply(s, step)) <= 1
    ensures RangeInv(Apply(s, step))
  {
    var v := Apply(s, step);
    if step.Spawn? {
      OneMoreOwner(s.shared, s.owners, v.shared, v.owners[|s.owners|]);
    } else if InGetPort(s.owners[step.t]) || InGetPort(v.owners[step.t]) {
      InsideTurnKeepsRange(s, step.t, step.c);
    } else {
      OutsideTurnKeepsRange(s.shared, s.owners[step.t], step.c);
      TotalUpdate(Calling, s.owners, step.t, v.owners[step.t], |s.owners|);
    }
  }

  lemma {:induction false} RunKeepsSlots(s: Ua, steps: seq<Step>)
    requires Inv(s) && RangeInv(s) && Ordinary(s.shared.range) && NeverMoreThan(s, steps, 1)
    ensures Run(s, steps).Some? ==> RangeInv(Run(s, steps).value)
  {
    if steps != [] && Run(s, steps).Some? {
      var init := steps[..|steps| - 1];
      RunKeepsInv(s, init);
      RunKeepsRange(s, init);
      RunKeepsSlots(s, init);
      StepKeepsRange(Run(s, init).value, steps[|steps| - 1]);
    }
  }

  lemma {:induction false} FewerCallers(s: Ua, steps: seq<Step>, m: nat, n: nat)
    requires m <= n && NeverMoreThan(s, steps, m)
    ensures NeverMoreThan(s, steps, n)
  {
    if steps != [] {
      FewerCallers(s, steps[..|steps| - 1], m, n);
    }
  }

  lemma OneCallerKeepsRange(r: Range, n: nat)
    requires Ordinary(r) && n <= 1
    ensures forall s :: Reachable(r, n, s) ==> AllSlots(s.shared)
  {
    forall s | Reachable(r, n, s) ensures AllSlots(s.shared) {
      var steps :| Run(Start(r), steps) == Some(s) && NeverMoreThan(Start(r), steps, n);
      StartHasInv(r);
      FewerCallers(Start(r), steps, n, 1);
      RunKeepsSlots(Start(r), steps);
    }
  }

  // ---------------------------------------------------------------- two callers leave it

  /** A caller with port x in hand before its store to nextPort, and before the comparison. */
  function Storing(kind: Kind, x: nat): Owner
  {
    Caller(kind, Probed(PortPc(kind), x, false, StoreNext(x)))
  }

  function Comparing(kind: Kind, x: nat): Owner
  {
    Caller(kind, Probed(PortPc(kind), x, false, CompareNext))
  }

  /** One caller alone, with port x in hand and its store to nextPort still to come; everyone else is gone. */
  ghost predicate Lagging(s: Ua, r: Range, kind: Kind, x: nat)
  {
    && s.shared.range == r && s.shared.ports == {x} && s.shared.portsUsed == 0 && Callers(s) == 1
    && s.shared.current == 1 && s.owners != [] && s.owners[|s.owners| - 1] == Storing(kind, x)
  }

  /** A new dialog takes the port nextPort names and stops before its store. */
  lemma NextTakes(reach: Ua -> bool, n: nat, kind: Kind, s: Ua) returns (w: Ua)
    requires Closed(reach, n) && Open(reach, kind) && reach(s) && Callers(s) < n
    requires HasRoom(s.shared) && s.shared.nextPort !in s.shared.ports
    ensures reach(w) && Callers(w) == Callers(s) + 1
    ensures |w.owners| == |s.owners| + 1 && w.owners[|s.owners|] == Storing(kind, s.shared.nextPort)
    ensures s.owners != [] ==> w.owners[|s.owners| - 1] == s.owners[|s.owners| - 1]
    ensures w.shared == s.shared.(current := s.shared.current + 1, ports := s.shared.ports + {s.shared.nextPort})
  {
    var u, x := s.shared.(current := s.shared.current + 1), Storing(kind, s.shared.nextPort);
    StopsBeforeStore(u, kind);
    NewDialog(reach, n, s, kind, u.(ports := u.ports + {u.nextPort}), x);
    w := Ua(u.(ports := u.ports + {u.nextPort}), s.owners + [x]);
  }

  lemma FirstLags(reach: Ua -> bool, r: Range, n: nat, kind: Kind) returns (s: Ua)
    requires Closed(reach, n) && Open(reach, kind) && reach(Start(r)) && Ordinary(r) && n >= 1
    ensures reach(s) && Lagging(s, r, kind, r.min)
  {
    s := NextTakes(reach, n, kind, Start(r));
    assert {} + {r.min} == {r.min};
  }

  /** The lagging caller stores and stands at the comparison. */
  lemma LaggardStores(reach: Ua -> bool, r: Range, n: nat, kind: Kind, s: Ua, x: nat, next: nat) returns (w: Ua)
    requires n >= 1 && Closed(reach, n) && reach(s) && Lagging(s, r, kind, x) && next == Uint16(x + 2)
    ensures reach(w) && Callers(w) == 1
    ensures w.shared == s.shared.(nextPort := next)
    ensures |w.owners| == |s.owners| && w.owners[|s.owners| - 1] == Comparing(kind, x)
  {
    var t, u := |s.owners| - 1, s.shared.(nextPort := next);
    StandStill(s.shared, s.owners[t]);
    ThenTurn(s.shared, s.owners[t], s.shared, s.owners[t], Go, u, Comparing(kind, x));
    AloneIsReachable(reach, n, s, t, u, Comparing(kind, x));
    w := Ua(u, s.owners[t := Comparing(kind, x)]);
  }

  /** The rest of a lagging caller's life. */
  lemma CompareToGone(u: Shared, kind: Kind, x: nat) returns (v: Shared)
    requires Frees(kind, x)
    ensures Alone(u, Comparing(kind, x), v, Holder(kind, x, Gone(true)))
    ensures v.ports == u.ports - {x} && v.range == u.range && v.portsUsed == u.portsUsed && v.current == u.current - 1
    ensures v.rules == u.rules - {x}
  {
    var w := u.(nextPort := if u.nextPort >= Uint16(u.range.max) then Uint16(u.range.min) else u.nextPort);
    LoneCompare(u, Comparing(kind, x), PortPc(kind), x, false);
    CounterToGone(w, kind, x);
    v := w.(ports := w.ports - {x}, rules := w.rules - {x}, current := w.current - 1);
    ThenAlone(u, Comparing(kind, x), w, Caller(kind, Counting(PortPc(kind), x)), v, Holder(kind, x, Gone(true)));
  }

  /** A lagging caller moves from the comparison to the end. */
  lemma LaggardLeaves(reach: Ua -> bool, n: nat, kind: Kind, s: Ua, t: nat, x: nat) returns (w: Ua)
    requires Closed(reach, n) && reach(s) && Callers(s) <= n
    requires t < |s.owners| && s.owners[t] == Comparing(kind, x) && Frees(kind, x)
    ensures reach(w) && Callers(w) == Callers(s) - 1 && w.shared.ports == s.shared.ports - {x}
    ensures |w.owners| == |s.owners| && (t < |s.owners| - 1 ==> w.owners[|s.owners| - 1] == s.owners[|s.owners| - 1])
    ensures w.shared.range == s.shared.range && w.shared.portsUsed == s.shared.portsUsed
    ensures w.shared.current == s.shared.current - 1 && w.shared.rules == s.shared.rules - {x}
  {
    var v := CompareToGone(s.shared, kind, x);
    AloneIsReachable(reach, n, s, t, v, Holder(kind, x, Gone(true)));
    w := Ua(v, s.owners[t := Holder(kind, x, Gone(true))]);
  }

  /** The next dialog reads nextPort behind the comparison, takes that port and lags in turn, while the first one
      finishes: with the range or past its end, the port in hand goes up by 2. */
  lemma ClimbOnce(reach: Ua -> bool, r: Range, n: nat, kind: Kind, s: Ua, x: nat) returns (w: Ua)
    requires Ordinary(r) && n >= 2 && Closed(reach, n) && Open(reach, kind) && reach(s)
    requires Lagging(s, r, kind, x) && Frees(kind, x) && x + 2 < TWO_TO_THE_16
    ensures reach(w) && Lagging(w, r, kind, x + 2)
  {
    var a := LaggardStores(reach, r, n, kind, s, x, x + 2);
    var b := NextTakes(reach, n, kind, a);
    w := LaggardLeaves(reach, n, kind, b, |s.owners| - 1, x);
    OnlyNewPort(x);
  }

  lemma OnlyNewPort(x: nat)
    ensures {x} + {x + 2} - {x} == {x + 2}
  {
  }

  lemma {:induction false} Climb(reach: Ua -> bool, r: Range, n: nat, kind: Kind, j: nat) returns (s: Ua)
    requires Closed(reach, n) && Open(reach, kind) && reach(Start(r)) && Ordinary(r) && n >= 2
    requires Frees(kind, r.min) && r.Slot(j) < TWO_TO_THE_16
    ensures reach(s) && Lagging(s, r, kind, r.Slot(j))
  {
    if j == 0 {
      s := FirstLags(reach, r, n, kind);
    } else {
      s := Climb(reach, r, n, kind, j - 1);
      s := ClimbOnce(reach, r, n, kind, s, r.Slot(j - 1));
    }
  }

  /** Two unsynchronised callers are enough to reserve a port at or above RtpPortMax: one reads nextPort between the
      other's store and its comparison. */
  lemma RaceLeavesRange(r: Range, n: nat, kind: Kind) returns (s: Ua, p: nat)
    requires Ordinary(r) && Frees(kind, r.min) && n >= 2
    ensures Reachable(r, n, s) && AllOf(s, kind) && s.shared.range == r && p in s.shared.ports && p >= r.max
  {
    var reach := ReachableIsClosed(r, n, kind);
    p := r.Slot(r.Slots());
    s := Climb(reach, r, n, kind, r.Slots());
  }

  /** Reserved ports stay in the range exactly when calls of getPort never overlap. */
  lemma RangeKeptIff(r: Range, n: nat, kind: Kind)
    requires Ordinary(r) && Frees(kind, r.min)
    ensures RangeKept(r, n, kind) <==> n <= 1
  {
    if n <= 1 {
      OneCallerKeepsRange(r, n);
    } else {
      var s, p := RaceLeavesRange(r, n, kind);
      assert !s.shared.range.IsSlot(p);
    }
  }

  // ---------------------------------------------------------------- when all ports have been given back

  /** When every dialog of a process with dialogs of one kind has closed, with at most n callers of getPort at a time
      until then, nothing is reserved and nothing counted. */
  ghost predicate EndsEmpty(r: Range, n: nat, kind: Kind)
  {
    forall s :: Reachable(r, n, s) && AllOf(s, kind) && AllGone(s) ==> s.shared.ports == {} && s.shared.portsUsed == 0
  }

  lemma OnlyZeroIsKept(r: Range, n: nat, s: Ua)
    requires r.min < TWO_TO_THE_16 && Reachable(r, n, s) && AllGone(s)
    ensures s.shared.ports <= {0} && s.shared.portsUsed == 2 * |s.shared.ports| && s.shared.range == r
    ensures r.min % 2 == 1 || AllOf(s, Uas) ==> s.shared.ports == {}
  {
    var steps :| Run(Start(r), steps) == Some(s) && NeverMoreThan(Start(r), steps, n);
    QuietAtTheEnd(r, steps);
    RunKeepsRange(Start(r), steps);
  }

  lemma EndsEmptyIfKept(r: Range, n: nat, kind: Kind)
    requires Ordinary(r) && (kind.Uas? || r.min % 2 == 1 || (0 < r.min && n <= 1))
    ensures EndsEmpty(r, n, kind)
  {
    forall s | Reachable(r, n, s) && AllOf(s, kind) && AllGone(s)
      ensures s.shared.ports == {} && s.shared.portsUsed == 0
    {
      OnlyZeroIsKept(r, n, s);
      if 0 < r.min && n <= 1 {
        OneCallerKeepsRange(r, n);
        assert AllSlots(s.shared);
        assert 0 !in s.shared.ports;
      }
      assert s.shared.ports == {};
    }
  }

  /** A UAC that finds 0 in nextPort: it reserves port 0 and leaves it reserved and counted, with its rules. */
  lemma LeakyDialog(reach: Ua -> bool, n: nat, s: Ua) returns (w: Ua)
    requires Closed(reach, n) && Open(reach, Uac) && reach(s) && Callers(s) < n && HasRoom(s.shared)
    requires s.shared.range.min < s.shared.range.max <= TWO_TO_THE_16
    requires s.shared.nextPort == 0 && 0 !in s.shared.ports
    ensures reach(w) && Callers(w) == Callers(s) && w.shared.ports == s.shared.ports + {0}
    ensures w.shared.portsUsed == s.shared.portsUsed + 2 && w.shared.current == s.shared.current
    ensures w.shared.rules == s.shared.rules + {0, 1}
    ensures |w.owners| == |s.owners| + 1
    ensures s.owners != [] ==> w.owners[|s.owners| - 1] == s.owners[|s.owners| - 1]
  {
    var u, x := s.shared.(current := s.shared.current + 1), Holder(Uac, 0, Gone(false));
    var v := u.(ports := u.ports + {u.nextPort}, nextPort := u.range.Advance(u.nextPort));
    ReachesCounter(u, Uac);
    CounterToLeak(v);
    var end := v.(portsUsed := v.portsUsed + 2, rules := v.rules + {0, 1}, current := v.current - 1);
    ThenAlone(u, Caller(Uac, Running(CallPort)), v, Caller(Uac, Counting(CallPort, 0)), end, x);
    NewDialog(reach, n, s, Uac, end, x);
    w := Ua(end, s.owners + [x]);
  }

  lemma NobodyLive(s: Ua)
    requires Inv(s) && s.shared.current == 0
    ensures AllGone(s)
  {
    forall t | 0 <= t < |s.owners| ensures s.owners[t].phase.Gone? {
      TotalHasPart(Live, s.owners, t, |s.owners|);
    }
  }

  /** With a lower bound of 0 a single call leaks its port. */
  lemma FirstCallLeaks(reach: Ua -> bool, r: Range, n: nat) returns (s: Ua)
    requires Closed(reach, n) && Open(reach, Uac) && reach(Start(r)) && Ordinary(r) && n >= 1 && r.min == 0
    ensures reach(s) && s.shared.ports == {0} && s.shared.portsUsed == 2 && s.shared.current == 0
    ensures 0 in s.shared.rules
  {
    s := LeakyDialog(reach, n, Start(r));
    assert {} + {0} == {0};
  }

  /** With any other even lower bound two callers climb to 65534, from where nextPort wraps to 0. */
  lemma ClimbersLeak(reach: Ua -> bool, r: Range, n: nat) returns (s: Ua)
    requires Closed(reach, n) && Open(reach, Uac) && reach(Start(r))
    requires Ordinary(r) && n >= 2 && 0 < r.min && r.min % 2 == 0
    ensures reach(s) && s.shared.ports == {0} && s.shared.portsUsed == 2 && s.shared.current == 0
    ensures 0 in s.shared.rules
  {
    s := Climb(reach, r, n, Uac, (65534 - r.min) / 2);
    var t := |s.owners| - 1;
    s := LaggardStores(reach, r, n, Uac, s, 65534, 0);
    s := LeakyDialog(reach, n, s);
    s := LaggardLeaves(reach, n, Uac, s, t, 65534);
    assert {65534} + {0} - {65534} == {0};
  }

  /** A run of UACs after which every dialog has closed and port 0 is still reserved and counted and has its rule. */
  lemma PortZeroLeaks(r: Range, n: nat) returns (s: Ua)
    requires Ordinary(r) && r.min % 2 == 0 && n >= (if r.min == 0 then 1 else 2)
    ensures Reachable(r, n, s) && AllOf(s, Uac) && AllGone(s) && s.shared.ports == {0} && s.shared.portsUsed == 2
    ensures 0 in s.shared.rules
  {
    var reach := ReachableIsClosed(r, n, Uac);
    if r.min == 0 {
      s := FirstCallLeaks(reach, r, n);
    } else {
      s := ClimbersLeak(reach, r, n);
    }
    ReachableHasInv(r, n, s);
    NobodyLive(s);
  }

  /** All ports are given back at the end of every run of UASs; of UACs exactly when the lower bound is odd, or
      positive with calls of getPort that never overlap. */
  lemma EndsEmptyIff(r: Range, n: nat, kind: Kind)
    requires Ordinary(r) && n > 0
    ensures EndsEmpty(r, n, kind) <==> kind.Uas? || r.min % 2 == 1 || (0 < r.min && n <= 1)
  {
    if kind.Uas? || r.min % 2 == 1 || (0 < r.min && n <= 1) {
      EndsEmptyIfKept(r, n, kind);
    } else {
      var s := PortZeroLeaks(r, n);
    }
  }

  ghost predicate QuietMeansEmpty(r: Range, kind: Kind, steps: seq<Step>)
  {
    Run(Start(r), steps).Some? && AllOf(Run(Start(r), steps).value, kind) && AllGone(Run(Start(r), steps).value) ==>
      Run(Start(r), steps).value.shared.ports == {} && Run(Start(r), steps).value.shared.portsUsed == 0
  }

  /** Over all interleavings, however many callers: for UACs exactly for an odd lower bound. */
  lemma EveryRunEndsEmptyIff(r: Range, kind: Kind)
    requires Ordinary(r)
    ensures (forall steps :: QuietMeansEmpty(r, kind, steps)) <==> kind.Uas? || r.min % 2 == 1
  {
    if kind.Uas? || r.min % 2 == 1 {
      forall steps ensures QuietMeansEmpty(r, kind, steps) {
        if Run(Start(r), steps).Some? && AllGone(Run(Start(r), steps).value) {
          QuietAtTheEnd(r, steps);
        }
      }
    } else {
      var s := PortZeroLeaks(r, 2);
      var steps :| Run(Start(r), steps) == Some(s) && NeverMoreThan(Start(r), steps, 2);
      assert !QuietMeansEmpty(r, kind, steps);
    }
  }
}
