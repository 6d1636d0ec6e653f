/** How many concurrent getPort callers the slack of 10 in ua.go covers: exactly 5, or 6 for an odd width. */
module PortSlack {
  import opened Widths
  import opened Wrappers
  import opened PortAllocator
  import opened Dialogs
  import opened DialogRuns
  import opened LoneDialogs

  ghost predicate FreeSlot(u: Shared)
  {
    exists p :: u.range.IsSlot(p) && p !in u.ports
  }

  /** Whenever a caller is still searching, a port of the range is free. */
  ghost predicate SlackCovers(r: Range, n: nat)
  {
    forall s, t :: Reachable(r, n, s) && 0 <= t < |s.owners| && StillSearching(s.owners[t]) ==> FreeSlot(s.shared)
  }

  // ---------------------------------------------------------------- enough slack

  /** What a caller will still take is already allowed for by the guard it passed. */
  ghost predicate SlackInv(s: Ua, n: nat)
  {
    var room := s.shared.range.Width() - 10 + 2 * n;
    s.shared.portsUsed + 2 * Callers(s) <= if room < 0 then 0 else room
  }

  lemma TurnKeepsSlack(u: Shared, o: Owner, c: Choice)
    requires ControlOk(o)
    ensures var du, dc := Effect(u, o, c).portsUsed - u.portsUsed, Calling(Next(u, o, c)) - Calling(o);
            du + 2 * dc <= 0 || (du == 0 && dc == 1 && u.portsUsed <= u.range.Width() - 10)
    ensures Effect(u, o, c).range == u.range
  {
  }

  lemma StepKeepsSlack(s: Ua, step: Step, n: nat)
    requires Inv(s) && SlackInv(s, n) && Enabled(s, step) && Callers(Apply(s, step)) <= n
    ensures SlackInv(Apply(s, step), n)
  {
    var k := |s.owners|;
    if step.Spawn? {
      TotalAppend(Calling, s.owners, Apply(s, step).owners[k], k);
    } else {
      TurnKeepsSlack(s.shared, s.owners[step.t], step.c);
      TotalUpdate(Calling, s.owners, step.t, Next(s.shared, s.owners[step.t], step.c), k);
    }
  }

  lemma {:induction false} RunKeepsSlack(s: Ua, steps: seq<Step>, n: nat)
    requires Inv(s) && SlackInv(s, n) && NeverMoreThan(s, steps, n)
    ensures Run(s, steps).Some? ==> SlackInv(Run(s, steps).value, n)
  {
    if steps != [] && Run(s, steps).Some? {
      RunKeepsInv(s, steps[..|steps| - 1]);
      RunKeepsSlack(s, steps[..|steps| - 1], n);
      StepKeepsSlack(Run(s, steps[..|steps| - 1]).value, steps[|steps| - 1], n);
    }
  }

  /** A dialog owns no more than it has had counted, plus what its running getPort has in hand. */
  lemma OwnsAtMost(o: Owner)
    requires ControlOk(o)
    ensures Size(o) <= Counted(o) + Calling(o) - Empty(o)
  {
  }

  lemma {:induction false} OwnedAtMost(s: seq<Owner>, n: nat)
    requires n <= |s| && forall t :: 0 <= t < n ==> ControlOk(s[t])
    ensures Total(Size, s, n) <= Total(Counted, s, n) + Total(Calling, s, n) - Total(Empty, s, n)
  {
    if n > 0 {
      OwnedAtMost(s, n - 1);
      OwnsAtMost(s[n - 1]);
    }
  }

  /** A searching caller leaves fewer ports reserved than there are slots. */
  lemma SearcherHasRoom(s: Ua, t: nat, n: nat)
    requires Inv(s) && SlackInv(s, n) && t < |s.owners| && StillSearching(s.owners[t])
    ensures 2 * |s.shared.ports| <= s.shared.range.Width() - 12 + 2 * n
  {
    var k := |s.owners|;
    PooledSize(s.owners, k);
    assert |multiset(s.shared.ports)| == |s.shared.ports|;
    OwnedAtMost(s.owners, k);
    TotalHasPart(Empty, s.owners, t, k);
  }

  lemma ReachableHasSlack(r: Range, n: nat, s: Ua)
    requires r.min < TWO_TO_THE_16 && Reachable(r, n, s)
    ensures Inv(s) && SlackInv(s, n) && s.shared.range == r
  {
    ReachableHasInv(r, n, s);
    var steps :| Run(Start(r), steps) == Some(s) && NeverMoreThan(Start(r), steps, n);
    StartHasInv(r);
    RunKeepsSlack(Start(r), steps, n);
  }

  lemma RoomMeansFreeSlot(u: Shared)
    requires u.range.min <= u.range.max && |u.ports| < u.range.Slots()
    ensures FreeSlot(u)
  {
    FreeSlotExists(u.range, u.ports);
    var j :| 0 <= j < u.range.Slots() && u.range.Slot(j) !in u.ports;
    assert u.range.IsSlot(u.range.Slot(j));
  }

  lemma EnoughSlack(r: Range, n: nat)
    requires r.min < r.max && r.min < TWO_TO_THE_16 && n <= 5 + r.Width() % 2
    ensures SlackCovers(r, n)
  {
    forall s, t | Reachable(r, n, s) && 0 <= t < |s.owners| && StillSearching(s.owners[t]) ensures FreeSlot(s.shared) {
      ReachableHasSlack(r, n, s);
      SearcherHasRoom(s, t, n);
      RoomMeansFreeSlot(s.shared);
    }
  }

  // ---------------------------------------------------------------- not enough slack

  /** Where nextPort stands after the first j slots have been taken in order. */
  function NextFor(r: Range, j: nat): nat
    requires r.min < r.max
  {
    if j < r.Slots() then r.Slot(j) else r.min
  }

  lemma AdvanceIsNextFor(r: Range, j: nat)
    requires Ordinary(r) && j < r.Slots()
    ensures r.Advance(r.Slot(j)) == NextFor(r, j + 1) && r.Slot(j) < TWO_TO_THE_16
  {
  }

  /** Callers and served dialogs together hold the first j slots; a of them are counted. */
  ghost predicate Crowd(s: Ua, r: Range, a: nat, j: nat)
    requires r.min < r.max
  {
    && s.shared.range == r
    && s.shared.ports == SlotSet(r, j)
    && s.shared.nextPort == NextFor(r, j)
    && s.shared.portsUsed == 2 * a
    && Callers(s) == j - a
  }

  /** A new caller arrives and gets its port in hand. */
  lemma CallerArrives(reach: Ua -> bool, r: Range, n: nat, s: Ua, j: nat) returns (w: Ua, t: nat)
    requires Closed(reach, n) && Open(reach, Uac) && reach(s) && Callers(s) < n
    requires Ordinary(r) && s.shared.range == r && HasRoom(s.shared)
    requires j < r.Slots() && s.shared.nextPort == r.Slot(j) && s.shared.nextPort !in s.shared.ports
    ensures reach(w) && Callers(w) == Callers(s) + 1
    ensures t < |w.owners| && w.owners[t].phase.Counting?
    ensures w.shared == s.shared.(current := s.shared.current + 1, nextPort := NextFor(r, j + 1),
                                  ports := s.shared.ports + {r.Slot(j)})
  {
    var u, x := s.shared.(current := s.shared.current + 1), Caller(Uac, Counting(CallPort, r.Slot(j)));
    var v := u.(ports := u.ports + {u.nextPort}, nextPort := r.Advance(u.nextPort));
    AdvanceIsNextFor(r, j);
    ReachesCounter(u, Uac);
    NewDialog(reach, n, s, Uac, v, x);
    w, t := Ua(v, s.owners + [x]), |s.owners|;
  }

  /** One more caller with its port in hand. */
  lemma OneMoreInHand(reach: Ua -> bool, r: Range, n: nat, s: Ua, a: nat, j: nat) returns (w: Ua, t: nat)
    requires Ordinary(r) && Closed(reach, n) && Open(reach, Uac) && reach(s) && Crowd(s, r, a, j)
    requires j < r.Slots() && r.Width() - 2 * a >= 10 && j - a < n
    ensures reach(w) && Crowd(w, r, a, j + 1)
    ensures t < |w.owners| && w.owners[t].phase.Counting?
  {
    SlotSetSize(r, j);
    w, t := CallerArrives(reach, r, n, s, j);
  }

  /** A caller with its port in hand gets it counted. */
  lemma CallerIsCounted(reach: Ua -> bool, r: Range, n: nat, s: Ua, t: nat) returns (w: Ua)
    requires Closed(reach, n) && reach(s) && t < |s.owners| && s.owners[t].phase.Counting? && Callers(s) <= n
    ensures reach(w) && Callers(w) == Callers(s) - 1
    ensures w.shared == s.shared.(portsUsed := s.shared.portsUsed + 2)
  {
    w := Apply(s, Turn(t, Go));
    TotalUpdate(Calling, s.owners, t, w.owners[t], |s.owners|);
    CountingEnds(s.shared, s.owners[t]);
  }

  /** One more dialog with its port counted. */
  lemma OneMoreCounted(reach: Ua -> bool, r: Range, n: nat, s: Ua, a: nat) returns (w: Ua)
    requires Ordinary(r) && Closed(reach, n) && Open(reach, Uac) && reach(s) && Crowd(s, r, a, a)
    requires a < r.Slots() && r.Width() - 2 * a >= 10 && 0 < n
    ensures reach(w) && Crowd(w, r, a + 1, a + 1)
  {
    var v, t := OneMoreInHand(reach, r, n, s, a, a);
    w := CallerIsCounted(reach, r, n, v, t);
  }

  lemma CountingEnds(u: Shared, o: Owner)
    requires o.phase.Counting?
    ensures Calling(o) == 1 && Calling(Next(u, o, Go)) == 0
    ensures Effect(u, o, Go) == u.(portsUsed := u.portsUsed + 2)
  {
  }

  lemma {:induction false} CrowdIsReachable(reach: Ua -> bool, r: Range, n: nat, a: nat, j: nat) returns (s: Ua)
    requires Closed(reach, n) && Open(reach, Uac) && reach(Start(r))
    requires Ordinary(r) && 0 < n && a <= j <= r.Slots() && j - a <= n
    requires r.Width() - 2 * a >= 10
    ensures reach(s) && Crowd(s, r, a, j)
    decreases j
  {
    if j > a {
      var t;
      s := CrowdIsReachable(reach, r, n, a, j - 1);
      s, t := OneMoreInHand(reach, r, n, s, a, j - 1);
    } else if a > 0 {
      s := CrowdIsReachable(reach, r, n, a - 1, a - 1);
      s := OneMoreCounted(reach, r, n, s, a - 1);
    } else {
      s := Start(r);
    }
  }

  lemma {:induction false} SlotSetHas(r: Range, n: nat, j: nat)
    requires j < n
    ensures r.Slot(j) in SlotSet(r, n)
  {
    if j < n - 1 {
      SlotSetHas(r, n - 1, j);
    }
  }

  lemma NoFreeSlot(u: Shared)
    requires u.range.min < u.range.max && u.ports == SlotSet(u.range, u.range.Slots())
    ensures !FreeSlot(u)
  {
    forall p: nat | u.range.IsSlot(p) ensures p in u.ports {
      SlotSetHas(u.range, u.range.Slots(), (p - u.range.min) / 2);
    }
  }

  /** A new caller passes the guard and no further. */
  lemma CallerStalls(reach: Ua -> bool, r: Range, n: nat, s: Ua) returns (w: Ua, t: nat)
    requires Closed(reach, n) && Open(reach, Uac) && reach(s) && Callers(s) < n && HasRoom(s.shared)
    ensures reach(w) && t < |w.owners| && StillSearching(w.owners[t])
    ensures w.shared == s.shared.(current := s.shared.current + 1)
  {
    var u, x := s.shared.(current := s.shared.current + 1), Caller(Uac, Searching(CallPort));
    PassesGuard(u, Uac);
    NewDialog(reach, n, s, Uac, u, x);
    w, t := Ua(u, s.owners + [x]), |s.owners|;
  }

  /** With one caller more, a run leaves a caller searching a full range. */
  lemma TooLittleSlack(r: Range, n: nat)
    requires Ordinary(r) && n >= 6 + r.Width() % 2
    ensures !SlackCovers(r, n)
  {
    var reach := ReachableIsClosed(r, n, Uac);
    var b: nat := if r.Width() % 2 == 0 then 5 else 6;
    var s := CrowdIsReachable(reach, r, n, r.Slots() - b, r.Slots());
    var w, t := CallerStalls(reach, r, n, s);
    NoFreeSlot(w.shared);
  }

  /** The slack is exactly right for 5 concurrent callers, and for 6 when portsMax is odd. */
  lemma SlackCoversIff(r: Range, n: nat)
    requires Ordinary(r)
    ensures SlackCovers(r, n) <==> n <= 5 + r.Width() % 2
  {
    if n <= 5 + r.Width() % 2 {
      EnoughSlack(r, n);
    } else {
      TooLittleSlack(r, n);
    }
  }
}
