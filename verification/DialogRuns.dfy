/** Whole runs of the dialogs: every interleaving of any number of dialogs, every exit of each of them. */
module DialogRuns {
  import opened Widths
  import opened Wrappers
  import opened PortAllocator
  import opened Dialogs

  /** The state after an interleaving, if every step of it was enabled in turn. */
  function Run(s: Ua, steps: seq<Step>): Option<Ua>
  {
    if steps == [] then Some(s)
    else
      match Run(s, steps[..|steps| - 1])
      case None => None
      case Some(u) =>
        var step := steps[|steps| - 1];
        if Enabled(u, step) then Some(Apply(u, step)) else None
  }

  lemma {:induction false} RunKeepsInv(s: Ua, steps: seq<Step>)
    requires Inv(s)
    ensures Run(s, steps).Some? ==> Inv(Run(s, steps).value)
  {
    if steps != [] && Run(s, steps).Some? {
      RunKeepsInv(s, steps[..|steps| - 1]);
      StepKeepsInv(Run(s, steps[..|steps| - 1]).value, steps[|steps| - 1]);
    }
  }

  /** No two dialogs own a common port. */
  ghost predicate Disjoint(s: Ua)
  {
    forall i, j :: 0 <= i < j < |s.owners| ==> Owned(s.owners[i]) !! Owned(s.owners[j])
  }

  /** No two reserved ports share an RTP or RTCP port. */
  ghost predicate PairsApart(ports: set<nat>)
  {
    forall p, q :: p in ports && q in ports && p != q ==> {p, Uint16(p + 1)} !! {q, Uint16(q + 1)}
  }

  lemma OwnersAreDisjoint(s: Ua)
    requires Ownership(s)
    ensures Disjoint(s)
  {
    forall i, j | 0 <= i < j < |s.owners| ensures Owned(s.owners[i]) !! Owned(s.owners[j]) {
      forall p | p in Owned(s.owners[i]) ensures p !in Owned(s.owners[j]) {
        OwnedByOne(s, i, j, p);
      }
    }
  }

  lemma PortsArePairsApart(s: Ua)
    requires Parity(s)
    ensures PairsApart(s.shared.ports)
  {
    forall p, q | p in s.shared.ports && q in s.shared.ports && p != q
      ensures {p, Uint16(p + 1)} !! {q, Uint16(q + 1)}
    {
      PairsAreDisjoint(p, q);
    }
  }

  /** A UAC that was given port 0, which its Close takes for "no port". */
  predicate Leaked(o: Owner)
  {
    o.kind.Uac? && o.held == [0]
  }

  /** A closed dialog owns nothing, save for a leaked port 0. */
  ghost predicate ClosedOwnNothing(s: Ua)
  {
    forall t :: 0 <= t < |s.owners| && s.owners[t].phase.Gone? ==>
      Owned(s.owners[t]) == if Leaked(s.owners[t]) then multiset{0} else multiset{}
  }

  lemma ClosedOwns(o: Owner)
    requires ControlOk(o) && o.phase.Gone?
    ensures Owned(o) == if Leaked(o) then multiset{0} else multiset{}
  {
    if o.held == [] {
      assert multiset(o.held) == multiset{};
    }
  }

  /** Safety of every run: the reserved ports are the disjoint union of what the dialogs own, closed ones owning
      none but a leaked port 0, no two RTP/RTCP pairs overlap, and the live-dialog gauge is right. */
  lemma EveryRunIsSafe(r: Range, steps: seq<Step>)
    requires r.min < TWO_TO_THE_16 && Run(Start(r), steps).Some?
    ensures var s := Run(Start(r), steps).value;
            && multiset(s.shared.ports) == Pooled(Owned, s.owners, |s.owners|)
            && Disjoint(s) && ClosedOwnNothing(s)
            && PairsApart(s.shared.ports)
            && s.shared.current == Total(Live, s.owners, |s.owners|)
  {
    StartHasInv(r);
    RunKeepsInv(Start(r), steps);
    var s := Run(Start(r), steps).value;
    OwnersAreDisjoint(s);
    PortsArePairsApart(s);
    forall t | 0 <= t < |s.owners| && s.owners[t].phase.Gone?
      ensures Owned(s.owners[t]) == if Leaked(s.owners[t]) then multiset{0} else multiset{}
    {
      ClosedOwns(s.owners[t]);
    }
  }

  // ---------------------------------------------------------------- when every dialog has closed

  ghost predicate AllGone(s: Ua)
  {
    forall t :: 0 <= t < |s.owners| ==> s.owners[t].phase.Gone?
  }

  lemma {:induction false} GoneTotals(s: seq<Owner>, n: nat)
    requires n <= |s| && forall t :: 0 <= t < n ==> s[t].phase.Gone?
    ensures Total(Size, s, n) == Total(Counted, s, n) && Total(Live, s, n) == 0
  {
    if n > 0 {
      GoneTotals(s, n - 1);
    }
  }

  lemma OnlyZeroRemains(s: Ua)
    requires Inv(s) && AllGone(s)
    ensures s.shared.ports <= {0}
    ensures s.shared.ports == {} <==> forall t :: 0 <= t < |s.owners| ==> !Leaked(s.owners[t])
  {
    forall p | p in s.shared.ports ensures p == 0 && exists t :: 0 <= t < |s.owners| && Leaked(s.owners[t]) {
      var t := PoolWitness(Owned, s.owners, |s.owners|, p);
      LeftoverIsZero(s.owners[t], p);
    }
    forall t | 0 <= t < |s.owners| && Leaked(s.owners[t]) ensures 0 in s.shared.ports {
      PoolHasPart(Owned, s.owners, t, |s.owners|);
      LeakedKeepsZero(s.owners[t]);
    }
  }

  lemma LeftoverIsZero(o: Owner, p: nat)
    requires ControlOk(o) && o.phase.Gone? && p in Owned(o)
    ensures p == 0 && Leaked(o)
  {
    assert o.held == [0];
  }

  lemma LeakedKeepsZero(o: Owner)
    requires ControlOk(o) && o.phase.Gone? && Leaked(o)
    ensures 0 in Owned(o)
  {
  }

  lemma NothingLive(s: Ua)
    requires Inv(s) && AllGone(s)
    ensures s.shared.current == 0 && s.shared.portsUsed == 2 * |s.shared.ports|
  {
    GoneTotals(s.owners, |s.owners|);
    PooledSize(s.owners, |s.owners|);
    assert |multiset(s.shared.ports)| == |s.shared.ports|;
  }

  /** After every dialog of a run has closed, whatever exits they took: no dialog is counted live, two are
      counted used per reserved port, and no port is reserved unless some UAC was given port 0. */
  lemma QuietAtTheEnd(r: Range, steps: seq<Step>)
    requires r.min < TWO_TO_THE_16 && Run(Start(r), steps).Some? && AllGone(Run(Start(r), steps).value)
    ensures var s := Run(Start(r), steps).value;
            && s.shared.current == 0
            && s.shared.portsUsed == 2 * |s.shared.ports|
            && s.shared.ports <= {0}
            && (s.shared.ports == {} <==> forall t :: 0 <= t < |s.owners| ==> !Leaked(s.owners[t]))
            && (r.min % 2 == 1 ==> s.shared.ports == {})
  {
    StartHasInv(r);
    RunKeepsInv(Start(r), steps);
    RunKeepsRange(Start(r), steps);
    OnlyZeroRemains(Run(Start(r), steps).value);
    NothingLive(Run(Start(r), steps).value);
  }

  lemma {:induction false} RunKeepsRange(s: Ua, steps: seq<Step>)
    ensures Run(s, steps).Some? ==> Run(s, steps).value.shared.range == s.shared.range
  {
    if steps != [] {
      RunKeepsRange(s, steps[..|steps| - 1]);
    }
  }
}
