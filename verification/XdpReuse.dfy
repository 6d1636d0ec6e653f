/** When SendMsg overwrites a frame that the kernel still has to read (pkg/xdp/xdp.go): which limits on the calls in
    flight keep the bytes of every message in every run. */
module XdpReuse {
  import opened Arith
  import opened Ring
  import opened Wrappers
  import opened XdpTx
  import opened XdpFrames
  import opened XdpWire

  /** A limit on what may be in flight. */
  type Limit = Wire -> bool

  /** At most d calls are between GetTxDesc and the kernel's report. */
  predicate AtMost(s: Senders, d: nat)
  {
    |s.live| <= d
  }

  /** Those calls are among the m latest. */
  ghost predicate AmongLatest(s: Senders, m: nat)
  {
    forall j :: j in s.live ==> s.next - j <= m
  }

  /** The kernel has reported in the order of taking. */
  ghost predicate InOrder(w: Wire)
  {
    forall i: nat, k: nat :: i < k < |w.tx.transmitted| && Held(w, i) ==> Held(w, k)
  }

  function InFlight(d: nat): Limit { (w: Wire) => AtMost(w.senders, d) }

  ghost function Latest(m: nat): Limit { (w: Wire) => AmongLatest(w.senders, m) }

  /** Both, and a kernel that reports in order if asked for. */
  ghost function Limited(d: nat, m: nat, ordered: bool): Limit
  {
    (w: Wire) => AtMost(w.senders, d) && AmongLatest(w.senders, m) && (ordered ==> InOrder(w))
  }

  /** Every state of the run is within the limit. */
  ghost predicate Within(o: Options, w: Wire, steps: seq<WireStep>, ok: Limit)
  {
    && (steps != [] ==> Within(o, w, steps[..|steps| - 1], ok))
    && (WireRun(o, w, steps).Some? ==> ok(WireRun(o, w, steps).value))
  }

  /** In every run within the limit the kernel finds the bytes of every message it holds as they were sent. */
  ghost predicate BytesKept(o: Options, w: Wire, ok: Limit)
    requires o.Valid()
  {
    forall steps :: WireRun(o, w, steps).Some? && Within(o, w, steps, ok) ==>
      HeldAreIntact(o, WireRun(o, w, steps).value)
  }

  // ---------------------------------------------------------------- limits that keep the bytes

  /** Within the limit a call is given a free frame. */
  ghost predicate ForcesFree(o: Options, ok: Limit)
  {
    forall w: Wire, data: seq<int> {:trigger WireApply(o, w, NewMsg(data))} ::
      SendInv(o, w.senders) && WireEnabled(o, w, NewMsg(data)) && ok(WireApply(o, w, NewMsg(data))) ==>
        NextIsFree(o, w.senders)
  }

  lemma {:induction false} WithinIsFree(o: Options, w: Wire, steps: seq<WireStep>, ok: Limit)
    requires o.Valid() && WireInv(o, w) && ForcesFree(o, ok)
    requires WireRun(o, w, steps).Some? && Within(o, w, steps, ok)
    ensures AlwaysFree(o, w, steps)
  {
    if steps != [] {
      var init, last := steps[..|steps| - 1], steps[|steps| - 1];
      WithinIsFree(o, w, init, ok);
      WireRunKeepsInv(o, w, init);
      if last.NewMsg? {
        assert ok(WireApply(o, WireRun(o, w, init).value, NewMsg(last.data)));
      }
    }
  }

  lemma FreeFramesKeepBytes(o: Options, w: Wire, ok: Limit)
    requires o.Valid() && WireInit(o, w) && ForcesFree(o, ok)
    ensures BytesKept(o, w, ok)
  {
    forall steps | WireRun(o, w, steps).Some? && Within(o, w, steps, ok)
      ensures HeldAreIntact(o, WireRun(o, w, steps).value)
    {
      WireInitHasInv(o, w);
      WithinIsFree(o, w, steps, ok);
      KernelReadsWhatWasSent(o, w, steps);
    }
  }

  // ---------------------------------------------------------------- a run that overwrites

  /** What the run needs: two calls in flight, the older one a ring size older, */
  ghost predicate Pair(o: Options, s: Senders)
  {
    AtMost(s, 2) && AmongLatest(s, o.CompletionRingNumDescs() + 1)
  }

  /** and no report out of order. */
  ghost predicate Modest(o: Options, w: Wire)
  {
    Pair(o, w.senders) && InOrder(w)
  }

  ghost predicate Admits(o: Options, ok: Limit)
  {
    forall w :: Modest(o, w) ==> ok(w)
  }

  /** A set of states that is closed under the steps which need no more. */
  ghost predicate Closed(o: Options, reach: Wire -> bool)
  {
    forall w, step {:trigger WireApply(o, w, step)} ::
      reach(w) && WireEnabled(o, w, step) && Modest(o, WireApply(o, w, step)) ==> reach(WireApply(o, w, step))
  }

  ghost predicate Reachable(o: Options, w: Wire, ok: Limit, t: Wire)
  {
    exists steps :: WireRun(o, w, steps) == Some(t) && Within(o, w, steps, ok)
  }

  lemma StepIsReachable(o: Options, w: Wire, ok: Limit, t: Wire, step: WireStep)
    requires Reachable(o, w, ok, t) && WireEnabled(o, t, step) && ok(WireApply(o, t, step))
    ensures Reachable(o, w, ok, WireApply(o, t, step))
  {
    var steps :| WireRun(o, w, steps) == Some(t) && Within(o, w, steps, ok);
    var more := steps + [step];
    assert more[..|more| - 1] == steps;
    assert WireRun(o, w, more) == Some(WireApply(o, t, step)) && Within(o, w, more, ok);
  }

  lemma ReachableIsClosed(o: Options, w: Wire, ok: Limit) returns (reach: Wire -> bool)
    requires Admits(o, ok) && Modest(o, w)
    ensures Closed(o, reach) && reach(w) && forall t :: reach(t) <==> Reachable(o, w, ok, t)
  {
    reach := t => Reachable(o, w, ok, t);
    assert WireRun(o, w, []) == Some(w) && Within(o, w, [], ok);
    forall t, step | reach(t) && WireEnabled(o, t, step) && Modest(o, WireApply(o, t, step))
      ensures reach(WireApply(o, t, step))
    {
      StepIsReachable(o, w, ok, t, step);
    }
  }

  ghost predicate NoneHeld(w: Wire)
  {
    forall i: nat :: !Held(w, i)
  }

  /** Only the descriptor taken last is held. */
  ghost predicate LastHeld(w: Wire)
  {
    forall i: nat :: Held(w, i) ==> i == |w.tx.transmitted| - 1
  }

  /** Nothing on its way to the kernel or back. */
  predicate Quiet(s: Tx)
  {
    && s.worker.Idle? && s.txChan == [] && s.pending == 0 && 0 < s.chanCap
    && s.txRing.Occupancy() == 0 && s.completionRing.Occupancy() == 0
  }

  predicate SameOutside(w: Wire, v: Wire)
  {
    v.senders == w.senders && v.ids == w.ids && v.messages == w.messages
  }

  /** One pipeline step but the kernel's taking. */
  lemma Piped(o: Options, reach: Wire -> bool, w: Wire, step: Step) returns (v: Wire)
    requires o.Valid() && Closed(o, reach) && reach(w) && Inv(w.tx) && Pair(o, w.senders) && LastHeld(w)
    requires !step.Send? && !step.KernelComplete? && !step.KernelTake? && Enabled(w.tx, step)
    ensures reach(v) && Inv(v.tx) && (WireInv(o, w) ==> WireInv(o, v)) && LastHeld(v)
    ensures v == w.(tx := Apply(w.tx, step)) && v.tx.transmitted == w.tx.transmitted
  {
    v := WireApply(o, w, Pipe(step));
    StepKeepsInv(w.tx, step);
    PipeKeepsWire(o, w, step);
    assert forall i: nat :: Held(v, i) ==> Held(w, i);
  }

  lemma PipeKeepsWire(o: Options, w: Wire, step: Step)
    requires o.Valid() && WireEnabled(o, w, Pipe(step))
    ensures WireInv(o, w) ==> WireInv(o, WireApply(o, w, Pipe(step)))
  {
    if WireInv(o, w) {
      PipeKeepsInv(o, w, step);
    }
  }

  /** The only descriptor in the channel gets into the TX ring. */
  lemma ToRing(o: Options, reach: Wire -> bool, w: Wire) returns (v: Wire)
    requires o.Valid() && Closed(o, reach) && reach(w) && Inv(w.tx) && Pair(o, w.senders) && NoneHeld(w)
    requires w.tx.worker.Idle? && |w.tx.txChan| == 1 && w.tx.txRing.Occupancy() == 0
    ensures reach(v) && Inv(v.tx) && (WireInv(o, w) ==> WireInv(o, v)) && SameOutside(w, v)
    ensures v.tx.worker.Idle? && v.tx.txChan == [] && v.tx.txRing.Occupancy() == 1
    ensures v.tx.completionRing == w.tx.completionRing && v.tx.pending == w.tx.pending && v.tx.chanCap == w.tx.chanCap
    ensures v.tx.transmitted == w.tx.transmitted && v.tx.sent == w.tx.sent
  {
    SizeDividesIndexRange(w.tx.txRing);
    v := Piped(o, reach, w, Take);
    v := Piped(o, reach, v, CheckRoom);
    v := Piped(o, reach, v, StoreDesc);
    PublishOccupancy(v.tx.txRing);
    v := Piped(o, reach, v, PublishDesc);
  }

  lemma SameHeld(w: Wire, v: Wire)
    requires SameOutside(w, v) && |v.tx.transmitted| == |w.tx.transmitted| && NoneHeld(w)
    ensures NoneHeld(v)
  {
    assert forall i: nat :: Held(v, i) ==> Held(w, i);
  }

  /** and the kernel takes it. */
  lemma ToKernel(o: Options, reach: Wire -> bool, w: Wire) returns (v: Wire)
    requires o.Valid() && Closed(o, reach) && reach(w) && Inv(w.tx) && Pair(o, w.senders) && NoneHeld(w)
    requires w.tx.txRing.Occupancy() == 1
    ensures reach(v) && Inv(v.tx) && (WireInv(o, w) ==> WireInv(o, v)) && SameOutside(w, v) && LastHeld(v)
    ensures v.tx.worker == w.tx.worker && v.tx.txChan == w.tx.txChan && v.tx.txRing.Occupancy() == 0
    ensures v.tx.completionRing == w.tx.completionRing && v.tx.pending == w.tx.pending && v.tx.chanCap == w.tx.chanCap
    ensures |v.tx.transmitted| == |w.tx.transmitted| + 1 && v.tx.sent == w.tx.sent
  {
    v := WireApply(o, w, Pipe(KernelTake));
    StepKeepsInv(w.tx, KernelTake);
    PipeKeepsWire(o, w, KernelTake);
    DropOccupancy(w.tx.txRing, 1);
    assert forall i: nat :: Held(v, i) && i < |w.tx.transmitted| ==> Held(w, i);
  }

  lemma ToRingAndKernel(o: Options, reach: Wire -> bool, w: Wire) returns (v: Wire)
    requires o.Valid() && Closed(o, reach) && reach(w) && Inv(w.tx) && Pair(o, w.senders) && NoneHeld(w)
    requires w.tx.worker.Idle? && |w.tx.txChan| == 1 && w.tx.txRing.Occupancy() == 0
    ensures reach(v) && Inv(v.tx) && (WireInv(o, w) ==> WireInv(o, v)) && SameOutside(w, v) && LastHeld(v)
    ensures v.tx.worker.Idle? && v.tx.txChan == [] && v.tx.txRing.Occupancy() == 0
    ensures v.tx.completionRing == w.tx.completionRing && v.tx.pending == w.tx.pending && v.tx.chanCap == w.tx.chanCap
    ensures |v.tx.transmitted| == |w.tx.transmitted| + 1 && v.tx.sent == w.tx.sent
  {
    var u := ToRing(o, reach, w);
    SameHeld(w, u);
    v := ToKernel(o, reach, u);
  }

  /** Everything sent has been taken. */
  lemma QuietHasTaken(s: Tx)
    requires Inv(s) && s.worker.Idle? && s.txChan == [] && s.txRing.Occupancy() == 0
    ensures s.transmitted == s.sent
  {
    assert s.txRing.Contents() == [];
  }

  /** Room for one more call. */
  ghost predicate Single(o: Options, s: Senders)
  {
    AtMost(s, 1) && AmongLatest(s, o.CompletionRingNumDescs())
  }

  lemma OneMoreIsPair(o: Options, s: Senders, t: Senders, x: Flight)
    requires Single(o, s) && t.next == s.next + 1 && t.live == s.live[s.next := x]
    ensures Pair(o, t)
  {
    assert t.live.Keys == s.live.Keys + {s.next};
    assert |t.live.Keys| <= |s.live.Keys| + 1;
  }

  lemma SameCallsSamePair(o: Options, s: Senders, t: Senders)
    requires Pair(o, s) && t.next == s.next && t.live.Keys == s.live.Keys
    ensures Pair(o, t)
  {
    assert |t.live.Keys| == |s.live.Keys|;
  }

  lemma OneFewerIsPair(o: Options, s: Senders, t: Senders, j: nat)
    requires Pair(o, s) && t.next == s.next && t.live.Keys == s.live.Keys - {j}
    ensures Pair(o, t)
  {
    assert |t.live.Keys| <= |s.live.Keys|;
  }

  /** Nobody has sent for the next call yet. */
  predicate NextIsNew(w: Wire)
  {
    w.senders.next !in w.ids
  }

  /** GetTxDesc, whether or not the frame is free. */
  lemma Issues(o: Options, reach: Wire -> bool, w: Wire, data: seq<int>) returns (v: Wire)
    requires Closed(o, reach) && reach(w) && RingsValid(w.tx) && Single(o, w.senders) && |data| <= o.FrameSize
    requires NoneHeld(w) && NextIsNew(w)
    ensures reach(v) && v == WireApply(o, w, NewMsg(data)) && Pair(o, v.senders) && NoneHeld(v)
    ensures v == w.(senders := v.senders) && v.senders.next == w.senders.next + 1
    ensures v.senders.umem == w.senders.umem
    ensures v.senders.live == w.senders.live[w.senders.next := Flight(data, false)]
  {
    v := WireApply(o, w, NewMsg(data));
    OneMoreIsPair(o, w.senders, v.senders, Flight(data, false));
    assert forall i: nat :: Held(v, i) ==> Held(w, i);
  }

  lemma Copies(o: Options, reach: Wire -> bool, w: Wire, j: nat) returns (v: Wire)
    requires Closed(o, reach) && reach(w) && WireEnabled(o, w, CopyMsg(j)) && Pair(o, w.senders) && NoneHeld(w)
    ensures reach(v) && v == WireApply(o, w, CopyMsg(j)) && Pair(o, v.senders) && NoneHeld(v)
    ensures v == w.(senders := v.senders) && v.senders.next == w.senders.next
    ensures v.senders.live == w.senders.live[j := Flight(w.senders.live[j].data, true)]
  {
    v := WireApply(o, w, CopyMsg(j));
    SameCallsSamePair(o, w.senders, v.senders);
    assert forall i: nat :: Held(v, i) ==> Held(w, i);
  }

  lemma CanCopy(o: Options, w: Wire, j: nat)
    requires WireInv(o, w) && j in w.senders.live && !w.senders.live[j].copied
    ensures WireEnabled(o, w, CopyMsg(j))
  {
  }

  lemma IssuesFree(o: Options, reach: Wire -> bool, w: Wire, data: seq<int>) returns (v: Wire)
    requires o.Valid() && Closed(o, reach) && reach(w) && WireInv(o, w) && NoneHeld(w)
    requires NextIsFree(o, w.senders) && Single(o, w.senders) && |data| <= o.FrameSize
    ensures reach(v) && WireInv(o, v) && Pair(o, v.senders) && NoneHeld(v)
    ensures v == w.(senders := v.senders) && v.senders.next == w.senders.next + 1
    ensures v.senders.live == w.senders.live[w.senders.next := Flight(data, false)]
  {
    v := Issues(o, reach, w, data);
    NewMsgKeepsInv(o, w, data);
  }

  lemma CopiesOwn(o: Options, reach: Wire -> bool, w: Wire, j: nat) returns (v: Wire)
    requires o.Valid() && Closed(o, reach) && reach(w) && WireInv(o, w) && Pair(o, w.senders) && NoneHeld(w)
    requires j in w.senders.live && !w.senders.live[j].copied
    ensures reach(v) && WireInv(o, v) && Pair(o, v.senders) && NoneHeld(v)
    ensures v == w.(senders := v.senders) && v.senders.next == w.senders.next
    ensures v.senders.live == w.senders.live[j := Flight(w.senders.live[j].data, true)]
  {
    CanCopy(o, w, j);
    v := Copies(o, reach, w, j);
    CopyMsgKeepsInv(o, w, j);
  }

  /** SendMsg up to the copy, with a free frame. */
  lemma ToFrame(o: Options, reach: Wire -> bool, w: Wire, data: seq<int>) returns (v: Wire)
    requires o.Valid() && Closed(o, reach) && reach(w) && WireInv(o, w) && NoneHeld(w)
    requires NextIsFree(o, w.senders) && Single(o, w.senders) && |data| <= o.FrameSize
    ensures reach(v) && WireInv(o, v) && Pair(o, v.senders) && NoneHeld(v)
    ensures v == w.(senders := v.senders) && v.senders.next == w.senders.next + 1
    ensures v.senders.live == w.senders.live[w.senders.next := Flight(data, true)]
  {
    v := IssuesFree(o, reach, w, data);
    v := CopiesOwn(o, reach, v, w.senders.next);
  }

  /** The copied message of call j goes into an empty channel. */
  lemma ToChannel(o: Options, reach: Wire -> bool, w: Wire, j: nat) returns (v: Wire)
    requires o.Valid() && Closed(o, reach) && reach(w) && Inv(w.tx) && Pair(o, w.senders) && NoneHeld(w)
    requires j in w.senders.live && w.senders.live[j].copied && j !in w.ids
    requires w.tx.txChan == [] && 0 < w.tx.chanCap && |w.tx.transmitted| <= |w.ids|
    ensures reach(v) && Inv(v.tx) && (WireInv(o, w) ==> WireInv(o, v)) && v.senders == w.senders && NoneHeld(v)
    ensures v.ids == w.ids + [j] && v.messages == w.messages + [w.senders.live[j].data]
    ensures |v.tx.txChan| == 1 && v.tx == w.tx.(txChan := v.tx.txChan, sent := v.tx.sent)
    ensures v.tx.sent == w.tx.sent + [MsgDesc(o, j, w.senders.live[j].data)]
  {
    v := WireApply(o, w, PutMsg(j));
    StepKeepsInv(w.tx, Send(MsgDesc(o, j, w.senders.live[j].data)));
    if WireInv(o, w) {
      PutMsgKeepsInv(o, w, j);
    }
    assert forall i: nat :: Held(v, i) ==> Held(w, i);
  }

  /** From the copy to the kernel. */
  lemma Delivers(o: Options, reach: Wire -> bool, w: Wire, j: nat) returns (v: Wire)
    requires o.Valid() && Closed(o, reach) && reach(w) && Inv(w.tx) && Pair(o, w.senders) && NoneHeld(w)
    requires j in w.senders.live && w.senders.live[j].copied && j !in w.ids
    requires Quiet(w.tx) && |w.tx.transmitted| <= |w.ids|
    ensures reach(v) && Inv(v.tx) && (WireInv(o, w) ==> WireInv(o, v)) && v.senders == w.senders && LastHeld(v)
    ensures v.ids == w.ids + [j] && v.messages == w.messages + [w.senders.live[j].data] && Quiet(v.tx)
    ensures v.tx.transmitted == w.tx.sent + [MsgDesc(o, j, w.senders.live[j].data)]
  {
    var u := ToChannel(o, reach, w, j);
    v := ToRingAndKernel(o, reach, u);
    QuietHasTaken(v.tx);
  }

  lemma CanReport(o: Options, w: Wire, k: nat)
    requires o.Valid() && WireInv(o, w) && Held(w, k) && w.tx.completionRing.Occupancy() == 0
    ensures WireEnabled(o, w, Report(k))
  {
    TakenNames(o, w, k);
    HeldBagWithout(o, w.ids, |w.tx.transmitted|, w.senders.live.Keys, k);
    SizeDividesIndexRange(w.tx.completionRing);
  }

  lemma CompletionOccupancy(s: Tx, a: nat)
    requires RingsValid(s) && Enabled(s, KernelComplete(a)) && s.completionRing.Occupancy() == 0
    ensures Apply(s, KernelComplete(a)).completionRing.Occupancy() == 1
  {
    PutAppends(s.completionRing, a);
  }

  lemma OneFewer(live: map<nat, Flight>, j: nat)
    ensures (map i | i in live && i != j :: live[i]).Keys == live.Keys - {j}
  {
  }

  lemma NoneAfter(w: Wire, v: Wire, k: nat)
    requires LastHeld(w) && Held(w, k) && v.tx.transmitted == w.tx.transmitted && v.ids == w.ids
    requires v.senders.live == w.senders.live - {w.ids[k]}
    ensures NoneHeld(v)
  {
    forall i: nat ensures !Held(v, i) {
      if Held(v, i) {
        assert Held(w, i);
      }
    }
  }

  /** The kernel reports the frame of the only descriptor it holds. */
  lemma Reports(o: Options, reach: Wire -> bool, w: Wire, k: nat) returns (v: Wire)
    requires Closed(o, reach) && reach(w) && Pair(o, w.senders) && LastHeld(w)
    requires WireEnabled(o, w, Report(k)) && w.tx.completionRing.Occupancy() == 0
    ensures reach(v) && v == WireApply(o, w, Report(k)) && v.senders.live == w.senders.live - {w.ids[k]}
    ensures v.tx.completionRing.Occupancy() == 1 && NoneHeld(v)
  {
    v := WireApply(o, w, Report(k));
    OneFewer(w.senders.live, w.ids[k]);
    OneFewerIsPair(o, w.senders, v.senders, w.ids[k]);
    CompletionOccupancy(w.tx, w.tx.transmitted[k].Addr);
    NoneAfter(w, v, k);
  }

  /** The completion is reaped. */
  lemma Reaps(o: Options, reach: Wire -> bool, w: Wire) returns (v: Wire)
    requires o.Valid() && Closed(o, reach) && reach(w) && WireInv(o, w) && Pair(o, w.senders) && NoneHeld(w)
    requires w.tx.completionRing.Occupancy() == 1 && w.tx.pending == 0
    ensures reach(v) && WireInv(o, v) && SameOutside(w, v)
    ensures v.tx.completionRing.Occupancy() == 0 && v.tx.pending == 0
    ensures v.tx == w.tx.(completionRing := v.tx.completionRing, reaped := v.tx.reaped)
  {
    CountsAreExact(w.tx.completionRing);
    v := Piped(o, reach, w, CountCompleted);
    DropOccupancy(v.tx.completionRing, 1);
    v := Piped(o, reach, v, DropCompleted);
  }

  /** The message the kernel holds leaves: reported and reaped. */
  lemma Leaves(o: Options, reach: Wire -> bool, w: Wire, k: nat) returns (v: Wire)
    requires o.Valid() && Closed(o, reach) && reach(w) && WireInv(o, w) && Pair(o, w.senders) && LastHeld(w)
    requires Quiet(w.tx) && Held(w, k)
    ensures reach(v) && WireInv(o, v) && Quiet(v.tx) && NoneHeld(v) && v.ids == w.ids
    ensures v.senders.next == w.senders.next && v.senders.live == w.senders.live - {w.ids[k]}
  {
    CanReport(o, w, k);
    var u := Reports(o, reach, w, k);
    ReportKeepsInv(o, w, k);
    OneFewerIsPair(o, w.senders, u.senders, w.ids[k]);
    v := Reaps(o, reach, u);
    SameHeld(u, v);
  }

  // ---------------------------------------------------------------- laps

  /** Call a has copied its one byte 0 and not sent its descriptor; k other calls have come and gone since. */
  ghost predicate Resting(o: Options, w: Wire, a: nat, k: nat)
  {
    && WireInv(o, w) && Quiet(w.tx) && NoneHeld(w)
    && w.senders.live == map[a := Flight([0], true)] && w.senders.next == a + 1 + k && a !in w.ids
  }

  lemma RestingHasRoom(o: Options, w: Wire, a: nat, k: nat)
    requires Resting(o, w, a, k) && k < o.CompletionRingNumDescs()
    ensures Single(o, w.senders) && Pair(o, w.senders) && NextIsNew(w)
    ensures w.tx.transmitted == w.tx.sent && |w.ids| == |w.messages| == |w.tx.sent|
    ensures k + 1 < o.CompletionRingNumDescs() ==> NextIsFree(o, w.senders)
  {
    QuietHasTaken(w.tx);
    if k + 1 < o.CompletionRingNumDescs() {
      OpenWindowIsFree(o, w.senders);
    }
  }

  lemma StartHasRoom(o: Options, w: Wire)
    requires WireInit(o, w)
    ensures WireInv(o, w) && Single(o, w.senders) && Pair(o, w.senders) && NextIsFree(o, w.senders) && NoneHeld(w)
  {
    WireInitHasInv(o, w);
  }

  lemma FirstCopies(o: Options, reach: Wire -> bool, w: Wire) returns (v: Wire)
    requires o.Valid() && Closed(o, reach) && reach(w) && WireInit(o, w) && 0 < w.tx.chanCap
    ensures reach(v) && Resting(o, v, w.senders.next, 0)
  {
    StartHasRoom(o, w);
    v := ToFrame(o, reach, w, [0]);
  }

  /** One more call comes */
  lemma Comes(o: Options, reach: Wire -> bool, w: Wire, a: nat, k: nat) returns (v: Wire)
    requires o.Valid() && Closed(o, reach) && reach(w)
    requires Resting(o, w, a, k) && k + 1 < o.CompletionRingNumDescs()
    ensures reach(v) && WireInv(o, v) && Pair(o, v.senders) && Quiet(v.tx) && LastHeld(v) && Held(v, |w.ids|)
    ensures v.ids == w.ids + [w.senders.next] && v.senders.next == w.senders.next + 1
    ensures v.senders.live == w.senders.live[w.senders.next := Flight([], true)]
  {
    RestingHasRoom(o, w, a, k);
    v := ToFrame(o, reach, w, []);
    v := Delivers(o, reach, v, w.senders.next);
  }

  lemma GoneAgain(live: map<nat, Flight>, j: nat, x: Flight)
    requires j !in live
    ensures live[j := x] - {j} == live
  {
  }

  /** and goes. */
  lemma Lap(o: Options, reach: Wire -> bool, w: Wire, a: nat, k: nat) returns (v: Wire)
    requires o.Valid() && Closed(o, reach) && reach(w)
    requires Resting(o, w, a, k) && k + 1 < o.CompletionRingNumDescs()
    ensures reach(v) && Resting(o, v, a, k + 1)
  {
    var u := Comes(o, reach, w, a, k);
    v := Leaves(o, reach, u, |w.ids|);
    GoneAgain(w.senders.live, w.senders.next, Flight([], true));
  }

  lemma {:induction false} Laps(o: Options, reach: Wire -> bool, w: Wire, k: nat) returns (v: Wire)
    requires o.Valid() && Closed(o, reach) && reach(w) && WireInit(o, w) && 0 < w.tx.chanCap
    requires k < o.CompletionRingNumDescs()
    ensures reach(v) && Resting(o, v, w.senders.next, k)
  {
    if k == 0 {
      v := FirstCopies(o, reach, w);
    } else {
      v := Laps(o, reach, w, k - 1);
      v := Lap(o, reach, v, w.senders.next, k - 1);
    }
  }

  lemma FrameIsShared(o: Options, a: nat)
    requires o.Valid()
    ensures TxFrame(o, a) == TxFrame(o, a + o.CompletionRingNumDescs())
  {
    var c := o.CompletionRingNumDescs();
    SameFrameIff(o, a, a + c);
    ModUnique(c, c, 1, 0);
  }

  lemma FrameFits(o: Options, s: Senders, n: nat)
    requires SendInv(o, s)
    ensures TxFrame(o, n) < |s.umem| && |s.umem[TxFrame(o, n)]| == o.FrameSize
  {
  }

  lemma CopiedByte(o: Options, w: Wire, j: nat, v: Wire)
    requires WireEnabled(o, w, CopyMsg(j)) && v == WireApply(o, w, CopyMsg(j)) && w.senders.live[j].data == [1]
    ensures var f := TxFrame(o, j); f < |v.senders.umem| && 0 < |v.senders.umem[f]| && v.senders.umem[f][0] == 1
  {
  }

  /** A call whose frame need not be free, of one byte 1. */
  lemma IssuesAnyway(o: Options, reach: Wire -> bool, w: Wire, a: nat) returns (v: Wire)
    requires o.Valid() && Closed(o, reach) && reach(w) && Resting(o, w, a, o.CompletionRingNumDescs() - 1)
    ensures reach(v) && Pair(o, v.senders) && NoneHeld(v) && v == w.(senders := v.senders)
    ensures v.senders.live == w.senders.live[w.senders.next := Flight([1], false)]
    ensures WireEnabled(o, v, CopyMsg(w.senders.next))
  {
    RestingHasRoom(o, w, a, o.CompletionRingNumDescs() - 1);
    FrameFits(o, w.senders, w.senders.next);
    v := Issues(o, reach, w, [1]);
  }

  lemma CopiesAnyway(o: Options, reach: Wire -> bool, w: Wire, j: nat) returns (v: Wire)
    requires Closed(o, reach) && reach(w) && WireEnabled(o, w, CopyMsg(j)) && Pair(o, w.senders) && NoneHeld(w)
    requires w.senders.live[j].data == [1]
    ensures reach(v) && Pair(o, v.senders) && NoneHeld(v) && v == w.(senders := v.senders)
    ensures v.senders.live == w.senders.live[j := Flight([1], true)]
    ensures var f := TxFrame(o, j); f < |v.senders.umem| && 0 < |v.senders.umem[f]| && v.senders.umem[f][0] == 1
  {
    v := Copies(o, reach, w, j);
    CopiedByte(o, w, j, v);
  }

  /** The next call, a ring size younger, copies its byte 1 over the byte of call a. */
  lemma Overwrites(o: Options, reach: Wire -> bool, w: Wire, a: nat) returns (v: Wire)
    requires o.Valid() && Closed(o, reach) && reach(w) && Resting(o, w, a, o.CompletionRingNumDescs() - 1)
    ensures reach(v) && Pair(o, v.senders) && NoneHeld(v) && v == w.(senders := v.senders)
    ensures a in v.senders.live && v.senders.live[a] == Flight([0], true)
    ensures var f := TxFrame(o, a); f < |v.senders.umem| && 0 < |v.senders.umem[f]| && v.senders.umem[f][0] == 1
  {
    v := IssuesAnyway(o, reach, w, a);
    v := CopiesAnyway(o, reach, v, w.senders.next);
    FrameIsShared(o, a);
  }

  /** The kernel holds the message of call a, last of all taken, and finds another byte. */
  lemma ByteIsGone(o: Options, w: Wire, a: nat, k: nat)
    requires o.Valid() && |w.tx.transmitted| == |w.ids| == |w.messages| == k + 1
    requires w.ids[k] == a && w.messages[k] == [0] && w.tx.transmitted[k] == MsgDesc(o, a, [0])
    requires a in w.senders.live
    requires var f := TxFrame(o, a); f < |w.senders.umem| && 0 < |w.senders.umem[f]| && w.senders.umem[f][0] == 1
    ensures !HeldAreIntact(o, w)
  {
    FrameOfDesc(o, a);
    assert Held(w, k);
    assert w.senders.umem[TxFrame(o, a)][..1][0] == 1;
  }

  /** Now call a sends its descriptor. */
  lemma ReadsWrong(o: Options, reach: Wire -> bool, w: Wire, a: nat) returns (v: Wire)
    requires o.Valid() && Closed(o, reach) && reach(w) && Resting(o, w, a, o.CompletionRingNumDescs() - 1)
    ensures reach(v) && !HeldAreIntact(o, v)
  {
    RestingHasRoom(o, w, a, o.CompletionRingNumDescs() - 1);
    var u := Overwrites(o, reach, w, a);
    v := Delivers(o, reach, u, a);
    ByteIsGone(o, v, a, |w.ids|);
  }

  /** A limit that admits two calls a ring size apart has a run in which the kernel finds wrong bytes. */
  lemma PairsLoseBytes(o: Options, w: Wire, ok: Limit)
    requires o.Valid() && WireInit(o, w) && 0 < w.tx.chanCap && Admits(o, ok)
    ensures !BytesKept(o, w, ok)
  {
    StartHasRoom(o, w);
    var reach := ReachableIsClosed(o, w, ok);
    var t := Laps(o, reach, w, o.CompletionRingNumDescs() - 1);
    t := ReadsWrong(o, reach, t, w.senders.next);
    var steps :| WireRun(o, w, steps) == Some(t) && Within(o, w, steps, ok);
  }

  // ---------------------------------------------------------------- exactly when the bytes are kept

  lemma OneCallForcesFree(o: Options, s: Senders, data: seq<int>, d: nat)
    requires d <= 1 && SendInv(o, s) && |data| <= o.FrameSize && AtMost(SendApply(o, s, Issue(data)), d)
    ensures NextIsFree(o, s)
  {
    assert SendApply(o, s, Issue(data)).live.Keys == s.live.Keys + {s.next};
    assert |s.live.Keys| == 0;
  }

  lemma LatestForcesFree(o: Options, s: Senders, data: seq<int>, m: nat)
    requires m <= o.CompletionRingNumDescs() && SendInv(o, s) && |data| <= o.FrameSize
    requires AmongLatest(SendApply(o, s, Issue(data)), m)
    ensures NextIsFree(o, s)
  {
    var t := SendApply(o, s, Issue(data));
    assert forall j :: j in s.live ==> j in t.live;
    OpenWindowIsFree(o, s);
  }

  /** The bytes of every message are kept in all runs with at most d calls in flight, each among the m latest, if and
      only if d is at most 1 or m is at most the completion ring size; a kernel that reports in order changes
      nothing. */
  lemma BytesKeptIff(o: Options, w: Wire, d: nat, m: nat, ordered: bool)
    requires o.Valid() && WireInit(o, w) && 0 < w.tx.chanCap
    ensures BytesKept(o, w, Limited(d, m, ordered)) <==> d <= 1 || m <= o.CompletionRingNumDescs()
  {
    var ok := Limited(d, m, ordered);
    if d <= 1 || m <= o.CompletionRingNumDescs() {
      forall u: Wire, data: seq<int>
        | SendInv(o, u.senders) && WireEnabled(o, u, NewMsg(data)) && ok(WireApply(o, u, NewMsg(data)))
        ensures NextIsFree(o, u.senders)
      {
        if d <= 1 {
          OneCallForcesFree(o, u.senders, data, d);
        } else {
          LatestForcesFree(o, u.senders, data, m);
        }
      }
      FreeFramesKeepBytes(o, w, ok);
    } else {
      PairsLoseBytes(o, w, ok);
    }
  }

  /** With a limit on the number of calls only: if and only if no two of them overlap. */
  lemma InFlightKeptIff(o: Options, w: Wire, d: nat)
    requires o.Valid() && WireInit(o, w) && 0 < w.tx.chanCap
    ensures BytesKept(o, w, InFlight(d)) <==> d <= 1
  {
    var ok := InFlight(d);
    if d <= 1 {
      forall u: Wire, data: seq<int>
        | SendInv(o, u.senders) && WireEnabled(o, u, NewMsg(data)) && ok(WireApply(o, u, NewMsg(data)))
        ensures NextIsFree(o, u.senders)
      {
        OneCallForcesFree(o, u.senders, data, d);
      }
      FreeFramesKeepBytes(o, w, ok);
    } else {
      PairsLoseBytes(o, w, ok);
    }
  }

  /** With a limit on their age only: if and only if it is the completion ring size or less. */
  lemma LatestKeptIff(o: Options, w: Wire, m: nat)
    requires o.Valid() && WireInit(o, w) && 0 < w.tx.chanCap
    ensures BytesKept(o, w, Latest(m)) <==> m <= o.CompletionRingNumDescs()
  {
    var ok := Latest(m);
    if m <= o.CompletionRingNumDescs() {
      forall u: Wire, data: seq<int>
        | SendInv(o, u.senders) && WireEnabled(o, u, NewMsg(data)) && ok(WireApply(o, u, NewMsg(data)))
        ensures NextIsFree(o, u.senders)
      {
        LatestForcesFree(o, u.senders, data, m);
      }
      FreeFramesKeepBytes(o, w, ok);
    } else {
      PairsLoseBytes(o, w, ok);
    }
  }
}
