/** The receive side of pkg/xdp/xdp.go: where each receive frame is, over any mix of Fill, Receive and kernel
    steps. */
module XdpRx {
  import opened Arith
  import opened Wrappers
  import opened XdpTx

  /** addr / frameSize, counted frame by frame to keep variable division out of the proofs. */
  function FrameOf(addr: nat, frameSize: nat): nat
    requires frameSize > 0
  {
    if addr < frameSize then 0 else 1 + FrameOf(addr - frameSize, frameSize)
  }

  lemma {:induction false} FrameOfIsQuotient(addr: nat, frameSize: nat)
    requires frameSize > 0
    ensures FrameOf(addr, frameSize) == addr / frameSize
  {
    if addr < frameSize {
      ModUnique(addr, frameSize, 0, addr);
    } else {
      FrameOfIsQuotient(addr - frameSize, frameSize);
      var q, r := (addr - frameSize) / frameSize, (addr - frameSize) % frameSize;
      Distribute(frameSize, q, 1);
      ModUnique(addr, frameSize, q + 1, r);
    }
  }

  /** `fillQ` and `rxQ` are the contents of the fill and RX rings, `inKernel` the frames the kernel took from
      the fill ring and has not delivered. */
  datatype Rx = Rx(
    frameSize: nat, fillCap: nat, rxCap: nat,
    free: seq<bool>, fillQ: seq<nat>, inKernel: multiset<nat>, rxQ: seq<Desc>, numFilled: int)

  ghost function AddrFrames(q: seq<nat>, frameSize: nat): multiset<nat>
    requires frameSize > 0
  {
    if q == [] then multiset{}
    else AddrFrames(q[..|q| - 1], frameSize) + multiset{FrameOf(q[|q| - 1], frameSize)}
  }

  ghost function DescFrames(q: seq<Desc>, frameSize: nat): multiset<nat>
    requires frameSize > 0
  {
    if q == [] then multiset{}
    else DescFrames(q[..|q| - 1], frameSize) + multiset{FrameOf(q[|q| - 1].Addr, frameSize)}
  }

  /** All frames that are not free, wherever they are. */
  ghost function Busy(s: Rx): multiset<nat>
    requires s.frameSize > 0
  {
    AddrFrames(s.fillQ, s.frameSize) + s.inKernel + DescFrames(s.rxQ, s.frameSize)
  }

  /** The frames below n that are not marked free, once each. */
  ghost function NotFree(free: seq<bool>, n: nat): multiset<nat>
    requires n <= |free|
  {
    if n == 0 then multiset{} else NotFree(free, n - 1) + (if free[n - 1] then multiset{} else multiset{n - 1})
  }

  /** The fill ring, the kernel and the RX ring together hold exactly the frames not marked free, each once;
      numFilled counts them; neither ring is overrun. */
  ghost predicate Conserved(s: Rx)
  {
    && s.frameSize > 0
    && Busy(s) == NotFree(s.free, |s.free|)
    && s.numFilled == |Busy(s)|
    && |s.fillQ| <= s.fillCap && |s.rxQ| <= s.rxCap
  }

  ghost predicate IsFree(s: Rx, addr: nat)
  {
    s.frameSize > 0 && FrameOf(addr, s.frameSize) < |s.free| && s.free[FrameOf(addr, s.frameSize)]
  }

  // ---------------------------------------------------------------- steps

  /** One turn of the loop in Fill. */
  function FillOne(s: Rx, d: Desc): Rx
    requires s.frameSize > 0 && FrameOf(d.Addr, s.frameSize) < |s.free|
  {
    s.(fillQ := s.fillQ + [d.Addr], free := s.free[FrameOf(d.Addr, s.frameSize) := false],
       numFilled := s.numFilled + 1)
  }

  /** Distinct free descriptors, as GetRxDescs and Receive give them out. */
  ghost predicate Fillable(s: Rx, descs: seq<Desc>)
  {
    && s.frameSize > 0
    && (forall i :: 0 <= i < |descs| ==> IsFree(s, descs[i].Addr))
    && (forall i, j :: 0 <= i < j < |descs| ==>
          FrameOf(descs[i].Addr, s.frameSize) != FrameOf(descs[j].Addr, s.frameSize))
  }

  ghost predicate AllInRange(s: Rx, descs: seq<Desc>)
  {
    s.frameSize > 0 && forall i :: 0 <= i < |descs| ==> FrameOf(descs[i].Addr, s.frameSize) < |s.free|
  }

  /** The first n turns of the loop in Fill. */
  ghost function FillTo(s: Rx, descs: seq<Desc>, n: nat): (t: Rx)
    requires AllInRange(s, descs) && n <= |descs|
    ensures |t.free| == |s.free| && t.frameSize == s.frameSize
  {
    if n == 0 then s else FillOne(FillTo(s, descs, n - 1), descs[n - 1])
  }

  /** One turn of the loop in Receive. */
  function ReceiveOne(s: Rx): Rx
    requires s.frameSize > 0 && s.rxQ != [] && FrameOf(s.rxQ[0].Addr, s.frameSize) < |s.free|
  {
    s.(rxQ := s.rxQ[1..], free := s.free[FrameOf(s.rxQ[0].Addr, s.frameSize) := true], numFilled := s.numFilled - 1)
  }

  /** The first n turns of the loop in Receive. */
  ghost function ReceiveTo(s: Rx, n: nat): (t: Rx)
    requires AllInRange(s, s.rxQ) && n <= |s.rxQ|
    ensures t.rxQ == s.rxQ[n..] && |t.free| == |s.free| && t.frameSize == s.frameSize
  {
    if n == 0 then s else ReceiveOne(ReceiveTo(s, n - 1))
  }

  /** Receiving changes nothing but the RX queue, the free marks and the count. */
  lemma {:induction false} ReceiveToFields(s: Rx, n: nat)
    requires AllInRange(s, s.rxQ) && n <= |s.rxQ|
    ensures var t := ReceiveTo(s, n); t == s.(rxQ := s.rxQ[n..], free := t.free, numFilled := s.numFilled - n)
  {
    if n > 0 {
      ReceiveToFields(s, n - 1);
    }
  }

  /** The kernel consumes the oldest fill entry. */
  ghost function KernelTake(s: Rx): Rx
    requires s.frameSize > 0 && s.fillQ != []
  {
    s.(fillQ := s.fillQ[1..], inKernel := s.inKernel + multiset{FrameOf(s.fillQ[0], s.frameSize)})
  }

  /** The kernel delivers into a frame it holds; the address may lie anywhere inside that frame. */
  ghost function KernelDeliver(s: Rx, d: Desc): Rx
    requires s.frameSize > 0 && FrameOf(d.Addr, s.frameSize) in s.inKernel
  {
    s.(inKernel := s.inKernel - multiset{FrameOf(d.Addr, s.frameSize)}, rxQ := s.rxQ + [d])
  }

  // ---------------------------------------------------------------- every step conserves

  lemma {:induction false} AddrFramesHead(q: seq<nat>, frameSize: nat)
    requires frameSize > 0 && q != []
    ensures AddrFrames(q, frameSize) == multiset{FrameOf(q[0], frameSize)} + AddrFrames(q[1..], frameSize)
  {
    var n := |q| - 1;
    if n > 0 {
      AddrFramesHead(q[..n], frameSize);
      assert q[..n][1..] == q[1..][..n - 1];
    }
  }

  lemma {:induction false} DescFramesHead(q: seq<Desc>, frameSize: nat)
    requires frameSize > 0 && q != []
    ensures DescFrames(q, frameSize) == multiset{FrameOf(q[0].Addr, frameSize)} + DescFrames(q[1..], frameSize)
  {
    var n := |q| - 1;
    if n > 0 {
      DescFramesHead(q[..n], frameSize);
      assert q[..n][1..] == q[1..][..n - 1];
    }
  }

  lemma {:induction false} NotFreeUpdate(free: seq<bool>, n: nat, f: nat)
    requires n <= |free| && f < |free| && free[f]
    ensures NotFree(free[f := false], n) == NotFree(free, n) + (if f < n then multiset{f} else multiset{})
  {
    if n > 0 {
      NotFreeUpdate(free, n - 1, f);
    }
  }

  lemma {:induction false} NotFreeCounts(free: seq<bool>, n: nat, f: nat)
    requires n <= |free|
    ensures NotFree(free, n)[f] == if f < n && !free[f] then 1 else 0
  {
    if n > 0 {
      NotFreeCounts(free, n - 1, f);
    }
  }

  /** In a conserved state every frame is in exactly one place: free, fill ring, kernel or RX ring. */
  lemma ExactlyOnePlace(s: Rx, f: nat)
    requires Conserved(s) && f < |s.free|
    ensures (if s.free[f] then 1 else 0)
            + AddrFrames(s.fillQ, s.frameSize)[f] + s.inKernel[f] + DescFrames(s.rxQ, s.frameSize)[f] == 1
  {
    NotFreeCounts(s.free, |s.free|, f);
    assert Busy(s)[f] == NotFree(s.free, |s.free|)[f];
  }

  lemma BusyIsMarked(s: Rx, f: nat)
    requires Conserved(s) && f in Busy(s)
    ensures f < |s.free| && !s.free[f]
  {
    NotFreeCounts(s.free, |s.free|, f);
  }

  /** t is s with the free frame f made busy. */
  ghost predicate OneMoreBusy(s: Rx, t: Rx, f: nat)
  {
    && s.frameSize > 0 && t.frameSize > 0 && f < |s.free| && s.free[f]
    && Busy(t) == Busy(s) + multiset{f}
    && t.free == s.free[f := false]
    && t.numFilled == s.numFilled + 1
  }

  lemma AddBusy(s: Rx, t: Rx, f: nat)
    requires Conserved(s) && OneMoreBusy(s, t, f) && |t.fillQ| <= t.fillCap && |t.rxQ| <= t.rxCap
    ensures Conserved(t)
  {
    NotFreeUpdate(s.free, |s.free|, f);
  }

  lemma Cancel(a: multiset<nat>, b: multiset<nat>, f: nat)
    requires a + multiset{f} == b + multiset{f}
    ensures a == b
  {
    assert a == (a + multiset{f}) - multiset{f};
    assert b == (b + multiset{f}) - multiset{f};
  }

  lemma RemoveBusy(s: Rx, t: Rx, f: nat)
    requires Conserved(t) && OneMoreBusy(s, t, f) && |s.fillQ| <= s.fillCap && |s.rxQ| <= s.rxCap
    ensures Conserved(s)
  {
    NotFreeUpdate(s.free, |s.free|, f);
    Cancel(Busy(s), NotFree(s.free, |s.free|), f);
  }

  lemma FillOneConserves(s: Rx, d: Desc)
    requires Conserved(s) && IsFree(s, d.Addr) && |s.fillQ| < s.fillCap
    ensures Conserved(FillOne(s, d))
  {
    var t := FillOne(s, d);
    assert t.fillQ[..|t.fillQ| - 1] == s.fillQ;
    AddBusy(s, t, FrameOf(d.Addr, s.frameSize));
  }

  lemma {:induction false} FillToFrame(s: Rx, descs: seq<Desc>, n: nat, f: nat)
    requires AllInRange(s, descs) && n <= |descs| && f < |s.free|
    requires forall i :: 0 <= i < n ==> FrameOf(descs[i].Addr, s.frameSize) != f
    ensures FillTo(s, descs, n).free[f] == s.free[f]
  {
    if n > 0 {
      FillToFrame(s, descs, n - 1, f);
    }
  }

  /** Filling appends the addresses in order and changes nothing but the fill queue, the free marks and the
      count. */
  lemma {:induction false} FillToQueue(s: Rx, descs: seq<Desc>, n: nat)
    requires AllInRange(s, descs) && n <= |descs|
    ensures var t := FillTo(s, descs, n);
            && t == s.(fillQ := t.fillQ, free := t.free, numFilled := s.numFilled + n)
            && |t.fillQ| == |s.fillQ| + n
            && t.fillQ[..|s.fillQ|] == s.fillQ
            && forall k :: 0 <= k < n ==> t.fillQ[|s.fillQ| + k] == descs[k].Addr
  {
    if n > 0 {
      FillToQueue(s, descs, n - 1);
    }
  }

  /** After n turns of the loop the next descriptor is still free and still fits. */
  ghost predicate NextFits(s: Rx, descs: seq<Desc>, n: nat)
    requires AllInRange(s, descs) && n < |descs|
  {
    var t := FillTo(s, descs, n);
    IsFree(t, descs[n].Addr) && |t.fillQ| < t.fillCap
  }

  lemma NextStillFits(s: Rx, descs: seq<Desc>, n: nat)
    requires Fillable(s, descs) && AllInRange(s, descs) && n < |descs| && |s.fillQ| + n < s.fillCap
    ensures NextFits(s, descs, n)
  {
    FillToQueue(s, descs, n);
    FillToFrame(s, descs, n, FrameOf(descs[n].Addr, s.frameSize));
  }

  lemma FillTurnConserves(s: Rx, descs: seq<Desc>, n: nat)
    requires AllInRange(s, descs) && n < |descs|
    requires NextFits(s, descs, n) && Conserved(FillTo(s, descs, n))
    ensures Conserved(FillTo(s, descs, n + 1))
  {
    FillOneConserves(FillTo(s, descs, n), descs[n]);
  }

  lemma FillTurnsConserve(s: Rx, descs: seq<Desc>, n: nat)
    requires AllInRange(s, descs) && n <= |descs|
    requires Conserved(FillTo(s, descs, 0))
    requires forall k {:trigger NextFits(s, descs, k)} :: 0 <= k < n ==> NextFits(s, descs, k)
    ensures Conserved(FillTo(s, descs, n))
  {
    for k := 0 to n
      invariant Conserved(FillTo(s, descs, k))
    {
      FillTurnConserves(s, descs, k);
    }
  }

  /** Submitting distinct free descriptors that fit keeps every frame in exactly one place. */
  lemma FillConserves(s: Rx, descs: seq<Desc>, n: nat)
    requires Conserved(s) && Fillable(s, descs) && n <= |descs| && |s.fillQ| + n <= s.fillCap
    ensures AllInRange(s, descs) && Conserved(FillTo(s, descs, n))
  {
    forall k | 0 <= k < n ensures NextFits(s, descs, k) {
      NextStillFits(s, descs, k);
    }
    FillTurnsConserve(s, descs, n);
  }

  lemma BusyHasReceived(s: Rx)
    requires Conserved(s)
    ensures AllInRange(s, s.rxQ)
  {
    forall i | 0 <= i < |s.rxQ| ensures FrameOf(s.rxQ[i].Addr, s.frameSize) < |s.free| {
      DescFramesHas(s.rxQ, s.frameSize, i);
      BusyIsMarked(s, FrameOf(s.rxQ[i].Addr, s.frameSize));
    }
  }

  lemma {:induction false} DescFramesHas(q: seq<Desc>, frameSize: nat, i: nat)
    requires frameSize > 0 && i < |q|
    ensures FrameOf(q[i].Addr, frameSize) in DescFrames(q, frameSize)
  {
    if i < |q| - 1 {
      DescFramesHas(q[..|q| - 1], frameSize, i);
    }
  }

  lemma ReceiveOneConserves(s: Rx)
    requires Conserved(s) && s.rxQ != [] && FrameOf(s.rxQ[0].Addr, s.frameSize) < |s.free|
    ensures Conserved(ReceiveOne(s))
  {
    var f, t := FrameOf(s.rxQ[0].Addr, s.frameSize), ReceiveOne(s);
    DescFramesHead(s.rxQ, s.frameSize);
    BusyIsMarked(s, f);
    assert s.free == t.free[f := false];
    RemoveBusy(t, s, f);
  }

  lemma {:induction false} ReceiveConserves(s: Rx, n: nat)
    requires Conserved(s) && n <= |s.rxQ|
    ensures AllInRange(s, s.rxQ) && Conserved(ReceiveTo(s, n))
  {
    BusyHasReceived(s);
    if n > 0 {
      var t := ReceiveTo(s, n - 1);
      assert Conserved(t) by { ReceiveConserves(s, n - 1); }
      BusyHasReceived(t);
      ReceiveOneConserves(t);
    }
  }

  lemma SameBusy(s: Rx, t: Rx)
    requires Conserved(s) && t.frameSize > 0 && Busy(t) == Busy(s)
    requires t.free == s.free && t.numFilled == s.numFilled && |t.fillQ| <= t.fillCap && |t.rxQ| <= t.rxCap
    ensures Conserved(t)
  {
  }

  lemma KernelTakeConserves(s: Rx)
    requires Conserved(s) && s.fillQ != []
    ensures Conserved(KernelTake(s))
  {
    AddrFramesHead(s.fillQ, s.frameSize);
    SameBusy(s, KernelTake(s));
  }

  lemma KernelDeliverConserves(s: Rx, d: Desc)
    requires Conserved(s) && FrameOf(d.Addr, s.frameSize) in s.inKernel && |s.rxQ| < s.rxCap
    ensures Conserved(KernelDeliver(s, d))
  {
    var t := KernelDeliver(s, d);
    assert t.rxQ[..|t.rxQ| - 1] == s.rxQ;
    SameBusy(s, t);
  }

  // ---------------------------------------------------------------- runs

  /** `slots` is what NumFreeFillSlots returned to a Fill in progress, `available` what NumReceived returned to a
      Receive in progress. The kernel moves on while they get stale. */
  datatype Host = Host(rx: Rx, slots: nat, available: nat)

  datatype RxStep =
    | CountSlots                 // Fill: NumFreeFillSlots
    | Fill(descs: seq<Desc>)     // the rest of Fill
    | CountReceived              // Receive: NumReceived
    | Receive(num: nat)          // the rest of Receive
    | Take                       // the kernel consumes a fill entry
    | Deliver(d: Desc)           // the kernel produces an RX entry

  function Min(a: nat, b: nat): (m: nat)
    ensures m <= a && m <= b && (m == a || m == b)
  {
    if a < b then a else b
  }

  /** What the calls need to run without a panic, and what the kernel may do. */
  ghost predicate RxEnabled(h: Host, step: RxStep)
  {
    var s := h.rx;
    match step
    case CountSlots => |s.fillQ| <= s.fillCap
    case Fill(descs) => AllInRange(s, descs)
    case CountReceived => true
    case Receive(_) => AllInRange(s, s.rxQ) && h.available <= |s.rxQ|
    case Take => s.frameSize > 0 && s.fillQ != []
    case Deliver(d) => s.frameSize > 0 && FrameOf(d.Addr, s.frameSize) in s.inKernel && |s.rxQ| < s.rxCap
  }

  ghost function RxApply(h: Host, step: RxStep): Host
    requires RxEnabled(h, step)
  {
    match step
    case CountSlots => h.(slots := h.rx.fillCap - |h.rx.fillQ|)
    case Fill(descs) => h.(rx := FillTo(h.rx, descs, Min(h.slots, |descs|)), slots := 0)
    case CountReceived => h.(available := |h.rx.rxQ|)
    case Receive(num) => h.(rx := ReceiveTo(h.rx, Min(num, h.available)), available := 0)
    case Take => h.(rx := KernelTake(h.rx))
    case Deliver(d) => h.(rx := KernelDeliver(h.rx, d))
  }

  /** Every frame is in one place and the counts, however stale, are safe to use. */
  ghost predicate HostInv(h: Host)
  {
    Conserved(h.rx) && |h.rx.fillQ| + h.slots <= h.rx.fillCap && h.available <= |h.rx.rxQ|
  }

  /** The contract of Fill: distinct free descriptors. Receive has none. */
  ghost predicate CallerOk(h: Host, step: RxStep)
  {
    step.Fill? ==> Fillable(h.rx, step.descs)
  }

  /** Calls that keep the contract never panic. */
  lemma CallsCanRun(h: Host, step: RxStep)
    requires HostInv(h) && CallerOk(h, step) && !step.Take? && !step.Deliver?
    ensures RxEnabled(h, step)
  {
    BusyHasReceived(h.rx);
  }

  lemma RxStepKeepsInv(h: Host, step: RxStep)
    requires HostInv(h) && CallerOk(h, step) && RxEnabled(h, step)
    ensures HostInv(RxApply(h, step))
  {
    match step
    case Fill(descs) =>
      FillConserves(h.rx, descs, Min(h.slots, |descs|));
      FillToQueue(h.rx, descs, Min(h.slots, |descs|));
    case Receive(num) =>
      ReceiveConserves(h.rx, Min(num, h.available));
      ReceiveToFields(h.rx, Min(num, h.available));
    case Take => KernelTakeConserves(h.rx);
    case Deliver(d) => KernelDeliverConserves(h.rx, d);
    case CountSlots =>
    case CountReceived =>
  }

  ghost function RxRun(h: Host, steps: seq<RxStep>): Option<Host>
  {
    if steps == [] then Some(h)
    else
      match RxRun(h, steps[..|steps| - 1])
      case None => None
      case Some(u) =>
        var step := steps[|steps| - 1];
        if CallerOk(u, step) && RxEnabled(u, step) then Some(RxApply(u, step)) else None
  }

  /** The state NewSocket leaves behind. */
  ghost predicate RxInit(s: Rx)
  {
    && s.frameSize > 0 && s.fillQ == [] && s.rxQ == [] && s.inKernel == multiset{} && s.numFilled == 0
    && forall f :: 0 <= f < |s.free| ==> s.free[f]
  }

  lemma {:induction false} NothingNotFree(free: seq<bool>, n: nat)
    requires n <= |free| && forall f :: 0 <= f < n ==> free[f]
    ensures NotFree(free, n) == multiset{}
  {
    if n > 0 {
      NothingNotFree(free, n - 1);
    }
  }

  lemma InitConserves(s: Rx)
    requires RxInit(s)
    ensures Conserved(s)
  {
    NothingNotFree(s.free, |s.free|);
  }

  /** No sequence of calls and kernel steps loses or duplicates a receive frame, fills a slot that is taken or
      receives an entry that is not there, however stale the counts are when they are used. */
  lemma {:induction false} EveryRxRunConserves(s: Rx, steps: seq<RxStep>)
    requires RxInit(s)
    ensures RxRun(Host(s, 0, 0), steps).Some? ==>
      var h := RxRun(Host(s, 0, 0), steps).value;
      Conserved(h.rx) && |h.rx.fillQ| + h.slots <= h.rx.fillCap && h.available <= |h.rx.rxQ|
  {
    InitConserves(s);
    if steps != [] && RxRun(Host(s, 0, 0), steps).Some? {
      EveryRxRunConserves(s, steps[..|steps| - 1]);
      RxStepKeepsInv(RxRun(Host(s, 0, 0), steps[..|steps| - 1]).value, steps[|steps| - 1]);
    }
  }
}
