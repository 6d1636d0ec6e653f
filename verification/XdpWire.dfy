/** SendMsg and the transmit pipeline together (pkg/xdp/xdp.go): the bytes of every message, from the sender through
    its UMEM frame and the rings to what the kernel reads. */
module XdpWire {
  import opened Arith
  import opened Wrappers
  import opened XdpTx
  import opened XdpFrames

  /** `ids` and `messages` are histories beside `tx.sent`: which GetTxDesc call each descriptor came from and what
      its sender meant to send. */
  datatype Wire = Wire(tx: Tx, senders: Senders, ids: seq<nat>, messages: seq<seq<int>>)

  datatype WireStep =
    | NewMsg(data: seq<int>)   // SendMsg: GetTxDesc
    | CopyMsg(j: nat)          // SendMsg: copy into the frame
    | PutMsg(j: nat)           // SendMsg: txChan <- desc
    | Pipe(step: Step)         // txWorker, txTransmit, and the kernel taking TX entries
    | Report(k: nat)           // the kernel is done with the k-th descriptor it took and reports its frame

  /** The descriptor SendMsg puts on txChan. */
  function MsgDesc(o: Options, j: nat, data: seq<int>): Desc
  {
    Desc(TxDesc(o, j).Addr, |data|)
  }

  /** Taken by the kernel and not yet reported. */
  predicate Held(w: Wire, k: nat)
  {
    k < |w.tx.transmitted| && k < |w.ids| && w.ids[k] in w.senders.live
  }

  ghost predicate WireEnabled(o: Options, w: Wire, step: WireStep)
  {
    RingsValid(w.tx) &&
    match step
    case NewMsg(data) => SendEnabled(o, w.senders, Issue(data))
    case CopyMsg(j) => SendEnabled(o, w.senders, Copy(j))
    case PutMsg(j) =>
      && j in w.senders.live && w.senders.live[j].copied && j !in w.ids
      && Enabled(w.tx, Send(MsgDesc(o, j, w.senders.live[j].data)))
    case Pipe(s) => !s.Send? && !s.KernelComplete? && Enabled(w.tx, s)
    case Report(k) =>
      Held(w, k) && w.senders.live[w.ids[k]].copied && Enabled(w.tx, KernelComplete(w.tx.transmitted[k].Addr))
  }

  ghost function WireApply(o: Options, w: Wire, step: WireStep): Wire
    requires WireEnabled(o, w, step)
  {
    match step
    case NewMsg(data) => w.(senders := SendApply(o, w.senders, Issue(data)))
    case CopyMsg(j) => w.(senders := SendApply(o, w.senders, Copy(j)))
    case PutMsg(j) =>
      var data := w.senders.live[j].data;
      w.(tx := Apply(w.tx, Send(MsgDesc(o, j, data))), ids := w.ids + [j], messages := w.messages + [data])
    case Pipe(s) => w.(tx := Apply(w.tx, s))
    case Report(k) =>
      w.(tx := Apply(w.tx, KernelComplete(w.tx.transmitted[k].Addr)),
         senders := SendApply(o, w.senders, Complete(w.ids[k])))
  }

  // ---------------------------------------------------------------- what every step keeps

  ghost predicate Distinct(ids: seq<nat>)
  {
    forall i, k :: 0 <= i < k < |ids| ==> ids[i] != ids[k]
  }

  /** Each descriptor sent stands for its message, whose sender has copied it and whose frame it names. */
  ghost predicate SentOk(o: Options, ids: seq<nat>, messages: seq<seq<int>>, sent: seq<Desc>,
                         live: map<nat, Flight>, next: nat)
  {
    && |ids| == |messages| == |sent| && Distinct(ids)
    && (forall k :: 0 <= k < |ids| ==> ids[k] < next)
    && (forall k :: 0 <= k < |ids| ==> sent[k] == MsgDesc(o, ids[k], messages[k]))
    && (forall k :: 0 <= k < |ids| && ids[k] in live ==> live[ids[k]] == Flight(messages[k], true))
  }

  /** The addresses of the first n descriptors whose calls are in live. */
  ghost function HeldBag(o: Options, ids: seq<nat>, n: nat, live: set<nat>): multiset<nat>
    requires n <= |ids|
  {
    if n == 0 then multiset{}
    else HeldBag(o, ids, n - 1, live) + if ids[n - 1] in live then multiset{TxDesc(o, ids[n - 1]).Addr} else multiset{}
  }

  /** Of the n descriptors taken the kernel holds the frames of those not reported; those not taken are in flight. */
  ghost predicate KernelOk(o: Options, ids: seq<nat>, n: nat, live: set<nat>, inKernel: multiset<nat>)
  {
    && n <= |ids|
    && (forall k :: n <= k < |ids| ==> ids[k] in live)
    && inKernel == HeldBag(o, ids, n, live)
  }

  ghost predicate WireInv(o: Options, w: Wire)
  {
    && Inv(w.tx) && SendInv(o, w.senders)
    && SentOk(o, w.ids, w.messages, w.tx.sent, w.senders.live, w.senders.next)
    && KernelOk(o, w.ids, |w.tx.transmitted|, w.senders.live.Keys, w.tx.inKernel)
  }

  lemma {:induction false} HeldBagSame(o: Options, a: seq<nat>, b: seq<nat>, n: nat, live: set<nat>, rest: set<nat>)
    requires n <= |a| && n <= |b|
    requires forall k :: 0 <= k < n ==> a[k] == b[k] && (a[k] in live <==> a[k] in rest)
    ensures HeldBag(o, a, n, live) == HeldBag(o, b, n, rest)
  {
    if n > 0 {
      HeldBagSame(o, a, b, n - 1, live, rest);
    }
  }

  lemma {:induction false} HeldBagWithout(o: Options, ids: seq<nat>, n: nat, live: set<nat>, k: nat)
    requires k < n <= |ids| && Distinct(ids) && ids[k] in live
    ensures HeldBag(o, ids, n, live) == HeldBag(o, ids, n, live - {ids[k]}) + multiset{TxDesc(o, ids[k]).Addr}
  {
    if k < n - 1 {
      HeldBagWithout(o, ids, n - 1, live, k);
    } else {
      HeldBagSame(o, ids, ids, n - 1, live, live - {ids[k]});
    }
  }

  lemma {:induction false} HeldBagWitness(o: Options, ids: seq<nat>, n: nat, live: set<nat>, a: nat) returns (k: nat)
    requires n <= |ids| && a in HeldBag(o, ids, n, live)
    ensures k < n && ids[k] in live && TxDesc(o, ids[k]).Addr == a
  {
    if ids[n - 1] in live && TxDesc(o, ids[n - 1]).Addr == a {
      k := n - 1;
    } else {
      k := HeldBagWitness(o, ids, n - 1, live, a);
    }
  }

  lemma NewMsgKeepsInv(o: Options, w: Wire, data: seq<int>)
    requires o.Valid() && WireInv(o, w) && WireEnabled(o, w, NewMsg(data)) && NextIsFree(o, w.senders)
    ensures WireInv(o, WireApply(o, w, NewMsg(data)))
  {
    var v := WireApply(o, w, NewMsg(data));
    SendStepKeepsInv(o, w.senders, Issue(data));
    HeldBagSame(o, w.ids, w.ids, |w.tx.transmitted|, w.senders.live.Keys, v.senders.live.Keys);
  }

  lemma CopyMsgKeepsInv(o: Options, w: Wire, j: nat)
    requires o.Valid() && WireInv(o, w) && WireEnabled(o, w, CopyMsg(j))
    ensures WireInv(o, WireApply(o, w, CopyMsg(j)))
  {
    var v := WireApply(o, w, CopyMsg(j));
    SendStepKeepsInv(o, w.senders, Copy(j));
    HeldBagSame(o, w.ids, w.ids, |w.tx.transmitted|, w.senders.live.Keys, v.senders.live.Keys);
  }

  lemma PutKeepsSent(o: Options, ids: seq<nat>, messages: seq<seq<int>>, sent: seq<Desc>,
                     live: map<nat, Flight>, next: nat, j: nat)
    requires SentOk(o, ids, messages, sent, live, next) && j in live && live[j].copied && j !in ids && j < next
    ensures SentOk(o, ids + [j], messages + [live[j].data], sent + [MsgDesc(o, j, live[j].data)], live, next)
  {
  }

  lemma PutKeepsKernel(o: Options, ids: seq<nat>, n: nat, live: set<nat>, inKernel: multiset<nat>, j: nat)
    requires KernelOk(o, ids, n, live, inKernel) && j in live
    ensures KernelOk(o, ids + [j], n, live, inKernel)
  {
    HeldBagSame(o, ids, ids + [j], n, live, live);
  }

  lemma PutMsgKeepsInv(o: Options, w: Wire, j: nat)
    requires o.Valid() && WireInv(o, w) && WireEnabled(o, w, PutMsg(j))
    ensures WireInv(o, WireApply(o, w, PutMsg(j)))
  {
    StepKeepsInv(w.tx, Send(MsgDesc(o, j, w.senders.live[j].data)));
    PutKeepsSent(o, w.ids, w.messages, w.tx.sent, w.senders.live, w.senders.next, j);
    PutKeepsKernel(o, w.ids, |w.tx.transmitted|, w.senders.live.Keys, w.tx.inKernel, j);
  }

  /** The kernel takes the descriptor whose turn it is. */
  lemma TakesNext(w: Wire)
    requires Inv(w.tx) && Enabled(w.tx, KernelTake)
    ensures var n := |w.tx.transmitted|; var d := w.tx.txRing.Peek();
            n < |w.tx.sent| && w.tx.sent[n] == d && Apply(w.tx, KernelTake).transmitted == w.tx.transmitted + [d]
  {
    StepKeepsInv(w.tx, KernelTake);
    KernelSawPrefix(Apply(w.tx, KernelTake));
  }

  lemma KernelTakeKeepsWire(o: Options, w: Wire)
    requires o.Valid() && WireInv(o, w) && WireEnabled(o, w, Pipe(KernelTake))
    ensures WireInv(o, WireApply(o, w, Pipe(KernelTake)))
  {
    StepKeepsInv(w.tx, KernelTake);
    TakesNext(w);
  }

  lemma PipeKeepsInv(o: Options, w: Wire, step: Step)
    requires o.Valid() && WireInv(o, w) && WireEnabled(o, w, Pipe(step))
    ensures WireInv(o, WireApply(o, w, Pipe(step)))
  {
    if step.KernelTake? {
      KernelTakeKeepsWire(o, w);
    } else {
      StepKeepsInv(w.tx, step);
    }
  }

  lemma ReportKeepsSent(o: Options, ids: seq<nat>, messages: seq<seq<int>>, sent: seq<Desc>,
                        live: map<nat, Flight>, next: nat, j: nat)
    requires SentOk(o, ids, messages, sent, live, next)
    ensures SentOk(o, ids, messages, sent, map k | k in live && k != j :: live[k], next)
  {
  }

  lemma ReportKeepsKernel(o: Options, ids: seq<nat>, n: nat, live: set<nat>, inKernel: multiset<nat>, k: nat)
    requires KernelOk(o, ids, n, live, inKernel) && k < n && Distinct(ids) && ids[k] in live
    ensures KernelOk(o, ids, n, live - {ids[k]}, inKernel - multiset{TxDesc(o, ids[k]).Addr})
  {
    HeldBagWithout(o, ids, n, live, k);
  }

  /** What the kernel has taken names the frame of its call. */
  lemma TakenNames(o: Options, w: Wire, k: nat)
    requires WireInv(o, w) && k < |w.tx.transmitted|
    ensures w.tx.transmitted[k] == MsgDesc(o, w.ids[k], w.messages[k])
  {
    KernelSawPrefix(w.tx);
  }

  lemma CompleteStep(s: Tx, a: nat, t: Tx)
    requires Inv(s) && Enabled(s, KernelComplete(a)) && t == Apply(s, KernelComplete(a))
    ensures Inv(t) && t.sent == s.sent && t.transmitted == s.transmitted && t.inKernel == s.inKernel - multiset{a}
  {
    StepKeepsInv(s, KernelComplete(a));
  }

  /** The sender's side of a report, once the rings have done theirs. */
  lemma ReportKeepsRest(o: Options, w: Wire, k: nat, t: Tx, u: Senders)
    requires o.Valid() && WireInv(o, w) && Held(w, k)
    requires SendEnabled(o, w.senders, Complete(w.ids[k])) && u == SendApply(o, w.senders, Complete(w.ids[k]))
    requires Inv(t) && t.sent == w.tx.sent && t.transmitted == w.tx.transmitted
    requires t.inKernel == w.tx.inKernel - multiset{TxDesc(o, w.ids[k]).Addr}
    ensures WireInv(o, Wire(t, u, w.ids, w.messages))
  {
    var j, live := w.ids[k], w.senders.live;
    SendStepKeepsInv(o, w.senders, Complete(j));
    ReportKeepsSent(o, w.ids, w.messages, w.tx.sent, live, w.senders.next, j);
    ReportKeepsKernel(o, w.ids, |w.tx.transmitted|, live.Keys, w.tx.inKernel, k);
    assert u.live.Keys == live.Keys - {j};
  }

  lemma ReportKeepsInv(o: Options, w: Wire, k: nat)
    requires o.Valid() && WireInv(o, w) && WireEnabled(o, w, Report(k))
    ensures WireInv(o, WireApply(o, w, Report(k)))
  {
    var v := WireApply(o, w, Report(k));
    TakenNames(o, w, k);
    CompleteStep(w.tx, w.tx.transmitted[k].Addr, v.tx);
    ReportKeepsRest(o, w, k, v.tx, v.senders);
  }

  /** Every step keeps all this, provided a new message gets a free frame. */
  lemma WireStepKeepsInv(o: Options, w: Wire, step: WireStep)
    requires o.Valid() && WireInv(o, w) && WireEnabled(o, w, step)
    requires step.NewMsg? ==> NextIsFree(o, w.senders)
    ensures WireInv(o, WireApply(o, w, step))
  {
    match step
    case NewMsg(data) => NewMsgKeepsInv(o, w, data);
    case CopyMsg(j) => CopyMsgKeepsInv(o, w, j);
    case PutMsg(j) => PutMsgKeepsInv(o, w, j);
    case Pipe(s) => PipeKeepsInv(o, w, s);
    case Report(k) => ReportKeepsInv(o, w, k);
  }

  // ---------------------------------------------------------------- runs

  ghost function WireRun(o: Options, w: Wire, steps: seq<WireStep>): Option<Wire>
  {
    if steps == [] then Some(w)
    else
      match WireRun(o, w, steps[..|steps| - 1])
      case None => None
      case Some(u) =>
        var step := steps[|steps| - 1];
        if WireEnabled(o, u, step) then Some(WireApply(o, u, step)) else None
  }

  /** Empty rings and a UMEM of whole frames with room for both halves. */
  ghost predicate WireInit(o: Options, w: Wire)
  {
    Init(w.tx) && SendInv(o, w.senders) && w.senders.live == map[] && w.ids == [] && w.messages == []
  }

  lemma WireInitHasInv(o: Options, w: Wire)
    requires WireInit(o, w)
    ensures WireInv(o, w)
  {
    InitHasInv(w.tx);
  }

  /** At each GetTxDesc of the run the next frame is free. */
  ghost predicate AlwaysFree(o: Options, w: Wire, steps: seq<WireStep>)
  {
    steps != [] ==>
      var init, last := steps[..|steps| - 1], steps[|steps| - 1];
      && AlwaysFree(o, w, init)
      && (last.NewMsg? && WireRun(o, w, init).Some? ==> NextIsFree(o, WireRun(o, w, init).value.senders))
  }

  lemma {:induction false} WireRunKeepsInv(o: Options, w: Wire, steps: seq<WireStep>)
    requires o.Valid() && WireInv(o, w) && AlwaysFree(o, w, steps)
    ensures WireRun(o, w, steps).Some? ==> WireInv(o, WireRun(o, w, steps).value)
  {
    if steps != [] && WireRun(o, w, steps).Some? {
      WireRunKeepsInv(o, w, steps[..|steps| - 1]);
      WireStepKeepsInv(o, WireRun(o, w, steps[..|steps| - 1]).value, steps[|steps| - 1]);
    }
  }

  /** The kernel, looking up the descriptor, finds these bytes. */
  ghost predicate Finds(umem: seq<seq<int>>, frameSize: nat, d: Desc, data: seq<int>)
    requires frameSize > 0
  {
    var f := d.Addr / frameSize;
    d.Addr == f * frameSize && f < |umem| && d.Len <= |umem[f]| && umem[f][..d.Len] == data
  }

  lemma FrameOfDesc(o: Options, j: nat)
    requires o.Valid()
    ensures TxDesc(o, j).Addr / o.FrameSize == TxFrame(o, j) && TxDesc(o, j).Addr == TxFrame(o, j) * o.FrameSize
  {
    ModUnique(TxDesc(o, j).Addr, o.FrameSize, TxFrame(o, j), 0);
  }

  lemma HeldIsIntact(o: Options, w: Wire, k: nat)
    requires o.Valid() && WireInv(o, w) && Held(w, k)
    ensures Finds(w.senders.umem, o.FrameSize, w.tx.transmitted[k], w.messages[k])
  {
    TakenNames(o, w, k);
    FrameOfDesc(o, w.ids[k]);
  }

  /** Every frame the kernel may report is that of a descriptor it has taken and not reported: taking reports by
      descriptor leaves no choice of the kernel out. */
  ghost predicate ReportsAreHeld(w: Wire)
  {
    forall a :: a in w.tx.inKernel ==> exists k: nat :: Held(w, k) && w.tx.transmitted[k].Addr == a
  }

  lemma EveryReportIsHeld(o: Options, w: Wire)
    requires WireInv(o, w)
    ensures ReportsAreHeld(w)
  {
    forall a | a in w.tx.inKernel ensures exists k: nat :: Held(w, k) && w.tx.transmitted[k].Addr == a {
      var k := HeldBagWitness(o, w.ids, |w.tx.transmitted|, w.senders.live.Keys, a);
      TakenNames(o, w, k);
      assert Held(w, k);
    }
  }

  /** From a descriptor's taking to its frame's report the kernel finds there exactly the bytes its sender meant. */
  ghost predicate HeldAreIntact(o: Options, w: Wire)
    requires o.Valid()
  {
    forall k: nat :: Held(w, k) ==>
      k < |w.messages| && Finds(w.senders.umem, o.FrameSize, w.tx.transmitted[k], w.messages[k])
  }

  lemma AllHeldAreIntact(o: Options, w: Wire)
    requires o.Valid() && WireInv(o, w)
    ensures HeldAreIntact(o, w)
  {
    forall k: nat | Held(w, k)
      ensures k < |w.messages| && Finds(w.senders.umem, o.FrameSize, w.tx.transmitted[k], w.messages[k])
    {
      HeldIsIntact(o, w, k);
    }
  }

  /** In every run that gives out free frames only, whatever senders, worker and kernel do: the kernel takes the
      descriptors in the order of their messages and reads the bytes of each as they were sent. */
  lemma KernelReadsWhatWasSent(o: Options, w: Wire, steps: seq<WireStep>)
    requires o.Valid() && WireInit(o, w) && WireRun(o, w, steps).Some? && AlwaysFree(o, w, steps)
    ensures var t := WireRun(o, w, steps).value;
            && t.tx.transmitted <= t.tx.sent && |t.messages| == |t.tx.sent|
            && HeldAreIntact(o, t) && ReportsAreHeld(t) && SendInv(o, t.senders)
  {
    var t := WireRun(o, w, steps).value;
    WireInitHasInv(o, w);
    WireRunKeepsInv(o, w, steps);
    KernelSawPrefix(t.tx);
    AllHeldAreIntact(o, t);
    EveryReportIsHeld(o, t);
  }
}
