/** The transmit side of pkg/xdp/xdp.go: senders, txChan, txWorker, txTransmit and the kernel as interleaved
    atomic steps over the shared TX and completion rings. */
module XdpTx {
  import opened Ring
  import opened Wrappers

  datatype Desc = Desc(Addr: nat, Len: nat)

  /** Where txWorker stands: waiting on the channel, holding a descriptor before the full-ring test, past the
      test, or with the descriptor stored and the producer index not yet bumped. */
  datatype Worker = Idle | Holding(d: Desc) | Ready(d: Desc) | Stored(d: Desc) {
    function InHand(): seq<Desc>
    {
      if Idle? then [] else [d]
    }
  }

  /** `sent`, `transmitted` and `reaped` are histories: what senders put on txChan, what the kernel read from
      the TX ring, which addresses were dropped from the completion ring. `pending` is the number txTransmit
      read with NumCompleted and has not yet passed to Complete. */
  datatype Tx = Tx(
    chanCap: nat,
    txChan: seq<Desc>,
    worker: Worker,
    txRing: Ring<Desc>,
    completionRing: Ring<nat>,
    inKernel: multiset<nat>,
    pending: uint32,
    sent: seq<Desc>,
    transmitted: seq<Desc>,
    reaped: multiset<nat>)

  datatype Step =
    | Send(desc: Desc)          // SendMsg: txChan <- desc
    | Take                      // desc := <-txChan
    | CheckRoom                 // one evaluation of the full-ring test
    | StoreDesc                 // Descs[*Producer & mask] = desc
    | PublishDesc               // *Producer++
    | KernelTake                // the kernel consumes one TX entry
    | KernelComplete(a: nat)    // the kernel reports any one of the frames it holds
    | CountCompleted            // NumCompleted
    | DropCompleted             // Complete(n)

  ghost predicate RingsValid(s: Tx)
  {
    s.txRing.Valid() && s.completionRing.Valid()
  }

  ghost predicate Enabled(s: Tx, step: Step)
  {
    match step
    case Send(_) => |s.txChan| < s.chanCap
    case Take => s.worker.Idle? && s.txChan != []
    case CheckRoom => s.worker.Holding?
    case StoreDesc => s.worker.Ready?
    case PublishDesc => s.worker.Stored?
    case KernelTake => s.txRing.producer != s.txRing.consumer
    case KernelComplete(a) => a in s.inKernel && s.completionRing.Occupancy() < |s.completionRing.descs|
    case CountCompleted => s.pending == 0
    case DropCompleted => s.pending <= s.completionRing.Occupancy()
  }

  ghost function Apply(s: Tx, step: Step): Tx
    requires RingsValid(s) && Enabled(s, step)
  {
    match step
    case Send(d) => s.(txChan := s.txChan + [d], sent := s.sent + [d])
    case Take => s.(worker := Holding(s.txChan[0]), txChan := s.txChan[1..])
    case CheckRoom =>
      if |s.txRing.descs| == s.txRing.Occupancy() then s else s.(worker := Ready(s.worker.d))
    case StoreDesc => s.(worker := Stored(s.worker.d), txRing := s.txRing.Store(s.worker.d))
    case PublishDesc => s.(worker := Idle, txRing := s.txRing.Publish())
    case KernelTake =>
      var d := s.txRing.Peek();
      s.(txRing := s.txRing.Drop(1), inKernel := s.inKernel + multiset{d.Addr}, transmitted := s.transmitted + [d])
    case KernelComplete(a) =>
      s.(inKernel := s.inKernel - multiset{a}, completionRing := s.completionRing.Store(a).Publish())
    case CountCompleted => s.(pending := s.completionRing.NumAvailable())
    case DropCompleted =>
      s.(completionRing := s.completionRing.Drop(s.pending),
         reaped := s.reaped + multiset(s.completionRing.Contents()[..s.pending]),
         pending := 0)
  }

  ghost predicate Init(s: Tx)
  {
    && RingsValid(s)
    && s.txRing.producer == s.txRing.consumer && s.completionRing.producer == s.completionRing.consumer
    && s.txChan == [] && s.worker == Idle && s.inKernel == multiset{} && s.pending == 0
    && s.sent == [] && s.transmitted == [] && s.reaped == multiset{}
  }

  // ---------------------------------------------------------------- what every interleaving keeps

  /** Nothing is lost, duplicated, overwritten or reordered between the senders and the kernel. */
  ghost predicate QueueInv(s: Tx)
    requires RingsValid(s)
  {
    && |s.txChan| <= s.chanCap
    && (s.worker.Ready? || s.worker.Stored? ==> s.txRing.Occupancy() < |s.txRing.descs|)
    && (s.worker.Stored? ==> s.txRing.descs[s.txRing.Slot(s.txRing.producer)] == s.worker.d)
    && s.sent == s.transmitted + s.txRing.Contents() + s.worker.InHand() + s.txChan
  }

  ghost function AddrBag(ds: seq<Desc>): multiset<nat>
  {
    if ds == [] then multiset{} else AddrBag(ds[..|ds| - 1]) + multiset{ds[|ds| - 1].Addr}
  }

  /** Every frame the kernel ever took is held, reported or reaped exactly once. */
  ghost predicate BagBalanced(s: Tx)
    requires s.completionRing.Valid()
  {
    AddrBag(s.transmitted) == s.inKernel + multiset(s.completionRing.Contents()) + s.reaped
  }

  /** The completion consumer stays behind its producer. */
  ghost predicate CompletionInv(s: Tx)
    requires RingsValid(s)
  {
    s.pending <= s.completionRing.Occupancy() && BagBalanced(s)
  }

  ghost predicate Inv(s: Tx)
  {
    RingsValid(s) && QueueInv(s) && CompletionInv(s)
  }

  lemma InitHasInv(s: Tx)
    requires Init(s)
    ensures Inv(s)
  {
  }

  /** What each step does to the two queues. The TX ring refines a FIFO queue: publishing enqueues the
      worker's descriptor, a kernel take dequeues the head, nothing else touches it. */
  lemma RefinesFifo(s: Tx, step: Step)
    requires RingsValid(s) && QueueInv(s) && Enabled(s, step)
    ensures var t := Apply(s, step); var q := s.txRing.Contents();
            && t.txRing.Valid()
            && match step
               case PublishDesc => t.txRing.Contents() == q + [s.worker.d] && t.transmitted == s.transmitted
               case KernelTake => q != [] && t.txRing.Contents() == q[1..] && t.transmitted == s.transmitted + [q[0]]
               case _ => t.txRing.Contents() == q && t.transmitted == s.transmitted
  {
    match step
    case StoreDesc => StoreKeepsContents(s.txRing, s.worker.d);
    case PublishDesc => PublishAppends(s.txRing);
    case KernelTake =>
      PeekIsHead(s.txRing);
      DropRemoves(s.txRing, 1);
    case _ =>
  }

  lemma CompletionQueue(s: Tx, step: Step)
    requires RingsValid(s) && CompletionInv(s) && Enabled(s, step)
    ensures var t := Apply(s, step); var q := s.completionRing.Contents();
            && t.completionRing.Valid()
            && t.pending <= t.completionRing.Occupancy()
            && match step
               case KernelComplete(a) => t.completionRing.Contents() == q + [a]
               case CountCompleted => t.completionRing.Contents() == q && t.pending == |q|
               case DropCompleted => t.completionRing.Contents() == q[s.pending..]
               case _ => t.completionRing.Contents() == q
  {
    match step
    case KernelComplete(a) =>
      PutAppends(s.completionRing, a);
    case CountCompleted => CountsAreExact(s.completionRing);
    case DropCompleted =>
      DropOccupancy(s.completionRing, s.pending);
      DropRemoves(s.completionRing, s.pending);
    case _ =>
  }

  lemma KernelTakeKeepsQueueInv(s: Tx)
    requires RingsValid(s) && QueueInv(s) && Enabled(s, KernelTake)
    ensures var t := Apply(s, KernelTake); t.txRing.Valid() && (t.completionRing.Valid() ==> QueueInv(t))
  {
    var t, q, rest := Apply(s, KernelTake), s.txRing.Contents(), s.worker.InHand() + s.txChan;
    RefinesFifo(s, KernelTake);
    DropOccupancy(s.txRing, 1);
    MoveHead(s.transmitted, q, rest);
    assert s.sent == s.transmitted + q + rest;
    assert t.sent == t.transmitted + q[1..] + rest;
  }

  lemma MoveHead<T>(a: seq<T>, q: seq<T>, rest: seq<T>)
    requires q != []
    ensures a + q + rest == (a + [q[0]]) + q[1..] + rest
  {
    assert q == [q[0]] + q[1..];
  }

  lemma WorkerKeepsQueueInv(s: Tx, step: Step)
    requires RingsValid(s) && QueueInv(s) && Enabled(s, step) && (step.StoreDesc? || step.PublishDesc?)
    ensures var t := Apply(s, step); t.txRing.Valid() && (t.completionRing.Valid() ==> QueueInv(t))
  {
    RefinesFifo(s, step);
    if step.StoreDesc? {
      StoreKeepsContents(s.txRing, s.worker.d);
    }
  }

  lemma StepKeepsQueueInv(s: Tx, step: Step)
    requires RingsValid(s) && QueueInv(s) && Enabled(s, step)
    ensures var t := Apply(s, step); t.txRing.Valid() && (t.completionRing.Valid() ==> QueueInv(t))
  {
    match step
    case KernelTake => KernelTakeKeepsQueueInv(s);
    case StoreDesc => WorkerKeepsQueueInv(s, step);
    case PublishDesc => WorkerKeepsQueueInv(s, step);
    case _ =>
  }

  lemma KernelTakeKeepsBag(s: Tx)
    requires Inv(s) && Enabled(s, KernelTake)
    ensures BagBalanced(Apply(s, KernelTake))
  {
    var t := Apply(s, KernelTake);
    assert t.transmitted[..|t.transmitted| - 1] == s.transmitted;
  }

  lemma KernelCompleteKeepsBag(s: Tx, a: nat)
    requires Inv(s) && Enabled(s, KernelComplete(a))
    ensures var t := Apply(s, KernelComplete(a)); t.completionRing.Valid() && BagBalanced(t)
  {
    PutAppends(s.completionRing, a);
  }

  lemma MoveBag(q: seq<nat>, n: nat, a: multiset<nat>, b: multiset<nat>)
    requires n <= |q|
    ensures a + multiset(q) + b == a + multiset(q[n..]) + (b + multiset(q[..n]))
  {
    assert q == q[..n] + q[n..];
  }

  lemma DropCompletedKeepsBag(s: Tx)
    requires Inv(s) && Enabled(s, DropCompleted)
    ensures var t := Apply(s, DropCompleted); t.completionRing.Valid() && BagBalanced(t)
  {
    DropRemoves(s.completionRing, s.pending);
    MoveBag(s.completionRing.Contents(), s.pending, s.inKernel, s.reaped);
  }

  lemma StepKeepsCompletionInv(s: Tx, step: Step)
    requires Inv(s) && Enabled(s, step)
    ensures var t := Apply(s, step); RingsValid(t) && CompletionInv(t)
  {
    RefinesFifo(s, step);
    CompletionQueue(s, step);
    match step
    case KernelTake => KernelTakeKeepsBag(s);
    case KernelComplete(a) => KernelCompleteKeepsBag(s, a);
    case DropCompleted => DropCompletedKeepsBag(s);
    case _ =>
  }

  lemma StepKeepsInv(s: Tx, step: Step)
    requires Inv(s) && Enabled(s, step)
    ensures Inv(Apply(s, step))
  {
    StepKeepsQueueInv(s, step);
    StepKeepsCompletionInv(s, step);
  }

  /** The state after an interleaving, if every step of it was enabled in turn. */
  ghost function Run(s: Tx, steps: seq<Step>): Option<Tx>
  {
    if steps == [] then Some(s)
    else
      match Run(s, steps[..|steps| - 1])
      case None => None
      case Some(u) =>
        var step := steps[|steps| - 1];
        if RingsValid(u) && Enabled(u, step) then Some(Apply(u, step)) else None
  }

  /** A state with the invariant: the kernel has read exactly a prefix of what was sent, in order. */
  lemma KernelSawPrefix(t: Tx)
    requires Inv(t)
    ensures t.transmitted <= t.sent
  {
    var rest := t.txRing.Contents() + t.worker.InHand() + t.txChan;
    assert t.sent == t.transmitted + rest;
  }

  lemma {:induction false} RunKeepsInv(s: Tx, steps: seq<Step>)
    requires Inv(s)
    ensures Run(s, steps).Some? ==> Inv(Run(s, steps).value)
  {
    if steps != [] && Run(s, steps).Some? {
      RunKeepsInv(s, steps[..|steps| - 1]);
      StepKeepsInv(Run(s, steps[..|steps| - 1]).value, steps[|steps| - 1]);
    }
  }

  /** Safety of every run of every length, past any number of index wraps: every descriptor sent is in exactly one
      place, in order, so that the kernel has read a prefix of what was sent; the rings never hold more than their
      size; and the completion consumer never passes its producer. */
  lemma EveryRunIsSafe(s: Tx, steps: seq<Step>)
    requires Init(s) && Run(s, steps).Some?
    ensures var t := Run(s, steps).value;
            && t.sent == t.transmitted + t.txRing.Contents() + t.worker.InHand() + t.txChan
            && t.transmitted <= t.sent
            && t.txRing.Occupancy() <= |t.txRing.descs|
            && t.pending <= t.completionRing.Occupancy() <= |t.completionRing.descs|
            && AddrBag(t.transmitted) == t.inKernel + multiset(t.completionRing.Contents()) + t.reaped
  {
    InitHasInv(s);
    RunKeepsInv(s, steps);
    KernelSawPrefix(Run(s, steps).value);
  }
}
