/** The Socket of pkg/xdp/xdp.go: the methods that move descriptors through the shared rings, each proved
    against the ring and frame models. Socket creation, polling and system calls are not part of this model. */
module XdpSocket {
  import opened Arith
  import opened Bits
  import opened Ring
  import opened Widths
  import opened XdpTx
  import opened XdpRx
  import XdpFrames

  /** umemRing and rxTxRing: two shared indices over a shared array. */
  class SharedRing<T> {
    var Producer: uint32
    var Consumer: uint32
    const Descs: array<T>
    const order: nat

    ghost function View(): Ring<T>
      reads this, Descs
    {
      Ring(Producer, Consumer, Descs[..], order)
    }

    constructor (descs: array<T>, order: nat)
      requires order < 32 && descs.Length == Pow2(order)
      ensures Descs == descs && this.order == order
      ensures Producer == 0 && Consumer == 0
    {
      Descs := descs;
      this.order := order;
      Producer := 0;
      Consumer := 0;
    }

    /** One turn of txWorker's loop: false while the ring is full, else store and publish. */
    method TryPut(x: T) returns (ok: bool)
      requires View().Valid()
      modifies `Producer, Descs
      ensures View().Valid()
      ensures ok <==> old(|View().Contents()|) < Descs.Length
      ensures View().Contents() == if ok then old(View().Contents()) + [x] else old(View().Contents())
    {
      ok := Descs.Length != Sub32(Producer, Consumer);
      if ok {
        ghost var before := View();
        PutAppends(before, x);
        var k := And(Producer, Descs.Length - 1);
        assert k == before.Slot(Producer);
        Descs[k] := x;
        Producer := Add32(Producer, 1);
        assert View() == before.Store(x).Publish();
      }
    }

    /** NumReceived, NumCompleted */
    method NumAvailable() returns (n: nat)
      requires View().Valid()
      ensures n == |View().Contents()|
    {
      CountsAreExact(View());
      n := Clamp(Sub32(Producer, Consumer), Descs.Length);
    }

    /** NumFreeFillSlots, NumFreeTxSlots */
    method NumFree() returns (n: nat)
      requires View().Valid()
      ensures n == Descs.Length - |View().Contents()|
    {
      CountsAreExact(View());
      n := Clamp(Sub32(Descs.Length, Sub32(Producer, Consumer)), Descs.Length);
    }

    /** Complete */
    method Complete(n: uint32)
      requires View().Valid() && n <= |View().Contents()|
      modifies `Consumer
      ensures View().Valid() && View().Contents() == old(View().Contents())[n..]
    {
      DropOccupancy(View(), n);
      DropRemoves(View(), n);
      Consumer := Add32(Consumer, n);
    }
  }

  class Socket {
    const FrameSize: nat
    const fillRing: SharedRing<nat>
    const rxRing: SharedRing<Desc>
    const freeRXDescs: array<bool>
    const getRXCap: nat
    const txOptions: XdpFrames.Options
    var numFilled: int
    var txIndex: nat
    ghost var inKernel: multiset<nat>

    ghost predicate Shape()
      reads this, fillRing, fillRing.Descs, rxRing, rxRing.Descs
    {
      && FrameSize > 0
      && fillRing.View().Valid() && rxRing.View().Valid()
      && txIndex < TWO_TO_THE_64
    }

    /** Where every receive frame is. */
    ghost function View(): Rx
      requires Shape()
      reads this, fillRing, fillRing.Descs, rxRing, rxRing.Descs, freeRXDescs
    {
      Rx(FrameSize, fillRing.Descs.Length, rxRing.Descs.Length,
         freeRXDescs[..], fillRing.View().Contents(), inKernel, rxRing.View().Contents(), numFilled)
    }

    ghost predicate Valid()
      reads this, fillRing, fillRing.Descs, rxRing, rxRing.Descs, freeRXDescs
    {
      Shape() && Conserved(View())
    }

    /** The memory and indices NewSocket sets up. */
    constructor (frameSize: nat, fill: SharedRing<nat>, rx: SharedRing<Desc>, free: array<bool>, o: XdpFrames.Options)
      requires frameSize > 0 && fill.View().Valid() && rx.View().Valid()
      requires fill.View().Contents() == [] && rx.View().Contents() == []
      modifies free
      ensures Valid() && numFilled == 0 && fillRing == fill && rxRing == rx && freeRXDescs == free
      ensures RxInit(View())
      ensures FrameSize == frameSize && getRXCap == fill.Descs.Length && txOptions == o
      ensures txIndex == TWO_TO_THE_64 - 1
    {
      FrameSize := frameSize;
      fillRing := fill;
      rxRing := rx;
      freeRXDescs := free;
      getRXCap := fill.Descs.Length;
      txOptions := o;
      numFilled := 0;
      txIndex := TWO_TO_THE_64 - 1;
      inKernel := multiset{};
      new;
      MarkAllFree(free);
      InitConserves(View());
    }

    /** Submits at most as many of the given descriptors as the fill ring has free slots. */
    method Fill(descs: seq<Desc>) returns (n: nat)
      requires Valid() && Fillable(View(), descs)
      modifies `numFilled, fillRing`Producer, fillRing.Descs, freeRXDescs
      ensures Valid()
      ensures n == Min(|descs|, fillRing.Descs.Length - old(|fillRing.View().Contents()|))
      ensures View() == FillTo(old(View()), descs, n)
    {
      var numFreeSlots := fillRing.NumFree();
      n := if numFreeSlots < |descs| then numFreeSlots else |descs|;
      ghost var s0 := View();
      FillConserves(s0, descs, n);
      FillToQueue(s0, descs, n);
      Submit(descs, n, s0);
    }

    /** Takes at most num received descriptors, oldest first, and marks their frames free. */
    method Receive(num: nat) returns (descs: seq<Desc>)
      requires Valid()
      modifies `numFilled, rxRing`Consumer, freeRXDescs
      ensures Valid()
      ensures AllInRange(old(View()), old(View()).rxQ)
      ensures |descs| == Min(num, |old(View()).rxQ|) && descs == old(View()).rxQ[..|descs|]
      ensures View() == ReceiveTo(old(View()), |descs|)
    {
      ghost var s0 := View();
      var numAvailable := rxRing.NumAvailable();
      var n := if num > numAvailable then numAvailable else num;
      ReceiveConserves(s0, n);
      descs := TakeReceived(n, s0);
    }

    /** What Receive does once it has cut num to the received entries. */
    method TakeReceived(n: nat, ghost s0: Rx) returns (descs: seq<Desc>)
      requires Shape() && View() == s0 && AllInRange(s0, s0.rxQ) && n <= |s0.rxQ|
      modifies `numFilled, rxRing`Consumer, freeRXDescs
      ensures Shape() && View() == ReceiveTo(s0, n) && descs == s0.rxQ[..n]
    {
      ghost var fill := fillRing.View();
      ReceiveToFields(s0, n);
      descs := ReceiveLoop(rxRing, freeRXDescs, FrameSize, n, s0);
      numFilled := numFilled - |descs|;
      assert fillRing.View() == fill;
    }

    /** Up to n descriptors of free frames from the receive half of the UMEM, lowest first: all of them if
        fewer than n came back. They are distinct and free, as Fill wants them. */
    method GetRxDescs(n: nat) returns (descs: seq<Desc>)
      requires Shape() && getRXCap <= freeRXDescs.Length
      ensures Fillable(View(), descs) && |descs| <= Min(n, getRXCap)
      ensures forall i :: 0 <= i < |descs| ==> descs[i].Len == FrameSize
      ensures |descs| < n ==> forall f :: 0 <= f < getRXCap && freeRXDescs[f] ==>
        exists k :: 0 <= k < |descs| && descs[k].Addr == f * FrameSize
    {
      var limit := if n > getRXCap then getRXCap else n;
      descs := [];
      var i := 0;
      ghost var at: seq<nat> := [];
      while i < getRXCap && |descs| < limit
        invariant 0 <= i <= getRXCap && |descs| <= limit && |at| == |descs| <= i
        invariant forall k :: 0 <= k < |descs| ==>
          at[k] < i && freeRXDescs[at[k]] && descs[k] == Desc(at[k] * FrameSize, FrameSize)
        invariant forall j, k :: 0 <= j < k < |at| ==> at[j] < at[k]
        invariant forall f :: 0 <= f < i && freeRXDescs[f] ==> f in at
      {
        if freeRXDescs[i] {
          descs := descs + [Desc(i * FrameSize, FrameSize)];
          at := at + [i];
        }
        i := i + 1;
      }
      forall k | 0 <= k < |descs| ensures FrameOf(descs[k].Addr, FrameSize) == at[k] {
        FrameOfStart(at[k], FrameSize);
      }
      forall f | |descs| < n && 0 <= f < getRXCap && freeRXDescs[f]
        ensures exists k :: 0 <= k < |descs| && descs[k].Addr == f * FrameSize
      {
        var k :| 0 <= k < |at| && at[k] == f;
        assert descs[k].Addr == f * FrameSize;
      }
    }

    /** Bumps the wrapping 64-bit index and names the frame it selects. */
    method GetTxDesc() returns (d: Desc)
      requires Shape() && txOptions.Valid()
      modifies `txIndex
      ensures Shape()
      ensures txIndex == (old(txIndex) + 1) % TWO_TO_THE_64
      ensures d == XdpFrames.TxDesc(txOptions, txIndex)
    {
      txIndex := (txIndex + 1) % TWO_TO_THE_64;
      ModUnique(txIndex, TWO_TO_THE_64, 0, txIndex);
      var offset := txOptions.FillRingNumDescs + txIndex % txOptions.CompletionRingNumDescs();
      assert offset == XdpFrames.TxFrame(txOptions, txIndex);
      d := Desc(offset * txOptions.FrameSize, txOptions.FrameSize);
    }

    /** What Fill does once it has cut the list to the free slots. */
    method Submit(descs: seq<Desc>, n: nat, ghost s0: Rx)
      requires Shape() && View() == s0 && AllInRange(s0, descs) && n <= |descs| && |s0.fillQ| + n <= s0.fillCap
      modifies `numFilled, fillRing`Producer, fillRing.Descs, freeRXDescs
      ensures Shape() && View() == FillTo(s0, descs, n)
    {
      ghost var rx := rxRing.View();
      FillToQueue(s0, descs, n);
      FillLoop(fillRing, freeRXDescs, FrameSize, descs, n, s0);
      numFilled := numFilled + n;
      assert rxRing.View() == rx;
    }
  }

  /** freeRXDescs[desc.Addr / FrameSize] = v */
  method MarkFrame(free: array<bool>, addr: nat, frameSize: nat, v: bool)
    requires frameSize > 0 && FrameOf(addr, frameSize) < free.Length
    modifies free
    ensures free[..] == old(free[..])[FrameOf(addr, frameSize) := v]
  {
    FrameOfIsQuotient(addr, frameSize);
    free[addr / frameSize] := v;
  }

  lemma PutNext(r: Ring<nat>, t: Rx, d: Desc) returns (u: Ring<nat>)
    requires r.Valid() && r.Contents() == t.fillQ && r.Occupancy() < |r.descs|
    requires t.frameSize > 0 && FrameOf(d.Addr, t.frameSize) < |t.free|
    ensures u.Valid() && u.Contents() == FillOne(t, d).fillQ && u.Occupancy() == r.Occupancy() + 1
    ensures u == Ring(Add32(r.producer, 1), r.consumer, u.descs, r.order)
    ensures u.descs == r.descs[r.Slot(r.producer) := d.Addr]
  {
    PutAppends(r, d.Addr);
    u := r.Store(d.Addr).Publish();
  }

  /** The loop of Fill: stores the addresses, marks the frames, publishes all of them at the end. */
  method FillLoop(ring: SharedRing<nat>, free: array<bool>, frameSize: nat, descs: seq<Desc>, n: nat, ghost s0: Rx)
    requires ring.View().Valid() && frameSize > 0
    requires s0.frameSize == frameSize && s0.fillQ == ring.View().Contents() && s0.free == free[..]
    requires AllInRange(s0, descs) && n <= |descs| && |s0.fillQ| + n <= ring.Descs.Length
    modifies ring`Producer, ring.Descs, free
    ensures ring.View().Valid()
    ensures ring.View().Contents() == FillTo(s0, descs, n).fillQ
    ensures free[..] == FillTo(s0, descs, n).free
  {
    var prod := ring.Producer;
    ghost var r, t := ring.View(), s0;
    var i := 0;
    while i < n
      modifies ring.Descs, free
      invariant 0 <= i <= n
      invariant t == FillTo(s0, descs, i) && free[..] == t.free
      invariant r == Ring(prod, ring.Consumer, ring.Descs[..], ring.order)
      invariant r.Valid() && r.Contents() == t.fillQ && r.Occupancy() + (n - i) <= ring.Descs.Length
    {
      var d := descs[i];
      r := PutNext(r, t, d);
      t := FillOne(t, d);
      ring.Descs[And(prod, ring.Descs.Length - 1)] := d.Addr;
      prod := Add32(prod, 1);
      MarkFrame(free, d.Addr, frameSize, false);
      i := i + 1;
    }
    ring.Producer := prod;
  }

  lemma TakeNext(r: Ring<Desc>, t: Rx) returns (u: Ring<Desc>)
    requires r.Valid() && r.Contents() == t.rxQ && t.rxQ != []
    requires t.frameSize > 0 && FrameOf(t.rxQ[0].Addr, t.frameSize) < |t.free|
    ensures u.Valid() && u.Contents() == ReceiveOne(t).rxQ
    ensures u == Ring(r.producer, Add32(r.consumer, 1), r.descs, r.order)
    ensures r.descs[r.Slot(r.consumer)] == t.rxQ[0]
  {
    PeekIsHead(r);
    DropRemoves(r, 1);
    u := r.Drop(1);
  }

  /** The loop of Receive: reads the entries, marks the frames, publishes the consumer index at the end. */
  method ReceiveLoop(ring: SharedRing<Desc>, free: array<bool>, frameSize: nat, n: nat, ghost s0: Rx)
    returns (descs: seq<Desc>)
    requires ring.View().Valid() && frameSize > 0
    requires s0.frameSize == frameSize && s0.rxQ == ring.View().Contents() && s0.free == free[..]
    requires AllInRange(s0, s0.rxQ) && n <= |s0.rxQ|
    modifies ring`Consumer, free
    ensures ring.View().Valid() && descs == s0.rxQ[..n]
    ensures ring.View().Contents() == ReceiveTo(s0, n).rxQ
    ensures free[..] == ReceiveTo(s0, n).free
  {
    descs := [];
    var cons := ring.Consumer;
    ghost var r, t := ring.View(), s0;
    var i := 0;
    while i < n
      modifies free
      invariant 0 <= i <= n && descs == s0.rxQ[..i]
      invariant t == ReceiveTo(s0, i) && free[..] == t.free
      invariant r == Ring(ring.Producer, cons, ring.Descs[..], ring.order)
      invariant r.Valid() && r.Contents() == t.rxQ
    {
      ghost var u := TakeNext(r, t);
      var d := ring.Descs[And(cons, ring.Descs.Length - 1)];
      assert d == t.rxQ[0] == s0.rxQ[i];
      descs := descs + [d];
      cons := Add32(cons, 1);
      MarkFrame(free, d.Addr, frameSize, true);
      r, t := u, ReceiveOne(t);
      i := i + 1;
    }
    ring.Consumer := cons;
  }

  lemma {:induction false} FrameOfStart(f: nat, frameSize: nat)
    requires frameSize > 0
    ensures FrameOf(f * frameSize, frameSize) == f
  {
    FrameOfIsQuotient(f * frameSize, frameSize);
    ModUnique(f * frameSize, frameSize, f, 0);
  }

  method MarkAllFree(free: array<bool>)
    modifies free
    ensures forall f :: 0 <= f < free.Length ==> free[f]
  {
    var i := 0;
    while i < free.Length
      invariant 0 <= i <= free.Length
      invariant forall k :: 0 <= k < i ==> free[k]
    {
      free[i] := true;
      i := i + 1;
    }
  }
}
