/** Which UMEM frame each GetTxDesc hands out (pkg/xdp/xdp.go, sizes from ua.go), and when a frame still in
    flight is safe from being overwritten. */
module XdpFrames {
  import opened Arith
  import opened Bits
  import opened Ring
  import opened Widths
  import opened Wrappers
  import opened XdpTx

  datatype Options = Options(
    NumFrames: nat, FrameSize: nat, FillRingNumDescs: nat,
    completionOrder: nat, TxRingNumDescs: nat) {

    /** The completion ring size is a power of two, as the kernel and the documented option demand. */
    function CompletionRingNumDescs(): (n: nat)
      ensures n > 0
    {
      Pow2(completionOrder)
    }

    ghost predicate Valid()
    {
      FrameSize > 0 && completionOrder < 32
    }
  }

  /** initXDP: the sizes ua.go derives from --xdp-size = 2 * 2^order. */
  function UaOptions(order: nat): Options
  {
    Options(2 * Pow2(order), 2048, 8, order, Pow2(order))
  }

  /** The frame the n-th GetTxDesc (from 0) hands out: txIndex starts at the maximum uint64, so the n-th Add
      yields n wrapped. */
  function TxFrame(o: Options, n: nat): (f: nat)
    ensures o.FillRingNumDescs <= f < o.FillRingNumDescs + o.CompletionRingNumDescs()
  {
    o.FillRingNumDescs + n % TWO_TO_THE_64 % o.CompletionRingNumDescs()
  }

  function TxDesc(o: Options, n: nat): Desc
  {
    Desc(TxFrame(o, n) * o.FrameSize, o.FrameSize)
  }

  /** Two calls share a frame exactly when they are a multiple of the completion ring size apart, also when
      txIndex wraps between them. */
  lemma SameFrameIff(o: Options, i: nat, j: nat)
    requires o.Valid() && i <= j
    ensures TxFrame(o, i) == TxFrame(o, j) <==> (j - i) % o.CompletionRingNumDescs() == 0
  {
    var c := o.CompletionRingNumDescs();
    Pow2Divides(o.completionOrder, 64);
    Pow2Of32();
    ModOfMod(i, TWO_TO_THE_64, c);
    ModOfMod(j, TWO_TO_THE_64, c);
    SameRemainderIff(i, j, c);
  }

  /** The calls go round the transmit frames in turn, from the first one on, and past the wrap of txIndex. */
  lemma FramesInTurn(o: Options, n: nat)
    requires o.Valid()
    ensures n < o.CompletionRingNumDescs() ==> TxFrame(o, n) == o.FillRingNumDescs + n
    ensures TxFrame(o, n + 1) == if TxFrame(o, n) + 1 < o.FillRingNumDescs + o.CompletionRingNumDescs()
                                 then TxFrame(o, n) + 1 else o.FillRingNumDescs
  {
    var c := o.CompletionRingNumDescs();
    Pow2Divides(o.completionOrder, 64);
    Pow2Of32();
    Pow2Below(o.completionOrder);
    ModOfMod(n, TWO_TO_THE_64, c);
    ModOfMod(n + 1, TWO_TO_THE_64, c);
    NextRemainder(n, c);
    if n < c {
      ModUnique(n, c, 0, n);
    }
  }

  lemma NextRemainder(n: nat, c: nat)
    requires 0 < c
    ensures (n + 1) % c == if n % c + 1 < c then n % c + 1 else 0
  {
    var q, r := n / c, n % c;
    Distribute(c, q, 1);
    if r + 1 < c {
      ModUnique(n + 1, c, q, r + 1);
    } else {
      ModUnique(n + 1, c, q + 1, 0);
    }
  }

  lemma SameRemainderIff(i: nat, j: nat, c: nat)
    requires 0 < c && i <= j
    ensures i % c == j % c <==> (j - i) % c == 0
  {
    if i % c == j % c {
      assert j == c * (j / c) + j % c && i == c * (i / c) + i % c;
      Distribute(c, j / c, 0 - i / c);
      ModUnique(j - i, c, j / c - i / c, 0);
    } else if (j - i) % c == 0 {
      ModAddMultiple(i, c, (j - i) / c);
      assert false;
    }
  }

  /** With the m most recently issued descriptors still in flight, the next frame is distinct from all of
      theirs exactly when m is below the completion ring size. */
  lemma NextFrameIsExclusiveIff(o: Options, n: nat, m: nat)
    requires o.Valid() && m <= n
    ensures (forall j: nat {:trigger TxFrame(o, j)} :: n - m <= j < n ==> TxFrame(o, j) != TxFrame(o, n))
            <==> m < o.CompletionRingNumDescs()
  {
    var c := o.CompletionRingNumDescs();
    if m < c {
      forall j: nat | n - m <= j < n ensures TxFrame(o, j) != TxFrame(o, n) {
        SameFrameIff(o, j, n);
        ModUnique(n - j, c, 0, n - j);
      }
    } else {
      SameFrameIff(o, n - c, n);
      ModUnique(c, c, 1, 0);
      assert TxFrame(o, n - c) == TxFrame(o, n);
    }
  }

  ghost predicate InBounds(o: Options, d: Desc)
  {
    d.Addr + d.Len <= o.NumFrames * o.FrameSize
  }

  /** Transmit frames lie in the UMEM, for every call, exactly when it has room for both rings' frames. */
  lemma FramesInBoundsIff(o: Options)
    requires o.Valid()
    ensures (forall n: nat {:trigger TxDesc(o, n)} :: InBounds(o, TxDesc(o, n)))
            <==> o.FillRingNumDescs + o.CompletionRingNumDescs() <= o.NumFrames
  {
    var c := o.CompletionRingNumDescs();
    if o.FillRingNumDescs + c <= o.NumFrames {
      forall n: nat ensures InBounds(o, TxDesc(o, n)) {
        Distribute(o.FrameSize, TxFrame(o, n), 1);
        MulMonotone(o.FrameSize, TxFrame(o, n) + 1, o.NumFrames);
      }
    } else {
      Pow2Below(o.completionOrder);
      ModUnique(c - 1, TWO_TO_THE_64, 0, c - 1);
      ModUnique(c - 1, c, 0, c - 1);
      assert TxFrame(o, c - 1) == o.FillRingNumDescs + c - 1;
      Distribute(o.FrameSize, TxFrame(o, c - 1), 1);
      Distribute(o.FrameSize, o.NumFrames, 1);
      MulMonotone(o.FrameSize, o.NumFrames + 1, TxFrame(o, c - 1) + 1);
      assert !InBounds(o, TxDesc(o, c - 1));
    }
  }

  /** With ua.go's sizes that means an --xdp-size of at least 16. */
  lemma UaFramesInBoundsIff(order: nat)
    requires order < 32
    ensures (forall n: nat {:trigger TxDesc(UaOptions(order), n)} ::
               InBounds(UaOptions(order), TxDesc(UaOptions(order), n)))
            <==> UaOptions(order).NumFrames >= 16
  {
    FramesInBoundsIff(UaOptions(order));
  }

  /** Transmit frames never meet the receive frames 0 .. FillRingNumDescs-1, and SendMsg's "no free desc"
      error cannot occur. */
  lemma TxFramesAvoidRx(o: Options, n: nat)
    requires o.Valid() && o.FillRingNumDescs > 0
    ensures o.FillRingNumDescs * o.FrameSize <= TxDesc(o, n).Addr && TxDesc(o, n).Addr != 0
  {
    MulMonotone(o.FrameSize, o.FillRingNumDescs, TxFrame(o, n));
    MulMonotone(o.FrameSize, 1, o.FillRingNumDescs);
  }

  // ---------------------------------------------------------------- senders and their frames

  datatype Flight = Flight(data: seq<int>, copied: bool)

  /** `next` counts GetTxDesc calls; `live` holds the calls whose frame the kernel has not completed. */
  datatype Senders = Senders(next: nat, umem: seq<seq<int>>, live: map<nat, Flight>)

  datatype SendStep =
    | Issue(data: seq<int>)     // SendMsg: GetTxDesc
    | Copy(j: nat)              // SendMsg: copy into the frame
    | Complete(j: nat)          // the kernel is done with the frame

  /** The frame of the next call belongs to no call in flight: none of them is a multiple of the ring size old. */
  ghost predicate NextIsFree(o: Options, s: Senders)
  {
    forall j :: j in s.live ==> (s.next - j) % o.CompletionRingNumDescs() != 0
  }

  /** Every call in flight is among the most recent. */
  ghost predicate WindowOpen(o: Options, s: Senders)
  {
    forall j :: j in s.live ==> s.next - j < o.CompletionRingNumDescs()
  }

  ghost predicate SendEnabled(o: Options, s: Senders, step: SendStep)
  {
    match step
    case Issue(data) => |data| <= o.FrameSize
    case Copy(j) =>
      && j in s.live && !s.live[j].copied
      && TxFrame(o, j) < |s.umem| && |s.live[j].data| <= |s.umem[TxFrame(o, j)]|
    case Complete(j) => j in s.live && s.live[j].copied
  }

  ghost function SendApply(o: Options, s: Senders, step: SendStep): Senders
    requires SendEnabled(o, s, step)
  {
    match step
    case Issue(data) => s.(next := s.next + 1, live := s.live[s.next := Flight(data, false)])
    case Copy(j) =>
      var f, d := TxFrame(o, j), s.live[j].data;
      s.(umem := s.umem[f := d + s.umem[f][|d|..]], live := s.live[j := s.live[j].(copied := true)])
    case Complete(j) => s.(live := map k | k in s.live && k != j :: s.live[k])
  }

  ghost predicate SendInv(o: Options, s: Senders)
  {
    && o.FillRingNumDescs + o.CompletionRingNumDescs() <= o.NumFrames == |s.umem|
    && (forall f :: 0 <= f < |s.umem| ==> |s.umem[f]| == o.FrameSize)
    && (forall j :: j in s.live ==> j < s.next && |s.live[j].data| <= o.FrameSize)
    && (forall i, j :: i in s.live && j in s.live && i < j ==> (j - i) % o.CompletionRingNumDescs() != 0)
    && (forall j :: j in s.live && s.live[j].copied ==>
          s.umem[TxFrame(o, j)][..|s.live[j].data|] == s.live[j].data)
  }

  lemma LiveFramesDiffer(o: Options, s: Senders, i: nat, j: nat)
    requires o.Valid() && SendInv(o, s) && i in s.live && j in s.live && i != j
    ensures TxFrame(o, i) != TxFrame(o, j)
  {
    var a, b := if i < j then i else j, if i < j then j else i;
    SameFrameIff(o, a, b);
  }

  lemma NextIsFreeIff(o: Options, s: Senders)
    requires o.Valid() && SendInv(o, s)
    ensures NextIsFree(o, s) <==> forall j :: j in s.live ==> TxFrame(o, j) != TxFrame(o, s.next)
  {
    forall j | j in s.live
      ensures (s.next - j) % o.CompletionRingNumDescs() != 0 <==> TxFrame(o, j) != TxFrame(o, s.next)
    {
      SameFrameIff(o, j, s.next);
    }
  }

  lemma OpenWindowIsFree(o: Options, s: Senders)
    requires SendInv(o, s) && WindowOpen(o, s)
    ensures NextIsFree(o, s)
  {
    forall j | j in s.live ensures (s.next - j) % o.CompletionRingNumDescs() != 0 {
      ModUnique(s.next - j, o.CompletionRingNumDescs(), 0, s.next - j);
    }
  }

  lemma SendStepKeepsInv(o: Options, s: Senders, step: SendStep)
    requires o.Valid() && SendInv(o, s) && SendEnabled(o, s, step) && (step.Issue? ==> NextIsFree(o, s))
    ensures SendInv(o, SendApply(o, s, step))
  {
    var t := SendApply(o, s, step);
    if step.Copy? {
      forall i | i in t.live && t.live[i].copied
        ensures t.umem[TxFrame(o, i)][..|t.live[i].data|] == t.live[i].data
      {
        if i != step.j {
          LiveFramesDiffer(o, s, i, step.j);
        }
      }
    }
  }

  // ---------------------------------------------------------------- the rings do not keep the window open

  lemma RunAppend(s: Tx, a: seq<Step>, step: Step)
    requires Run(s, a).Some? && RingsValid(Run(s, a).value) && Enabled(Run(s, a).value, step)
    ensures Run(s, a + [step]) == Some(Apply(Run(s, a).value, step))
  {
    assert (a + [step])[..|a|] == a;
  }

  function Issued(o: Options, n: nat): (ds: seq<Desc>)
    ensures |ds| == n && forall k :: 0 <= k < n ==> ds[k] == TxDesc(o, k)
  {
    if n == 0 then [] else Issued(o, n - 1) + [TxDesc(o, n - 1)]
  }

  ghost predicate Parked(o: Options, t: Tx, k: nat)
  {
    && Inv(t) && t.worker.Idle? && t.txChan == [] && t.transmitted == []
    && t.txRing.Occupancy() == k && t.sent == Issued(o, k)
  }

  /** One message from SendMsg to the TX ring while the kernel takes nothing. */
  lemma ParkOne(o: Options, s: Tx, a: seq<Step>, k: nat) returns (b: seq<Step>)
    requires Run(s, a).Some? && Parked(o, Run(s, a).value, k)
    requires k < |Run(s, a).value.txRing.descs| && 0 < Run(s, a).value.chanCap
    ensures Run(s, b).Some? && Parked(o, Run(s, b).value, k + 1)
    ensures Run(s, b).value.chanCap == Run(s, a).value.chanCap
    ensures |Run(s, b).value.txRing.descs| == |Run(s, a).value.txRing.descs|
  {
    b := ParkStep(o, s, a, Send(TxDesc(o, k)));
    b := ParkStep(o, s, b, Take);
    b := ParkStep(o, s, b, CheckRoom);
    b := ParkStep(o, s, b, StoreDesc);
    PublishOccupancy(Run(s, b).value.txRing);
    b := ParkStep(o, s, b, PublishDesc);
  }

  lemma ParkStep(o: Options, s: Tx, a: seq<Step>, step: Step) returns (b: seq<Step>)
    requires Run(s, a).Some? && Inv(Run(s, a).value) && Enabled(Run(s, a).value, step)
    ensures Run(s, b) == Some(Apply(Run(s, a).value, step)) && Inv(Run(s, b).value)
  {
    b := a + [step];
    RunAppend(s, a, step);
    StepKeepsInv(Run(s, a).value, step);
  }

  lemma {:induction false} ParkMany(o: Options, s: Tx, k: nat) returns (b: seq<Step>)
    requires Init(s) && 0 < s.chanCap && k <= |s.txRing.descs|
    ensures Run(s, b).Some? && Parked(o, Run(s, b).value, k)
    ensures Run(s, b).value.chanCap == s.chanCap && |Run(s, b).value.txRing.descs| == |s.txRing.descs|
  {
    if k == 0 {
      b := [];
    } else {
      b := ParkMany(o, s, k - 1);
      b := ParkOne(o, s, b, k - 1);
    }
  }

  /** Nothing has reached the kernel and the first and the last message sent share their frame. */
  ghost predicate TwoInFlightShareFrame(o: Options, t: Tx)
  {
    var n := o.CompletionRingNumDescs();
    t.transmitted == [] && t.sent == Issued(o, n + 1) && t.sent[0] == t.sent[n]
  }

  /** Nothing holds the senders back: with a TX ring at least as large as the completion ring, as ua.go sets them
      up, a run without any kernel progress puts two messages with the same frame in flight at once. */
  lemma WindowCanClose(o: Options, s: Tx)
    requires o.Valid() && Init(s) && 0 < s.chanCap
    requires |s.txRing.descs| == o.TxRingNumDescs >= o.CompletionRingNumDescs()
    ensures exists b :: Run(s, b).Some? && TwoInFlightShareFrame(o, Run(s, b).value)
  {
    var c := o.CompletionRingNumDescs();
    var b := ParkMany(o, s, c);
    b := ParkStep(o, s, b, Send(TxDesc(o, c)));
    SameFrameIff(o, 0, c);
    ModUnique(c, c, 1, 0);
    assert Run(s, b).value.sent == Issued(o, c + 1);
  }
}
