/** A ring shared with the kernel (pkg/xdp/xdp.go): free-running uint32 indices over a power-of-two array. */
module Ring {
  import opened Arith
  import opened Bits
  import opened Widths

  type uint32 = x: int | 0 <= x < TWO_TO_THE_32

  /** x + n with wrap-around. */
  function Add32(x: uint32, n: uint32): uint32
  {
    if x + n < TWO_TO_THE_32 then x + n else x + n - TWO_TO_THE_32
  }

  /** x - y with wrap-around. */
  function Sub32(x: uint32, y: uint32): uint32
  {
    if x >= y then x - y else x - y + TWO_TO_THE_32
  }

  function Clamp(n: nat, max: nat): nat
  {
    if n > max then max else n
  }

  datatype Ring<T> = Ring(producer: uint32, consumer: uint32, descs: seq<T>, order: nat) {

    /** The size is the power of two 2^order. */
    ghost predicate WellFormed()
    {
      order < 32 && |descs| == Pow2(order)
    }

    /** producer - consumer */
    function Occupancy(): uint32
    {
      Sub32(producer, consumer)
    }

    ghost predicate Valid()
    {
      WellFormed() && Occupancy() <= |descs|
    }

    /** The slot a free-running index names: index & (size - 1). */
    function Slot(index: uint32): (k: nat)
      requires WellFormed()
      ensures k < |descs|
    {
      AndMask(index, order);
      And(index, |descs| - 1)
    }

    /** The first n entries from the consumer index on. */
    ghost function Entries(n: uint32): (q: seq<T>)
      requires WellFormed()
      ensures |q| == n
    {
      if n == 0 then [] else Entries(n - 1) + [descs[Slot(Add32(consumer, n - 1))]]
    }

    /** The entries produced and not yet consumed, oldest first. */
    ghost function Contents(): (q: seq<T>)
      requires WellFormed()
      ensures |q| == Occupancy()
    {
      Entries(Occupancy())
    }

    /** NumReceived, NumCompleted: entries the consumer may take. */
    function NumAvailable(): (n: nat)
    {
      Clamp(Sub32(producer, consumer), |descs|)
    }

    /** NumFreeFillSlots, NumFreeTxSlots: max - (prod - cons), both subtractions in uint32. */
    function NumFree(): (n: nat)
      requires |descs| < TWO_TO_THE_32
    {
      Clamp(Sub32(|descs|, Sub32(producer, consumer)), |descs|)
    }

    function Store(x: T): Ring<T>
      requires WellFormed()
    {
      this.(descs := descs[Slot(producer) := x])
    }

    function Publish(): Ring<T>
    {
      this.(producer := Add32(producer, 1))
    }

    function Peek(): T
      requires WellFormed()
    {
      descs[Slot(consumer)]
    }

    function Drop(n: uint32): Ring<T>
    {
      this.(consumer := Add32(consumer, n))
    }
  }

  /** The mask takes the remainder. */
  lemma SlotIsRemainder<T>(r: Ring<T>, index: uint32)
    requires r.WellFormed()
    ensures r.Slot(index) == index % |r.descs|
  {
    AndMask(index, r.order);
  }

  lemma SizeDividesIndexRange<T>(r: Ring<T>)
    requires r.WellFormed()
    ensures TWO_TO_THE_32 % |r.descs| == 0 && 0 < |r.descs| < TWO_TO_THE_32
  {
    Pow2Divides(r.order, 32);
    Pow2Of32();
    Pow2Below(r.order);
  }

  lemma {:induction false} Pow2Below(e: nat)
    requires e < 32
    ensures Pow2(e) < TWO_TO_THE_32
    decreases 32 - e
  {
    if e < 31 {
      Pow2Below(e + 1);
    } else {
      Pow2Of32();
    }
  }

  /** Indices less than the ring size apart name different slots, whatever the wrap of the index range. */
  lemma SlotsDiffer<T>(r: Ring<T>, i: uint32, d: uint32)
    requires r.WellFormed() && 0 < d < |r.descs|
    ensures r.Slot(i) != r.Slot(Add32(i, d))
  {
    SizeDividesIndexRange(r);
    AndMask(i, r.order);
    AndMask(Add32(i, d), r.order);
    WrapDiffers(i, d, |r.descs|, TWO_TO_THE_32);
  }

  lemma {:induction false} EntriesAt<T>(r: Ring<T>, n: uint32, k: uint32)
    requires r.WellFormed() && k < n
    ensures r.Entries(n)[k] == r.descs[r.Slot(Add32(r.consumer, k))]
  {
    if k < n - 1 {
      EntriesAt(r, n - 1, k);
    }
  }

  lemma {:induction false} StoreKeepsEntries<T>(r: Ring<T>, x: T, n: uint32)
    requires r.Valid() && n <= r.Occupancy() < |r.descs|
    ensures r.Store(x).Valid() && r.Store(x).Entries(n) == r.Entries(n)
  {
    if n > 0 {
      StoreKeepsEntries(r, x, n - 1);
      SlotsDiffer(r, Add32(r.consumer, n - 1), r.Occupancy() - (n - 1));
    }
  }

  /** Storing into the producer's slot of a ring that is not full disturbs nothing in the queue. */
  lemma StoreKeepsContents<T>(r: Ring<T>, x: T)
    requires r.Valid() && r.Occupancy() < |r.descs|
    ensures r.Store(x).Valid() && r.Store(x).Contents() == r.Contents()
    ensures r.Store(x).descs[r.Slot(r.producer)] == x
  {
    StoreKeepsEntries(r, x, r.Occupancy());
  }

  lemma PublishOccupancy<T>(r: Ring<T>)
    requires r.Valid() && r.Occupancy() < |r.descs|
    ensures r.Publish().Valid() && r.Publish().Occupancy() == r.Occupancy() + 1
  {
    SizeDividesIndexRange(r);
  }

  lemma {:induction false} PublishKeepsEntries<T>(r: Ring<T>, n: uint32)
    requires r.WellFormed() && r.Publish().WellFormed()
    ensures r.Publish().Entries(n) == r.Entries(n)
  {
    if n > 0 {
      PublishKeepsEntries(r, n - 1);
    }
  }

  /** Publishing appends whatever the producer's slot holds. */
  lemma PublishAppends<T>(r: Ring<T>)
    requires r.Valid() && r.Occupancy() < |r.descs|
    ensures r.Publish().Valid()
    ensures r.Publish().Contents() == r.Contents() + [r.descs[r.Slot(r.producer)]]
  {
    PublishOccupancy(r);
    PublishKeepsEntries(r, r.Occupancy() + 1);
  }

  /** One whole produce operation. */
  lemma PutAppends<T>(r: Ring<T>, x: T)
    requires r.Valid() && r.Occupancy() < |r.descs|
    ensures var p := r.Store(x).Publish();
            p.Valid() && p.Occupancy() == r.Occupancy() + 1 && p.Contents() == r.Contents() + [x]
  {
    StoreKeepsContents(r, x);
    PublishOccupancy(r.Store(x));
    PublishAppends(r.Store(x));
  }

  lemma DropOccupancy<T>(r: Ring<T>, n: uint32)
    requires r.Valid() && n <= r.Occupancy()
    ensures r.Drop(n).Valid() && r.Drop(n).Occupancy() == r.Occupancy() - n
  {
  }

  /** Advancing the consumer by at most the occupancy removes exactly that many entries from the front. */
  lemma DropRemoves<T>(r: Ring<T>, n: uint32)
    requires r.Valid() && n <= r.Occupancy()
    ensures r.Drop(n).Valid() && r.Drop(n).Contents() == r.Contents()[n..]
  {
    var d, m := r.Drop(n), r.Occupancy();
    DropOccupancy(r, n);
    forall k | 0 <= k < m - n ensures d.Contents()[k] == r.Contents()[n + k] {
      EntriesAt(r, m, n + k);
      EntriesAt(d, m - n, k);
    }
  }

  lemma PeekIsHead<T>(r: Ring<T>)
    requires r.Valid() && 0 < r.Occupancy()
    ensures r.Peek() == r.Contents()[0]
  {
    EntriesAt(r, r.Occupancy(), 0);
  }

  /** On a ring that never overran, the clamped uint32 differences are the real entry and slot counts. */
  lemma CountsAreExact<T>(r: Ring<T>)
    requires r.Valid()
    ensures r.NumAvailable() == |r.Contents()|
    ensures |r.descs| < TWO_TO_THE_32 && r.NumFree() == |r.descs| - |r.Contents()|
  {
    SizeDividesIndexRange(r);
  }
}
