/** The RTP port allocator of ua.go, one caller at a time. Dialogs.dfy has the interleaved version. */
module PortAllocator {
  import opened Widths
  import opened Wrappers

  /** The configured range [min, max). */
  datatype Range = Range(min: nat, max: nat) {

    /** portsMax */
    function Width(): int { max - min }

    /** A port of the parity of min in [min, max). */
    predicate IsSlot(p: nat)
    {
      min <= p < max && p % 2 == min % 2
    }

    /** How many slots there are. */
    function Slots(): nat
      requires min <= max
    {
      (max - min + 1) / 2
    }

    function Slot(j: nat): nat { min + 2 * j }

    function NextSlot(p: nat): nat
    {
      if p + 2 < max then p + 2 else min
    }

    /** `nextPort += 2; if nextPort >= uint16(max) { nextPort = uint16(min) }` */
    function Advance(p: nat): nat
    {
      var q := Uint16(p + 2);
      if q >= Uint16(max) then Uint16(min) else q
    }

    /** The search visits the slots cyclically. */
    ghost predicate Cycles()
    {
      forall p: nat {:trigger IsSlot(p)} :: IsSlot(p) ==> Advance(p) == NextSlot(p)
    }
  }

  /** A range in which a port can be had and whose last slot nextPort passes without wrapping. */
  predicate Ordinary(r: Range)
  {
    r.min < r.max <= 65534 + r.min % 2 && r.Width() >= 10
  }

  /** For which ranges the uint16 arithmetic really cycles through the slots: with an upper bound of 65535 an
      even lower bound lets nextPort wrap to 0 unheeded, and 65536 is truncated to 0. */
  lemma CyclesIff(r: Range)
    requires r.min + 10 <= r.max
    ensures r.Cycles() <==> r.max <= 65534 || (r.max == 65535 && (r.min % 2 == 1 || r.min == 0))
  {
    if r.max > 65536 && r.min < 65536 {
      assert r.IsSlot(65534 + r.min % 2);
      assert r.IsSlot(r.min);
    } else if r.max >= 65536 {
      assert r.IsSlot(r.min);
    } else if r.max == 65535 && r.min % 2 == 0 {
      assert r.IsSlot(65534);
    }
  }

  /** The d-th slot after slot s, cyclically. */
  function Cyclic(s: nat, d: nat, k: nat): nat
    requires s < k && d <= k
  {
    if s + d < k then s + d else s + d - k
  }

  ghost function SlotSet(r: Range, n: nat): set<nat>
  {
    if n == 0 then {} else SlotSet(r, n - 1) + {r.Slot(n - 1)}
  }

  lemma {:induction false} SlotSetSize(r: Range, n: nat)
    ensures |SlotSet(r, n)| == n
    ensures forall p :: p in SlotSet(r, n) ==> p < r.min + 2 * n
  {
    if n > 0 {
      SlotSetSize(r, n - 1);
    }
  }

  lemma {:induction false} SlotSetWithin(r: Range, n: nat, ports: set<nat>)
    requires forall j :: 0 <= j < n ==> r.Slot(j) in ports
    ensures SlotSet(r, n) <= ports
  {
    if n > 0 {
      SlotSetWithin(r, n - 1, ports);
    }
  }

  lemma SubsetSize(a: set<nat>, b: set<nat>)
    requires a <= b
    ensures |a| <= |b|
  {
    assert b == a + (b - a);
  }

  /** Fewer reserved ports than slots leave a free slot. */
  lemma FreeSlotExists(r: Range, ports: set<nat>)
    requires r.min <= r.max && |ports| < r.Slots()
    ensures exists j :: 0 <= j < r.Slots() && r.Slot(j) !in ports
  {
    if forall j :: 0 <= j < r.Slots() ==> r.Slot(j) in ports {
      SlotSetWithin(r, r.Slots(), ports);
      SlotSetSize(r, r.Slots());
      SubsetSize(SlotSet(r, r.Slots()), ports);
      assert false;
    }
  }

  /** The slot the search looks at after d steps from p. */
  function Visited(r: Range, p: nat, d: nat): nat
  {
    if d == 0 then p else r.NextSlot(Visited(r, p, d - 1))
  }

  /** From any slot the search visits the slots in cyclic order, so it has seen all of them after as many
      steps as there are slots. */
  lemma {:induction false} VisitedIsCyclic(r: Range, p: nat, d: nat)
    requires r.min < r.max && r.IsSlot(p) && d <= r.Slots()
    ensures Visited(r, p, d) == r.Slot(Cyclic((p - r.min) / 2, d, r.Slots()))
  {
    if d > 0 {
      VisitedIsCyclic(r, p, d - 1);
      NextSlotIsCyclic(r, (p - r.min) / 2, d - 1);
    }
  }

  lemma NextSlotIsCyclic(r: Range, s: nat, d: nat)
    requires r.min < r.max && s < r.Slots() && d < r.Slots()
    ensures r.NextSlot(r.Slot(Cyclic(s, d, r.Slots()))) == r.Slot(Cyclic(s, d + 1, r.Slots()))
  {
  }

  lemma {:induction false} VisitedIsSlot(r: Range, p: nat, d: nat)
    requires r.min < r.max && r.IsSlot(p)
    ensures r.IsSlot(Visited(r, p, d))
  {
    if d > 0 {
      VisitedIsSlot(r, p, d - 1);
    }
  }

  /** How far the search is from the next free slot: fewer steps than there are slots. */
  lemma Distance(r: Range, ports: set<nat>, p: nat) returns (d: nat)
    requires r.min < r.max && r.IsSlot(p) && |ports| < r.Slots()
    ensures d < r.Slots() && Visited(r, p, d) !in ports
  {
    FreeSlotExists(r, ports);
    var j :| 0 <= j < r.Slots() && r.Slot(j) !in ports;
    var s := (p - r.min) / 2;
    d := if j >= s then j - s else j - s + r.Slots();
    VisitedIsCyclic(r, p, d);
  }

  lemma RoomLeft(r: Range, ports: set<nat>)
    requires r.min < r.max && 10 <= r.Width() - 2 * |ports|
    ensures |ports| < r.Slots()
  {
  }

  lemma AdvanceIsNext(r: Range, p: nat)
    requires r.min < r.max <= TWO_TO_THE_16 && r.Cycles() && r.IsSlot(p)
    ensures r.Advance(p) == r.NextSlot(p) && r.IsSlot(r.Advance(p))
  {
  }

  /** ports after deleting the first n of ps. */
  function Without(ports: set<nat>, ps: seq<nat>, n: nat): set<nat>
    requires n <= |ps|
  {
    if n == 0 then ports else Without(ports, ps, n - 1) - {ps[n - 1]}
  }

  lemma {:induction false} WithoutMembers(ports: set<nat>, ps: seq<nat>, n: nat, p: nat)
    requires n <= |ps|
    ensures p in Without(ports, ps, n) <==> p in ports && forall i :: 0 <= i < n ==> ps[i] != p
  {
    if n > 0 {
      WithoutMembers(ports, ps, n - 1, p);
    }
  }

  /** Deleting distinct reserved ports removes exactly that many. */
  lemma {:induction false} WithoutSize(ports: set<nat>, ps: seq<nat>, n: nat)
    requires n <= |ps| && Distinct(ps) && forall i :: 0 <= i < |ps| ==> ps[i] in ports
    ensures |Without(ports, ps, n)| == |ports| - n
  {
    if n > 0 {
      WithoutSize(ports, ps, n - 1);
      var rest := Without(ports, ps, n - 1);
      WithoutMembers(ports, ps, n - 1, ps[n - 1]);
      assert |rest - {ps[n - 1]}| == |rest| - 1;
    }
  }

  datatype PortError = NoFreePorts

  class BaseUa {
    const range: Range
    var ports: set<nat>
    var nextPort: nat
    var portsUsed: int

    ghost predicate Valid()
      reads this
    {
      && range.min < range.max <= TWO_TO_THE_16 && range.Cycles()
      && (forall p :: p in ports ==> range.IsSlot(p))
      && range.IsSlot(nextPort)
      && portsUsed == 2 * |ports|
    }

    constructor (range: Range)
      ensures this.range == range && ports == {} && nextPort == Uint16(range.min) && portsUsed == 0
      ensures range.min < range.max <= TWO_TO_THE_16 && range.Cycles() ==> Valid()
    {
      this.range := range;
      ports := {};
      nextPort := Uint16(range.min);
      portsUsed := 0;
    }

    /** One turn of the search: LoadOrStore of nextPort, then nextPort moves on. */
    method TryNext() returns (port: nat, loaded: bool)
      modifies `ports, `nextPort
      ensures port == old(nextPort) && loaded == (port in old(ports)) && ports == old(ports) + {port}
      ensures nextPort == range.Advance(port)
    {
      port := nextPort;
      loaded := port in ports;
      ports := ports + {port};
      nextPort := Uint16(nextPort + 2);
      if nextPort >= Uint16(range.max) {
        nextPort := Uint16(range.min);
      }
    }

    /** The search loop, with a free port `gap` slots ahead: it ends on the first free one. */
    method Search(ghost gap: nat) returns (port: nat, ghost tries: nat)
      requires range.min < range.max <= TWO_TO_THE_16 && range.Cycles() && range.IsSlot(nextPort)
      requires Visited(range, nextPort, gap) !in ports
      modifies `ports, `nextPort
      ensures 1 <= tries <= gap + 1 && port == Visited(range, old(nextPort), tries - 1)
      ensures range.IsSlot(port) && port !in old(ports) && ports == old(ports) + {port}
      ensures nextPort == Visited(range, old(nextPort), tries) && range.IsSlot(nextPort)
      ensures forall d :: 0 <= d < tries - 1 ==> Visited(range, old(nextPort), d) in old(ports)
    {
      tries := 0;
      while true
        invariant 0 <= tries <= gap && ports == old(ports)
        invariant nextPort == Visited(range, old(nextPort), tries) && range.IsSlot(nextPort)
        invariant forall d :: 0 <= d < tries ==> Visited(range, old(nextPort), d) in ports
        decreases gap - tries
      {
        AdvanceIsNext(range, nextPort);
        var loaded;
        port, loaded := TryNext();
        tries := tries + 1;
        if !loaded {
          return;
        }
        assert ports == old(ports);
      }
    }

    /** Refuses within 10 of the limit. Otherwise reserves the first free slot at or cyclically after
        nextPort, after looking at no more slots than there are, and leaves nextPort one slot further. */
    method GetPort() returns (r: Result<nat, PortError>, ghost tries: nat)
      requires Valid()
      modifies this
      ensures Valid()
      ensures r.Err? <==> range.Width() - old(portsUsed) < 10
      ensures r.Err? ==> ports == old(ports) && nextPort == old(nextPort) && portsUsed == old(portsUsed)
      ensures r.Ok? ==>
        && range.IsSlot(r.value) && r.value !in old(ports) && ports == old(ports) + {r.value}
        && portsUsed == old(portsUsed) + 2
        && 1 <= tries <= range.Slots()
        && r.value == Visited(range, old(nextPort), tries - 1)
        && nextPort == Visited(range, old(nextPort), tries)
        && forall d :: 0 <= d < tries - 1 ==> Visited(range, old(nextPort), d) in old(ports)
    {
      if range.Width() - portsUsed < 10 {
        return Err(NoFreePorts), 0;
      }
      RoomLeft(range, ports);
      ghost var gap := Distance(range, ports, nextPort);
      var port;
      port, tries := Search(gap);
      portsUsed := portsUsed + 2;
      r := Ok(port);
    }

    /** Deletes every given port and gives back two per port, whether or not it was reserved. */
    method FreePort(ps: seq<nat>)
      modifies this
      ensures ports == Without(old(ports), ps, |ps|)
      ensures portsUsed == old(portsUsed) - 2 * |ps| && nextPort == old(nextPort)
    {
      var i := 0;
      while i < |ps|
        invariant 0 <= i <= |ps| && ports == Without(old(ports), ps, i)
        invariant nextPort == old(nextPort) && portsUsed == old(portsUsed)
      {
        ports := ports - {ps[i]};
        i := i + 1;
      }
      portsUsed := portsUsed - 2 * |ps|;
    }

    /** A dialog that frees distinct ports it had reserved leaves the allocator consistent. */
    method FreeOwnPorts(ps: seq<nat>)
      requires Valid() && Distinct(ps) && forall i :: 0 <= i < |ps| ==> ps[i] in ports
      modifies this
      ensures Valid() && forall p :: p in ports <==> p in old(ports) && p !in ps
    {
      WithoutSize(ports, ps, |ps|);
      forall p ensures p in Without(ports, ps, |ps|) <==> p in ports && p !in ps {
        WithoutMembers(ports, ps, |ps|, p);
      }
      FreePort(ps);
    }
  }

  ghost predicate Distinct(ps: seq<nat>)
  {
    forall i, j :: 0 <= i < j < |ps| ==> ps[i] != ps[j]
  }

  /** Reserved ports are two apart, so the RTP/RTCP pairs (p, p+1) never overlap, even modulo 2^16. */
  lemma PairsAreDisjoint(p: nat, q: nat)
    requires p < TWO_TO_THE_16 && q < TWO_TO_THE_16 && p != q && p % 2 == q % 2
    ensures {p, (p + 1) % TWO_TO_THE_16} !! {q, (q + 1) % TWO_TO_THE_16}
  {
  }
}
