/** ebpf/src/xdp_sipbench.c and ebpf/ebpf.go: the packet classifier in the kernel and the manager of its rules,
    on a host of either byte order. */
module Ebpf {
  import opened Bytes
  import opened Player
  import opened Widths
  import PacketBuilder

  // ---------------------------------------------------------------- byte order

  datatype Order = LittleEndian | BigEndian

  /** A 16-bit load from two consecutive bytes of memory. */
  function Load(o: Order, first: byte, second: byte): uint16
  {
    if o.BigEndian? then Word(first, second) else Word(second, first)
  }

  /** The two bytes of memory that hold x. */
  function Stored(o: Order, x: uint16): (byte, byte)
  {
    if o.BigEndian? then (High(x), Low(x)) else (Low(x), High(x))
  }

  /** ebpf.go's htons: the bytes of x in memory, read as big-endian. */
  function Htons(o: Order, x: uint16): uint16
  {
    Word(Stored(o, x).0, Stored(o, x).1)
  }

  lemma HtonsTwice(o: Order, x: uint16)
    ensures Htons(o, Htons(o, x)) == x
  {
    HalvesOfWord(High(x), Low(x));
    HalvesOfWord(Low(x), High(x));
    WordOfHalves(x);
  }

  /** On either byte order htons gives what the kernel loads from the packet for that port, is its own inverse,
      and so gives different ports different keys. */
  lemma HtonsIsTheKey(o: Order, x: uint16, y: uint16)
    ensures Load(o, High(x), Low(x)) == Htons(o, x)
    ensures Htons(o, Htons(o, x)) == x
    ensures Htons(o, x) == Htons(o, y) <==> x == y
  {
    HtonsTwice(o, x);
    HtonsTwice(o, y);
  }

  lemma LoadIsSwappedWord(o: Order, a: byte, b: byte)
    ensures Load(o, a, b) == Htons(o, Word(a, b))
    ensures Htons(o, Load(o, a, b)) == Word(a, b)
  {
    HalvesOfWord(a, b);
    HalvesOfWord(b, a);
  }

  // ---------------------------------------------------------------- the classifier

  datatype RtpInfo = RtpInfo(bytes: nat, pkts: nat)

  type Rules = map<nat, RtpInfo>

  const ETH_P_IP: uint16 := 0x0800

  datatype Action = Drop | Pass

  const UDP := 17

  /** What the classifier does before it looks up a rule: an action, or the key. */
  datatype Verdict = Early(action: Action) | Key(key: nat)

  function Parse(o: Order, f: seq<byte>): Verdict
  {
    if |f| < 14 then Early(Drop)
    else if Load(o, f[12], f[13]) != Htons(o, ETH_P_IP) then Early(Pass)
    else if |f| < 34 then Early(Drop)
    else if f[14] % 0x10 != 5 then Early(Drop)
    else if f[22] == 0 || f[23] != UDP then Early(Pass)
    else if |f| < 42 then Early(Drop)
    else Key(Load(o, f[36], f[37]))
  }

  function Counted(o: Order, f: seq<byte>, info: RtpInfo): RtpInfo
    requires |f| >= 42
  {
    RtpInfo(Add64(info.bytes, Htons(o, Load(o, f[38], f[39]))), Add64(info.pkts, 1))
  }

  /** The rule map after the classifier has seen f. */
  function Seen(o: Order, rules: Rules, f: seq<byte>): Rules
  {
    match Parse(o, f)
    case Early(_) => rules
    case Key(k) => if k in rules then rules[k := Counted(o, f, rules[k])] else rules
  }

  function Outcome(o: Order, rules: Rules, f: seq<byte>): Action
  {
    match Parse(o, f)
    case Early(a) => a
    case Key(k) => if k in rules then Drop else Pass
  }

  /** An IPv4 frame without options that carries UDP to the given port. */
  predicate IsUdpTo(f: seq<byte>, port: uint16)
  {
    && |f| >= 42
    && f[12] == 0x08 && f[13] == 0x00
    && f[14] % 0x10 == 5
    && f[22] != 0 && f[23] == UDP
    && Word(f[36], f[37]) == port
  }

  lemma LoadsTheKeyIff(o: Order, a: byte, b: byte, port: uint16)
    ensures Load(o, a, b) == Htons(o, port) <==> Word(a, b) == port
  {
    LoadIsSwappedWord(o, a, b);
    HtonsIsTheKey(o, Word(a, b), port);
  }

  lemma WordIsIpTypeIff(a: byte, b: byte)
    ensures Word(a, b) == ETH_P_IP <==> a == 0x08 && b == 0x00
  {
  }

  lemma LoadsIpTypeIff(o: Order, a: byte, b: byte)
    ensures Load(o, a, b) == Htons(o, ETH_P_IP) <==> a == 0x08 && b == 0x00
  {
    WordIsIpTypeIff(a, b);
    LoadsTheKeyIff(o, a, b, ETH_P_IP);
  }

  /** The classifier takes a frame for a port's key if and only if it is a UDP frame to that port, whatever the
      host's byte order. */
  lemma ParsesIff(o: Order, f: seq<byte>, port: uint16)
    ensures Parse(o, f) == Key(Htons(o, port)) <==> IsUdpTo(f, port)
  {
    if |f| >= 42 {
      var isIp := f[12] == 0x08 && f[13] == 0x00;
      var isTo := Word(f[36], f[37]) == port;
      assert isIp <==> Load(o, f[12], f[13]) == Htons(o, ETH_P_IP) by {
        LoadsIpTypeIff(o, f[12], f[13]);
      }
      assert isTo <==> Load(o, f[36], f[37]) == Htons(o, port) by {
        LoadsTheKeyIff(o, f[36], f[37], port);
      }
    }
  }

  /** A rule counts exactly the UDP frames to its port, and their UDP lengths. */
  lemma SeenCounts(o: Order, rules: Rules, f: seq<byte>, port: uint16)
    ensures var key, after := Htons(o, port), Seen(o, rules, f);
            && after.Keys == rules.Keys
            && (key in rules ==>
                  after[key] == if IsUdpTo(f, port)
                    then RtpInfo(Add64(rules[key].bytes, Word(f[38], f[39])), Add64(rules[key].pkts, 1))
                    else rules[key])
  {
    ParsesIff(o, f, port);
    if |f| >= 42 {
      LoadIsSwappedWord(o, f[38], f[39]);
    }
  }

  /** An Ethernet, IPv4 or UDP header cut short, or IPv4 options. */
  predicate Malformed(f: seq<byte>)
  {
    || |f| < 14
    || (f[12] == 0x08 && f[13] == 0x00
        && (|f| < 34 || f[14] % 0x10 != 5 || (|f| < 42 && f[22] != 0 && f[23] == UDP)))
  }

  /** UDP to the port of some rule. */
  predicate IsForRule(o: Order, rules: Rules, f: seq<byte>)
  {
    exists port: uint16 :: Htons(o, port) in rules && IsUdpTo(f, port)
  }

  /** A frame is dropped if and only if it is malformed or goes to the port of some rule; all else is passed. */
  lemma DropsIff(o: Order, rules: Rules, f: seq<byte>)
    ensures Outcome(o, rules, f).Drop? <==> Malformed(f) || IsForRule(o, rules, f)
  {
    if |f| >= 14 {
      LoadsIpTypeIff(o, f[12], f[13]);
    }
    if |f| >= 42 {
      var port := Word(f[36], f[37]);
      LoadIsSwappedWord(o, f[36], f[37]);
      ParsesIff(o, f, port);
    }
  }

  /** Every frame the player builds is taken for its remote port, and counts for its payload plus 8. */
  lemma BuiltFramesCount(f: seq<byte>, remotePort: uint16, payload: seq<byte>, port: uint16)
    requires PacketBuilder.IsFrame(f, remotePort, payload)
    ensures IsUdpTo(f, port) <==> port == remotePort
    ensures Word(f[38], f[39]) == |payload| + 8
  {
  }

  // ---------------------------------------------------------------- the manager

  /** The keys of a list of ports. */
  function Keys(o: Order, ports: seq<uint16>): set<nat>
  {
    set p | p in ports :: Htons(o, p)
  }

  /** A port's key is among those of a list exactly when the port is in the list. */
  lemma KeyOfPort(o: Order, ports: seq<uint16>, port: uint16)
    ensures Htons(o, port) in Keys(o, ports) <==> port in ports
  {
    if Htons(o, port) in Keys(o, ports) {
      var p :| p in ports && Htons(o, p) == Htons(o, port);
      HtonsIsTheKey(o, p, port);
    }
  }

  /** The first loop of Update: one key per port. */
  method KeysOf(o: Order, ports: seq<uint16>) returns (keys: seq<nat>)
    ensures forall k :: k in keys <==> k in Keys(o, ports)
  {
    keys := [];
    var i := 0;
    while i < |ports|
      invariant 0 <= i <= |ports|
      invariant forall k :: k in keys <==> k in Keys(o, ports[..i])
    {
      assert ports[..i + 1] == ports[..i] + [ports[i]];
      keys := keys + [Htons(o, ports[i])];
      i := i + 1;
    }
    assert ports[..i] == ports;
  }

  function Zeroed(rules: Rules, keys: set<nat>): Rules
  {
    map k | k in rules.Keys + keys :: if k in keys then RtpInfo(0, 0) else rules[k]
  }

  function Looked(rules: Rules, key: nat): RtpInfo
  {
    if key in rules then rules[key] else RtpInfo(0, 0)
  }

  class Manager {
    const order: Order
    var rules: Rules

    constructor (order: Order)
      ensures rules == map[] && this.order == order
    {
      this.order := order;
      rules := map[];
    }

    /** Every given port has a fresh rule; no other rule is touched. */
    method Update(ports: seq<uint16>)
      modifies this
      ensures rules == Zeroed(old(rules), Keys(order, ports))
      ensures forall p :: p in ports ==> Htons(order, p) in rules && rules[Htons(order, p)] == RtpInfo(0, 0)
      ensures forall k :: k !in Keys(order, ports) ==>
        (k in rules <==> k in old(rules)) && (k in rules ==> rules[k] == old(rules)[k])
    {
      var keys := KeysOf(order, ports);
      BatchUpdate(keys);
      assert (set k | k in keys) == Keys(order, ports);
    }

    /** The map's BatchUpdate with zeroed values, key by key. */
    method BatchUpdate(keys: seq<nat>)
      modifies this
      ensures rules == Zeroed(old(rules), set k | k in keys)
    {
      var i := 0;
      while i < |keys|
        invariant 0 <= i <= |keys|
        invariant rules == Zeroed(old(rules), set k | k in keys[..i])
      {
        assert keys[..i + 1] == keys[..i] + [keys[i]];
        rules := rules[keys[i] := RtpInfo(0, 0)];
        i := i + 1;
      }
      assert keys[..i] == keys;
    }

    /** What each port's rule has counted, zeros for a port without one; afterwards none of the ports has a rule
        and no other rule is touched. */
    method LookupAndDelete(ports: seq<uint16>) returns (infos: seq<RtpInfo>)
      modifies this
      ensures |infos| == |ports|
      ensures forall i :: 0 <= i < |ports| ==>
        var key := Htons(order, ports[i]); infos[i] == if key in old(rules) then old(rules)[key] else RtpInfo(0, 0)
      ensures rules == old(rules) - Keys(order, ports)
    {
      infos := [];
      var keys: seq<nat> := [];
      var i := 0;
      while i < |ports|
        invariant 0 <= i <= |ports| && |infos| == i && rules == old(rules)
        invariant forall k :: 0 <= k < i ==> infos[k] == Looked(rules, Htons(order, ports[k]))
        invariant forall k :: k in keys <==> k in rules && k in Keys(order, ports[..i])
      {
        assert ports[..i + 1] == ports[..i] + [ports[i]];
        var key := Htons(order, ports[i]);
        if key in rules {
          infos := infos + [rules[key]];
          keys := keys + [key];
        } else {
          infos := infos + [RtpInfo(0, 0)];
        }
        i := i + 1;
      }
      assert ports[..i] == ports;
      rules := rules - (set k | k in keys);
      assert rules == old(rules) - Keys(order, ports);
    }

    /** The XDP program run on one frame. */
    method Sipbench(f: seq<byte>) returns (action: Action)
      modifies this
      ensures rules == Seen(order, old(rules), f)
      ensures action == Outcome(order, old(rules), f)
    {
      if |f| < 14 {
        return Drop;
      }
      if Load(order, f[12], f[13]) != Htons(order, ETH_P_IP) {
        return Pass;
      }
      if |f| < 34 {
        return Drop;
      }
      if f[14] % 0x10 != 5 {
        return Drop;
      }
      if f[22] == 0 || f[23] != UDP {
        return Pass;
      }
      if |f| < 42 {
        return Drop;
      }
      var key := Load(order, f[36], f[37]);
      if key !in rules {
        return Pass;
      }
      var size := Htons(order, Load(order, f[38], f[39]));
      rules := rules[key := rules[key].(pkts := Add64(rules[key].pkts, 1))];
      rules := rules[key := rules[key].(bytes := Add64(rules[key].bytes, size))];
      return Drop;
    }
  }

  // ---------------------------------------------------------------- whole runs

  datatype Event = Frame(f: seq<byte>) | Updated(ports: seq<uint16>) | Deleted(ports: seq<uint16>)

  function Happened(o: Order, rules: Rules, e: Event): Rules
  {
    match e
    case Frame(f) => Seen(o, rules, f)
    case Updated(ports) => Zeroed(rules, Keys(o, ports))
    case Deleted(ports) => rules - Keys(o, ports)
  }

  type History = (Rules, Event) -> Rules

  function Happens(o: Order): History
  {
    (rules, e) => Happened(o, rules, e)
  }

  /** The rules after the first n events. */
  function After(happens: History, rules: Rules, events: seq<Event>, n: nat): Rules
    requires n <= |events|
  {
    if n == 0 then rules else happens(After(happens, rules, events, n - 1), events[n - 1])
  }

  /** 1 for a UDP frame to the port, and its UDP length. */
  function FrameTo(e: Event, port: uint16): nat
  {
    if e.Frame? && IsUdpTo(e.f, port) then 1 else 0
  }

  function LengthTo(e: Event, port: uint16): nat
  {
    if e.Frame? && IsUdpTo(e.f, port) then Word(e.f[38], e.f[39]) else 0
  }

  /** The UDP frames to the port among the first n events. */
  function FramesTo(events: seq<Event>, port: uint16, n: nat): nat
    requires n <= |events|
  {
    if n == 0 then 0 else FramesTo(events, port, n - 1) + FrameTo(events[n - 1], port)
  }

  /** Their UDP lengths, added up. */
  function BytesTo(events: seq<Event>, port: uint16, n: nat): nat
    requires n <= |events|
  {
    if n == 0 then 0 else BytesTo(events, port, n - 1) + LengthTo(events[n - 1], port)
  }

  predicate Spares(e: Event, port: uint16)
  {
    match e
    case Frame(_) => true
    case Updated(ports) => port !in ports
    case Deleted(ports) => port !in ports
  }

  /** The rule under the key has counted so many bytes and frames. */
  ghost predicate RuleIs(rules: Rules, key: nat, bytes: nat, frames: nat)
  {
    key in rules && rules[key] == RtpInfo(bytes % TWO_TO_THE_64, frames % TWO_TO_THE_64)
  }

  lemma InfoCounts(info: RtpInfo, length: nat, bytes: nat, frames: nat)
    requires info == RtpInfo(bytes % TWO_TO_THE_64, frames % TWO_TO_THE_64)
    ensures RtpInfo(Add64(info.bytes, length), Add64(info.pkts, 1))
         == RtpInfo((bytes + length) % TWO_TO_THE_64, (frames + 1) % TWO_TO_THE_64)
  {
    CountOn(frames, 1);
    CountOn(bytes, length);
  }

  lemma FrameCounts(o: Order, before: Rules, f: seq<byte>, key: nat, port: uint16, bytes: nat, frames: nat)
    requires key == Htons(o, port) && RuleIs(before, key, bytes, frames)
    ensures RuleIs(Seen(o, before, f), key, bytes + LengthTo(Frame(f), port), frames + FrameTo(Frame(f), port))
  {
    SeenCounts(o, before, f, port);
    if IsUdpTo(f, port) {
      InfoCounts(before[key], Word(f[38], f[39]), bytes, frames);
    }
  }

  /** An Update gives each of its ports a rule that has counted nothing. */
  lemma UpdateZeroes(o: Order, rules: Rules, ports: seq<uint16>, port: uint16)
    requires port in ports
    ensures RuleIs(Happened(o, rules, Updated(ports)), Htons(o, port), 0, 0)
  {
    KeyOfPort(o, ports, port);
  }

  lemma OtherKeysStay(rules: Rules, keys: set<nat>, key: nat, bytes: nat, frames: nat)
    requires RuleIs(rules, key, bytes, frames) && key !in keys
    ensures RuleIs(Zeroed(rules, keys), key, bytes, frames) && RuleIs(rules - keys, key, bytes, frames)
  {
  }

  lemma EventCounts(o: Order, before: Rules, e: Event, key: nat, port: uint16, bytes: nat, frames: nat)
    requires key == Htons(o, port) && Spares(e, port) && RuleIs(before, key, bytes, frames)
    ensures RuleIs(Happened(o, before, e), key, bytes + LengthTo(e, port), frames + FrameTo(e, port))
  {
    match e
    case Frame(f) => FrameCounts(o, before, f, key, port, bytes, frames);
    case Updated(ports) =>
      KeyOfPort(o, ports, port);
      OtherKeysStay(before, Keys(o, ports), key, bytes, frames);
    case Deleted(ports) =>
      KeyOfPort(o, ports, port);
      OtherKeysStay(before, Keys(o, ports), key, bytes, frames);
  }

  /** The event adds its share to the rule, whatever the rule has counted before. */
  ghost predicate Adds(happens: History, e: Event, key: nat, port: uint16)
  {
    forall before: Rules, bytes: nat, frames: nat :: RuleIs(before, key, bytes, frames)
      ==> RuleIs(happens(before, e), key, bytes + LengthTo(e, port), frames + FrameTo(e, port))
  }

  lemma EventAdds(o: Order, e: Event, key: nat, port: uint16)
    requires key == Htons(o, port) && Spares(e, port)
    ensures Adds(Happens(o), e, key, port)
  {
    forall before: Rules, bytes: nat, frames: nat | RuleIs(before, key, bytes, frames)
      ensures RuleIs(Happens(o)(before, e), key, bytes + LengthTo(e, port), frames + FrameTo(e, port))
    {
      EventCounts(o, before, e, key, port, bytes, frames);
      assert Happens(o)(before, e) == Happened(o, before, e);
    }
  }

  /** What every event after the first adds, a run of events adds up. */
  lemma {:induction false} RunCounts(happens: History, rules: Rules, events: seq<Event>, key: nat, port: uint16, n: nat)
    requires 1 <= n <= |events| && RuleIs(happens(rules, events[0]), key, 0, 0) && !events[0].Frame?
    requires forall i :: 1 <= i < |events| ==> Adds(happens, events[i], key, port)
    ensures RuleIs(After(happens, rules, events, n), key, BytesTo(events, port, n), FramesTo(events, port, n))
  {
    if n > 1 {
      RunCounts(happens, rules, events, key, port, n - 1);
    } else {
      assert After(happens, rules, events, 0) == rules;
      assert BytesTo(events, port, 0) == FramesTo(events, port, 0) == 0;
    }
  }

  /** A port is updated first and then neither updated nor deleted. */
  ghost predicate StartsRule(events: seq<Event>, port: uint16)
  {
    && events != [] && events[0].Updated? && port in events[0].ports
    && forall i :: 1 <= i < |events| ==> Spares(events[i], port)
  }

  /** From its Update on, whatever the rules were before, and until the port is updated or deleted again, a rule holds
      exactly the number and the UDP bytes of the frames to its port, whatever else happens to other ports. */
  lemma RuleCountsItsPort(o: Order, rules: Rules, events: seq<Event>, port: uint16)
    requires StartsRule(events, port)
    ensures RuleIs(After(Happens(o), rules, events, |events|), Htons(o, port),
                   BytesTo(events, port, |events|), FramesTo(events, port, |events|))
  {
    forall i | 1 <= i < |events| ensures Adds(Happens(o), events[i], Htons(o, port), port) {
      EventAdds(o, events[i], Htons(o, port), port);
    }
    UpdateZeroes(o, rules, events[0].ports, port);
    assert Happens(o)(rules, events[0]) == Happened(o, rules, events[0]);
    RunCounts(Happens(o), rules, events, Htons(o, port), port, |events|);
  }

  /** The UDP frames to the port among the first n events, in order. */
  function FramesFor(events: seq<Event>, port: uint16, n: nat): seq<seq<byte>>
    requires n <= |events|
  {
    if n == 0 then []
    else FramesFor(events, port, n - 1) + if FrameTo(events[n - 1], port) == 1 then [events[n - 1].f] else []
  }

  /** Among any other traffic, the frames to the port are those of the packets sent, in order. */
  ghost predicate Delivers(events: seq<Event>, sent: seq<Packet>, port: uint16)
  {
    var frames := FramesFor(events, port, |events|);
    |frames| == |sent| && forall i :: 0 <= i < |sent| ==> PacketBuilder.IsFrame(frames[i], port, sent[i].payload)
  }

  /** The first frames to the port carry the first packets sent, whatever lies between them. */
  lemma {:induction false} DeliveredTotals(events: seq<Event>, sent: seq<Packet>, port: uint16, n: nat)
    requires n <= |events| && |FramesFor(events, port, n)| <= |sent|
    requires var frames := FramesFor(events, port, n);
             forall i :: 0 <= i < |frames| ==> PacketBuilder.IsFrame(frames[i], port, sent[i].payload)
    ensures FramesTo(events, port, n) == |FramesFor(events, port, n)|
    ensures BytesTo(events, port, n) == UdpBytes(sent, |FramesFor(events, port, n)|)
  {
    if n > 0 {
      var before, frames := FramesFor(events, port, n - 1), FramesFor(events, port, n);
      forall i | 0 <= i < |before| ensures PacketBuilder.IsFrame(before[i], port, sent[i].payload) {
        assert before[i] == frames[i];
      }
      DeliveredTotals(events, sent, port, n - 1);
      if FrameTo(events[n - 1], port) == 1 {
        assert frames[|before|] == events[n - 1].f;
        BuiltFramesCount(events[n - 1].f, port, sent[|before|].payload, port);
      }
    }
  }

  /** End to end: if of all frames only those one player sent reach its remote port, then at any time from the
      port's Update on and before its deletion, whatever other frames arrive and other dialogs update and delete,
      the rule's counters are the sender's. */
  lemma CountersAgree(o: Order, rules: Rules, events: seq<Event>, sent: seq<Packet>, port: uint16, c: Counters,
                      losses: nat)
    requires Delivers(events, sent, port) && CountersOk(c, sent, losses)
    requires StartsRule(events, port)
    ensures Looked(After(Happens(o), rules, events, |events|), Htons(o, port)) == RtpInfo(c.txBytes, c.txPkts)
  {
    RuleCountsItsPort(o, rules, events, port);
    DeliveredTotals(events, sent, port, |events|);
  }
}
