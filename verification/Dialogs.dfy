/** ua.go and dialog.go together: any number of UAS and UAC dialogs, each on its own goroutine, sharing the
    port allocator. Every shared read and write is a separate step and steps interleave freely. A process has
    dialogs of one kind only; what holds of any mix holds of these. */
module Dialogs {
  import opened Widths
  import opened PortAllocator

  // ---------------------------------------------------------------- control flow of dialog.go

  datatype Kind = Uas | Uac

  /** Program points of onInvite, onInviteSIPREC (Rec...) and MakeCall (Call...). Return: the function has
      returned, by whatever exit, and the deferred Close is next. */
  datatype Pc =
    | Trying | ContentType | ParseSdp | AudioPort | UpdateRule | NewMedia | Progress | EarlyMedia
    | Ringing | Decide | Answer | AnswerMedia | Talking | SendBye
    | RecParse | RecPorts(left: nat) | RecUpdate | RecProgress | RecRinging | RecDecide | RecAnswer
    | RecTalking | RecBye
    | CallPort | CallUpdate | CallInvite | CallWaitAnswer | CallAck | CallMedia | CallTalking | CallStop | CallBye
    | Return

  /** What an unseen call returned or a select chose: Go continues, Stop is the error, cancel, busy or hang-up
      exit (at ContentType: not plain SDP), Streams(n) a parsed SIPREC body with n audio streams. */
  datatype Choice = Go | Stop | Streams(n: nat)

  function NextPc(pc: Pc, c: Choice): Pc
  {
    match pc
    case Trying => if c.Go? then ContentType else Return
    case ContentType => if c.Go? then ParseSdp else RecParse
    case ParseSdp => if c.Go? then AudioPort else Return
    case UpdateRule => if c.Go? then NewMedia else Return
    case NewMedia => if c.Go? then Progress else Return
    case Progress => if c.Go? then EarlyMedia else Return
    case EarlyMedia => if c.Go? then Ringing else Return
    case Ringing => if c.Go? then Decide else Return
    case Decide => if c.Go? then Answer else Return
    case Answer => if c.Go? then AnswerMedia else Return
    case AnswerMedia => if c.Go? then Talking else Return
    case Talking => if c.Go? then SendBye else Return
    case SendBye => Return
    case RecParse => if c.Streams? then RecPorts(c.n) else Return
    case RecPorts(left) => if left == 0 then RecUpdate else pc
    case RecUpdate => if c.Go? then RecProgress else Return
    case RecProgress => if c.Go? then RecRinging else Return
    case RecRinging => if c.Go? then RecDecide else Return
    case RecDecide => if c.Go? then RecAnswer else Return
    case RecAnswer => if c.Go? then RecTalking else Return
    case RecTalking => if c.Go? then RecBye else Return
    case RecBye => Return
    case CallUpdate => if c.Go? then CallInvite else Return
    case CallInvite => if c.Go? then CallWaitAnswer else Return
    case CallWaitAnswer => if c.Go? then CallAck else Return
    case CallAck => if c.Go? then CallMedia else Return
    case CallMedia => if c.Go? then CallTalking else Return
    case CallTalking => CallStop
    case CallStop => if c.Go? then CallBye else Return
    case CallBye => Return
    case _ => pc
  }

  /** The points that call getPort. */
  predicate WantsPort(pc: Pc)
  {
    pc.AudioPort? || (pc.RecPorts? && pc.left > 0) || pc.CallPort?
  }

  /** Where control goes once the port has been appended. */
  function AfterPort(pc: Pc): Pc
  {
    match pc
    case AudioPort => UpdateRule
    case RecPorts(left) => if left == 0 then pc else RecPorts(left - 1)
    case CallPort => CallUpdate
    case _ => pc
  }

  // ---------------------------------------------------------------- one dialog

  /** Where a getPort turn stands after LoadOrStore. */
  datatype Spot =
    | LoadNext               // the load of `u.nextPort += 2`
    | StoreNext(v: nat)      // its store
    | CompareNext            // `u.nextPort >= uint16(RtpPortMax)`
    | ResetNext              // `u.nextPort = uint16(RtpPortMin)`

  datatype Phase =
    | Running(pc: Pc)
    | Searching(pc: Pc)                                     // past the guard, at `port := u.nextPort`
    | Probing(pc: Pc, port: nat)                            // at LoadOrStore
    | Probed(pc: Pc, port: nat, loaded: bool, spot: Spot)
    | Counting(pc: Pc, port: nat)                           // at portsUsed.Add(2)
    | Deleting(rest: seq<nat>)                              // freePort, these ports still to delete
    | Uncounting                                            // at portsUsed.Add(-2*len)
    | Unruling                                              // at LookupAndDelete
    | Leaving(freed: bool)                                  // at the metrics; did Close call freePort?
    | Gone(freed: bool)

  datatype Owner = Owner(kind: Kind, held: seq<nat>, phase: Phase)

  datatype Shared = Shared(range: Range, ports: set<nat>, nextPort: nat, portsUsed: int, current: int,
                           rules: set<nat>)

  datatype Ua = Ua(shared: Shared, owners: seq<Owner>)

  /** The next atomic step belongs to a new dialog, or to dialog t; `c` is what the outside answers it. */
  datatype Step = Spawn(kind: Kind) | Turn(t: nat, c: Choice)

  /** Where a getPort turn ends: back to the loop, or on to the counter with the port. */
  function EndTurn(pc: Pc, port: nat, loaded: bool): Phase
  {
    if loaded then Searching(pc) else Counting(pc, port)
  }

  /** The test in Close: a UAS has ports, a UAC's port is not 0. */
  predicate FreesPorts(o: Owner)
  {
    o.held != [] && (o.kind.Uac? ==> o.held[0] != 0)
  }

  function ClosePhase(o: Owner): Phase
  {
    if FreesPorts(o) then Deleting(o.held) else Leaving(false)
  }

  function NextPhase(u: Shared, o: Owner, c: Choice): Phase
  {
    match o.phase
    case Running(pc) =>
      if pc.Return? then ClosePhase(o)
      else if !WantsPort(pc) then Running(NextPc(pc, c))
      else if u.range.Width() - u.portsUsed < 10 then Running(Return)
      else Searching(pc)
    case Searching(pc) => Probing(pc, u.nextPort)
    case Probing(pc, p) => Probed(pc, p, p in u.ports, LoadNext)
    case Probed(pc, p, loaded, spot) => (
      match spot
      case LoadNext => Probed(pc, p, loaded, StoreNext(u.nextPort))
      case StoreNext(_) => Probed(pc, p, loaded, CompareNext)
      case CompareNext =>
        if u.nextPort >= Uint16(u.range.max) then Probed(pc, p, loaded, ResetNext) else EndTurn(pc, p, loaded)
      case ResetNext => EndTurn(pc, p, loaded))
    case Counting(pc, _) => Running(AfterPort(pc))
    case Deleting(rest) => if |rest| <= 1 then Uncounting else Deleting(rest[1..])
    case Uncounting => Unruling
    case Unruling => Leaving(true)
    case Leaving(freed) => Gone(freed)
    case Gone(_) => o.phase
  }

  function Next(u: Shared, o: Owner, c: Choice): Owner
  {
    Owner(o.kind, if o.phase.Counting? then o.held + [o.phase.port] else o.held, NextPhase(u, o, c))
  }

  /** The rules a successful ebpf.Update creates: RTP and RTCP port of a plain dialog, only the RTP ports of a
      SIPREC one. */
  function UpdatedRules(o: Owner, c: Choice): set<nat>
  {
    if !o.phase.Running? || !c.Go? || o.held == [] then {}
    else if o.phase.pc.RecUpdate? then set p | p in o.held
    else if o.phase.pc.UpdateRule? || o.phase.pc.CallUpdate? then {o.held[0], Uint16(o.held[0] + 1)}
    else {}
  }

  /** What the step does to the shared state. */
  function Effect(u: Shared, o: Owner, c: Choice): Shared
  {
    match o.phase
    case Running(_) => u.(rules := u.rules + UpdatedRules(o, c))
    case Probing(_, p) => u.(ports := u.ports + {p})
    case Probed(_, _, _, spot) =>
      if spot.StoreNext? then u.(nextPort := Uint16(spot.v + 2))
      else if spot.ResetNext? then u.(nextPort := Uint16(u.range.min))
      else u
    case Counting(_, _) => u.(portsUsed := u.portsUsed + 2)
    case Deleting(rest) => if rest == [] then u else u.(ports := u.ports - {rest[0]})
    case Uncounting => u.(portsUsed := u.portsUsed - 2 * |o.held|)
    case Unruling => u.(rules := u.rules - (set p | p in o.held))
    case Leaving(_) => u.(current := u.current - 1)
    case _ => u
  }

  predicate Enabled(s: Ua, step: Step)
  {
    step.Turn? ==> step.t < |s.owners|
  }

  function Apply(s: Ua, step: Step): Ua
    requires Enabled(s, step)
  {
    match step
    case Spawn(kind) =>
      Ua(s.shared.(current := s.shared.current + 1),
         s.owners + [Owner(kind, [], Running(if kind.Uas? then Trying else CallPort))])
    case Turn(t, c) =>
      Ua(Effect(s.shared, s.owners[t], c), s.owners[t := Next(s.shared, s.owners[t], c)])
  }

  function Start(r: Range): Ua
  {
    Ua(Shared(r, {}, r.min, 0, 0, {}), [])
  }

  // ---------------------------------------------------------------- who owns what

  /** The ports this dialog is responsible for: appended to its list or reserved by its running getPort, and
      not yet deleted. */
  function Owned(o: Owner): multiset<nat>
  {
    match o.phase
    case Probed(_, p, loaded, _) => if loaded then multiset(o.held) else multiset(o.held) + multiset{p}
    case Counting(_, p) => multiset(o.held) + multiset{p}
    case Deleting(rest) => multiset(rest)
    case Uncounting => multiset{}
    case Unruling => multiset{}
    case Leaving(freed) => if freed then multiset{} else multiset(o.held)
    case Gone(freed) => if freed then multiset{} else multiset(o.held)
    case _ => multiset(o.held)
  }

  predicate InGetPort(o: Owner)
  {
    o.phase.Searching? || o.phase.Probing? || o.phase.Probed? || o.phase.Counting?
  }

  /** Past the guard and still without a port. */
  predicate StillSearching(o: Owner)
  {
    o.phase.Searching? || o.phase.Probing? || (o.phase.Probed? && o.phase.loaded)
  }

  /** How many of the dialog's ports portsUsed has seen come and not yet go. */
  function Counted(o: Owner): int
  {
    if o.phase.Unruling? || ((o.phase.Leaving? || o.phase.Gone?) && o.phase.freed) then 0 else |o.held|
  }

  function Live(o: Owner): int { if o.phase.Gone? then 0 else 1 }

  function Calling(o: Owner): int { if InGetPort(o) then 1 else 0 }

  function Empty(o: Owner): int { if StillSearching(o) then 1 else 0 }

  function Size(o: Owner): int { |Owned(o)| }

  function Total(f: Owner -> int, s: seq<Owner>, n: nat): int
    requires n <= |s|
  {
    if n == 0 then 0 else Total(f, s, n - 1) + f(s[n - 1])
  }

  lemma {:induction false} TotalUpdate(f: Owner -> int, s: seq<Owner>, i: nat, x: Owner, n: nat)
    requires i < |s| && n <= |s|
    ensures Total(f, s[i := x], n) == Total(f, s, n) + (if i < n then f(x) - f(s[i]) else 0)
  {
    if n > 0 {
      TotalUpdate(f, s, i, x, n - 1);
    }
  }

  lemma {:induction false} TotalAppend(f: Owner -> int, s: seq<Owner>, x: Owner, n: nat)
    requires n <= |s|
    ensures Total(f, s + [x], n) == Total(f, s, n)
  {
    if n > 0 {
      TotalAppend(f, s, x, n - 1);
    }
  }

  ghost predicate NeverNegative(f: Owner -> int)
  {
    forall o: Owner :: f(o) >= 0
  }

  lemma {:induction false} TotalHasPart(f: Owner -> int, s: seq<Owner>, i: nat, n: nat)
    requires NeverNegative(f) && i < |s| && n <= |s|
    ensures Total(f, s, n) >= (if i < n then f(s[i]) else 0)
  {
    if n > 0 {
      TotalHasPart(f, s, i, n - 1);
    }
  }

  lemma {:induction false} TotalHasTwoParts(f: Owner -> int, s: seq<Owner>, i: nat, j: nat, n: nat)
    requires NeverNegative(f) && i < |s| && j < |s| && i != j && n <= |s|
    ensures Total(f, s, n) >= (if i < n then f(s[i]) else 0) + (if j < n then f(s[j]) else 0)
  {
    if n > 0 {
      TotalHasTwoParts(f, s, i, j, n - 1);
    }
  }

  /** The bags of the first n dialogs, added up. */
  function Pooled(f: Owner -> multiset<nat>, s: seq<Owner>, n: nat): multiset<nat>
    requires n <= |s|
  {
    if n == 0 then multiset{} else Pooled(f, s, n - 1) + f(s[n - 1])
  }

  lemma {:induction false} PooledUpdate(f: Owner -> multiset<nat>, s: seq<Owner>, i: nat, x: Owner, n: nat)
    requires i < n <= |s|
    ensures Pooled(f, s[i := x], n) + f(s[i]) == Pooled(f, s, n) + f(x)
  {
    if i < n - 1 {
      PooledUpdate(f, s, i, x, n - 1);
      AddToBoth(Pooled(f, s[i := x], n - 1), f(s[i]), Pooled(f, s, n - 1), f(x), f(s[n - 1]));
    } else {
      PooledBefore(f, s, i, x, i);
      AddToBoth(Pooled(f, s, i), f(s[i]), Pooled(f, s, i), f(s[i]), f(x));
    }
  }

  lemma AddToBoth(a: multiset<nat>, x: multiset<nat>, b: multiset<nat>, y: multiset<nat>, z: multiset<nat>)
    requires a + x == b + y
    ensures a + z + x == b + z + y
    ensures a + z + x == b + y + z
  {
    assert a + z + x == (a + x) + z;
    assert b + z + y == (b + y) + z;
  }

  lemma {:induction false} PooledSize(s: seq<Owner>, n: nat)
    requires n <= |s|
    ensures |Pooled(Owned, s, n)| == Total(Size, s, n)
  {
    if n > 0 {
      PooledSize(s, n - 1);
    }
  }

  lemma {:induction false} PoolWitness(f: Owner -> multiset<nat>, s: seq<Owner>, n: nat, p: nat) returns (i: nat)
    requires n <= |s| && p in Pooled(f, s, n)
    ensures i < n && p in f(s[i])
  {
    if p in f(s[n - 1]) {
      i := n - 1;
    } else {
      i := PoolWitness(f, s, n - 1, p);
    }
  }

  lemma {:induction false} PooledBefore(f: Owner -> multiset<nat>, s: seq<Owner>, i: nat, x: Owner, n: nat)
    requires n <= i < |s|
    ensures Pooled(f, s[i := x], n) == Pooled(f, s, n)
  {
    if n > 0 {
      PooledBefore(f, s, i, x, n - 1);
    }
  }

  lemma {:induction false} PooledAppend(f: Owner -> multiset<nat>, s: seq<Owner>, x: Owner, n: nat)
    requires n <= |s|
    ensures Pooled(f, s + [x], n) == Pooled(f, s, n)
  {
    if n > 0 {
      PooledAppend(f, s, x, n - 1);
    }
  }

  lemma {:induction false} PoolHasPart(f: Owner -> multiset<nat>, s: seq<Owner>, i: nat, n: nat)
    requires i < n <= |s|
    ensures f(s[i]) <= Pooled(f, s, n)
  {
    if i < n - 1 {
      PoolHasPart(f, s, i, n - 1);
    }
  }

  lemma {:induction false} PoolHasTwoParts(f: Owner -> multiset<nat>, s: seq<Owner>, i: nat, j: nat, n: nat)
    requires i < j < n <= |s|
    ensures f(s[i]) + f(s[j]) <= Pooled(f, s, n)
  {
    if j < n - 1 {
      PoolHasTwoParts(f, s, i, j, n - 1);
    } else {
      PoolHasPart(f, s, i, n - 1);
    }
  }

  // ---------------------------------------------------------------- what every interleaving keeps

  predicate PortOk(r: Range, p: nat)
  {
    p % 2 == r.min % 2 && p < TWO_TO_THE_16
  }

  predicate CallPc(pc: Pc)
  {
    pc.CallPort? || pc.CallUpdate? || pc.CallInvite? || pc.CallWaitAnswer? || pc.CallAck? || pc.CallMedia?
    || pc.CallTalking? || pc.CallStop? || pc.CallBye?
  }

  predicate PcOk(o: Owner, pc: Pc)
  {
    (o.kind.Uac? <==> CallPc(pc)) && (o.kind.Uac? && WantsPort(pc) ==> o.held == [])
  }

  /** A dialog stays on its own kind's program points, asks for a port only where the source does, and Close
      frees what it should. */
  predicate ControlOk(o: Owner)
  {
    && (o.kind.Uac? ==> |o.held| <= 1)
    && match o.phase
       case Running(pc) => pc.Return? || PcOk(o, pc)
       case Searching(pc) => WantsPort(pc) && PcOk(o, pc)
       case Probing(pc, _) => WantsPort(pc) && PcOk(o, pc)
       case Probed(pc, _, _, _) => WantsPort(pc) && PcOk(o, pc)
       case Counting(pc, _) => WantsPort(pc) && PcOk(o, pc)
       case Deleting(rest) => FreesPorts(o) && 0 < |rest| <= |o.held|
       case Uncounting => FreesPorts(o)
       case Unruling => FreesPorts(o)
       case Leaving(freed) => freed <==> FreesPorts(o)
       case Gone(freed) => freed <==> FreesPorts(o)
  }

  predicate SearchOk(r: Range, o: Owner)
  {
    && (o.phase.Probing? ==> PortOk(r, o.phase.port))
    && (o.phase.Probed? && o.phase.spot.StoreNext? ==> PortOk(r, o.phase.spot.v))
  }

  /** Reserved and upcoming ports have the parity of RtpPortMin. */
  ghost predicate Parity(s: Ua)
  {
    && PortOk(s.shared.range, s.shared.nextPort)
    && (forall p :: p in s.shared.ports ==> PortOk(s.shared.range, p))
    && (forall t :: 0 <= t < |s.owners| ==> SearchOk(s.shared.range, s.owners[t]))
  }

  /** The reserved ports are the disjoint union of what the dialogs own: no port is owned twice, none is
      reserved without an owner. */
  ghost predicate Ownership(s: Ua)
  {
    multiset(s.shared.ports) == Pooled(Owned, s.owners, |s.owners|)
  }

  ghost predicate Books(s: Ua)
  {
    && s.shared.portsUsed == 2 * Total(Counted, s.owners, |s.owners|)
    && s.shared.current == Total(Live, s.owners, |s.owners|)
  }

  ghost predicate Inv(s: Ua)
  {
    && (forall t :: 0 <= t < |s.owners| ==> ControlOk(s.owners[t]))
    && s.shared.range.min < TWO_TO_THE_16
    && Parity(s)
    && Ownership(s)
    && Books(s)
  }

  lemma StartHasInv(r: Range)
    requires r.min < TWO_TO_THE_16
    ensures Inv(Start(r))
  {
  }

  // ---------------------------------------------------------------- one step, seen from its dialog

  lemma NextPcOk(o: Owner, pc: Pc, c: Choice)
    requires o.phase == Running(pc) && !WantsPort(pc) && !pc.Return? && PcOk(o, pc)
    ensures NextPc(pc, c).Return? || PcOk(o, NextPc(pc, c))
  {
  }

  lemma ControlStaysOk(u: Shared, o: Owner, c: Choice)
    requires ControlOk(o)
    ensures ControlOk(Next(u, o, c))
  {
    if o.phase.Running? && !WantsPort(o.phase.pc) && !o.phase.pc.Return? {
      NextPcOk(o, o.phase.pc, c);
    }
  }

  lemma SearchStaysOk(u: Shared, o: Owner, c: Choice)
    requires SearchOk(u.range, o) && PortOk(u.range, u.nextPort) && u.range.min < TWO_TO_THE_16
    ensures SearchOk(u.range, Next(u, o, c))
    ensures PortOk(u.range, Effect(u, o, c).nextPort)
    ensures forall p :: p in Effect(u, o, c).ports ==> p in u.ports || PortOk(u.range, p)
    ensures Effect(u, o, c).range == u.range
  {
  }

  lemma BagOfInsert(ports: set<nat>, p: nat)
    requires p !in ports
    ensures multiset(ports + {p}) == multiset(ports) + multiset{p}
  {
  }

  lemma BagOfDelete(ports: set<nat>, p: nat)
    requires p in ports
    ensures multiset(ports - {p}) + multiset{p} == multiset(ports)
  {
  }

  lemma InsertFollows(u: Shared, o: Owner, c: Choice)
    requires o.phase.Probing?
    ensures multiset(Effect(u, o, c).ports) + Owned(o) == multiset(u.ports) + Owned(Next(u, o, c))
  {
    if o.phase.port in u.ports {
      assert u.ports + {o.phase.port} == u.ports;
    } else {
      BagOfInsert(u.ports, o.phase.port);
    }
  }

  lemma DeleteTakesHead(u: Shared, o: Owner, c: Choice)
    requires o.phase.Deleting? && o.phase.rest != []
    ensures Owned(o) == Owned(Next(u, o, c)) + multiset{o.phase.rest[0]}
    ensures Effect(u, o, c).ports == u.ports - {o.phase.rest[0]}
  {
    assert o.phase.rest == [o.phase.rest[0]] + o.phase.rest[1..];
  }

  lemma DeleteFollows(u: Shared, o: Owner, c: Choice)
    requires Owned(o) <= multiset(u.ports) && o.phase.Deleting? && o.phase.rest != []
    ensures multiset(Effect(u, o, c).ports) + Owned(o) == multiset(u.ports) + Owned(Next(u, o, c))
  {
    var p := o.phase.rest[0];
    DeleteTakesHead(u, o, c);
    assert p in Owned(o);
    BagOfDelete(u.ports, p);
    AddToBoth(multiset(u.ports - {p}), multiset{p}, multiset(u.ports), multiset{}, Owned(Next(u, o, c)));
  }

  lemma AppendFollows(u: Shared, o: Owner, c: Choice)
    requires o.phase.Counting?
    ensures Owned(Next(u, o, c)) == Owned(o)
  {
    assert multiset(o.held + [o.phase.port]) == multiset(o.held) + multiset{o.phase.port};
  }

  /** Steps other than LoadOrStore, Delete and the append move no port. */
  lemma QuietFollows(u: Shared, o: Owner, c: Choice)
    requires ControlOk(o) && !o.phase.Deleting? && !o.phase.Probing? && !o.phase.Counting?
    ensures Owned(Next(u, o, c)) == Owned(o)
  {
  }

  /** What a step adds to or takes from the reserved set, it adds to or takes from its dialog's share. */
  lemma OwnedFollows(u: Shared, o: Owner, c: Choice)
    requires Owned(o) <= multiset(u.ports) && ControlOk(o)
    ensures multiset(Effect(u, o, c).ports) + Owned(o) == multiset(u.ports) + Owned(Next(u, o, c))
  {
    if o.phase.Deleting? {
      DeleteFollows(u, o, c);
    } else if o.phase.Probing? {
      InsertFollows(u, o, c);
    } else if o.phase.Counting? {
      AppendFollows(u, o, c);
    } else {
      QuietFollows(u, o, c);
    }
  }

  lemma BooksFollow(u: Shared, o: Owner, c: Choice)
    requires ControlOk(o)
    ensures Effect(u, o, c).portsUsed - u.portsUsed == 2 * (Counted(Next(u, o, c)) - Counted(o))
    ensures Effect(u, o, c).current - u.current == Live(Next(u, o, c)) - Live(o)
  {
  }

  /** No port has two owners. */
  lemma OwnedByOne(s: Ua, i: nat, j: nat, p: nat)
    requires Ownership(s) && i < |s.owners| && j < |s.owners| && i != j
    requires p in Owned(s.owners[i])
    ensures p !in Owned(s.owners[j])
  {
    PoolHasTwoParts(Owned, s.owners, if i < j then i else j, if i < j then j else i, |s.owners|);
    assert multiset(s.shared.ports)[p] <= 1;
  }

  /** The port a Close deletes is reserved, is owned by that dialog and no other, and afterwards is neither: no
      port is freed twice, and nobody frees another dialog's port. */
  lemma FreesOwnPortOnce(s: Ua, t: nat, c: Choice)
    requires Inv(s) && t < |s.owners| && s.owners[t].phase.Deleting?
    ensures var p := s.owners[t].phase.rest[0];
            && p in s.shared.ports
            && Effect(s.shared, s.owners[t], c).ports == s.shared.ports - {p}
            && Owned(s.owners[t]) == Owned(Next(s.shared, s.owners[t], c)) + multiset{p}
            && p !in Owned(Next(s.shared, s.owners[t], c))
            && forall k :: 0 <= k < |s.owners| && k != t ==> p !in Owned(s.owners[k])
  {
    var o, p := s.owners[t], s.owners[t].phase.rest[0];
    DeleteTakesHead(s.shared, o, c);
    PoolHasPart(Owned, s.owners, t, |s.owners|);
    OnlyOnce(s.shared.ports, Owned(Next(s.shared, o, c)), p);
    forall k | 0 <= k < |s.owners| && k != t ensures p !in Owned(s.owners[k]) {
      OwnedByOne(s, t, k, p);
    }
  }

  lemma OnlyOnce(ports: set<nat>, rest: multiset<nat>, p: nat)
    requires rest + multiset{p} <= multiset(ports)
    ensures p in ports && p !in rest
  {
    assert (rest + multiset{p})[p] <= multiset(ports)[p];
  }

  // ---------------------------------------------------------------- every step, every run

  lemma SpawnKeepsOwnership(s: Ua, kind: Kind)
    requires Ownership(s)
    ensures Ownership(Apply(s, Spawn(kind)))
  {
    var x, n := Apply(s, Spawn(kind)).owners[|s.owners|], |s.owners|;
    PooledAppend(Owned, s.owners, x, n);
    assert Pooled(Owned, s.owners + [x], n + 1) == Pooled(Owned, s.owners + [x], n) + Owned(x);
  }

  lemma SpawnKeepsBooks(s: Ua, kind: Kind)
    requires Books(s)
    ensures Books(Apply(s, Spawn(kind)))
  {
    var x, n := Apply(s, Spawn(kind)).owners[|s.owners|], |s.owners|;
    TotalAppend(Counted, s.owners, x, n);
    TotalAppend(Live, s.owners, x, n);
  }

  lemma TurnKeepsOwnership(s: Ua, t: nat, c: Choice)
    requires Inv(s) && t < |s.owners|
    ensures Ownership(Apply(s, Turn(t, c)))
  {
    var n, x := |s.owners|, Next(s.shared, s.owners[t], c);
    PoolHasPart(Owned, s.owners, t, n);
    OwnedFollows(s.shared, s.owners[t], c);
    PooledUpdate(Owned, s.owners, t, x, n);
    CancelBag(multiset(Effect(s.shared, s.owners[t], c).ports), Pooled(Owned, s.owners[t := x], n), Owned(s.owners[t]));
  }

  lemma CancelBag(a: multiset<nat>, b: multiset<nat>, x: multiset<nat>)
    requires a + x == b + x
    ensures a == b
  {
    assert a == (a + x) - x;
    assert b == (b + x) - x;
  }

  lemma TurnKeepsBooks(s: Ua, t: nat, c: Choice)
    requires Books(s) && t < |s.owners| && ControlOk(s.owners[t])
    ensures Books(Apply(s, Turn(t, c)))
  {
    var x := Next(s.shared, s.owners[t], c);
    BooksFollow(s.shared, s.owners[t], c);
    TotalUpdate(Counted, s.owners, t, x, |s.owners|);
    TotalUpdate(Live, s.owners, t, x, |s.owners|);
  }

  lemma StepKeepsInv(s: Ua, step: Step)
    requires Inv(s) && Enabled(s, step)
    ensures Inv(Apply(s, step))
  {
    if step.Spawn? {
      SpawnKeepsOwnership(s, step.kind);
      SpawnKeepsBooks(s, step.kind);
    } else {
      ControlStaysOk(s.shared, s.owners[step.t], step.c);
      SearchStaysOk(s.shared, s.owners[step.t], step.c);
      TurnKeepsOwnership(s, step.t, step.c);
      TurnKeepsBooks(s, step.t, step.c);
    }
  }
}
