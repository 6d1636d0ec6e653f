/** The course of a dialog (dialog.go), and how many ports it holds at each point of it: one for a plain call, one per
    audio stream of the body for a SIPREC one. */
module DialogPorts {
  import opened Wrappers
  import opened PortAllocator
  import opened Dialogs
  import opened DialogRuns

  // ---------------------------------------------------------------- the course

  /** The calls of the three handlers when nothing goes wrong, numbered from the rule update on. */
  function UasCourse(i: nat): Pc
  {
    match i
    case 0 => UpdateRule
    case 1 => NewMedia
    case 2 => Progress
    case 3 => EarlyMedia
    case 4 => Ringing
    case 5 => Decide
    case 6 => Answer
    case 7 => AnswerMedia
    case 8 => Talking
    case 9 => SendBye
    case _ => Return
  }

  function RecCourse(i: nat): Pc
  {
    match i
    case 0 => RecUpdate
    case 1 => RecProgress
    case 2 => RecRinging
    case 3 => RecDecide
    case 4 => RecAnswer
    case 5 => RecTalking
    case 6 => RecBye
    case _ => Return
  }

  function UacCourse(i: nat): Pc
  {
    match i
    case 0 => CallUpdate
    case 1 => CallInvite
    case 2 => CallWaitAnswer
    case 3 => CallAck
    case 4 => CallMedia
    case 5 => CallTalking
    case 6 => CallStop
    case 7 => CallBye
    case _ => Return
  }

  /** A dialog for which all goes well runs through its course in order. */
  lemma CourseInOrder(i: nat)
    ensures i < 10 ==> NextPc(UasCourse(i), Go) == UasCourse(i + 1)
    ensures i < 7 ==> NextPc(RecCourse(i), Go) == RecCourse(i + 1)
    ensures i < 8 ==> NextPc(UacCourse(i), Go) == UacCourse(i + 1)
  {
  }

  /** Every failure, and every end from outside, makes the handler return, so that Close follows; a body that is not
      plain SDP is read as a SIPREC one, and a UAC that is hung up on stops its media first. */
  lemma StopReturns(pc: Pc)
    requires !WantsPort(pc) && pc != RecPorts(0)
    ensures NextPc(pc, Stop) == if pc.ContentType? then RecParse else if pc.CallTalking? then CallStop else Return
  {
  }

  // ---------------------------------------------------------------- ports

  /** The dialog reads a SIPREC body of n audio streams at this step. */
  predicate ReadsStreams(s: Ua, step: Step, t: nat)
  {
    step.Turn? && step.t == t && step.c.Streams? && t < |s.owners| && s.owners[t].phase == Running(RecParse)
  }

  /** How many audio streams the body of dialog t had, if it has read one in the run. */
  function Asked(s: Ua, steps: seq<Step>, t: nat): Option<nat>
  {
    if steps == [] then None
    else
      var init, last := steps[..|steps| - 1], steps[|steps| - 1];
      if Run(s, init).Some? && ReadsStreams(Run(s, init).value, last, t) then Some(last.c.n) else Asked(s, init, t)
  }

  /** The program point of a dialog that has not returned. */
  function PointOf(o: Owner): Option<Pc>
  {
    match o.phase
    case Running(pc) => Some(pc)
    case Searching(pc) => Some(pc)
    case Probing(pc, _) => Some(pc)
    case Probed(pc, _, _, _) => Some(pc)
    case Counting(pc, _) => Some(pc)
    case _ => None
  }

  predicate BeforePorts(pc: Pc)
  {
    pc.Trying? || pc.ContentType? || pc.ParseSdp? || pc.AudioPort? || pc.RecParse? || pc.CallPort?
  }

  predicate AfterRecPorts(pc: Pc)
  {
    pc.RecUpdate? || pc.RecProgress? || pc.RecRinging? || pc.RecDecide? || pc.RecAnswer? || pc.RecTalking? || pc.RecBye?
  }

  /** No port before the first getPort; in the SIPREC loop, the ports held and those still to get are as many as the
      streams; after it, all streams have one; a plain dialog has one from its Update on. */
  predicate PortsOk(o: Owner, streams: Option<nat>)
  {
    PointOf(o).Some? && PointOf(o) != Some(Return) ==>
      var pc := PointOf(o).value;
      if BeforePorts(pc) then o.held == []
      else if pc.RecPorts? then streams == Some(|o.held| + pc.left)
      else if AfterRecPorts(pc) then streams == Some(|o.held|)
      else |o.held| == 1
  }

  lemma TurnKeepsPorts(u: Shared, o: Owner, c: Choice, streams: Option<nat>)
    requires ControlOk(o) && PortsOk(o, streams)
    ensures PortsOk(Next(u, o, c), if c.Streams? && o.phase == Running(RecParse) then Some(c.n) else streams)
  {
  }

  lemma StepKeepsPorts(s: Ua, step: Step, t: nat, streams: Option<nat>)
    requires Enabled(s, step) && t < |s.owners| && ControlOk(s.owners[t]) && PortsOk(s.owners[t], streams)
    ensures t < |Apply(s, step).owners|
    ensures PortsOk(Apply(s, step).owners[t], if ReadsStreams(s, step, t) then Some(step.c.n) else streams)
  {
    if step.Turn? && step.t == t {
      TurnKeepsPorts(s.shared, s.owners[t], step.c, streams);
    }
  }

  lemma NewHasNoPort(s: Ua, step: Step, streams: Option<nat>)
    requires Enabled(s, step) && |Apply(s, step).owners| > |s.owners|
    ensures |Apply(s, step).owners| == |s.owners| + 1 && PortsOk(Apply(s, step).owners[|s.owners|], streams)
  {
  }

  lemma OneStepOn(s: Ua, step: Step, t: nat, streams: Option<nat>)
    requires Inv(s) && Enabled(s, step) && t < |Apply(s, step).owners|
    requires t < |s.owners| ==> PortsOk(s.owners[t], streams)
    ensures PortsOk(Apply(s, step).owners[t], if ReadsStreams(s, step, t) then Some(step.c.n) else streams)
  {
    if t < |s.owners| {
      StepKeepsPorts(s, step, t, streams);
    } else {
      NewHasNoPort(s, step, streams);
    }
  }

  /** In every run, whatever the interleaving, every dialog holds just the ports its own course so far calls for. */
  lemma {:induction false} PortsMatchStreams(r: Range, steps: seq<Step>, t: nat)
    requires r.min < 0x1_0000 && Run(Start(r), steps).Some? && t < |Run(Start(r), steps).value.owners|
    ensures PortsOk(Run(Start(r), steps).value.owners[t], Asked(Start(r), steps, t))
  {
    if steps != [] {
      var init := steps[..|steps| - 1];
      var s := Run(Start(r), init).value;
      StartHasInv(r);
      RunKeepsInv(Start(r), init);
      if t < |s.owners| {
        PortsMatchStreams(r, init, t);
      }
      OneStepOn(s, steps[|steps| - 1], t, Asked(Start(r), init, t));
    }
  }

  /** A SIPREC dialog updates its rules with exactly one port per stream of its body, a plain one with one port. */
  lemma UpdatesAllPorts(r: Range, steps: seq<Step>, t: nat)
    requires r.min < 0x1_0000 && Run(Start(r), steps).Some? && t < |Run(Start(r), steps).value.owners|
    ensures var o := Run(Start(r), steps).value.owners[t];
            && (o.phase == Running(RecUpdate) ==> Asked(Start(r), steps, t) == Some(|o.held|))
            && (o.phase == Running(UpdateRule) || o.phase == Running(CallUpdate) ==> |o.held| == 1)
  {
    PortsMatchStreams(r, steps, t);
  }
}
