/** The hot restart protocol: a chain of processes, one an epoch, that share one memory segment (the
    INITIALIZING flag and `init_lock_`) and talk over datagram sockets whose names repeat modulo 3. */
module HotRestartModel {
  import opened Common

  const MAX_CONCURRENT_PROCESSES: nat := 3

  datatype Kind =
    | DrainListenersRequest
    | GetListenSocketRequest
    | GetListenSocketReply
    | ShutdownAdminRequest
    | ShutdownAdminReply
    | TerminateRequest
    | UnknownRequestReply
    | GetStatsRequest
    | GetStatsReply

  /** A datagram, with the epochs it is meant to travel between. */
  datatype Message = Message(kind: Kind, sender: nat, target: nat)

  /** Where a process is: waiting for `init_lock_` in shutdownParentAdmin, blocked in one of the three
      typed receives, in its event loop, past it, or gone. */
  datatype Place = AwaitLock | AwaitAdmin | AwaitSocket | AwaitStats | Loop | Exiting | Exited

  datatype Process = Process(
    place: Place, started: bool, parentTerminated: bool, sigterm: bool, inbox: seq<Message>)

  /** A message and the process whose socket received it. */
  datatype Delivery = Delivery(message: Message, receiver: nat)

  /** `procs[e]` is epoch `e`; `names` maps a bound socket name to its owner; `log` is everything that
      was ever sent. `crashed` says that a release assertion failed in some process. */
  datatype Chain = Chain(
    procs: seq<Process>, initializing: bool, lock: Option<nat>, names: map<nat, nat>,
    log: seq<Delivery>, crashed: bool)

  predicate Wired(s: Chain) {
    && (forall k :: k in s.names ==> s.names[k] < |s.procs|)
    && (s.lock.Some? ==> s.lock.value < |s.procs|)
  }

  predicate Alive(s: Chain, e: nat) {
    e < |s.procs| && !s.procs[e].place.Exited?
  }

  function SocketName(epoch: nat): (name: nat)
    ensures name < MAX_CONCURRENT_PROCESSES
  {
    epoch % MAX_CONCURRENT_PROCESSES
  }

  /** The reply a blocked process reads, or nothing when it is not blocked in a receive. */
  function Expected(place: Place): Option<Kind> {
    match place
    case AwaitAdmin => Some(ShutdownAdminReply)
    case AwaitSocket => Some(GetListenSocketReply)
    case AwaitStats => Some(GetStatsReply)
    case _ => None
  }

  // ---------- operations ----------

  function SetProcess(s: Chain, e: nat, p: Process): (r: Chain)
    requires Wired(s) && e < |s.procs|
    ensures Wired(r)
  {
    s.(procs := s.procs[e := p])
  }

  /** sendMessage: the name decides who gets the message; an unbound name fails the send. */
  function Send(s: Chain, kind: Kind, sender: nat, target: nat): (r: Chain)
    requires Wired(s)
    ensures Wired(r) && |r.procs| == |s.procs|
  {
    var name := SocketName(target);
    if name !in s.names then s.(crashed := true)
    else
      var m := Message(kind, sender, target);
      var receiver := s.names[name];
      var p := s.procs[receiver];
      s.(procs := s.procs[receiver := p.(inbox := p.inbox + [m])],
         log := s.log + [Delivery(m, receiver)])
  }

  /** A new process of the next epoch starts: the INITIALIZING check, then the bind. */
  function StartProcess(s: Chain): (r: Chain)
    requires Wired(s)
    ensures Wired(r)
  {
    var n := |s.procs|;
    if s.initializing then s
    else if SocketName(n) in s.names then s.(initializing := true)
    else s.(procs := s.procs + [Process(AwaitLock, false, false, false, [])],
            names := s.names[SocketName(n) := n], initializing := true)
  }

  /** shutdownParentAdmin up to its receive. */
  function ShutdownParentAdmin(s: Chain, e: nat): (r: Chain)
    requires Wired(s) && e < |s.procs|
    ensures Wired(r)
  {
    if e == 0 then SetProcess(s, e, s.procs[e].(place := Loop))
    else
      Send(SetProcess(s, e, s.procs[e].(place := AwaitAdmin)).(lock := Some(e)),
           ShutdownAdminRequest, e, e - 1)
  }

  /** duplicateParentListenSocket up to its receive. */
  function DuplicateParentListenSocket(s: Chain, e: nat): (r: Chain)
    requires Wired(s) && e < |s.procs|
    ensures Wired(r)
  {
    if e == 0 || s.procs[e].parentTerminated then s
    else Send(SetProcess(s, e, s.procs[e].(place := AwaitSocket)), GetListenSocketRequest, e, e - 1)
  }

  /** getParentStats up to its receive: the lock is only tried. */
  function GetParentStats(s: Chain, e: nat): (r: Chain)
    requires Wired(s) && e < |s.procs|
    ensures Wired(r)
  {
    if e == 0 || s.procs[e].parentTerminated || s.lock.Some? then s
    else
      Send(SetProcess(s, e, s.procs[e].(place := AwaitStats)).(lock := Some(e)), GetStatsRequest, e, e - 1)
  }

  /** receiveTypedRpc and the rest of its caller: any other kind of message fails an assertion; the
      right one ends the wait and frees the lock if the caller holds it. */
  function ReceiveTyped(s: Chain, e: nat): (r: Chain)
    requires Wired(s) && e < |s.procs| && s.procs[e].inbox != []
    ensures Wired(r)
  {
    var p := s.procs[e];
    if Expected(p.place) != Some(p.inbox[0].kind) then s.(crashed := true)
    else
      SetProcess(s, e, p.(place := Loop, inbox := p.inbox[1..]))
      .(lock := if p.place.AwaitSocket? then s.lock else None)
  }

  /** drainParentListeners, called once the workers run. */
  function DrainParentListeners(s: Chain, e: nat): (r: Chain)
    requires Wired(s) && e < |s.procs|
    ensures Wired(r)
  {
    var t := SetProcess(s, e, s.procs[e].(started := true));
    (if e > 0 then Send(t, DrainListenersRequest, e, e - 1) else t).(initializing := false)
  }

  function TerminateParent(s: Chain, e: nat): (r: Chain)
    requires Wired(s) && e < |s.procs|
    ensures Wired(r) && |r.procs| == |s.procs|
  {
    if e == 0 || s.procs[e].parentTerminated then s
    else Send(SetProcess(s, e, s.procs[e].(parentTerminated := true)), TerminateRequest, e, e - 1)
  }

  /** One turn of the onSocketEvent loop. */
  function OnSocketEvent(s: Chain, e: nat): (r: Chain)
    requires Wired(s) && e < |s.procs| && s.procs[e].inbox != []
    ensures Wired(r)
  {
    var p := s.procs[e];
    var t := SetProcess(s, e, p.(inbox := p.inbox[1..]));
    match p.inbox[0].kind
    case ShutdownAdminRequest => Send(TerminateParent(t, e), ShutdownAdminReply, e, e + 1)
    case GetListenSocketRequest => Send(t, GetListenSocketReply, e, e + 1)
    case GetStatsRequest => Send(t, GetStatsReply, e, e + 1)
    case DrainListenersRequest => t
    case TerminateRequest => SetProcess(t, e, t.procs[e].(sigterm := true))
    case _ => Send(t, UnknownRequestReply, e, e + 1)
  }

  /** The SIGTERM handler: the parent is told to terminate and the event loop ends. */
  function CatchSigterm(s: Chain, e: nat): (r: Chain)
    requires Wired(s) && e < |s.procs|
    ensures Wired(r)
  {
    var t := TerminateParent(s, e);
    SetProcess(t, e, t.procs[e].(place := Exiting))
  }

  /** The process ends; its socket name is free again. */
  function Exit(s: Chain, e: nat): (r: Chain)
    requires Wired(s) && e < |s.procs|
    ensures Wired(r)
  {
    SetProcess(s, e, s.procs[e].(place := Exited)).(names := s.names - {SocketName(e)})
  }

  // ---------- the transition system ----------

  datatype Step =
    | Start
    | Acquire(e: nat)
    | Receive(e: nat)
    | Duplicate(e: nat)
    | FinishStart(e: nat)
    | FlushStats(e: nat)
    | Handle(e: nat)
    | ParentTimer(e: nat)
    | Sigterm(e: nat)
    | Leave(e: nat)

  predicate At(s: Chain, e: nat, place: Place) {
    e < |s.procs| && s.procs[e].place == place
  }

  /** A started process may still duplicate a listen socket without harm: it has no parent to ask any
      more, or it has no child and the flag keeps one from starting. */
  predicate Harmless(s: Chain, e: nat)
    requires e < |s.procs|
  {
    e == 0 || s.procs[e].parentTerminated || (e + 1 == |s.procs| && s.initializing)
  }

  /** When a step can happen. Listen sockets are duplicated during start-up, or after it where that is
      harmless; `late` permits it anywhere. */
  predicate Enabled(s: Chain, step: Step, late: bool) {
    && Wired(s) && !s.crashed
    && match step
       case Start => true
       case Acquire(e) => At(s, e, AwaitLock) && s.lock.None?
       case Receive(e) => e < |s.procs| && Expected(s.procs[e].place).Some? && s.procs[e].inbox != []
       case Duplicate(e) => At(s, e, Loop) && (late || !s.procs[e].started || Harmless(s, e))
       case FinishStart(e) => At(s, e, Loop) && !s.procs[e].started
       case FlushStats(e) => At(s, e, Loop)
       case Handle(e) => At(s, e, Loop) && s.procs[e].inbox != []
       case ParentTimer(e) => At(s, e, Loop) && s.procs[e].started
       case Sigterm(e) => At(s, e, Loop) && s.procs[e].sigterm
       case Leave(e) => At(s, e, Exiting)
  }

  function Apply(s: Chain, step: Step, late: bool): (r: Chain)
    requires Enabled(s, step, late)
    ensures Wired(r)
  {
    match step
    case Start => StartProcess(s)
    case Acquire(e) => ShutdownParentAdmin(s, e)
    case Receive(e) => ReceiveTyped(s, e)
    case Duplicate(e) => DuplicateParentListenSocket(s, e)
    case FinishStart(e) => DrainParentListeners(s, e)
    case FlushStats(e) => GetParentStats(s, e)
    case Handle(e) => OnSocketEvent(s, e)
    case ParentTimer(e) => TerminateParent(s, e)
    case Sigterm(e) => CatchSigterm(s, e)
    case Leave(e) => Exit(s, e)
  }

  const INITIAL: Chain := Chain([], false, None, map[], [], false)

  /** A finite run: its states, from the empty chain on, and the steps between them. */
  predicate IsRun(states: seq<Chain>, steps: seq<Step>, late: bool) {
    && |states| == |steps| + 1 && states[0] == INITIAL
    && forall i :: 0 <= i < |steps| ==>
         Enabled(states[i], steps[i], late) && states[i + 1] == Apply(states[i], steps[i], late)
  }
}
