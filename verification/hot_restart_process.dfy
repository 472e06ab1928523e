/** One process of the chain as the objects it is made of: its own flags, the shared memory segment and
    the kernel's datagram sockets. Every method is proved against the protocol's transition. */
module HotRestartProcess {
  import opened Common
  import opened HotRestartModel
  import opened HotRestartInvariant
  import HotRestartTheorems

  class SharedMemory {
    var initializing: bool
    var lock: Option<nat>

    constructor ()
      ensures !initializing && lock == None
    {
      initializing, lock := false, None;
    }
  }

  /** Which process owns which name, and what waits in each process's socket. */
  class Sockets {
    var names: map<nat, nat>
    var inboxes: seq<seq<Message>>
    var log: seq<Delivery>
    var failed: bool

    constructor ()
      ensures names == map[] && inboxes == [] && log == [] && !failed
    {
      names, inboxes, log, failed := map[], [], [], false;
    }

    /** The sockets are those of the chain. */
    ghost predicate Carry(s: Chain)
      reads this
    {
      && Wired(s) && names == s.names && log == s.log && failed == s.crashed
      && |inboxes| == |s.procs| && forall x :: 0 <= x < |inboxes| ==> inboxes[x] == s.procs[x].inbox
    }

    method Send(kind: Kind, sender: nat, target: nat, ghost s: Chain)
      requires Carry(s)
      modifies this
      ensures Carry(HotRestartModel.Send(s, kind, sender, target)) && names == old(names)
    {
      var name := SocketName(target);
      if name !in names {
        failed := true;
      } else {
        var m := Message(kind, sender, target);
        var receiver := names[name];
        inboxes := inboxes[receiver := inboxes[receiver] + [m]];
        log := log + [Delivery(m, receiver)];
      }
    }
  }

  /** A name leads back to `e` only if it is its own. */
  predicate OwnName(s: Chain, e: nat) {
    forall k :: k in s.names && s.names[k] == e ==> k == SocketName(e)
  }

  /** All mail that waits for `e` is handled, oldest first; a failed send ends the process. */
  function HandleAll(s: Chain, e: nat): Chain
    requires Wired(s) && e < |s.procs| && OwnName(s, e)
    decreases |s.procs[e].inbox|
  {
    if s.procs[e].inbox == [] || s.crashed then s
    else
      HandledOne(s, e);
      HandleAll(OnSocketEvent(s, e), e)
  }

  lemma SentElsewhere(s: Chain, kind: Kind, e: nat, target: nat)
    requires Wired(s) && e < |s.procs| && OwnName(s, e) && SocketName(target) != SocketName(e)
    ensures var r := Send(s, kind, e, target);
            && r.procs[e] == s.procs[e] && OwnName(r, e) && |r.procs| == |s.procs|
            && r.lock == s.lock && r.initializing == s.initializing
  {
  }

  lemma HandledOne(s: Chain, e: nat)
    requires Wired(s) && e < |s.procs| && OwnName(s, e) && s.procs[e].inbox != []
    ensures var r := OnSocketEvent(s, e);
            |r.procs| == |s.procs| && OwnName(r, e) && r.procs[e].inbox == s.procs[e].inbox[1..]
  {
    hide Send;
    var p := s.procs[e];
    var t := SetProcess(s, e, p.(inbox := p.inbox[1..]));
    assert SocketName(e + 1) != SocketName(e);
    match p.inbox[0].kind
    case ShutdownAdminRequest =>
      var u := TerminateParent(t, e);
      if !Done(t, e) {
        assert SocketName(e - 1) != SocketName(e);
        SentElsewhere(SetProcess(t, e, t.procs[e].(parentTerminated := true)), TerminateRequest, e, e - 1);
      }
      SentElsewhere(u, ShutdownAdminReply, e, e + 1);
    case GetListenSocketRequest => SentElsewhere(t, GetListenSocketReply, e, e + 1);
    case GetStatsRequest => SentElsewhere(t, GetStatsReply, e, e + 1);
    case DrainListenersRequest =>
    case TerminateRequest =>
    case _ => SentElsewhere(t, UnknownRequestReply, e, e + 1);
  }

  /** In a run the whole event is a sequence of protocol steps that handles every message. */
  lemma {:induction false} HandleAllIsARun(s: Chain, e: nat) returns (steps: seq<Step>)
    requires Inv(s) && At(s, e, Loop) && OwnName(s, e)
    ensures var r := HandleAll(s, e);
            && HotRestartTheorems.Leads(s, steps, r) && |steps| == |s.procs[e].inbox|
            && Inv(r) && At(r, e, Loop) && r.procs[e].inbox == []
    decreases |s.procs[e].inbox|
  {
    steps := [];
    if s.procs[e].inbox != [] {
      HandledOne(s, e);
      InvStep(s, Handle(e));
      var t := OnSocketEvent(s, e);
      HotRestartTheorems.HandleGrows(s, e, e);
      var more := HandleAllIsARun(t, e);
      steps := [Handle(e)] + more;
      assert steps[0] == Handle(e) && steps[1..] == more;
    }
  }

  class HotRestarter {
    const epoch: nat
    const shared: SharedMemory
    const sockets: Sockets
    var place: Place
    var started: bool
    var parentTerminated: bool
    var sigterm: bool

    /** The objects are epoch `epoch` of the chain. */
    ghost predicate Agrees(s: Chain)
      reads this, shared, sockets
    {
      && sockets.Carry(s) && OwnName(s, epoch)
      && shared.initializing == s.initializing && shared.lock == s.lock
      && epoch < |s.procs|
      && var p := s.procs[epoch];
         place == p.place && started == p.started
         && parentTerminated == p.parentTerminated && sigterm == p.sigterm
    }

    /** The constructor past its checks; Launch performs them. */
    constructor (epoch: nat, shared: SharedMemory, sockets: Sockets)
      ensures this.epoch == epoch && this.shared == shared && this.sockets == sockets
      ensures place == AwaitLock && !started && !parentTerminated && !sigterm
    {
      this.epoch, this.shared, this.sockets := epoch, shared, sockets;
      place, started, parentTerminated, sigterm := AwaitLock, false, false, false;
    }

    /** SharedMemory::initialize and bindDomainSocket: the flag is set before either can fail, and a
        failed bind leaves it set. */
    static method Launch(shared: SharedMemory, sockets: Sockets, ghost s: Chain) returns (r: Option<HotRestarter>)
      requires sockets.Carry(s) && shared.initializing == s.initializing && shared.lock == s.lock
      requires NamesOk(s)
      modifies shared, sockets
      ensures var t := StartProcess(s);
              if r.Some? then
                fresh(r.value) && r.value.shared == shared && r.value.sockets == sockets
                && r.value.Agrees(t) && |t.procs| == |s.procs| + 1
              else sockets.Carry(t) && shared.initializing == t.initializing && t.procs == s.procs
    {
      var n := |sockets.inboxes|;
      var wasInitializing := shared.initializing;
      shared.initializing := true;
      if wasInitializing || SocketName(n) in sockets.names {
        return None;
      }
      sockets.names := sockets.names[SocketName(n) := n];
      sockets.inboxes := sockets.inboxes + [[]];
      var p := new HotRestarter(n, shared, sockets);
      assert forall k :: k in s.names ==> s.names[k] < n;
      r := Some(p);
    }

    method ShutdownParentAdmin(ghost s: Chain)
      requires Agrees(s) && place.AwaitLock? && shared.lock.None?
      modifies this, shared, sockets
      ensures Agrees(HotRestartModel.ShutdownParentAdmin(s, epoch))
    {
      if epoch == 0 {
        place := Loop;
        return;
      }
      shared.lock := Some(epoch);
      place := AwaitAdmin;
      ghost var t := SetProcess(s, epoch, s.procs[epoch].(place := AwaitAdmin)).(lock := Some(epoch));
      sockets.Send(ShutdownAdminRequest, epoch, epoch - 1, t);
      assert SocketName(epoch - 1) != SocketName(epoch);
      SentElsewhere(t, ShutdownAdminRequest, epoch, epoch - 1);
    }

    method DuplicateParentListenSocket(ghost s: Chain)
      requires Agrees(s) && place.Loop?
      modifies this, sockets
      ensures Agrees(HotRestartModel.DuplicateParentListenSocket(s, epoch))
    {
      if epoch == 0 || parentTerminated {
        return;
      }
      place := AwaitSocket;
      ghost var t := SetProcess(s, epoch, s.procs[epoch].(place := AwaitSocket));
      sockets.Send(GetListenSocketRequest, epoch, epoch - 1, t);
      assert SocketName(epoch - 1) != SocketName(epoch);
      SentElsewhere(t, GetListenSocketRequest, epoch, epoch - 1);
    }

    method GetParentStats(ghost s: Chain)
      requires Agrees(s) && place.Loop?
      modifies this, shared, sockets
      ensures Agrees(HotRestartModel.GetParentStats(s, epoch))
    {
      if epoch == 0 || parentTerminated || shared.lock.Some? {
        return;
      }
      shared.lock := Some(epoch);
      place := AwaitStats;
      ghost var t := SetProcess(s, epoch, s.procs[epoch].(place := AwaitStats)).(lock := Some(epoch));
      sockets.Send(GetStatsRequest, epoch, epoch - 1, t);
      assert SocketName(epoch - 1) != SocketName(epoch);
      SentElsewhere(t, GetStatsRequest, epoch, epoch - 1);
    }

    /** receiveRpc: the oldest message leaves the socket. */
    method ReceiveRpc(ghost s: Chain) returns (m: Message)
      requires Agrees(s) && sockets.inboxes[epoch] != []
      modifies sockets
      ensures var p := s.procs[epoch];
              m == p.inbox[0] && Agrees(SetProcess(s, epoch, p.(inbox := p.inbox[1..])))
    {
      m := sockets.inboxes[epoch][0];
      sockets.inboxes := sockets.inboxes[epoch := sockets.inboxes[epoch][1..]];
    }

    /** receiveTypedRpc and what its caller does next. In a failed receive nothing but the crash counts. */
    method ReceiveTyped(ghost s: Chain)
      requires Agrees(s) && !s.crashed && Waiting(s.procs[epoch]) && sockets.inboxes[epoch] != []
      modifies this, shared, sockets
      ensures var r := HotRestartModel.ReceiveTyped(s, epoch);
              if r.crashed then sockets.failed else Agrees(r)
    {
      var m := ReceiveRpc(s);
      if Expected(place) != Some(m.kind) {
        sockets.failed := true;
        return;
      }
      if !place.AwaitSocket? {
        shared.lock := None;
      }
      place := Loop;
    }

    method DrainParentListeners(ghost s: Chain)
      requires Agrees(s) && place.Loop? && !started
      modifies this, shared, sockets
      ensures Agrees(HotRestartModel.DrainParentListeners(s, epoch))
    {
      hide HotRestartModel.Send;
      started := true;
      ghost var t := SetProcess(s, epoch, s.procs[epoch].(started := true));
      if epoch > 0 {
        sockets.Send(DrainListenersRequest, epoch, epoch - 1, t);
        assert SocketName(epoch - 1) != SocketName(epoch);
        SentElsewhere(t, DrainListenersRequest, epoch, epoch - 1);
      }
      shared.initializing := false;
    }

    method TerminateParent(ghost s: Chain)
      requires Agrees(s)
      modifies this, sockets
      ensures Agrees(HotRestartModel.TerminateParent(s, epoch)) && sockets.names == old(sockets.names)
      ensures place == old(place)
    {
      if epoch == 0 || parentTerminated {
        return;
      }
      parentTerminated := true;
      ghost var t := SetProcess(s, epoch, s.procs[epoch].(parentTerminated := true));
      sockets.Send(TerminateRequest, epoch, epoch - 1, t);
      assert SocketName(epoch - 1) != SocketName(epoch);
      SentElsewhere(t, TerminateRequest, epoch, epoch - 1);
    }

    /** A reply to the child. */
    method Reply(kind: Kind, ghost s: Chain)
      requires Agrees(s)
      modifies sockets
      ensures Agrees(HotRestartModel.Send(s, kind, epoch, epoch + 1))
    {
      sockets.Send(kind, epoch, epoch + 1, s);
      assert SocketName(epoch + 1) != SocketName(epoch);
      SentElsewhere(s, kind, epoch, epoch + 1);
    }

    /** One message of the event loop. */
    method HandleMessage(ghost s: Chain)
      requires Agrees(s) && sockets.inboxes[epoch] != []
      modifies this, sockets
      ensures Agrees(HotRestartModel.OnSocketEvent(s, epoch))
    {
      hide HotRestartModel.Send;
      ghost var p := s.procs[epoch];
      ghost var t := SetProcess(s, epoch, p.(inbox := p.inbox[1..]));
      var m := ReceiveRpc(s);
      match m.kind
      case ShutdownAdminRequest =>
        TerminateParent(t);
        Reply(ShutdownAdminReply, HotRestartModel.TerminateParent(t, epoch));
      case GetListenSocketRequest => Reply(GetListenSocketReply, t);
      case GetStatsRequest => Reply(GetStatsReply, t);
      case DrainListenersRequest =>
      case TerminateRequest => sigterm := true;
      case _ => Reply(UnknownRequestReply, t);
    }

    /** The event loop's callback: messages are handled until the socket is empty. */
    method OnSocketEvent(ghost s: Chain)
      requires Agrees(s)
      modifies this, sockets
      ensures Agrees(HandleAll(s, epoch))
    {
      ghost var t := s;
      while sockets.inboxes[epoch] != [] && !sockets.failed
        invariant Agrees(t) && HandleAll(t, epoch) == HandleAll(s, epoch)
        decreases |t.procs[epoch].inbox|
      {
        HandledOne(t, epoch);
        HandleMessage(t);
        t := HotRestartModel.OnSocketEvent(t, epoch);
      }
    }

    method CatchSigterm(ghost s: Chain)
      requires Agrees(s) && place.Loop? && sigterm
      modifies this, sockets
      ensures Agrees(HotRestartModel.CatchSigterm(s, epoch))
    {
      TerminateParent(s);
      place := Exiting;
    }
  }
}
