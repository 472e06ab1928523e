/** What every step of the hot restart protocol keeps while listen sockets are duplicated during start-up
    or where that is harmless. */
module HotRestartInvariant {
  import opened Common
  import opened HotRestartModel

  /** The process needs nothing more from its parent. */
  predicate Done(s: Chain, e: nat)
    requires e < |s.procs|
  {
    e == 0 || s.procs[e].parentTerminated
  }

  predicate Waiting(p: Process) {
    Expected(p.place).Some?
  }

  /** The parent has answered the shutdown-admin request. */
  predicate Shook(p: Process) {
    !p.place.AwaitLock? && (p.place.AwaitAdmin? ==> p.inbox != [])
  }

  /** What holds of one process. */
  predicate Local(s: Chain, e: nat)
    requires e < |s.procs|
  {
    var p := s.procs[e];
    && (!p.started ==> s.initializing && e == |s.procs| - 1)
    && (p.place.AwaitLock? || p.place.AwaitAdmin? ==> !p.started)
    && (p.place.AwaitSocket? ==> s.initializing && e == |s.procs| - 1)
    && (e == 0 ==> !Waiting(p) && !p.parentTerminated)
    && (p.parentTerminated ==> p.started && !p.place.AwaitStats? && !p.place.AwaitSocket?)
    && (p.sigterm ==> p.place.Loop? || p.place.Exiting? || p.place.Exited?)
    && (p.place.Exiting? || p.place.Exited? ==> p.sigterm && Done(s, e))
    && (p.sigterm ==> e < |s.procs| - 1)
    && (p.place.AwaitAdmin? || p.place.AwaitStats? <==> s.lock == Some(e))
    && (Waiting(p) ==> p.inbox == [] || p.inbox == [Message(Expected(p.place).value, e - 1, e)])
    && (!Waiting(p) && e == |s.procs| - 1 ==> p.inbox == [])
    && (e > 0 && Shook(p) ==> Done(s, e - 1))
  }

  /** A blocked process has exactly one message under way: its request, or the reply to it. */
  function Request(place: Place): Kind
    requires Expected(place).Some?
  {
    match place
    case AwaitAdmin => ShutdownAdminRequest
    case AwaitSocket => GetListenSocketRequest
    case AwaitStats => GetStatsRequest
  }

  /** What the parent `e` may find in its inbox, given what the child is doing. */
  predicate Link(p: Process, c: Process, e: nat) {
    var drain := Message(DrainListenersRequest, e + 1, e);
    var terminate := Message(TerminateRequest, e + 1, e);
    && p.started
    && (p.sigterm ==> c.parentTerminated && p.inbox == [])
    && if c.place.AwaitLock? then !Waiting(p) ==> p.inbox == []
       else
         && !Waiting(p)
         && if Waiting(c) then
              var request := Message(Request(c.place), e + 1, e);
              if c.inbox != [] then p.inbox == []
              else p.inbox == [request] || (c.started && p.inbox == [drain, request])
            else if c.parentTerminated then
              p.sigterm || p.inbox == [terminate] || p.inbox == [drain, terminate]
            else p.inbox == [] || (c.started && p.inbox == [drain])
  }

  /** The bound names are those of the living processes, which are among the last three epochs. */
  predicate NamesOk(s: Chain) {
    && (forall k :: k in s.names ==> Alive(s, s.names[k]) && SocketName(s.names[k]) == k)
    && (forall e :: 0 <= e < |s.procs| && Alive(s, e) ==>
          SocketName(e) in s.names && s.names[SocketName(e)] == e && |s.procs| <= e + 3)
  }

  predicate Routed(s: Chain) {
    forall d :: d in s.log ==> d.receiver == d.message.target
  }

  predicate Inv(s: Chain) {
    && Wired(s) && !s.crashed
    && (|s.procs| == 0 ==> !s.initializing)
    && (forall e :: 0 <= e < |s.procs| ==> Local(s, e))
    && (forall e :: 0 <= e < |s.procs| - 1 ==> Link(s.procs[e], s.procs[e + 1], e))
    && NamesOk(s)
    && Routed(s)
  }

  lemma NamesKept(s: Chain, r: Chain)
    requires NamesOk(s) && r.names == s.names && |r.procs| == |s.procs|
    requires forall x :: 0 <= x < |s.procs| ==> (r.procs[x].place.Exited? <==> s.procs[x].place.Exited?)
    ensures NamesOk(r)
  {
    assert forall x :: 0 <= x < |s.procs| ==> (Alive(r, x) <==> Alive(s, x));
    forall k | k in r.names ensures Alive(r, r.names[k]) && SocketName(r.names[k]) == k {
      assert Alive(s, s.names[k]);
    }
  }

  /** A message to a living process reaches it and nobody else. */
  lemma SendReaches(s: Chain, kind: Kind, sender: nat, target: nat)
    requires Wired(s) && NamesOk(s) && Routed(s) && Alive(s, target)
    ensures var m := Message(kind, sender, target); var p := s.procs[target];
            Send(s, kind, sender, target)
            == s.(procs := s.procs[target := p.(inbox := p.inbox + [m])], log := s.log + [Delivery(m, target)])
    ensures NamesOk(Send(s, kind, sender, target)) && Routed(Send(s, kind, sender, target))
  {
    assert s.names[SocketName(target)] == target;
    NamesKept(s, Send(s, kind, sender, target));
  }

  lemma NamesWithNew(s: Chain, r: Chain)
    requires Wired(s) && NamesOk(s) && SocketName(|s.procs|) !in s.names && r == StartProcess(s) && !s.initializing
    ensures NamesOk(r)
  {
    var n := |s.procs|;
    forall e | 0 <= e < n + 1 && Alive(r, e)
      ensures SocketName(e) in r.names && r.names[SocketName(e)] == e && n + 1 <= e + 3
    {
      if e < n {
        assert Alive(s, e);
        assert SocketName(e) != SocketName(n);
      }
    }
    forall k | k in r.names ensures Alive(r, r.names[k]) && SocketName(r.names[k]) == k {
      if k in s.names {
        assert Alive(s, s.names[k]);
      }
    }
  }

  lemma StartKeeps(s: Chain)
    requires Inv(s)
    ensures Inv(StartProcess(s))
  {
    var n := |s.procs|;
    var r := StartProcess(s);
    if !s.initializing && SocketName(n) !in s.names {
      forall e | 0 <= e < n + 1 ensures Local(r, e) {
        if e < n {
          assert Local(s, e);
          assert r.procs[e] == s.procs[e];
        }
      }
      forall e | 0 <= e < n ensures Link(r.procs[e], r.procs[e + 1], e) {
        assert Local(s, e);
        if e < n - 1 {
          assert Link(s.procs[e], s.procs[e + 1], e);
        }
      }
      NamesWithNew(s, r);
    } else {
      forall e | 0 <= e < n ensures Local(r, e) {
        assert Local(s, e);
      }
    }
  }

  /** The processes that a step of `e` leaves alone. */
  predicate SameElsewhere(s: Chain, r: Chain, e: nat)
    requires e < |s.procs|
  {
    && |r.procs| == |s.procs|
    && (forall x :: 0 <= x < |s.procs| && (x < e - 1 || x > e + 1) ==> r.procs[x] == s.procs[x])
    && (e > 0 ==> r.procs[e - 1] == s.procs[e - 1].(inbox := r.procs[e - 1].inbox))
    && (e + 1 < |s.procs| ==> r.procs[e + 1] == s.procs[e + 1].(inbox := r.procs[e + 1].inbox))
  }

  /** Only the neighbourhood of `e` has to be looked at after a step of `e`. */
  lemma Assemble(s: Chain, r: Chain, e: nat)
    requires Inv(s) && e < |s.procs| && SameElsewhere(s, r, e)
    requires s.procs[e].parentTerminated ==> r.procs[e].parentTerminated
    requires r.lock == s.lock || (s.lock in {None, Some(e)} && r.lock in {None, Some(e)})
    requires r.initializing == s.initializing || e == |s.procs| - 1
    requires Wired(r) && !r.crashed && NamesOk(r) && Routed(r)
    requires forall x :: e - 1 <= x <= e + 1 && 0 <= x < |r.procs| ==> Local(r, x)
    requires forall x :: e - 2 <= x <= e + 1 && 0 <= x < |r.procs| - 1 ==> Link(r.procs[x], r.procs[x + 1], x)
    ensures Inv(r)
  {
    forall x | 0 <= x < |r.procs| ensures Local(r, x) {
      if x < e - 1 || x > e + 1 {
        assert Local(s, x);
      }
    }
    forall x | 0 <= x < |r.procs| - 1 ensures Link(r.procs[x], r.procs[x + 1], x) {
      if x < e - 2 || x > e + 1 {
        assert Link(s.procs[x], s.procs[x + 1], x);
      }
    }
  }

  /** The neighbours two steps up and down the chain notice nothing as long as a changed inbox does
      not belong to a blocked process. */
  lemma OuterLinks(s: Chain, r: Chain, e: nat)
    requires Inv(s) && e < |s.procs| && SameElsewhere(s, r, e)
    requires e > 0 ==> r.procs[e - 1] == s.procs[e - 1] || !Waiting(s.procs[e - 1])
    requires e + 1 < |s.procs| ==> r.procs[e + 1] == s.procs[e + 1] || Waiting(s.procs[e + 1])
    ensures e > 1 ==> Link(r.procs[e - 2], r.procs[e - 1], e - 2)
    ensures e + 2 < |s.procs| ==> Link(r.procs[e + 1], r.procs[e + 2], e + 1)
  {
    if e > 1 {
      assert Link(s.procs[e - 2], s.procs[e - 1], e - 2);
    }
    if e + 2 < |s.procs| {
      assert Local(s, e + 1);
      assert Link(s.procs[e + 1], s.procs[e + 2], e + 1);
    }
  }

  /** What the invariant says of the neighbourhood of `e`. */
  lemma Near(s: Chain, e: nat)
    requires Inv(s) && e < |s.procs|
    ensures Wired(s) && !s.crashed && NamesOk(s) && Routed(s)
    ensures Local(s, e)
    ensures e > 0 ==> Local(s, e - 1) && Link(s.procs[e - 1], s.procs[e], e - 1)
    ensures e + 1 < |s.procs| ==> Local(s, e + 1) && Link(s.procs[e], s.procs[e + 1], e)
  {
  }

  /** Process `e` changes and sends to a living neighbour: exactly these two processes change. */
  lemma ChangeAndSend(s: Chain, e: nat, p: Process, kind: Kind, target: nat)
    requires Wired(s) && NamesOk(s) && Routed(s) && e < |s.procs| && target < |s.procs| && target != e
    requires p.place.Exited? <==> s.procs[e].place.Exited?
    requires !s.procs[target].place.Exited?
    ensures var m := Message(kind, e, target); var q := s.procs[target];
            var r := Send(SetProcess(s, e, p), kind, e, target);
            && r == s.(procs := s.procs[e := p][target := q.(inbox := q.inbox + [m])],
                       log := s.log + [Delivery(m, target)])
            && NamesOk(r) && Routed(r)
  {
    var t := SetProcess(s, e, p);
    NamesKept(s, t);
    SendReaches(t, kind, e, target);
  }

  lemma AcquireKeeps(s: Chain, e: nat)
    requires Inv(s) && At(s, e, AwaitLock) && s.lock.None?
    ensures Inv(ShutdownParentAdmin(s, e))
  {
    hide Inv, NamesOk, Routed, Send;
    Near(s, e);
    var r := ShutdownParentAdmin(s, e);
    if e > 0 {
      var t := s.(lock := Some(e));
      NamesKept(s, t);
      RoutedKept(s, t);
      ChangeAndSend(t, e, s.procs[e].(place := AwaitAdmin), ShutdownAdminRequest, e - 1);
      assert r == Send(SetProcess(t, e, s.procs[e].(place := AwaitAdmin)), ShutdownAdminRequest, e, e - 1);
      OuterLinks(s, r, e);
    } else {
      NamesKept(s, r);
      RoutedKept(s, r);
      OuterLinks(s, r, e);
    }
    Assemble(s, r, e);
  }

  lemma ReceiveKeeps(s: Chain, e: nat)
    requires Inv(s) && e < |s.procs| && Waiting(s.procs[e]) && s.procs[e].inbox != []
    ensures Inv(ReceiveTyped(s, e))
  {
    hide Inv, NamesOk, Routed;
    Near(s, e);
    var r := ReceiveTyped(s, e);
    NamesKept(s, r);
    RoutedKept(s, r);
    OuterLinks(s, r, e);
    Assemble(s, r, e);
  }

  lemma DuplicateKeeps(s: Chain, e: nat)
    requires Inv(s) && At(s, e, Loop) && (!s.procs[e].started || Harmless(s, e))
    ensures Inv(DuplicateParentListenSocket(s, e))
  {
    hide Inv, NamesOk, Routed, Send;
    Near(s, e);
    var r := DuplicateParentListenSocket(s, e);
    if !Done(s, e) {
      ChangeAndSend(s, e, s.procs[e].(place := AwaitSocket), GetListenSocketRequest, e - 1);
      OuterLinks(s, r, e);
      Assemble(s, r, e);
    }
  }

  lemma FinishStartKeeps(s: Chain, e: nat)
    requires Inv(s) && At(s, e, Loop) && !s.procs[e].started
    ensures Inv(DrainParentListeners(s, e))
  {
    hide Inv, NamesOk, Routed, Send;
    Near(s, e);
    var r := DrainParentListeners(s, e);
    var t := SetProcess(s, e, s.procs[e].(started := true));
    if e > 0 {
      ChangeAndSend(s, e, s.procs[e].(started := true), DrainListenersRequest, e - 1);
    }
    NamesKept(s, t);
    RoutedKept(s, t);
    var u := if e > 0 then Send(t, DrainListenersRequest, e, e - 1) else t;
    NamesKept(u, r);
    RoutedKept(u, r);
    OuterLinks(s, r, e);
    Assemble(s, r, e);
  }

  lemma FlushStatsKeeps(s: Chain, e: nat)
    requires Inv(s) && At(s, e, Loop)
    ensures Inv(GetParentStats(s, e))
  {
    hide Inv, NamesOk, Routed, Send;
    Near(s, e);
    var r := GetParentStats(s, e);
    if !Done(s, e) && s.lock.None? {
      var t := s.(lock := Some(e));
      NamesKept(s, t);
      assert Routed(t) by { RoutedKept(s, t); }
      ChangeAndSend(t, e, s.procs[e].(place := AwaitStats), GetStatsRequest, e - 1);
      assert r == Send(SetProcess(t, e, s.procs[e].(place := AwaitStats)), GetStatsRequest, e, e - 1);
      OuterLinks(s, r, e);
      Assemble(s, r, e);
    }
  }

  lemma RoutedKept(s: Chain, r: Chain)
    requires Routed(s) && r.log == s.log
    ensures Routed(r)
  {
  }

  /** Telling the parent to terminate keeps everything when the process has started and runs. */
  lemma TerminateParentKeeps(s: Chain, e: nat)
    requires Inv(s) && At(s, e, Loop) && s.procs[e].started
    ensures Inv(TerminateParent(s, e))
  {
    hide Inv, NamesOk, Routed, Send;
    Near(s, e);
    var r := TerminateParent(s, e);
    if !Done(s, e) {
      ChangeAndSend(s, e, s.procs[e].(parentTerminated := true), TerminateRequest, e - 1);
      OuterLinks(s, r, e);
      Assemble(s, r, e);
    }
  }

  lemma SigtermKeeps(s: Chain, e: nat)
    requires Inv(s) && At(s, e, Loop) && s.procs[e].sigterm
    ensures Inv(CatchSigterm(s, e))
  {
    hide Inv, NamesOk, Routed, Send;
    Near(s, e);
    TerminateParentKeeps(s, e);
    var t := TerminateParent(s, e);
    var r := CatchSigterm(s, e);
    TerminateParentResult(s, e);
    Near(t, e);
    NamesKept(t, r);
    RoutedKept(t, r);
    OuterLinks(t, r, e);
    Assemble(t, r, e);
  }

  lemma TerminateParentResult(s: Chain, e: nat)
    requires Inv(s) && At(s, e, Loop) && s.procs[e].started
    ensures var r := TerminateParent(s, e);
            && |r.procs| == |s.procs|
            && Done(r, e) && r.procs[e] == s.procs[e].(parentTerminated := r.procs[e].parentTerminated)
  {
    Near(s, e);
    if !Done(s, e) {
      ChangeAndSend(s, e, s.procs[e].(parentTerminated := true), TerminateRequest, e - 1);
    }
  }

  lemma NamesFreed(s: Chain, e: nat)
    requires Wired(s) && NamesOk(s) && At(s, e, Exiting)
    ensures NamesOk(Exit(s, e))
  {
    var r := Exit(s, e);
    assert forall x :: 0 <= x < |s.procs| && x != e ==> (Alive(r, x) <==> Alive(s, x));
    forall k | k in r.names ensures Alive(r, r.names[k]) && SocketName(r.names[k]) == k {
      assert Alive(s, s.names[k]);
    }
    assert Alive(s, e);
  }

  lemma LeaveKeeps(s: Chain, e: nat)
    requires Inv(s) && At(s, e, Exiting)
    ensures Inv(Exit(s, e))
  {
    hide Inv, NamesOk, Routed;
    Near(s, e);
    var r := Exit(s, e);
    NamesFreed(s, e);
    RoutedKept(s, r);
    OuterLinks(s, r, e);
    Assemble(s, r, e);
  }

  /** Mail in an event loop comes from the child and is one of five kinds. */
  lemma MailKinds(s: Chain, e: nat)
    requires Inv(s) && At(s, e, Loop) && s.procs[e].inbox != []
    ensures e + 1 < |s.procs| && s.procs[e].started
    ensures s.procs[e].inbox[0].kind in {
              ShutdownAdminRequest, GetListenSocketRequest, GetStatsRequest, DrainListenersRequest, TerminateRequest}
  {
    hide NamesOk, Routed;
    Near(s, e);
  }

  /** A process in its loop takes mail and perhaps notes the terminate request; nobody else notices. */
  lemma OwnChangeKeeps(s: Chain, e: nat, p: Process)
    requires Inv(s) && At(s, e, Loop) && p == s.procs[e].(inbox := p.inbox, sigterm := p.sigterm)
    requires Local(SetProcess(s, e, p), e)
    requires e > 0 ==> Link(s.procs[e - 1], p, e - 1)
    requires e + 1 < |s.procs| ==> Link(p, s.procs[e + 1], e)
    ensures Inv(SetProcess(s, e, p))
  {
    hide Inv, NamesOk, Routed, Link;
    Near(s, e);
    var r := SetProcess(s, e, p);
    NamesKept(s, r);
    RoutedKept(s, r);
    OuterLinks(s, r, e);
    Assemble(s, r, e);
  }

  /** The drain request, which asks for no answer. */
  lemma DrainKeeps(s: Chain, e: nat)
    requires Inv(s) && At(s, e, Loop) && s.procs[e].inbox != []
    requires s.procs[e].inbox[0].kind == DrainListenersRequest
    ensures Inv(OnSocketEvent(s, e))
  {
    hide Inv, NamesOk, Routed, Send;
    Near(s, e);
    var p := s.procs[e].(inbox := s.procs[e].inbox[1..]);
    assert OnSocketEvent(s, e) == SetProcess(s, e, p);
    assert Local(SetProcess(s, e, p), e);
    assert e + 1 < |s.procs| ==> Link(p, s.procs[e + 1], e);
    OwnChangeKeeps(s, e, p);
  }

  /** The terminate request: the last mail there is. */
  lemma TerminateKeeps(s: Chain, e: nat)
    requires Inv(s) && At(s, e, Loop) && s.procs[e].inbox != []
    requires s.procs[e].inbox[0].kind == TerminateRequest
    ensures Inv(OnSocketEvent(s, e))
  {
    hide Inv, NamesOk, Routed, Send;
    Near(s, e);
    assert s.procs[e].inbox[1..] == [] && s.procs[e + 1].parentTerminated;
    var p := s.procs[e].(inbox := [], sigterm := true);
    assert OnSocketEvent(s, e) == SetProcess(s, e, p);
    assert Local(SetProcess(s, e, p), e);
    assert Link(p, s.procs[e + 1], e);
    OwnChangeKeeps(s, e, p);
  }

  lemma HandleKeeps(s: Chain, e: nat)
    requires Inv(s) && At(s, e, Loop) && s.procs[e].inbox != []
    ensures Inv(OnSocketEvent(s, e))
  {
    hide Inv;
    MailKinds(s, e);
    match s.procs[e].inbox[0].kind
    case ShutdownAdminRequest => AdminKeeps(s, e);
    case GetListenSocketRequest => ReplyKeeps(s, e, GetListenSocketReply);
    case GetStatsRequest => ReplyKeeps(s, e, GetStatsReply);
    case DrainListenersRequest => DrainKeeps(s, e);
    case _ => TerminateKeeps(s, e);
  }

  /** The oldest request of a blocked child is answered. */
  lemma ReplyKeeps(s: Chain, e: nat, reply: Kind)
    requires Inv(s) && At(s, e, Loop) && s.procs[e].inbox != []
    requires var request := s.procs[e].inbox[0].kind;
             || (request == GetListenSocketRequest && reply == GetListenSocketReply)
             || (request == GetStatsRequest && reply == GetStatsReply)
    ensures Inv(OnSocketEvent(s, e))
  {
    hide Inv, NamesOk, Routed, Send;
    Near(s, e);
    var r := OnSocketEvent(s, e);
    var p := s.procs[e];
    ChangeAndSend(s, e, p.(inbox := p.inbox[1..]), reply, e + 1);
    OuterLinks(s, r, e);
    Assemble(s, r, e);
  }

  /** The child's shutdown-admin request: the parent is told to terminate before the reply goes out. */
  lemma AdminKeeps(s: Chain, e: nat)
    requires Inv(s) && At(s, e, Loop) && s.procs[e].inbox != []
    requires s.procs[e].inbox[0].kind == ShutdownAdminRequest
    ensures Inv(OnSocketEvent(s, e))
  {
    hide Inv, NamesOk, Routed, Send, Local, Link;
    MailKinds(s, e);
    if Done(s, e) {
      AdminReplyKeeps(s, e);
    } else {
      TerminateParentKeeps(s, e);
      TerminateFirst(s, e);
      AdminReplyKeeps(TerminateParent(s, e), e);
    }
  }

  /** The request is answered by a process that has nothing to tell its parent any more. */
  lemma AdminReplyKeeps(s: Chain, e: nat)
    requires Inv(s) && At(s, e, Loop) && s.procs[e].inbox != [] && Done(s, e)
    requires s.procs[e].inbox[0].kind == ShutdownAdminRequest
    ensures Inv(OnSocketEvent(s, e))
  {
    hide Inv, NamesOk, Routed, Send;
    Near(s, e);
    var r := OnSocketEvent(s, e);
    var p := s.procs[e];
    ChangeAndSend(s, e, p.(inbox := p.inbox[1..]), ShutdownAdminReply, e + 1);
    OuterLinks(s, r, e);
    Assemble(s, r, e);
  }

  /** Taking the request out of the inbox and telling the parent to terminate commute. */
  lemma TerminateFirst(s: Chain, e: nat)
    requires Inv(s) && At(s, e, Loop) && s.procs[e].inbox != [] && !Done(s, e)
    requires s.procs[e].inbox[0].kind == ShutdownAdminRequest
    ensures var t := TerminateParent(s, e);
            && At(t, e, Loop) && Done(t, e) && t.procs[e].inbox == s.procs[e].inbox
            && OnSocketEvent(t, e) == OnSocketEvent(s, e)
  {
    hide Inv, NamesOk, Routed, Send;
    Near(s, e);
    var p := s.procs[e];
    var popped := SetProcess(s, e, p.(inbox := p.inbox[1..]));
    NamesKept(s, popped);
    RoutedKept(s, popped);
    ChangeAndSend(s, e, p.(parentTerminated := true), TerminateRequest, e - 1);
    ChangeAndSend(popped, e, popped.procs[e].(parentTerminated := true), TerminateRequest, e - 1);
    var t := TerminateParent(s, e);
    assert SetProcess(t, e, t.procs[e].(inbox := p.inbox[1..])) == TerminateParent(popped, e);
  }

  /** Every step of every process keeps the invariant. */
  lemma InvStep(s: Chain, step: Step)
    requires Inv(s) && Enabled(s, step, false)
    ensures Inv(Apply(s, step, false))
  {
    hide Inv;
    match step
    case Start => StartKeeps(s);
    case Acquire(e) => AcquireKeeps(s, e);
    case Receive(e) => ReceiveKeeps(s, e);
    case Duplicate(e) => DuplicateKeeps(s, e);
    case FinishStart(e) => FinishStartKeeps(s, e);
    case FlushStats(e) => FlushStatsKeeps(s, e);
    case Handle(e) => HandleKeeps(s, e);
    case ParentTimer(e) => TerminateParentKeeps(s, e);
    case Sigterm(e) => SigtermKeeps(s, e);
    case Leave(e) => LeaveKeeps(s, e);
  }

  lemma {:induction false} InvRun(states: seq<Chain>, steps: seq<Step>, i: nat)
    requires IsRun(states, steps, false) && i < |states|
    ensures Inv(states[i])
  {
    hide Enabled, Apply;
    if i > 0 {
      InvRun(states, steps, i - 1);
      InvStep(states[i - 1], steps[i - 1]);
    }
  }
}
