/** What the hot restart protocol guarantees over every run, and where it does not. */
module HotRestartTheorems {
  import opened Common
  import opened HotRestartModel
  import opened HotRestartInvariant

  // ---------- addressing ----------

  /** Reusing socket names modulo 3 never misroutes a message: everything ever sent in a run reached
      the process it was meant for, a neighbour in the chain, and no send or typed receive failed. */
  lemma NoMisrouting(states: seq<Chain>, steps: seq<Step>, i: nat)
    requires IsRun(states, steps, false) && i < |states|
    ensures !states[i].crashed
    ensures forall d :: d in states[i].log ==> d.receiver == d.message.target
    ensures forall e, m :: 0 <= e < |states[i].procs| && m in states[i].procs[e].inbox ==>
              m.target == e && (m.sender == e + 1 || m.sender == e - 1)
  {
    InvRun(states, steps, i);
    var s := states[i];
    forall e, m | 0 <= e < |s.procs| && m in s.procs[e].inbox
      ensures m.target == e && (m.sender == e + 1 || m.sender == e - 1)
    {
      MailIsAddressed(s, e, m);
    }
  }

  lemma MailIsAddressed(s: Chain, e: nat, m: Message)
    requires Inv(s) && e < |s.procs| && m in s.procs[e].inbox
    ensures m.target == e && (m.sender == e + 1 || m.sender == e - 1)
  {
    hide NamesOk, Routed;
    Near(s, e);
  }

  /** By the time epoch e + 2 has bound its name, which is the name of epoch e - 1, process e has told
      its parent to terminate, and the parent is gone. */
  lemma ParentGoneBeforeNameReuse(states: seq<Chain>, steps: seq<Step>, i: nat, e: nat)
    requires IsRun(states, steps, false) && i < |states|
    requires e > 0 && e + 2 < |states[i].procs|
    ensures SocketName(e + 2) == SocketName(e - 1)
    ensures states[i].procs[e].parentTerminated && !Alive(states[i], e - 1)
  {
    InvRun(states, steps, i);
    var s := states[i];
    assert Local(s, e + 1) && Local(s, e + 2);
    assert Shook(s.procs[e + 1]);
    assert Done(s, e);
    assert !Alive(s, e - 1);
  }

  /** A message from `e` to its parent. */
  predicate ToParent(d: Delivery, e: nat) {
    d.message.sender == e && d.message.target == e - 1
  }

  /** The log only grows, by messages of one sender. */
  predicate Grows(s: Chain, r: Chain, sender: nat) {
    s.log <= r.log && forall k :: |s.log| <= k < |r.log| ==> r.log[k].message.sender == sender
  }

  lemma SendGrows(s: Chain, kind: Kind, sender: nat, target: nat)
    requires Wired(s)
    ensures Grows(s, Send(s, kind, sender, target), sender)
    ensures |Send(s, kind, sender, target).log| <= |s.log| + 1
    ensures var log := Send(s, kind, sender, target).log;
            forall k :: |s.log| <= k < |log| ==> log[k].message.target == target
  {
  }

  lemma SendKeepsFlags(s: Chain, kind: Kind, sender: nat, target: nat, x: nat)
    requires Wired(s) && x < |s.procs|
    ensures Send(s, kind, sender, target).procs[x].parentTerminated == s.procs[x].parentTerminated
    ensures Send(s, kind, sender, target).procs[x].started == s.procs[x].started
    ensures Send(s, kind, sender, target).procs[x].place == s.procs[x].place
    ensures Send(s, kind, sender, target).initializing == s.initializing
  {
  }

  /** A step logs messages of its own process only. */
  lemma StepGrows(s: Chain, step: Step)
    requires Enabled(s, step, false)
    ensures var r := Apply(s, step, false);
            if step.Start? then r.log == s.log else Grows(s, r, step.e)
  {
    hide OnSocketEvent;
    if step.Handle? {
      HandleGrows(s, step.e, 0);
    }
  }

  /** A send adds to one inbox, that of a process with the target's name, and changes no process else. */
  lemma SendEffect(s: Chain, kind: Kind, sender: nat, target: nat, x: nat)
    requires Wired(s) && x < |s.procs|
    ensures var r := Send(s, kind, sender, target);
            && |r.procs| == |s.procs| && r.initializing == s.initializing
            && r.procs[x] == s.procs[x].(inbox := r.procs[x].inbox)
            && (NamesOk(s) && SocketName(x) != SocketName(target) ==> r.procs[x] == s.procs[x])
  {
  }

  /** A process that changes and then sends to its parent. */
  predicate SendsUp(s: Chain, r: Chain, e: nat, x: nat) {
    && e < |s.procs| && x < |s.procs| == |r.procs| && r.initializing == s.initializing
    && (s.procs[x].parentTerminated ==> r.procs[x].parentTerminated)
    && (x != e ==> r.procs[x] == s.procs[x].(inbox := r.procs[x].inbox))
    && (x != e && NamesOk(s) && (e > 0 ==> SocketName(x) != SocketName(e - 1)) ==> r.procs[x] == s.procs[x])
  }

  lemma ChangeSendsUp(s: Chain, e: nat, p: Process, lock: Option<nat>, kind: Kind, x: nat)
    requires Wired(s) && 0 < e < |s.procs| && x < |s.procs| && lock in {s.lock, Some(e)}
    requires (p.place.Exited? <==> s.procs[e].place.Exited?) && (s.procs[e].parentTerminated ==> p.parentTerminated)
    ensures var r := Send(SetProcess(s, e, p).(lock := lock), kind, e, e - 1);
            SendsUp(s, r, e, x) && (x == e ==> r.procs[e] == p.(inbox := r.procs[e].inbox))
  {
    hide NamesOk, Send;
    var t := SetProcess(s, e, p).(lock := lock);
    SendEffect(t, kind, e, e - 1, x);
    if NamesOk(s) {
      NamesKept(s, t);
    }
  }

  lemma TerminateSendsUp(s: Chain, e: nat, x: nat)
    requires Wired(s) && e < |s.procs| && x < |s.procs|
    ensures var r := TerminateParent(s, e);
            SendsUp(s, r, e, x) && r.procs[x].started == s.procs[x].started
  {
    hide NamesOk, Send;
    if e > 0 {
      var p := s.procs[e].(parentTerminated := true);
      assert SetProcess(s, e, p).(lock := s.lock) == SetProcess(s, e, p);
      ChangeSendsUp(s, e, p, s.lock, TerminateRequest, x);
    }
  }

  lemma DuplicateSendsUp(s: Chain, e: nat, x: nat)
    requires Wired(s) && At(s, e, Loop) && x < |s.procs|
    ensures var r := DuplicateParentListenSocket(s, e);
            SendsUp(s, r, e, x) && r.procs[x].started == s.procs[x].started
  {
    hide NamesOk, Send;
    if e > 0 {
      var p := s.procs[e].(place := AwaitSocket);
      assert SetProcess(s, e, p).(lock := s.lock) == SetProcess(s, e, p);
      ChangeSendsUp(s, e, p, s.lock, GetListenSocketRequest, x);
    }
  }

  lemma StatsSendsUp(s: Chain, e: nat, x: nat)
    requires Wired(s) && At(s, e, Loop) && x < |s.procs|
    ensures var r := GetParentStats(s, e);
            SendsUp(s, r, e, x) && r.procs[x].started == s.procs[x].started
  {
    hide NamesOk, Send;
    if e > 0 {
      ChangeSendsUp(s, e, s.procs[e].(place := AwaitStats), Some(e), GetStatsRequest, x);
    }
  }

  lemma AdminSendsUp(s: Chain, e: nat, x: nat)
    requires Wired(s) && At(s, e, AwaitLock) && x < |s.procs|
    ensures var r := ShutdownParentAdmin(s, e);
            SendsUp(s, r, e, x) && r.procs[x].started == s.procs[x].started
  {
    hide NamesOk, Send;
    if e > 0 {
      ChangeSendsUp(s, e, s.procs[e].(place := AwaitAdmin), Some(e), ShutdownAdminRequest, x);
    }
  }

  lemma DrainSendsUp(s: Chain, e: nat, x: nat)
    requires Wired(s) && At(s, e, Loop) && x < |s.procs|
    ensures var r := DrainParentListeners(s, e); SendsUp(s, r.(initializing := s.initializing), e, x)
  {
    hide NamesOk, Send;
    if e > 0 {
      var p := s.procs[e].(started := true);
      assert SetProcess(s, e, p).(lock := s.lock) == SetProcess(s, e, p);
      ChangeSendsUp(s, e, p, s.lock, DrainListenersRequest, x);
    }
  }

  /** Whatever a process does of its own accord, it sends to its parent at most. */
  lemma StepSendsUp(s: Chain, step: Step, x: nat)
    requires Enabled(s, step, false) && !step.Start? && !step.Handle? && x < |s.procs|
    ensures var r := Apply(s, step, false);
            && SendsUp(s, r.(initializing := s.initializing), step.e, x)
            && (!step.FinishStart? ==> r.initializing == s.initializing && r.procs[x].started == s.procs[x].started)
  {
    hide NamesOk, Send, TerminateParent, DuplicateParentListenSocket, GetParentStats, ShutdownParentAdmin;
    hide DrainParentListeners;
    match step
    case Acquire(e) => AdminSendsUp(s, e, x);
    case Duplicate(e) => DuplicateSendsUp(s, e, x);
    case FlushStats(e) => StatsSendsUp(s, e, x);
    case FinishStart(e) => DrainSendsUp(s, e, x);
    case ParentTimer(e) => TerminateSendsUp(s, e, x);
    case Sigterm(e) => TerminateSendsUp(s, e, x);
    case _ =>
  }

  /** Terminated parents stay terminated. */
  lemma StaysTerminated(s: Chain, step: Step, x: nat)
    requires Enabled(s, step, false) && x < |s.procs| && s.procs[x].parentTerminated
    ensures x < |Apply(s, step, false).procs| && Apply(s, step, false).procs[x].parentTerminated
  {
    hide OnSocketEvent, Grows, Done;
    if step.Handle? {
      HandleGrows(s, step.e, x);
    } else if !step.Start? {
      hide Apply;
      StepSendsUp(s, step, x);
    }
  }

  /** One turn of the event loop at `e`: what it logs comes from `e`, and goes to the child unless it
      tells the parent to terminate. */
  predicate HandleLog(s: Chain, r: Chain, e: nat, x: nat)
    requires e < |s.procs|
  {
    && x < |s.procs| == |r.procs| && (s.procs[x].parentTerminated ==> r.procs[x].parentTerminated)
    && r.procs[x].started == s.procs[x].started && r.procs[x].place == s.procs[x].place
    && r.initializing == s.initializing
    && Grows(s, r, e)
    && (Done(s, e) ==> forall k :: |s.log| <= k < |r.log| ==> r.log[k].message.target == e + 1)
  }

  lemma HandleGrows(s: Chain, e: nat, x: nat)
    requires Wired(s) && e < |s.procs| && s.procs[e].inbox != [] && x < |s.procs|
    ensures HandleLog(s, OnSocketEvent(s, e), e, x)
  {
    hide Send, HandleLog;
    match s.procs[e].inbox[0].kind
    case ShutdownAdminRequest => AdminLog(s, e, x);
    case GetListenSocketRequest => ReplyLog(s, e, GetListenSocketReply, x);
    case GetStatsRequest => ReplyLog(s, e, GetStatsReply, x);
    case DrainListenersRequest => QuietLog(s, e, x);
    case TerminateRequest => QuietLog(s, e, x);
    case _ => ReplyLog(s, e, UnknownRequestReply, x);
  }

  lemma QuietLog(s: Chain, e: nat, x: nat)
    requires Wired(s) && e < |s.procs| && s.procs[e].inbox != [] && x < |s.procs|
    requires s.procs[e].inbox[0].kind in {DrainListenersRequest, TerminateRequest}
    ensures HandleLog(s, OnSocketEvent(s, e), e, x)
  {
  }

  lemma ReplyLog(s: Chain, e: nat, kind: Kind, x: nat)
    requires Wired(s) && e < |s.procs| && s.procs[e].inbox != [] && x < |s.procs|
    ensures var p := s.procs[e];
            HandleLog(s, Send(SetProcess(s, e, p.(inbox := p.inbox[1..])), kind, e, e + 1), e, x)
  {
  }

  lemma AdminLog(s: Chain, e: nat, x: nat)
    requires Wired(s) && e < |s.procs| && s.procs[e].inbox != [] && x < |s.procs|
    requires s.procs[e].inbox[0].kind == ShutdownAdminRequest
    ensures HandleLog(s, OnSocketEvent(s, e), e, x)
  {
    hide Send;
    var p := s.procs[e];
    var t := SetProcess(s, e, p.(inbox := p.inbox[1..]));
    var u := TerminateParent(t, e);
    if !Done(t, e) {
      var v := SetProcess(t, e, t.procs[e].(parentTerminated := true));
      SendGrows(v, TerminateRequest, e, e - 1);
      SendKeepsFlags(v, TerminateRequest, e, e - 1, x);
    }
    SendGrows(u, ShutdownAdminReply, e, e + 1);
    SendKeepsFlags(u, ShutdownAdminReply, e, e + 1, x);
  }

  /** A step adds no message to a parent that its child has told to terminate. */
  lemma SilentStep(s: Chain, step: Step, e: nat)
    requires Inv(s) && Enabled(s, step, false) && e < |s.procs| && s.procs[e].parentTerminated
    ensures var r := Apply(s, step, false);
            && e < |r.procs| && r.procs[e].parentTerminated
            && s.log <= r.log
            && forall k :: |s.log| <= k < |r.log| ==> !ToParent(r.log[k], e)
  {
    assert Local(s, e);
    hide Inv, Send;
    StepGrows(s, step);
    StaysTerminated(s, step, e);
    if step == Handle(e) {
      HandleGrows(s, e, e);
    }
  }

  /** Once a process has told its parent to terminate it never sends to that address again, however
      the run goes on. */
  lemma {:induction false} NeverSendsToParentAgain(states: seq<Chain>, steps: seq<Step>, i: nat, j: nat, e: nat)
    requires IsRun(states, steps, false) && i <= j < |states|
    requires e < |states[i].procs| && states[i].procs[e].parentTerminated
    ensures e < |states[j].procs| && states[j].procs[e].parentTerminated
    ensures states[i].log <= states[j].log
    ensures forall k :: |states[i].log| <= k < |states[j].log| ==> !ToParent(states[j].log[k], e)
  {
    hide Inv, Enabled, Apply;
    if i < j {
      NeverSendsToParentAgain(states, steps, i, j - 1, e);
      InvRun(states, steps, j - 1);
      SilentStep(states[j - 1], steps[j - 1], e);
    }
  }

  /** At most three processes live at a time, the three youngest, and only the youngest may still be
      starting; whoever is blocked in a typed receive finds nothing but the reply it waits for. */
  lemma AtMostThree(states: seq<Chain>, steps: seq<Step>, i: nat, e: nat)
    requires IsRun(states, steps, false) && i < |states| && e < |states[i].procs|
    ensures var s := states[i]; var p := s.procs[e];
            && (Alive(s, e) ==> |s.procs| <= e + 3)
            && (!p.started ==> e == |s.procs| - 1 && s.initializing)
            && (Expected(p.place).Some? && p.inbox != [] ==>
                  e > 0 && p.inbox == [Message(Expected(p.place).value, e - 1, e)])
  {
    InvRun(states, steps, i);
    assert Local(states[i], e);
  }

  // ---------- waiting ----------

  /** The step that brings the reply to a blocked process nearer. */
  function Helper(s: Chain, e: nat): Step
    requires 0 < e < |s.procs|
  {
    if s.procs[e].inbox != [] then Receive(e) else Handle(e - 1)
  }

  /** How many messages the parent has to handle before the reply is there. */
  function Distance(s: Chain, e: nat): nat
    requires 0 < e < |s.procs|
  {
    if s.procs[e].inbox != [] then 0 else |s.procs[e - 1].inbox|
  }

  /** A blocked process is never blocked for good: its helper can run, at most two messages are in the
      way, and each helper step removes one or ends the wait. */
  lemma BlockedProcessIsServed(s: Chain, e: nat)
    requires Inv(s) && e < |s.procs| && Waiting(s.procs[e])
    ensures e > 0 && Distance(s, e) <= 2
    ensures Enabled(s, Helper(s, e), false)
    ensures var r := Apply(s, Helper(s, e), false);
            if s.procs[e].inbox != [] then At(r, e, Loop) && (!s.procs[e].place.AwaitSocket? ==> r.lock.None?)
            else At(r, e, s.procs[e].place) && Distance(r, e) < Distance(s, e)
  {
    hide Inv, NamesOk, Routed, Link, Send, OnSocketEvent;
    Near(s, e);
    if s.procs[e].inbox == [] {
      ParentListens(s, e);
      HandleResult(s, e - 1);
    }
  }

  lemma ParentListens(s: Chain, e: nat)
    requires Inv(s) && e < |s.procs| && Waiting(s.procs[e]) && s.procs[e].inbox == []
    ensures e > 0 && At(s, e - 1, Loop) && 1 <= |s.procs[e - 1].inbox| <= 2
    ensures var kind := s.procs[e - 1].inbox[0].kind;
            && (kind == Request(s.procs[e].place) || kind == DrainListenersRequest)
            && (kind == DrainListenersRequest ==> |s.procs[e - 1].inbox| == 2)
  {
    hide NamesOk, Routed;
    Near(s, e);
  }

  /** Handling a request of the child puts one message into the child's inbox. */
  lemma HandleResult(s: Chain, e: nat)
    requires Inv(s) && At(s, e, Loop) && s.procs[e].inbox != [] && e + 1 < |s.procs| && Waiting(s.procs[e + 1])
    requires s.procs[e + 1].inbox == []
    ensures var r := OnSocketEvent(s, e);
            && |r.procs| == |s.procs| && r.procs[e].inbox == s.procs[e].inbox[1..]
            && r.procs[e + 1].place == s.procs[e + 1].place
            && (s.procs[e].inbox[0].kind == DrainListenersRequest ==> r.procs[e + 1].inbox == [])
            && (s.procs[e].inbox[0].kind == Request(s.procs[e + 1].place) ==> r.procs[e + 1].inbox != [])
  {
    hide Routed;
    Near(s, e);
  }

  /** A step touches its own process and the two neighbours only. */
  lemma StepIsLocal(s: Chain, step: Step, x: nat)
    requires Inv(s) && Enabled(s, step, false) && x < |s.procs|
    requires !step.Start? ==> x + 1 < step.e || x > step.e + 1
    ensures x < |Apply(s, step, false).procs| && Apply(s, step, false).procs[x] == s.procs[x]
  {
    if !step.Start? {
      hide Routed;
      Near(s, step.e);
      if step.Handle? {
        HandleIsLocal(s, step.e, x);
      }
    }
  }

  lemma HandleIsLocal(s: Chain, e: nat, x: nat)
    requires Inv(s) && At(s, e, Loop) && s.procs[e].inbox != [] && x < |s.procs|
    requires x + 1 < e || x > e + 1
    ensures x < |OnSocketEvent(s, e).procs| && OnSocketEvent(s, e).procs[x] == s.procs[x]
  {
    hide Routed;
    Near(s, e);
    MailKinds(s, e);
  }

  lemma ParentStep(s: Chain, step: Step, e: nat)
    requires Inv(s) && 0 < e < |s.procs| && Waiting(s.procs[e])
    requires Enabled(s, step, false) && !step.Start? && step.e == e - 1
    ensures var r := Apply(s, step, false);
            At(r, e, s.procs[e].place) && Distance(r, e) <= Distance(s, e)
  {
    hide Routed, OnSocketEvent, TerminateParent, Send;
    Near(s, e);
    if step.Handle? {
      ParentListens(s, e);
      HandleResult(s, e - 1);
    } else {
      Near(s, e - 1);
      assert step.ParentTimer? || step.FlushStats? || (step.Duplicate? && Harmless(s, e - 1));
      if step.ParentTimer? {
        TerminateParentLocal(s, e - 1);
      }
    }
  }

  lemma TerminateParentLocal(s: Chain, e: nat)
    requires Inv(s) && At(s, e, Loop)
    ensures |TerminateParent(s, e).procs| == |s.procs| && TerminateParent(s, e).procs[e].inbox == s.procs[e].inbox
    ensures e + 1 < |s.procs| ==> TerminateParent(s, e).procs[e + 1] == s.procs[e + 1]
  {
    hide Routed;
    Near(s, e);
  }

  /** What is left for the grandparent of a blocked process to handle asks for no answer. */
  lemma GrandparentMail(s: Chain, e: nat)
    requires Inv(s) && 1 < e < |s.procs| && Waiting(s.procs[e])
    requires At(s, e - 2, Loop) && s.procs[e - 2].inbox != []
    ensures s.procs[e - 2].inbox[0].kind in {DrainListenersRequest, TerminateRequest}
  {
    hide Routed, NamesOk, Inv;
    Near(s, e);
    Near(s, e - 1);
  }

  lemma GrandparentHandles(s: Chain, e: nat)
    requires Inv(s) && 1 < e < |s.procs| && Waiting(s.procs[e])
    requires At(s, e - 2, Loop) && s.procs[e - 2].inbox != []
    ensures var r := OnSocketEvent(s, e - 2); |r.procs| == |s.procs| && r.procs[e - 1] == s.procs[e - 1]
  {
    hide Inv, Local, Link, NamesOk, Routed, Send;
    GrandparentMail(s, e);
  }

  lemma GrandparentStep(s: Chain, step: Step, e: nat)
    requires Inv(s) && 1 < e < |s.procs| && Waiting(s.procs[e])
    requires Enabled(s, step, false) && !step.Start? && step.e == e - 2
    ensures var r := Apply(s, step, false);
            |r.procs| == |s.procs| && r.procs[e - 1] == s.procs[e - 1]
  {
    if step.Handle? {
      GrandparentHandles(s, e);
    } else {
      assert NamesOk(s);
      hide Inv, Apply, NamesOk, Enabled;
      StepSendsUp(s, step, e - 1);
    }
  }

  /** The child of a blocked process, if any, waits for the lock, which the blocked process holds. */
  lemma ChildStep(s: Chain, step: Step, e: nat)
    requires Inv(s) && e < |s.procs| && Waiting(s.procs[e])
    requires Enabled(s, step, false)
    ensures step.Start? || step.e != e + 1
  {
    hide Routed, NamesOk;
    Near(s, e);
  }

  /** All that a blocked process can do is to receive. */
  lemma OwnStep(s: Chain, step: Step, e: nat)
    requires Inv(s) && e < |s.procs| && Waiting(s.procs[e])
    requires Enabled(s, step, false) && !step.Start? && step.e == e
    ensures step == Receive(e) && At(Apply(s, step, false), e, Loop)
  {
    assert Local(s, e);
  }

  lemma HasParent(s: Chain, e: nat)
    requires Inv(s) && e < |s.procs| && Waiting(s.procs[e])
    ensures e > 0
  {
    assert Local(s, e);
  }

  /** Nothing that anybody does lengthens the wait of a blocked process. */
  lemma WaitNeverGrows(s: Chain, step: Step, e: nat)
    requires Inv(s) && Enabled(s, step, false) && e < |s.procs| && Waiting(s.procs[e])
    ensures e > 0
    ensures var r := Apply(s, step, false);
            || (step == Receive(e) && At(r, e, Loop))
            || (At(r, e, s.procs[e].place) && Distance(r, e) <= Distance(s, e))
  {
    hide Inv, NamesOk, Routed, Link, Local, Enabled, Apply;
    HasParent(s, e);
    ChildStep(s, step, e);
    if step.Start? || step.e > e + 1 || step.e + 2 < e {
      StepIsLocal(s, step, e);
      StepIsLocal(s, step, e - 1);
    } else if step.e == e - 1 {
      ParentStep(s, step, e);
    } else if step.e + 2 == e {
      StepIsLocal(s, step, e);
      GrandparentStep(s, step, e);
    } else {
      OwnStep(s, step, e);
    }
  }

  /** Whoever holds the lock is blocked in a receive, so that it is freed after at most three helper
      steps; whoever waits for a free lock can take it. */
  lemma LockIsFreed(s: Chain, e: nat)
    requires Inv(s) && At(s, e, AwaitLock)
    ensures s.lock.Some? ==>
              && s.lock.value < |s.procs| && Waiting(s.procs[s.lock.value])
              && !s.procs[s.lock.value].place.AwaitSocket?
    ensures s.lock.None? ==>
              && Enabled(s, Acquire(e), false)
              && !At(Apply(s, Acquire(e), false), e, AwaitLock)
  {
    if s.lock.Some? {
      assert Local(s, s.lock.value);
    } else {
      assert Local(s, e);
      InvStep(s, Acquire(e));
      AcquireKeeps(s, e);
    }
  }

  // ---------- requests that are sent ----------

  /** What a process asks its parent: exactly one message, which the parent gets, and the wait for its reply. */
  predicate Asks(s: Chain, r: Chain, e: nat, kind: Kind, place: Place) {
    && 0 < e < |s.procs| == |r.procs|
    && r.procs[e] == s.procs[e].(place := place)
    && r.procs[e - 1] == s.procs[e - 1].(inbox := s.procs[e - 1].inbox + [Message(kind, e, e - 1)])
    && r.log == s.log + [Delivery(Message(kind, e, e - 1), e - 1)]
    && forall x :: 0 <= x < |s.procs| && x != e && x != e - 1 ==> r.procs[x] == s.procs[x]
  }

  lemma AskingParent(s: Chain, e: nat, p: Process, kind: Kind)
    requires Inv(s) && 0 < e < |s.procs| && At(s, e, Loop) && !s.procs[e].parentTerminated
    requires p == s.procs[e].(place := p.place) && Expected(p.place).Some?
    ensures Asks(s, Send(SetProcess(s, e, p), kind, e, e - 1), e, kind, p.place)
  {
    hide Inv, NamesOk, Routed, Send;
    Near(s, e);
    ChangeAndSend(s, e, p, kind, e - 1);
  }

  /** A running process asks its parent for its statistics exactly if it has a parent that it has not told to
      terminate and nobody holds the lock; it then holds the lock itself. Else nothing happens. */
  lemma StatsAreAsked(s: Chain, e: nat)
    requires Inv(s) && At(s, e, Loop)
    ensures Enabled(s, FlushStats(e), false)
    ensures var r := Apply(s, FlushStats(e), false);
            if !Done(s, e) && s.lock == None then
              Asks(s, r, e, GetStatsRequest, AwaitStats) && r.lock == Some(e)
            else r == s
  {
    assert Wired(s) && !s.crashed;
    if !Done(s, e) && s.lock == None {
      var p := s.procs[e].(place := AwaitStats);
      AskingParent(s, e, p, GetStatsRequest);
      hide Inv;
      LockOnly(SetProcess(s, e, p), Some(e), GetStatsRequest, e, e - 1);
      assert Apply(s, FlushStats(e), false)
             == Send(SetProcess(s, e, p).(lock := Some(e)), GetStatsRequest, e, e - 1);
    }
  }

  /** Sending does not look at the lock. */
  lemma LockOnly(t: Chain, lock: Option<nat>, kind: Kind, sender: nat, target: nat)
    requires Wired(t) && (lock.Some? ==> lock.value < |t.procs|)
    ensures Send(t.(lock := lock), kind, sender, target) == Send(t, kind, sender, target).(lock := lock)
  {
  }

  /** A process that may duplicate a listen socket asks its parent for it exactly if it has one that it has
      not told to terminate. */
  lemma SocketIsAsked(s: Chain, e: nat)
    requires Inv(s) && Enabled(s, Duplicate(e), false)
    ensures var r := Apply(s, Duplicate(e), false);
            if !Done(s, e) then Asks(s, r, e, GetListenSocketRequest, AwaitSocket) && r.lock == s.lock
            else r == s
  {
    if !Done(s, e) {
      AskingParent(s, e, s.procs[e].(place := AwaitSocket), GetListenSocketRequest);
    }
  }

  /** `steps` lead from `s` to `r`. */
  predicate Leads(s: Chain, steps: seq<Step>, r: Chain)
    decreases |steps|
  {
    if steps == [] then r == s
    else Enabled(s, steps[0], false) && Leads(Apply(s, steps[0], false), steps[1..], r)
  }

  lemma {:induction false} LeadsOn(s: Chain, a: seq<Step>, t: Chain, b: seq<Step>, r: Chain)
    requires Leads(s, a, t) && Leads(t, b, r)
    ensures Leads(s, a + b, r)
    decreases |a|
  {
    hide Enabled, Apply;
    if a == [] {
      assert a + b == b;
    } else {
      LeadsOn(Apply(s, a[0], false), a[1..], t, b, r);
      assert (a + b)[0] == a[0] && (a + b)[1..] == a[1..] + b;
    }
  }

  /** The other processes are where they were. */
  predicate OthersStay(s: Chain, r: Chain, e: nat) {
    |r.procs| == |s.procs|
    && forall x :: 0 <= x < |s.procs| && x != e ==> r.procs[x].place == s.procs[x].place
  }

  lemma HelperMovesNobodyElse(s: Chain, e: nat)
    requires Inv(s) && e < |s.procs| && Waiting(s.procs[e])
    requires e > 0 && Enabled(s, Helper(s, e), false)
    ensures OthersStay(s, Apply(s, Helper(s, e), false), e)
  {
    hide Inv, NamesOk, Routed, Link, Local, Send;
    if s.procs[e].inbox == [] {
      ParentListens(s, e);
      HandleStays(s, e - 1);
    }
  }

  lemma HandleStays(s: Chain, e: nat)
    requires Wired(s) && e < |s.procs| && s.procs[e].inbox != []
    ensures OthersStay(s, OnSocketEvent(s, e), |s.procs|)
  {
    hide OnSocketEvent, Grows, Done;
    var r := OnSocketEvent(s, e);
    HandleGrows(s, e, 0);
    forall x | 0 <= x < |r.procs| ensures r.procs[x].place == s.procs[x].place {
      HandleGrows(s, e, x);
    }
  }

  /** The helper steps alone end the wait of a blocked process, in at most three steps, and free the
      lock if the process held it. */
  lemma {:induction false} WaitEnds(s: Chain, e: nat) returns (steps: seq<Step>, r: Chain)
    requires Inv(s) && e < |s.procs| && Waiting(s.procs[e])
    ensures e > 0 && |steps| <= Distance(s, e) + 1 && Leads(s, steps, r) && Inv(r)
    ensures At(r, e, Loop) && OthersStay(s, r, e)
    ensures !s.procs[e].place.AwaitSocket? ==> r.lock.None?
    decreases if e > 0 then Distance(s, e) else 0, if s.procs[e].inbox == [] then 1 else 0
  {
    hide Inv, Apply, Enabled;
    BlockedProcessIsServed(s, e);
    HelperMovesNobodyElse(s, e);
    var step := Helper(s, e);
    InvStep(s, step);
    r := Apply(s, step, false);
    steps := [step];
    assert [step][1..] == [];
    if s.procs[e].inbox == [] {
      var more;
      var t := r;
      more, r := WaitEnds(t, e);
      LeadsOn(s, [step], t, more, r);
      steps := [step] + more;
    }
  }

  /** No deadlock: wherever a run is, a process that waits, for the lock or for a reply, gets into its
      event loop within seven steps of itself, its parent and the holder of the lock. */
  lemma NobodyWaitsForever(states: seq<Chain>, runSteps: seq<Step>, i: nat, e: nat)
    returns (steps: seq<Step>, r: Chain)
    requires IsRun(states, runSteps, false) && i < |states| && e < |states[i].procs|
    requires states[i].procs[e].place.AwaitLock? || Waiting(states[i].procs[e])
    ensures Leads(states[i], steps, r) && |steps| <= 7 && At(r, e, Loop)
  {
    InvRun(states, runSteps, i);
    var s := states[i];
    hide Inv, Apply, Enabled;
    steps, r := [], s;
    if At(s, e, AwaitLock) {
      LockIsFreed(s, e);
      if s.lock.Some? {
        BlockedProcessIsServed(s, s.lock.value);
        steps, r := WaitEnds(s, s.lock.value);
      }
      var t := r;
      LockIsFreed(t, e);
      InvStep(t, Acquire(e));
      r := Apply(t, Acquire(e), false);
      assert [Acquire(e)][1..] == [];
      LeadsOn(s, steps, t, [Acquire(e)], r);
      steps := steps + [Acquire(e)];
      AcquiredPlace(t, e);
    }
    if Waiting(r.procs[e]) {
      var t := r;
      var more;
      BlockedProcessIsServed(t, e);
      more, r := WaitEnds(t, e);
      LeadsOn(s, steps, t, more, r);
      steps := steps + more;
    }
  }

  lemma AcquiredPlace(s: Chain, e: nat)
    requires Enabled(s, Acquire(e), false) && Inv(s)
    ensures At(Apply(s, Acquire(e), false), e, if e == 0 then Loop else AwaitAdmin)
  {
    hide Routed;
    Near(s, e);
  }

  /** Before a name is needed again its owner has been told to go: when epoch e + 2 has shaken hands
      with its parent, epoch e has the terminate request in its inbox or is past it. */
  lemma OldestIsTold(s: Chain, e: nat)
    requires Inv(s) && e + 2 < |s.procs| && Shook(s.procs[e + 2])
    ensures s.procs[e].sigterm || Message(TerminateRequest, e + 1, e) in s.procs[e].inbox
  {
    assert Local(s, e + 2) && Local(s, e + 1) && Link(s.procs[e], s.procs[e + 1], e);
  }

  // ---------- listen sockets duplicated after start-up ----------

  /** The lock is free while a started process runs that has not terminated its parent, unless the child
      holds it. */
  lemma LockFree(s: Chain, e: nat)
    requires Inv(s) && At(s, e, Loop) && s.procs[e].started && !Done(s, e)
    requires At(s, e + 1, AwaitLock) || e + 1 == |s.procs|
    ensures s.lock.None?
  {
    assert Local(s, e);
    if e + 1 < |s.procs| {
      assert Local(s, e + 1);
      assert |s.procs| == e + 2;
    }
    forall h | 0 <= h < |s.procs| ensures s.lock != Some(h) {
      assert Local(s, h);
      if h < e {
        assert Local(s, h + 1);
      }
    }
  }

  /** With a child: at most one step of the child later the process reads the child's request. */
  lemma CrashesWithChild(s: Chain, e: nat) returns (steps: seq<Step>, r: Chain)
    requires Inv(s) && At(s, e, Loop) && s.procs[e].started && !Done(s, e) && e + 1 < |s.procs|
    ensures Enabled(s, Duplicate(e), true)
    ensures Leads(Apply(s, Duplicate(e), true), steps, r) && r.crashed
  {
    hide Routed;
    Near(s, e);
    var t := Apply(s, Duplicate(e), true);
    steps := [];
    var u := t;
    if s.procs[e + 1].place.AwaitLock? {
      LockFree(s, e);
      u := Apply(t, Acquire(e + 1), false);
      steps := [Acquire(e + 1)];
    }
    r := Apply(u, Receive(e), false);
    TwoSteps(t, u, r, steps, Receive(e));
    steps := steps + [Receive(e)];
  }

  lemma TwoSteps(s: Chain, t: Chain, r: Chain, first: seq<Step>, step: Step)
    requires |first| <= 1 && (first == [] ==> t == s)
    requires first != [] ==> Enabled(s, first[0], false) && t == Apply(s, first[0], false)
    requires Enabled(t, step, false) && r == Apply(t, step, false)
    ensures Leads(s, first + [step], r)
  {
    hide Enabled, Apply;
    assert [step][1..] == [];
    assert Leads(t, [step], r);
    if first != [] {
      assert (first + [step])[0] == first[0] && (first + [step])[1..] == [step];
    } else {
      assert first + [step] == [step];
    }
  }

  /** A process that has been told to terminate, and has told its own parent. */
  predicate OnItsWayOut(s: Chain, x: nat) {
    && Wired(s) && !s.crashed && x < |s.procs|
    && var p := s.procs[x];
    && Done(s, x)
    && (|| p.place.Exiting? || p.place.Exited?
        || (p.place.Loop? && p.sigterm)
        || (p.place.Loop? && p.inbox != [] && p.inbox[|p.inbox| - 1].kind == TerminateRequest
            && forall i :: 0 <= i < |p.inbox| - 1 ==> p.inbox[i].kind == DrainListenersRequest))
  }

  /** The steps of `x` alone change nothing but `x` and its name. */
  predicate OnlyLeft(s: Chain, r: Chain, x: nat)
    requires x < |s.procs|
  {
    && |r.procs| == |s.procs| && r.procs[x].place.Exited?
    && r == s.(procs := s.procs[x := r.procs[x]],
               names := if s.procs[x].place.Exited? then s.names else s.names - {SocketName(x)})
  }

  /** Such a process leaves by steps of its own, however the rest of the chain stands. */
  lemma {:induction false} Leaves(s: Chain, x: nat) returns (steps: seq<Step>, r: Chain)
    requires OnItsWayOut(s, x)
    ensures Leads(s, steps, r) && OnlyLeft(s, r, x)
    decreases if s.procs[x].place.Exited? then 0 else if s.procs[x].place.Exiting? then 1
              else if s.procs[x].sigterm then 2 else 3 + |s.procs[x].inbox|
  {
    var p := s.procs[x];
    if p.place.Exited? {
      assert s.procs[x := p] == s.procs;
      return [], s;
    }
    var step := if p.place.Exiting? then Leave(x) else if p.sigterm then Sigterm(x) else Handle(x);
    var t := Apply(s, step, false);
    var more;
    more, r := Leaves(t, x);
    steps := [step] + more;
    assert steps[0] == step && steps[1..] == more;
  }

  /** Without a child, and with the flag clear: a child can start and ask before the reply is read. */
  lemma CrashesWithoutChild(s: Chain, e: nat) returns (steps: seq<Step>, r: Chain)
    requires Inv(s) && At(s, e, Loop) && s.procs[e].started && !Done(s, e)
    requires e + 1 == |s.procs| && !s.initializing
    ensures Enabled(s, Duplicate(e), true)
    ensures Leads(Apply(s, Duplicate(e), true), steps, r) && r.crashed
  {
    hide Leads, OnItsWayOut, OnlyLeft;
    var d := Apply(s, Duplicate(e), true);
    DuplicatedLast(s, e);
    var t := d;
    steps := [];
    assert Leads(d, [], d) by { NoSteps(d); }
    if e >= 2 {
      GrandparentGoes(s, e);
      steps, t := Leaves(d, e - 2);
    }
    RoomForChild(s, d, t, e);
    var more;
    more, r := ChildComes(t, e);
    LeadsOn(d, steps, t, more, r);
    steps := steps + more;
  }

  lemma NoSteps(s: Chain)
    ensures Leads(s, [], s)
  {
  }

  /** The state after the duplication: the request is under way and nothing else has changed. */
  lemma DuplicatedLast(s: Chain, e: nat)
    requires Inv(s) && At(s, e, Loop) && s.procs[e].started && !Done(s, e) && e + 1 == |s.procs|
    ensures e > 0 && Enabled(s, Duplicate(e), true) && s.procs[e].inbox == []
    ensures var d := Apply(s, Duplicate(e), true);
            && Wired(d) && !d.crashed && d.names == s.names && d.lock == s.lock && d.initializing == s.initializing
            && |d.procs| == |s.procs| && d.procs[e] == s.procs[e].(place := AwaitSocket)
            && forall x :: 0 <= x < e - 1 ==> d.procs[x] == s.procs[x]
  {
    hide Routed;
    Near(s, e);
  }

  /** The process two before the youngest has been told to go. */
  lemma GrandparentGoes(s: Chain, e: nat)
    requires Inv(s) && At(s, e, Loop) && s.procs[e].started && !Done(s, e) && 2 <= e && e + 1 == |s.procs|
    ensures OnItsWayOut(Apply(s, Duplicate(e), true), e - 2)
  {
    DuplicatedLast(s, e);
    hide NamesOk, Routed, Send, Apply;
    assert Local(s, e) && Done(s, e - 1) && Local(s, e - 1) && Done(s, e - 2) && Local(s, e - 2);
    assert Link(s.procs[e - 2], s.procs[e - 1], e - 2);
  }

  /** Nothing keeps a child from starting and from taking the lock. */
  predicate Room(s: Chain, e: nat) {
    && Wired(s) && !s.crashed && !s.initializing && s.lock.None? && e + 1 == |s.procs|
    && s.procs[e].place.AwaitSocket? && s.procs[e].inbox == []
    && SocketName(e + 1) !in s.names
    && SocketName(e) in s.names && s.names[SocketName(e)] == e
  }

  lemma RoomForChild(s: Chain, d: Chain, t: Chain, e: nat)
    requires Inv(s) && At(s, e, Loop) && s.procs[e].started && !Done(s, e)
    requires e + 1 == |s.procs| && !s.initializing
    requires e > 0 && Enabled(s, Duplicate(e), true) && d == Apply(s, Duplicate(e), true) && |d.procs| == |s.procs|
    requires if e >= 2 then OnlyLeft(d, t, e - 2) else t == d
    requires Wired(t)
    ensures Room(t, e)
  {
    DuplicatedLast(s, e);
    LockFree(s, e);
    hide Routed, Send, Apply, Link, Local;
    NameTaken(s);
    assert Alive(s, e);
    assert SocketName(e) != SocketName(e + 1);
    if e >= 2 {
      assert SocketName(e - 2) == SocketName(e + 1);
    }
  }

  /** The child starts, takes the lock, and its request is the first thing the process reads. */
  lemma ChildComes(s: Chain, e: nat) returns (steps: seq<Step>, r: Chain)
    requires Room(s, e)
    ensures Leads(s, steps, r) && r.crashed
  {
    var a := Apply(s, Start, false);
    assert SocketName(e) != SocketName(e + 1);
    var b := Apply(a, Acquire(e + 1), false);
    r := Apply(b, Receive(e), false);
    steps := [Start] + ([Acquire(e + 1)] + [Receive(e)]);
    TwoSteps(a, b, r, [Acquire(e + 1)], Receive(e));
    hide Enabled, Apply;
    assert steps[0] == Start && steps[1..] == [Acquire(e + 1)] + [Receive(e)];
  }

  lemma {:induction false} LeadsKeeps(s: Chain, steps: seq<Step>, r: Chain)
    requires Inv(s) && Leads(s, steps, r)
    ensures Inv(r)
    decreases |steps|
  {
    hide Inv, Enabled, Apply;
    if steps != [] {
      InvStep(s, steps[0]);
      LeadsKeeps(Apply(s, steps[0], false), steps[1..], r);
    }
  }

  /** Duplicating a listen socket after start-up can lead to a crash exactly if the process has a parent
      to ask and either has a child or can get one. Where it is harmless it is one of the steps that all
      theorems above allow. */
  lemma LateDuplicationExactly(s: Chain, e: nat)
    requires Inv(s) && At(s, e, Loop) && s.procs[e].started
    ensures Enabled(s, Duplicate(e), true)
    ensures (exists steps, r :: Leads(Apply(s, Duplicate(e), true), steps, r) && r.crashed)
            <==> !Done(s, e) && (e + 1 < |s.procs| || !s.initializing)
    ensures Enabled(s, Duplicate(e), false) <==> Harmless(s, e)
  {
    assert Wired(s) && !s.crashed;
    if !Done(s, e) && (e + 1 < |s.procs| || !s.initializing) {
      if e + 1 < |s.procs| {
        var steps, r := CrashesWithChild(s, e);
      } else {
        var steps, r := CrashesWithoutChild(s, e);
      }
    } else {
      InvStep(s, Duplicate(e));
      hide Inv;
      forall steps, r | Leads(Apply(s, Duplicate(e), true), steps, r) ensures !r.crashed {
        LeadsKeeps(Apply(s, Duplicate(e), true), steps, r);
        NotCrashed(r);
      }
    }
  }

  lemma NotCrashed(s: Chain)
    requires Inv(s)
    ensures !s.crashed
  {
  }

  // ---------- a failed bind ----------

  /** The flag is set although nobody is starting. */
  predicate Wedged(s: Chain) {
    s.initializing && |s.procs| > 0 && forall e :: 0 <= e < |s.procs| ==> s.procs[e].started
  }

  /** A start attempt yields a process exactly when the flag is clear and the epoch three before is
      gone; it wedges the chain exactly when the flag is clear and that epoch still lives. */
  lemma StartOutcome(s: Chain)
    requires Inv(s)
    ensures var r := Apply(s, Start, false); var n := |s.procs|;
            && (|r.procs| == n + 1 <==> !s.initializing && (n >= 3 ==> !Alive(s, n - 3)))
            && (|r.procs| != n + 1 ==> r.procs == s.procs)
            && (Wedged(r) && !Wedged(s) <==> !s.initializing && n >= 3 && Alive(s, n - 3))
  {
    var n := |s.procs|;
    var r := Apply(s, Start, false);
    if !s.initializing {
      forall e | 0 <= e < n ensures s.procs[e].started {
        assert Local(s, e);
      }
      NameTaken(s);
      if |r.procs| == n + 1 {
        assert !r.procs[n].started;
      }
    }
  }

  lemma NameTaken(s: Chain)
    requires Inv(s)
    ensures var n := |s.procs|;
            SocketName(n) in s.names <==> n >= 3 && Alive(s, n - 3)
  {
    var n := |s.procs|;
    if n >= 3 {
      assert SocketName(n - 3) == SocketName(n);
    }
    if SocketName(n) in s.names {
      var e := s.names[SocketName(n)];
      assert Alive(s, e) && SocketName(e) == SocketName(n) && n <= e + 3;
      assert e == n - 3;
    }
  }

  /** The INITIALIZING flag of a wedged chain stays set and no process ever starts again, whatever
      happens: a retry after the old epoch has gone fails too. */
  lemma WedgedStep(s: Chain, step: Step)
    requires Inv(s) && Wedged(s) && Enabled(s, step, false)
    ensures Wedged(Apply(s, step, false)) && |Apply(s, step, false).procs| == |s.procs|
  {
    hide Routed;
    if step.Start? {
    } else {
      Near(s, step.e);
      if step.Handle? {
        HandleKeepsStarted(s, step.e);
      }
    }
  }

  lemma HandleKeepsStarted(s: Chain, e: nat)
    requires Wired(s) && Wedged(s) && e < |s.procs| && s.procs[e].inbox != []
    ensures Wedged(OnSocketEvent(s, e)) && |OnSocketEvent(s, e).procs| == |s.procs|
  {
    hide OnSocketEvent, Grows, Done;
    var r := OnSocketEvent(s, e);
    HandleGrows(s, e, 0);
    forall x | 0 <= x < |r.procs| ensures r.procs[x].started {
      HandleGrows(s, e, x);
    }
  }

  lemma {:induction false} WedgedForever(states: seq<Chain>, steps: seq<Step>, i: nat, j: nat)
    requires IsRun(states, steps, false) && i <= j < |states| && Wedged(states[i])
    ensures Wedged(states[j]) && |states[j].procs| == |states[i].procs|
  {
    hide Inv, Enabled, Apply;
    if i < j {
      WedgedForever(states, steps, i, j - 1);
      InvRun(states, steps, j - 1);
      WedgedStep(states[j - 1], steps[j - 1]);
    }
  }
}
