/** What each process of the restart chain says to its parent over a whole run: every notification
    exactly once, and the chain wedges in one way only. */
module HotRestartHistory {
  import opened Common
  import opened HotRestartModel
  import opened HotRestartInvariant
  import opened HotRestartTheorems

  /** How often `sender` has sent messages of a kind. */
  function Count(log: seq<Delivery>, kind: Kind, sender: nat): nat {
    if log == [] then 0
    else
      var m := log[|log| - 1].message;
      Count(log[..|log| - 1], kind, sender) + if m.kind == kind && m.sender == sender then 1 else 0
  }

  /** What a process has told its parent, by its own fields. */
  predicate Told(p: Process, kind: Kind) {
    match kind
    case ShutdownAdminRequest => !p.place.AwaitLock?
    case DrainListenersRequest => p.started
    case TerminateRequest => p.parentTerminated
    case _ => false
  }

  predicate Notification(kind: Kind) {
    kind == ShutdownAdminRequest || kind == DrainListenersRequest || kind == TerminateRequest
  }

  predicate TallyOf(s: Chain, e: nat, kind: Kind) {
    Count(s.log, kind, e) == if 0 < e < |s.procs| && Told(s.procs[e], kind) then 1 else 0
  }

  ghost predicate Tally(s: Chain) {
    forall e, kind | Notification(kind) :: TallyOf(s, e, kind)
  }

  lemma CountAppend(log: seq<Delivery>, d: Delivery, kind: Kind, x: nat)
    ensures Count(log + [d], kind, x)
            == Count(log, kind, x) + if d.message.kind == kind && d.message.sender == x then 1 else 0
  {
    assert (log + [d])[..|log|] == log;
  }

  /** A process that changes its own fields and sends one message. */
  lemma OneMessage(s: Chain, r: Chain, e: nat, d: Delivery)
    requires Tally(s) && |r.procs| == |s.procs| && 0 < e < |s.procs|
    requires r.log == s.log + [d] && d.message.sender == e
    requires forall x, kind | 0 <= x < |s.procs| && x != e :: Told(r.procs[x], kind) == Told(s.procs[x], kind)
    requires forall kind | Notification(kind) ::
               Told(r.procs[e], kind) == (Told(s.procs[e], kind) || kind == d.message.kind)
    requires Notification(d.message.kind) ==> !Told(s.procs[e], d.message.kind)
    ensures Tally(r)
  {
    forall x, kind | Notification(kind) ensures TallyOf(r, x, kind) {
      assert TallyOf(s, x, kind);
      CountAppend(s.log, d, kind, x);
    }
  }

  /** A step without a notification: nobody has told anything new. */
  lemma NothingTold(s: Chain, r: Chain)
    requires Tally(s) && |r.procs| == |s.procs|
    requires forall kind, x | Notification(kind) :: Count(r.log, kind, x) == Count(s.log, kind, x)
    requires forall x, kind | 0 <= x < |s.procs| && Notification(kind) ::
               Told(r.procs[x], kind) == Told(s.procs[x], kind)
    ensures Tally(r)
  {
    forall x, kind | Notification(kind) ensures TallyOf(r, x, kind) {
      assert TallyOf(s, x, kind);
    }
  }

  lemma TallyAcquire(s: Chain, e: nat)
    requires Inv(s) && Tally(s) && At(s, e, AwaitLock) && s.lock.None?
    ensures Tally(ShutdownParentAdmin(s, e))
  {
    hide Inv, NamesOk, Routed, Send;
    Near(s, e);
    var r := ShutdownParentAdmin(s, e);
    if e > 0 {
      var t := s.(lock := Some(e));
      NamesKept(s, t);
      RoutedKept(s, t);
      ChangeAndSend(t, e, s.procs[e].(place := AwaitAdmin), ShutdownAdminRequest, e - 1);
      OneMessage(s, r, e, Delivery(Message(ShutdownAdminRequest, e, e - 1), e - 1));
    } else {
      forall x, kind | Notification(kind) ensures TallyOf(r, x, kind) {
        assert TallyOf(s, x, kind);
      }
    }
  }

  lemma TallyTerminate(s: Chain, e: nat)
    requires Inv(s) && Tally(s) && At(s, e, Loop) && s.procs[e].started
    ensures Tally(TerminateParent(s, e))
  {
    hide Inv, NamesOk, Routed, Send;
    Near(s, e);
    if !Done(s, e) {
      ChangeAndSend(s, e, s.procs[e].(parentTerminated := true), TerminateRequest, e - 1);
      OneMessage(s, TerminateParent(s, e), e, Delivery(Message(TerminateRequest, e, e - 1), e - 1));
    }
  }

  lemma TallyFinish(s: Chain, e: nat)
    requires Inv(s) && Tally(s) && At(s, e, Loop) && !s.procs[e].started
    ensures Tally(DrainParentListeners(s, e))
  {
    hide Inv, NamesOk, Routed, Send;
    Near(s, e);
    var r := DrainParentListeners(s, e);
    if e > 0 {
      ChangeAndSend(s, e, s.procs[e].(started := true), DrainListenersRequest, e - 1);
      OneMessage(s, r, e, Delivery(Message(DrainListenersRequest, e, e - 1), e - 1));
    } else {
      forall x, kind | Notification(kind) ensures TallyOf(r, x, kind) {
        assert TallyOf(s, x, kind);
      }
    }
  }

  /** A request for a socket or for statistics is no notification. */
  lemma TallyRequest(s: Chain, t: Chain, e: nat, place: Place, kind: Kind)
    requires Inv(s) && Tally(s) && At(s, e, Loop) && e > 0 && !Notification(kind)
    requires t == s || t == s.(lock := Some(e))
    requires !place.AwaitLock? && !place.Exited? && !s.procs[e].parentTerminated
    ensures Wired(t) && Tally(Send(SetProcess(t, e, s.procs[e].(place := place)), kind, e, e - 1))
  {
    hide Inv, NamesOk, Routed, Send;
    Near(s, e);
    NamesKept(s, t);
    RoutedKept(s, t);
    ChangeAndSend(t, e, s.procs[e].(place := place), kind, e - 1);
    OneMessage(s, Send(SetProcess(t, e, s.procs[e].(place := place)), kind, e, e - 1), e,
               Delivery(Message(kind, e, e - 1), e - 1));
  }

  /** A reply to the child is none either. */
  lemma TallyReply(s: Chain, e: nat, kind: Kind)
    requires Inv(s) && Tally(s) && At(s, e, Loop) && s.procs[e].inbox != [] && e + 1 < |s.procs|
    requires !Notification(kind) && !s.procs[e + 1].place.Exited?
    ensures var p := s.procs[e];
            Tally(Send(SetProcess(s, e, p.(inbox := p.inbox[1..])), kind, e, e + 1))
  {
    hide Inv, NamesOk, Routed, Send;
    Near(s, e);
    var p := s.procs[e];
    ChangeAndSend(s, e, p.(inbox := p.inbox[1..]), kind, e + 1);
    var r := Send(SetProcess(s, e, p.(inbox := p.inbox[1..])), kind, e, e + 1);
    forall k, x | Notification(k) ensures Count(r.log, k, x) == Count(s.log, k, x) {
      CountAppend(s.log, Delivery(Message(kind, e, e + 1), e + 1), k, x);
    }
    NothingTold(s, r);
  }

  lemma TallyHandle(s: Chain, e: nat)
    requires Inv(s) && Tally(s) && At(s, e, Loop) && s.procs[e].inbox != []
    ensures Tally(OnSocketEvent(s, e))
  {
    hide Inv, NamesOk, Routed, Send, Tally;
    MailKinds(s, e);
    ChildLives(s, e);
    match s.procs[e].inbox[0].kind
    case ShutdownAdminRequest =>
      if Done(s, e) {
        TallyReply(s, e, ShutdownAdminReply);
      } else {
        TerminateFirst(s, e);
        TerminateParentKeeps(s, e);
        TallyTerminate(s, e);
        ChildLives(TerminateParent(s, e), e);
        TallyReply(TerminateParent(s, e), e, ShutdownAdminReply);
      }
    case GetListenSocketRequest => TallyReply(s, e, GetListenSocketReply);
    case GetStatsRequest => TallyReply(s, e, GetStatsReply);
    case _ => TallyQuiet(s, e);
  }

  lemma ChildLives(s: Chain, e: nat)
    requires Inv(s) && At(s, e, Loop) && s.procs[e].inbox != []
    ensures e + 1 < |s.procs|
    ensures s.procs[e].inbox[0].kind in {ShutdownAdminRequest, GetListenSocketRequest, GetStatsRequest} ==>
              !s.procs[e + 1].place.Exited?
  {
    hide NamesOk, Routed;
    Near(s, e);
  }

  lemma TallyQuiet(s: Chain, e: nat)
    requires Inv(s) && Tally(s) && At(s, e, Loop) && s.procs[e].inbox != []
    requires s.procs[e].inbox[0].kind in {DrainListenersRequest, TerminateRequest}
    ensures Tally(OnSocketEvent(s, e))
  {
    hide NamesOk, Routed, Local, Link;
    NothingTold(s, OnSocketEvent(s, e));
  }

  lemma TallyStart(s: Chain)
    requires Inv(s) && Tally(s)
    ensures Tally(StartProcess(s))
  {
    hide NamesOk, Routed, Local, Link;
    var r := StartProcess(s);
    forall x, kind | Notification(kind) ensures TallyOf(r, x, kind) {
      assert TallyOf(s, x, kind);
    }
  }

  lemma TallySigterm(s: Chain, e: nat)
    requires Inv(s) && Tally(s) && At(s, e, Loop) && s.procs[e].sigterm
    ensures Tally(CatchSigterm(s, e))
  {
    hide Inv, NamesOk, Routed, Send, Tally;
    StartedChild(s, e);
    TerminateParentResult(s, e);
    TallyTerminate(s, e);
    NothingTold(TerminateParent(s, e), CatchSigterm(s, e));
  }

  lemma StartedChild(s: Chain, e: nat)
    requires Inv(s) && At(s, e, Loop) && s.procs[e].sigterm
    ensures s.procs[e].started
  {
    assert Local(s, e) && Link(s.procs[e], s.procs[e + 1], e);
  }

  lemma TallyStep(s: Chain, step: Step)
    requires Inv(s) && Tally(s) && Enabled(s, step, false)
    ensures Tally(Apply(s, step, false))
  {
    hide Inv, Tally, Send, OnSocketEvent;
    match step
    case Start => TallyStart(s);
    case Acquire(e) => TallyAcquire(s, e);
    case Receive(e) => ReceivedIsRight(s, e);
    case Duplicate(e) =>
      if !Done(s, e) {
        TallyRequest(s, s, e, AwaitSocket, GetListenSocketRequest);
      }
    case FinishStart(e) => TallyFinish(s, e);
    case FlushStats(e) =>
      if !Done(s, e) && s.lock.None? {
        TallyRequest(s, s.(lock := Some(e)), e, AwaitStats, GetStatsRequest);
      }
    case Handle(e) => TallyHandle(s, e);
    case ParentTimer(e) => TallyTerminate(s, e);
    case Sigterm(e) => TallySigterm(s, e);
    case Leave(e) => NothingTold(s, Exit(s, e));
  }

  lemma ReceivedIsRight(s: Chain, e: nat)
    requires Inv(s) && Tally(s) && e < |s.procs| && Waiting(s.procs[e]) && s.procs[e].inbox != []
    ensures Tally(ReceiveTyped(s, e))
  {
    hide NamesOk, Routed, Tally;
    Near(s, e);
    NothingTold(s, ReceiveTyped(s, e));
  }

  /** Over every run each process but the first asks its parent exactly once to shut its admin down, as
      its first act; exactly once to drain, when it has started; and exactly once to terminate, when it
      sets its own flag. */
  lemma {:induction false} ToldExactlyOnce(states: seq<Chain>, steps: seq<Step>, i: nat)
    requires IsRun(states, steps, false) && i < |states|
    ensures Tally(states[i])
  {
    hide Inv, Tally, Enabled, Apply;
    if i > 0 {
      ToldExactlyOnce(states, steps, i - 1);
      InvRun(states, steps, i - 1);
      TallyStep(states[i - 1], steps[i - 1]);
    } else {
      assert Tally(INITIAL) by { NothingSaid(); }
    }
  }

  lemma NothingSaid()
    ensures Tally(INITIAL)
  {
  }

  // ---------- how the chain wedges ----------

  /** The INITIALIZING flag outlives start-up in one way only: a start that finds the flag clear and the
      name of its socket taken. In particular a process that finishes its start-up clears the flag. */
  lemma WedgedOnlyByFailedBind(s: Chain, step: Step)
    requires Inv(s) && Enabled(s, step, false) && !Wedged(s) && Wedged(Apply(s, step, false))
    ensures step == Start && !s.initializing && |s.procs| >= 3 && Alive(s, |s.procs| - 3)
  {
    hide NamesOk, Routed, Link, Local, OnSocketEvent;
    ghost var r := Apply(s, step, false);
    assert forall x :: 0 <= x < |r.procs| ==> r.procs[x].started;
    match step
    case Start => StartOutcome(s);
    case Handle(e) =>
      HandleGrows(s, e, e);
      forall x | 0 <= x < |s.procs| ensures OnSocketEvent(s, e).procs[x].started == s.procs[x].started {
        HandleGrows(s, e, x);
      }
    case FinishStart(e) =>
    case _ =>
      if |s.procs| > 0 {
        StartedBefore(s, step, 0);
      }
      forall x | 0 <= x < |s.procs| ensures s.procs[x].started {
        StartedBefore(s, step, x);
      }
  }

  lemma StartedBefore(s: Chain, step: Step, x: nat)
    requires Enabled(s, step, false) && !step.Start? && !step.FinishStart? && !step.Handle? && x < |s.procs|
    ensures var r := Apply(s, step, false);
            && |r.procs| == |s.procs| && r.initializing == s.initializing
            && r.procs[x].started == s.procs[x].started
  {
    hide Apply, Enabled;
    StepSendsUp(s, step, x);
  }
}
