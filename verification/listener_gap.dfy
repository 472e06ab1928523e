/** Replacing a listener leaves no gap: once a worker accepts connections on the current version of
    a name, it accepts on some version of that name in every later state until the name is removed,
    because the new version is queued before the stop of the old one. */
module ListenerGap {
  import opened Common
  import opened ListenerModel
  import opened ListenerSafety
  import opened ListenerSteps
  import opened ListenerWarm
  import opened ListenerQueues
  import opened ListenerInvariant

  ghost predicate Accepts(h: seq<Entry>, name: string) {
    exists e :: e in h && e.accepting && e.l.name == name
  }

  ghost predicate AcceptsVersion(h: seq<Entry>, tag: nat, name: string) {
    exists e :: e in h && e.accepting && e.l.tag == tag && e.l.name == name
  }

  /** The handler after the whole queue has run, if every add succeeds. */
  function RunQueue(h: seq<Entry>, q: seq<Task>): seq<Entry>
    decreases |q|
  {
    if q == [] then h else RunQueue(RunTask(h, q[0], true), q[1..])
  }

  /** The handler accepts on the name now and after each task of the queue. */
  ghost predicate Covered(h: seq<Entry>, q: seq<Task>, name: string)
    decreases |q|
  {
    Accepts(h, name) && (q == [] || Covered(RunTask(h, q[0], true), q[1..], name))
  }

  /** Covered now, and the version the queue leads to is the given one. */
  ghost predicate Secure(h: seq<Entry>, q: seq<Task>, tag: nat, name: string) {
    Covered(h, q, name) && AcceptsVersion(RunQueue(h, q), tag, name)
  }

  predicate Harmless(t: Task, tag: nat) {
    t != StopAllTask && t != StopTask(tag) && t != RemoveTask(tag)
  }

  lemma HarmlessKeeps(h: seq<Entry>, t: Task, tag: nat, name: string)
    requires AcceptsVersion(h, tag, name) && Harmless(t, tag)
    ensures AcceptsVersion(RunTask(h, t, true), tag, name)
  {
    var e :| e in h && e.accepting && e.l.tag == tag && e.l.name == name;
    var i :| 0 <= i < |h| && h[i] == e;
    var h' := RunTask(h, t, true);
    match t
    case AddTask(l) => assert h'[i] == e;
    case StopTask(g) => assert h'[i] == e;
    case RemoveTask(g) => assert e in h';
  }

  lemma {:induction false} RunQueueAppend(h: seq<Entry>, q: seq<Task>, t: Task)
    ensures RunQueue(h, q + [t]) == RunTask(RunQueue(h, q), t, true)
    decreases |q|
  {
    if q == [] {
      assert [] + [t] == [t] && [t][1..] == [];
    } else {
      assert (q + [t])[1..] == q[1..] + [t];
      RunQueueAppend(RunTask(h, q[0], true), q[1..], t);
    }
  }

  lemma {:induction false} CoveredAppend(h: seq<Entry>, q: seq<Task>, t: Task, name: string)
    requires Covered(h, q, name) && Accepts(RunTask(RunQueue(h, q), t, true), name)
    ensures Covered(h, q + [t], name)
    decreases |q|
  {
    if q == [] {
      assert [] + [t] == [t] && [t][1..] == [];
      assert Covered(RunTask(h, t, true), [], name);
    } else {
      assert (q + [t])[1..] == q[1..] + [t];
      CoveredAppend(RunTask(h, q[0], true), q[1..], t, name);
    }
  }

  /** Queueing a task that does not touch the current version keeps it secure. */
  lemma SecureAppend(h: seq<Entry>, q: seq<Task>, t: Task, tag: nat, name: string)
    requires Secure(h, q, tag, name) && Harmless(t, tag)
    ensures Secure(h, q + [t], tag, name)
  {
    HarmlessKeeps(RunQueue(h, q), t, tag, name);
    RunQueueAppend(h, q, t);
    CoveredAppend(h, q, t, name);
  }

  /** Queueing the add of a newer version makes that version the secure one. */
  lemma SecureTakeOver(h: seq<Entry>, q: seq<Task>, l: Listener, tag: nat)
    requires Secure(h, q, tag, l.name)
    ensures Secure(h, q + [AddTask(l)], l.tag, l.name)
  {
    SecureAppend(h, q, AddTask(l), tag, l.name);
    RunQueueAppend(h, q, AddTask(l));
    assert Entry(l, true) in RunTask(RunQueue(h, q), AddTask(l), true);
  }

  /** Running the head of the queue keeps the rest secure. */
  lemma SecureAdvance(h: seq<Entry>, q: seq<Task>, tag: nat, name: string)
    requires Secure(h, q, tag, name) && q != []
    ensures Secure(RunTask(h, q[0], true), q[1..], tag, name)
  {
  }

  lemma {:induction false} SecureStart(h: seq<Entry>, q: seq<Task>, tag: nat, name: string)
    requires AcceptsVersion(h, tag, name)
    requires forall t :: t in q ==> Harmless(t, tag)
    ensures Secure(h, q, tag, name)
    decreases |q|
  {
    if q != [] {
      HarmlessKeeps(h, q[0], tag, name);
      SecureStart(RunTask(h, q[0], true), q[1..], tag, name);
    }
  }

  // ---------- the gap invariant over the system ----------

  /** The current active version of the name is secure on worker `w`. */
  ghost predicate NoGap(s: System, w: nat, name: string) {
    s.started && w < |s.workers| && VersionOf(s, name).Some?
    && Secure(s.workers[w].handler, s.workers[w].queue, VersionOf(s, name).value.tag, name)
  }

  /** The steps under which no gap may appear: the name is not removed, no add fails, and the server
      is not told to stop all its listeners. */
  ghost predicate Steady(s: System, step: Step, name: string) {
    match step
    case RemoveStep(n) => n != name
    case StopAllStep => false
    case WorkerStep(_, ok) => ok
    case MainStep =>
      s.completions != [] && s.completions[0].AddDone? && !s.completions[0].success ==>
        s.completions[0].l.name != name
    case _ => true
  }

  lemma DrainSecure(s: System, o: Listener, w: nat, tag: nat, name: string)
    requires s.drainTime >= 1 && w < |s.workers| && o.tag != tag
    requires Secure(s.workers[w].handler, s.workers[w].queue, tag, name)
    ensures var r := Drain(s, o);
            |r.workers| == |s.workers|
            && Secure(r.workers[w].handler, r.workers[w].queue, tag, name)
  {
    var h := s.workers[w].handler;
    var q := s.workers[w].queue;
    SecureAppend(h, q, StopTask(o.tag), tag, name);
    SecureAppend(h, q + [StopTask(o.tag)], RemoveTask(o.tag), tag, name);
  }

  /** Replacing a version by another of the same name changes what that name finds and no other. */
  lemma VersionUpdate(active: seq<Listener>, i: nat, l: Listener, name: string)
    requires i < |active| && i == FindName(active, l.name) && FindName(active, name) < |active|
    ensures var u := active[i := l]; var k := FindName(u, name);
            k < |u| && u[k] == if name == l.name then l else active[FindName(active, name)]
  {
    var u := active[i := l];
    assert forall n :: 0 <= n < |active| ==> u[n].name == active[n].name;
    var k := FindName(active, name);
    assert u[k].name == name;
    var k' := FindName(u, name);
    assert k' <= k && active[k'].name == name;
  }

  lemma VersionErase(active: seq<Listener>, i: nat, name: string)
    requires i < |active| && active[i].name != name && FindName(active, name) < |active|
    ensures var e := Erase(active, i); var k := FindName(e, name);
            k < |e| && e[k] == active[FindName(active, name)]
  {
    var e := Erase(active, i);
    var k := FindName(active, name);
    var n := if k < i then k else k - 1;
    assert e[n] == active[k];
    var k' := FindName(e, name);
    assert k' <= n;
    assert e[k'] == active[if k' < i then k' else k' + 1];
  }

  lemma VersionAppend(active: seq<Listener>, l: Listener, name: string)
    requires FindName(active, name) < |active|
    ensures var a := active + [l]; var k := FindName(a, name);
            k < |a| && a[k] == active[FindName(active, name)]
  {
    var a := active + [l];
    var k := FindName(active, name);
    assert a[k] == active[k];
    var k' := FindName(a, name);
    assert a[k'] == active[k'];
  }

  lemma WarmedNoGap(s: System, j: nat, w: nat, name: string)
    requires Core(s) && j < |s.warming| && NoGap(s, w, name)
    ensures FindName(WarmingListeners(s.warming), s.warming[j].l.name) == j
    ensures NoGap(Warmed(s, s.warming[j].l), w, name)
  {
    WarmedIsFoundByName(s, j);
    var l := s.warming[j].l;
    var tag := VersionOf(s, name).value.tag;
    WarmedFields(s, l, j);
    DifferentVersion(s, j);
    var i := FindName(s.active, l.name);
    if i < |s.active| {
      VersionUpdate(s.active, i, l, name);
    } else {
      VersionAppend(s.active, l, name);
    }
    var h, q := s.workers[w].handler, s.workers[w].queue;
    var tag' := if l.name == name then l.tag else tag;
    if l.name == name {
      SecureTakeOver(h, q, l, tag);
    } else {
      SecureAppend(h, q, AddTask(l), tag, name);
    }
    if i < |s.active| {
      assert s.active[i].tag in Tags(s.active);
      OtherTag(s.active, i, FindName(s.active, name));
      DrainSecure(s.(workers := PostAll(s.workers, AddTask(l))), s.active[i], w, tag', name);
    }
  }

  lemma OtherTag(ls: seq<Listener>, i: nat, k: nat)
    requires DistinctTags(ls) && i < |ls| && k < |ls|
    ensures i != k ==> ls[i].tag != ls[k].tag
  {
    var a, b := if i < k then i else k, if i < k then k else i;
    assert a < b ==> ls[a].tag != ls[b].tag;
  }

  lemma RemoveNoGap(s: System, n: string, w: nat, name: string)
    requires s.drainTime >= 1 && DistinctTags(s.active) && n != name && NoGap(s, w, name)
    ensures NoGap(RemoveListener(s, n).0, w, name)
  {
    hide Drain, Secure, Erase, DistinctTags;
    RemoveFields(s, n);
    var i := FindName(s.active, n);
    var j := FindName(WarmingListeners(s.warming), n);
    if i < |s.active| {
      VersionErase(s.active, i, name);
      OtherTag(s.active, i, FindName(s.active, name));
      DrainSecure(if j < |s.warming| then s.(warming := Erase(s.warming, j)) else s, s.active[i], w,
                  VersionOf(s, name).value.tag, name);
    }
  }

  lemma TargetNoGap(s: System, tag: nat, target: nat, w: nat, name: string)
    requires Core(s) && NoGap(s, w, name)
    ensures NoGap(TargetDone(s, tag, target), w, name)
  {
    hide Core, Warmed, Secure;
    var j := WarmingTagIndex(s.warming, tag);
    if j < |s.warming| {
      WarmedNoGap(s, j, w, name);
    }
  }

  lemma InitializeNoGap(s: System, tag: nat, inline: set<nat>, w: nat, name: string)
    requires Core(s) && NoGap(s, w, name)
    ensures NoGap(Initialize(s, tag, inline), w, name)
  {
    hide Core, Warmed, Secure;
    var j := WarmingTagIndex(s.warming, tag);
    if j < |s.warming| {
      WarmedNoGap(s, j, w, name);
    }
  }

  lemma PlacedNoGap(s: System, c: Config, e: Env, l: Listener, w: nat, name: string)
    requires NoGap(s, w, name)
    ensures NoGap(Placed(s, c, e, l), w, name)
  {
    hide Secure;
  }

  lemma AddNoGap(s: System, c: Config, e: Env, w: nat, name: string)
    requires Core(s) && NoGap(s, w, name)
    ensures NoGap(AddOrUpdate(s, c, e).0, w, name)
  {
    hide Core, AddOrUpdate, NewVersion, Initialize, Placed, Secure;
    AddOrUpdateSplit(s, c, e);
    match NewVersion(s, c, e) {
      case None =>
      case Some(l) =>
        PlacedCore(s, c, e, l);
        PlacedNoGap(s, c, e, l, w, name);
        InitializeNoGap(Placed(s, c, e, l), l.tag, e.inline, w, name);
    }
  }

  lemma TickNoGap(s: System, k: nat, w: nat, name: string)
    requires Core(s) && k < |s.draining| && NoGap(s, w, name)
    ensures NoGap(Tick(s, k), w, name)
  {
    var tag := VersionOf(s, name).value.tag;
    assert s.draining[k].l.tag in DrainingTags(s.draining);
    assert tag in Tags(s.active);
    SecureAppend(s.workers[w].handler, s.workers[w].queue, RemoveTask(s.draining[k].l.tag), tag, name);
  }

  lemma WorkerNoGap(s: System, v: nat, w: nat, name: string)
    requires v < |s.workers| && s.workers[v].queue != [] && NoGap(s, w, name)
    ensures NoGap(WorkerRun(s, v, true), w, name)
  {
    SecureAdvanceIf(s, v, w, VersionOf(s, name).value.tag, name);
  }

  lemma SecureAdvanceIf(s: System, v: nat, w: nat, tag: nat, name: string)
    requires v < |s.workers| && s.workers[v].queue != [] && w < |s.workers|
    requires Secure(s.workers[w].handler, s.workers[w].queue, tag, name)
    ensures var r := WorkerRun(s, v, true); Secure(r.workers[w].handler, r.workers[w].queue, tag, name)
  {
    if v == w {
      SecureAdvance(s.workers[w].handler, s.workers[w].queue, tag, name);
    }
  }

  lemma MainNoGap(s: System, w: nat, name: string)
    requires Core(s) && s.completions != [] && NoGap(s, w, name) && Steady(s, MainStep, name)
    ensures NoGap(MainRun(s), w, name)
  {
    hide Core, Secure, RemoveListener, Ownership, Naming, DistinctTags;
    CoreFacts(s);
    match s.completions[0]
    case AddDone(_, l, success) =>
      if !success && l.tag !in s.failed {
        RemoveNoGap(FailureNoted(s.(completions := s.completions[1..]), l), l.name, w, name);
      }
    case RemoveDone(_, g) =>
  }

  lemma NoGapStep(s: System, step: Step, w: nat, name: string)
    requires Inv(s) && Enabled(s, step) && Steady(s, step, name) && NoGap(s, w, name)
    ensures NoGap(Apply(s, step), w, name)
  {
    hide Core, AddOrUpdate, RemoveListener, MainRun, TargetDone, Tick, NoGap, Ownership, Naming, DistinctTags;
    CoreFacts(s);
    match step
    case AddOrUpdateStep(c, e) => AddNoGap(s, c, e, w, name);
    case RemoveStep(n) => RemoveNoGap(s, n, w, name);
    case StartStep => NoGapStarted(s, w, name);
    case TargetStep(tag, target) => TargetNoGap(s, tag, target, w, name);
    case TickStep(k) => TickNoGap(s, k, w, name);
    case WorkerStep(v, ok) => WorkerNoGap(s, v, w, name);
    case MainStep => MainNoGap(s, w, name);
  }

  lemma NoGapStarted(s: System, w: nat, name: string)
    requires NoGap(s, w, name)
    ensures s.started
  {
  }

  /** A worker that accepts on the active version, with no server-wide stop queued, has no gap ahead. */
  lemma NoGapStart(s: System, w: nat, name: string)
    requires Inv(s) && w < |s.workers| && VersionOf(s, name).Some?
    requires AcceptsVersion(s.workers[w].handler, VersionOf(s, name).value.tag, name)
    requires StopAllTask !in s.workers[w].queue
    ensures NoGap(s, w, name)
  {
    var tag := VersionOf(s, name).value.tag;
    var h, q := s.workers[w].handler, s.workers[w].queue;
    var e :| e in h && e.accepting && e.l.tag == tag && e.l.name == name;
    assert tag in HandlerTags(h);
    assert InOrder(s, w, tag);
    assert VersionOf(s, name).value in s.active;
    assert Queued(q, tag) == [];
    forall t | t in q ensures Harmless(t, tag) {
      if TaskMarks(t, tag) != [] {
        QueuedMember(q, t, tag);
      }
    }
    SecureStart(h, q, tag, name);
  }

  /** Let worker `w` accept connections on the active version of `name` in state `from` of a run,
      with no server-wide stop queued there. If every step between `from` and `to` is steady for the
      name, the worker accepts on some version of the name in state `to`. */
  lemma {:induction false} ReplacementLeavesNoGap(
      states: seq<System>, steps: seq<Step>, from: nat, to: nat, w: nat, name: string)
    requires IsRun(states, steps) && Init(states[0]) && from <= to < |states|
    requires w < |states[from].workers| && VersionOf(states[from], name).Some?
    requires AcceptsVersion(states[from].workers[w].handler, VersionOf(states[from], name).value.tag, name)
    requires StopAllTask !in states[from].workers[w].queue
    requires forall i :: from <= i < to ==> Steady(states[i], steps[i], name)
    ensures NoGap(states[to], w, name)
    ensures Accepts(states[to].workers[w].handler, name)
  {
    hide Inv, Apply, Enabled, VersionOf, AcceptsVersion, Steady;
    if from == to {
      InvRun(states, steps, from);
      NoGapStart(states[from], w, name);
    } else {
      ReplacementLeavesNoGap(states, steps, from, to - 1, w, name);
      InvRun(states, steps, to - 1);
      NoGapStep(states[to - 1], steps[to - 1], w, name);
    }
  }
}
