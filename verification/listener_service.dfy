/** What the workers do for the listeners that the main thread holds: every active listener is, or is about
    to be, served by every worker, and a draining one accepts nothing once a worker has stopped it. */
module ListenerService {
  import opened Common
  import opened ListenerModel
  import opened ListenerSafety
  import opened ListenerSteps
  import opened ListenerWarm
  import opened ListenerQueues
  import opened ListenerInvariant

  // ---------- single operations ----------

  lemma StartedWorker(s: System, w: nat)
    requires w < |s.workers|
    ensures var r := StartWorkers(s);
            && r == s.(started := true, workers := r.workers) && |r.workers| == |s.workers|
            && r.workers[w] == Worker(s.workers[w].queue + PostActive(s.active), s.workers[w].handler)
  {
    hide PostActive;
  }

  /** Starting the workers: each queue grows by one add for each active listener, in order. */
  lemma StartQueuesActive(s: System, w: nat)
    requires w < |s.workers|
    ensures var r := StartWorkers(s);
            && r.started && r == s.(started := true, workers := r.workers) && |r.workers| == |s.workers|
            && r.workers[w].handler == s.workers[w].handler
            && |r.workers[w].queue| == |s.workers[w].queue| + |s.active|
            && s.workers[w].queue <= r.workers[w].queue
            && forall i :: 0 <= i < |s.active| ==>
                 r.workers[w].queue[|s.workers[w].queue| + i] == AddTask(s.active[i])
  {
    hide StartWorkers, PostActive;
    StartedWorker(s, w);
    Appended(s.workers[w].queue, PostActive(s.active));
  }

  lemma Appended(q: seq<Task>, adds: seq<Task>)
    ensures |q + adds| == |q| + |adds| && q <= q + adds
    ensures forall i {:trigger adds[i]} :: 0 <= i < |adds| ==> (q + adds)[|q| + i] == adds[i]
  {
  }

  /** A server-wide stop gives every worker one more task, after which none of its entries accepts. */
  lemma StopAllReachesWorkers(s: System, w: nat)
    requires w < |s.workers|
    ensures var r := StopListeners(s);
            && r == s.(workers := r.workers) && |r.workers| == |s.workers|
            && r.workers[w].handler == s.workers[w].handler
            && |r.workers[w].queue| == |s.workers[w].queue| + 1 && s.workers[w].queue <= r.workers[w].queue
            && forall h, ok, e :: e in RunTask(h, r.workers[w].queue[|s.workers[w].queue|], ok) ==> !e.accepting
  {
    assert StopListeners(s).workers[w].queue[|s.workers[w].queue|] == StopAllTask;
  }

  // ---------- marks and tasks ----------

  lemma {:induction false} TaskIsMarked(q: seq<Task>, t: Task, tag: nat, m: Mark)
    requires t in q && TaskMarks(t, tag) == [m]
    ensures m in Queued(q, tag)
  {
    var a, b := TaskMarks(q[0], tag), Queued(q[1..], tag);
    if q[0] == t {
      assert (a + b)[0] == m;
    } else {
      TaskIsMarked(q[1..], t, tag, m);
      var i :| 0 <= i < |b| && b[i] == m;
      assert (a + b)[|a| + i] == m;
    }
  }

  lemma {:induction false} MarkIsTask(q: seq<Task>, tag: nat)
    requires Stop in Queued(q, tag)
    ensures StopTask(tag) in q
  {
    var a, b := TaskMarks(q[0], tag), Queued(q[1..], tag);
    var i :| 0 <= i < |a + b| && (a + b)[i] == Stop;
    if i < |a| {
      assert a[i] == Stop;
      assert q[0] == StopTask(tag);
    } else {
      assert b[i - |a|] == Stop;
      MarkIsTask(q[1..], tag);
    }
  }

  /** No stop and no removal of an active listener is queued. */
  lemma ActiveIsLeftAlone(s: System, w: nat, l: Listener, t: Task)
    requires Core(s) && w < |s.workers| && l in s.active && t in s.workers[w].queue
    ensures t != StopTask(l.tag) && t != RemoveTask(l.tag)
  {
    assert InOrder(s, w, l.tag);
    assert l.tag in Tags(s.active);
    var q := s.workers[w].queue;
    if t == StopTask(l.tag) {
      TaskIsMarked(q, t, l.tag, Stop);
    } else if t == RemoveTask(l.tag) {
      TaskIsMarked(q, t, l.tag, Remove);
    }
  }

  lemma PipelineStopsAdded(p: Phase, rest: seq<Mark>, m: seq<Mark>, h: bool)
    requires p.IsDraining? && Pipeline(p, [Add] + rest, m, h)
    ensures Stop in rest
  {
    var q := [Add] + rest;
    assert q[0] == Add;
    assert q[1..] == rest;
    assert [Add, Stop][1..] == [Stop] && [Add, Stop, Remove][1..] == [Stop, Remove];
    assert [Stop][0] == Stop && [Stop, Remove][0] == Stop;
  }

  /** Behind the add of a draining listener its stop is queued. */
  lemma StopFollowsAdd(s: System, w: nat, l: Listener)
    requires Core(s) && w < |s.workers| && l.tag in DrainingTags(s.draining)
    requires s.workers[w].queue != [] && s.workers[w].queue[0] == AddTask(l)
    ensures StopTask(l.tag) in s.workers[w].queue[1..]
  {
    var q := s.workers[w].queue;
    var rest := Queued(q[1..], l.tag);
    assert InOrder(s, w, l.tag);
    FindTagMember(s.draining, l.tag);
    Apart(s, l.tag);
    assert PhaseOf(s, l.tag).IsDraining?;
    hide Core, FindTag, DrainingTags, Tags, PhaseOf;
    assert Queued(q, l.tag) == [Add] + rest;
    PipelineStopsAdded(PhaseOf(s, l.tag), rest, Posted(s.completions, w, l.tag),
                       l.tag in HandlerTags(s.workers[w].handler));
    MarkIsTask(q[1..], l.tag);
  }

  // ---------- what main-thread operations do to the workers ----------

  /** The queues grow at the end, the handlers stay, and no server-wide stop is queued. */
  ghost predicate Extended(s: System, r: System) {
    && |r.workers| == |s.workers| && r.started == s.started
    && forall w :: 0 <= w < |s.workers| ==>
         && r.workers[w].handler == s.workers[w].handler
         && (forall t :: t in s.workers[w].queue ==> t in r.workers[w].queue)
         && (StopAllTask in r.workers[w].queue ==> StopAllTask in s.workers[w].queue)
  }

  ghost predicate QueuedEverywhere(s: System, t: Task) {
    forall w :: 0 <= w < |s.workers| ==> t in s.workers[w].queue
  }

  /** A listener that becomes active is queued for adding on every worker, and one that starts to drain
      for stopping. */
  ghost predicate Announced(s: System, r: System) {
    && Extended(s, r)
    && (s.started ==> forall l :: l in r.active && l !in s.active ==> QueuedEverywhere(r, AddTask(l)))
    && forall g :: g in DrainingTags(r.draining) && g !in DrainingTags(s.draining) ==>
         QueuedEverywhere(r, StopTask(g))
  }

  lemma PostExtends(ws: seq<Worker>, t: Task, w: nat)
    requires w < |ws|
    ensures t in PostAll(ws, t)[w].queue && PostAll(ws, t)[w].handler == ws[w].handler
    ensures forall u :: u in ws[w].queue ==> u in PostAll(ws, t)[w].queue
    ensures forall u :: u in PostAll(ws, t)[w].queue ==> u in ws[w].queue || u == t
  {
    assert PostAll(ws, t)[w].queue[|ws[w].queue|] == t;
  }

  /** Draining reaches every worker. */
  lemma DrainExtends(s: System, l: Listener)
    requires s.drainTime >= 1
    ensures Extended(s, Drain(s, l)) && QueuedEverywhere(Drain(s, l), StopTask(l.tag))
  {
    var r := Drain(s, l);
    var ws := PostAll(s.workers, StopTask(l.tag));
    forall w | 0 <= w < |s.workers|
      ensures r.workers[w].handler == s.workers[w].handler && StopTask(l.tag) in r.workers[w].queue
      ensures forall t :: t in s.workers[w].queue ==> t in r.workers[w].queue
      ensures StopAllTask in r.workers[w].queue ==> StopAllTask in s.workers[w].queue
    {
      PostExtends(s.workers, StopTask(l.tag), w);
      PostExtends(ws, RemoveTask(l.tag), w);
    }
  }

  lemma ExtendsOn(s: System, t: System, r: System)
    requires Extended(s, t) && Extended(t, r)
    ensures Extended(s, r)
    ensures forall u :: QueuedEverywhere(t, u) ==> QueuedEverywhere(r, u)
  {
  }

  lemma WarmedExtends(s: System, l: Listener)
    requires s.drainTime >= 1 && FindName(WarmingListeners(s.warming), l.name) < |s.warming|
    ensures Extended(s, Warmed(s, l)) && QueuedEverywhere(Warmed(s, l), AddTask(l))
    ensures VersionOf(s, l.name).Some? ==> QueuedEverywhere(Warmed(s, l), StopTask(VersionOf(s, l.name).value.tag))
  {
    var s1 := s.(workers := PostAll(s.workers, AddTask(l)));
    forall w | 0 <= w < |s.workers|
      ensures s1.workers[w].handler == s.workers[w].handler && AddTask(l) in s1.workers[w].queue
      ensures forall t :: t in s.workers[w].queue ==> t in s1.workers[w].queue
      ensures StopAllTask in s1.workers[w].queue ==> StopAllTask in s.workers[w].queue
    {
      PostExtends(s.workers, AddTask(l), w);
    }
    assert Extended(s, s1) && QueuedEverywhere(s1, AddTask(l));
    var i := FindName(s.active, l.name);
    if i < |s.active| {
      var s2 := Drain(s1, s.active[i]);
      DrainExtends(s1, s.active[i]);
      ExtendsOn(s, s1, s2);
      assert Warmed(s, l).workers == s2.workers;
      assert Warmed(s, l).started == s2.started by {
        DrainShape(s1, s.active[i]);
      }
    } else {
      assert Warmed(s, l).workers == s1.workers;
    }
  }

  /** What promoting a warming listener makes active, and what it makes draining. */
  lemma WarmedNews(s: System, j: nat)
    requires s.drainTime >= 1 && Ownership(s) && Naming(s) && j < |s.warming|
    ensures FindName(WarmingListeners(s.warming), s.warming[j].l.name) == j
    ensures var l := s.warming[j].l; var r := Warmed(s, l); var out := VersionOf(s, l.name);
            && (forall x :: x in r.active ==> x in s.active || x == l)
            && (forall g :: g in DrainingTags(r.draining) ==>
                  g in DrainingTags(s.draining) || (out.Some? && g == out.value.tag))
  {
    hide Ownership, Naming, Warmed, DrainingTags, Erase;
    WarmedIsFoundByName(s, j);
    var l := s.warming[j].l;
    WarmedFields(s, l, j);
    var i := FindName(s.active, l.name);
    if i < |s.active| {
      UpdateMembers(s.active, i, l);
      DrainingTagsCons(Draining(s.active[i], |s.workers|, 1), s.draining);
    }
  }

  lemma WarmedAnnounces(s: System, j: nat)
    requires s.drainTime >= 1 && Ownership(s) && Naming(s) && j < |s.warming|
    ensures FindName(WarmingListeners(s.warming), s.warming[j].l.name) == j
    ensures Announced(s, Warmed(s, s.warming[j].l))
  {
    hide Ownership, Naming, Warmed, Extended, QueuedEverywhere, DrainingTags, VersionOf, FindName;
    WarmedNews(s, j);
    WarmedExtends(s, s.warming[j].l);
  }

  lemma RemoveNews(s: System, name: string)
    requires s.drainTime >= 1
    ensures var r := RemoveListener(s, name).0; var out := VersionOf(s, name);
            && (forall x :: x in r.active ==> x in s.active)
            && (forall g :: g in DrainingTags(r.draining) ==>
                  g in DrainingTags(s.draining) || (out.Some? && g == out.value.tag))
  {
    hide RemoveListener, DrainingTags, Erase;
    RemoveFields(s, name);
    var i := FindName(s.active, name);
    if i < |s.active| {
      EraseMembers(s.active, i);
      DrainingTagsCons(Draining(s.active[i], |s.workers|, 1), s.draining);
    }
  }

  lemma RemoveExtends(s: System, name: string)
    requires s.drainTime >= 1
    ensures Extended(s, RemoveListener(s, name).0)
    ensures VersionOf(s, name).Some? ==>
              QueuedEverywhere(RemoveListener(s, name).0, StopTask(VersionOf(s, name).value.tag))
  {
    var i := FindName(s.active, name);
    var j := FindName(WarmingListeners(s.warming), name);
    var s1 := if j < |s.warming| then s.(warming := Erase(s.warming, j)) else s;
    if i < |s.active| {
      DrainExtends(s1, s.active[i]);
      DrainShape(s1, s.active[i]);
      assert RemoveListener(s, name).0.workers == Drain(s1, s.active[i]).workers;
      assert RemoveListener(s, name).0.started == s.started;
    }
  }

  lemma RemoveAnnounces(s: System, name: string)
    requires s.drainTime >= 1
    ensures Announced(s, RemoveListener(s, name).0)
  {
    hide RemoveListener, Extended, QueuedEverywhere, DrainingTags, VersionOf;
    RemoveNews(s, name);
    RemoveExtends(s, name);
  }

  lemma TargetAnnounces(s: System, tag: nat, target: nat)
    requires Core(s)
    ensures Announced(s, TargetDone(s, tag, target))
  {
    hide Core, Ownership, Naming, DistinctTags, Warmed;
    CoreFacts(s);
    var j := WarmingTagIndex(s.warming, tag);
    if j < |s.warming| {
      WarmedAnnounces(s, j);
    }
  }

  lemma InitializeAnnounces(s: System, tag: nat, inline: set<nat>)
    requires Core(s)
    ensures Announced(s, Initialize(s, tag, inline))
  {
    hide Core, Ownership, Naming, DistinctTags, Warmed;
    CoreFacts(s);
    var j := WarmingTagIndex(s.warming, tag);
    if j < |s.warming| {
      WarmedAnnounces(s, j);
    }
  }

  /** Placing a version leaves the workers alone, and the active list too once they run. */
  lemma PlacedFields(s: System, c: Config, e: Env, l: Listener)
    ensures var r := Placed(s, c, e, l);
            && r.workers == s.workers && r.draining == s.draining && r.started == s.started
            && r.completions == s.completions && r.failed == s.failed && (s.started ==> r.active == s.active)
            && r.stats.createSuccess == s.stats.createSuccess && r.stats.createFailure == s.stats.createFailure
  {
    hide FindName, IsNew;
  }

  lemma AddAnnounces(s: System, c: Config, e: Env)
    requires Core(s)
    ensures Announced(s, AddOrUpdate(s, c, e).0)
  {
    hide Core, AddOrUpdate, NewVersion, Initialize, Placed, DrainingTags;
    AddOrUpdateSplit(s, c, e);
    match NewVersion(s, c, e) {
      case None =>
      case Some(l) =>
        PlacedCore(s, c, e, l);
        PlacedFields(s, c, e, l);
        InitializeAnnounces(Placed(s, c, e, l), l.tag, e.inline);
    }
  }

  lemma TickAnnounces(s: System, k: nat)
    requires k < |s.draining|
    ensures Announced(s, Tick(s, k))
  {
    var d := s.draining[k];
    TickLists(s, k);
    FindTagUpdate(s.draining, k, d.(ticks := d.ticks + 1), 0);
    hide DrainingTags;
    forall w | 0 <= w < |s.workers|
      ensures Tick(s, k).workers[w].handler == s.workers[w].handler
      ensures forall t :: t in s.workers[w].queue ==> t in Tick(s, k).workers[w].queue
      ensures StopAllTask in Tick(s, k).workers[w].queue ==> StopAllTask in s.workers[w].queue
    {
      PostExtends(s.workers, RemoveTask(d.l.tag), w);
    }
  }

  // ---------- every active listener is served ----------

  /** Worker `w` has the add still queued, or an entry, or its add failed. Unless the server was told to stop
      all its listeners, the entry accepts. */
  ghost predicate Served(s: System, w: nat, l: Listener, stopped: bool)
    requires w < |s.workers|
  {
    || AddTask(l) in s.workers[w].queue
    || (exists e :: e in s.workers[w].handler && e.l == l && (stopped || e.accepting))
    || AddDone(w, l, false) in s.completions
    || l.tag in s.failed
  }

  ghost predicate AllServed(s: System, stopped: bool) {
    && (s.started ==> forall w, l :: 0 <= w < |s.workers| && l in s.active ==> Served(s, w, l, stopped))
    && (!stopped ==> forall w :: 0 <= w < |s.workers| ==> StopAllTask !in s.workers[w].queue)
  }

  lemma AnnouncedServes(s: System, r: System, stopped: bool)
    requires AllServed(s, stopped) && Announced(s, r)
    requires (forall c :: c in s.completions ==> c in r.completions) && s.failed <= r.failed
    ensures AllServed(r, stopped)
  {
    if r.started {
      forall w, l | 0 <= w < |r.workers| && l in r.active ensures Served(r, w, l, stopped) {
        if l in s.active {
          assert Served(s, w, l, stopped);
        }
      }
    }
  }

  /** Running a task keeps what a worker has for a listener that the task does not remove. */
  lemma EntryStays(h: seq<Entry>, t: Task, ok: bool, l: Listener, stopped: bool)
    requires exists e :: e in h && e.l == l && (stopped || e.accepting)
    requires t != StopTask(l.tag) && t != RemoveTask(l.tag) && (t == StopAllTask ==> stopped)
    ensures exists e :: e in RunTask(h, t, ok) && e.l == l && (stopped || e.accepting)
  {
    var e :| e in h && e.l == l && (stopped || e.accepting);
    var i :| 0 <= i < |h| && h[i] == e;
    var r := RunTask(h, t, ok);
    match t
    case AddTask(x) => assert r[i] == e;
    case StopTask(g) => assert r[i] == e;
    case RemoveTask(g) => assert e in r;
    case StopAllTask => assert r[i] in r && r[i].l == l;
  }

  lemma WorkerServes(s: System, v: nat, ok: bool, w: nat, l: Listener, stopped: bool)
    requires Core(s) && s.started && v < |s.workers| && s.workers[v].queue != [] && w < |s.workers|
    requires l in s.active && Served(s, w, l, stopped) && (!stopped ==> StopAllTask !in s.workers[w].queue)
    ensures Served(WorkerRun(s, v, ok), w, l, stopped)
  {
    var r := WorkerRun(s, v, ok);
    var q := s.workers[v].queue;
    var t := q[0];
    assert forall c :: c in s.completions ==> c in r.completions;
    if v == w {
      ActiveIsLeftAlone(s, w, l, t);
      hide Core;
      assert q == [t] + q[1..];
      if exists e :: e in s.workers[w].handler && e.l == l && (stopped || e.accepting) {
        EntryStays(s.workers[w].handler, t, ok, l, stopped);
      } else if t == AddTask(l) {
        if ok {
          var h := s.workers[w].handler;
          assert (h + [Entry(l, true)])[|h|] == Entry(l, true);
          assert Entry(l, true) in r.workers[w].handler;
        } else {
          assert r.completions[|s.completions|] == AddDone(w, l, false);
        }
      }
    }
  }

  lemma ServedElsewhere(s: System, r: System, w: nat, l: Listener, stopped: bool)
    requires w < |s.workers| == |r.workers| && r.workers == s.workers && Served(s, w, l, stopped)
    requires s.failed <= r.failed
    requires AddDone(w, l, false) in s.completions ==> AddDone(w, l, false) in r.completions || l.tag in r.failed
    ensures Served(r, w, l, stopped)
  {
  }

  lemma HeadTaken(s: System, c: Completion)
    requires s.completions != [] && c in s.completions && c != s.completions[0]
    ensures c in s.completions[1..]
  {
  }

  /** Main has taken a completion, and noted it if it is the first failure of its listener. */
  function Taken(s: System): System
    requires s.completions != []
  {
    var c := s.completions[0];
    var r := s.(completions := s.completions[1..]);
    if c.AddDone? && !c.success && c.l.tag !in s.failed then FailureNoted(r, c.l) else r
  }

  lemma TakenServes(s: System, stopped: bool)
    requires s.completions != [] && AllServed(s, stopped)
    ensures AllServed(Taken(s), stopped)
  {
    var c := s.completions[0];
    var t := Taken(s);
    if s.started {
      forall w, l | 0 <= w < |s.workers| && l in s.active ensures Served(t, w, l, stopped) {
        assert Served(s, w, l, stopped);
        if AddDone(w, l, false) in s.completions && c != AddDone(w, l, false) {
          HeadTaken(s, AddDone(w, l, false));
        }
        hide Served;
        ServedElsewhere(s, t, w, l, stopped);
      }
    }
  }

  /** What main does with the completion it has taken. */
  lemma TakenThen(s: System)
    requires s.completions != []
    ensures var c := s.completions[0]; var t := Taken(s); var r := MainRun(s);
            if c.AddDone? && !c.success && c.l.tag !in s.failed then r == RemoveListener(t, c.l.name).0
            else if c.AddDone? then r == t.(stats := r.stats)
            else r == t.(stats := r.stats, draining := r.draining)
  {
    hide RemoveListener, FindTag, Erase;
  }

  lemma SameServed(s: System, r: System, stopped: bool)
    requires AllServed(s, stopped) && r == s.(stats := r.stats, draining := r.draining)
    ensures AllServed(r, stopped)
  {
    if r.started {
      forall w, l | 0 <= w < |r.workers| && l in r.active ensures Served(r, w, l, stopped) {
        assert Served(s, w, l, stopped);
      }
    }
  }

  lemma MainServes(s: System, stopped: bool)
    requires s.drainTime >= 1 && s.completions != [] && AllServed(s, stopped)
    ensures AllServed(MainRun(s), stopped)
  {
    hide AllServed, MainRun, RemoveListener;
    var c, t := s.completions[0], Taken(s);
    TakenServes(s, stopped);
    TakenThen(s);
    if c.AddDone? && !c.success && c.l.tag !in s.failed {
      RemoveAnnounces(t, c.l.name);
      RemoveKeepsCompletions(t, c.l.name);
      AnnouncedServes(t, RemoveListener(t, c.l.name).0, stopped);
    } else {
      SameServed(t, MainRun(s), stopped);
    }
  }

  lemma RemoveKeepsCompletions(s: System, name: string)
    requires s.drainTime >= 1
    ensures var r := RemoveListener(s, name).0;
            && r.completions == s.completions && r.failed == s.failed
            && r.stats.createSuccess == s.stats.createSuccess && r.stats.createFailure == s.stats.createFailure
  {
    RemoveFields(s, name);
  }

  // ---------- over every run ----------

  /** The main queue, and what was noted of adds so far, are left alone. */
  ghost predicate SameReports(s: System, r: System) {
    && r.completions == s.completions && r.failed == s.failed
    && r.stats.createSuccess == s.stats.createSuccess && r.stats.createFailure == s.stats.createFailure
  }

  lemma WarmedReports(s: System, j: nat)
    requires s.drainTime >= 1 && Ownership(s) && Naming(s) && j < |s.warming|
    ensures FindName(WarmingListeners(s.warming), s.warming[j].l.name) == j
    ensures SameReports(s, Warmed(s, s.warming[j].l))
  {
    hide Ownership, Naming, Warmed;
    WarmedIsFoundByName(s, j);
    WarmedFields(s, s.warming[j].l, j);
  }

  lemma TargetReports(s: System, tag: nat, target: nat)
    requires s.drainTime >= 1 && Ownership(s) && Naming(s)
    ensures SameReports(s, TargetDone(s, tag, target))
  {
    hide Ownership, Naming, Warmed;
    var j := WarmingTagIndex(s.warming, tag);
    if j < |s.warming| {
      WarmedReports(s, j);
    }
  }

  lemma AddReports(s: System, c: Config, e: Env)
    requires Core(s)
    ensures SameReports(s, AddOrUpdate(s, c, e).0)
  {
    hide Core, Ownership, Naming, DistinctTags, AddOrUpdate, NewVersion, Placed, Warmed;
    AddOrUpdateSplit(s, c, e);
    match NewVersion(s, c, e) {
      case None =>
      case Some(l) =>
        PlacedCore(s, c, e, l);
        PlacedFields(s, c, e, l);
        var p := Placed(s, c, e, l);
        CoreFacts(p);
        var j := WarmingTagIndex(p.warming, l.tag);
        if j < |p.warming| {
          WarmedReports(p, j);
        }
    }
  }

  ghost predicate Configures(step: Step) {
    step.AddOrUpdateStep? || step.RemoveStep? || step.TargetStep? || step.TickStep?
  }

  /** Configuration, init targets and drain ticks announce what they change, and report nothing. */
  lemma ConfigurationAnnounces(s: System, step: Step)
    requires Core(s) && Enabled(s, step) && Configures(step)
    ensures Announced(s, Apply(s, step)) && SameReports(s, Apply(s, step))
  {
    hide Announced, Core, AddOrUpdate, RemoveListener, TargetDone, Ownership, Naming, DistinctTags;
    CoreFacts(s);
    match step
    case AddOrUpdateStep(c, e) =>
      AddAnnounces(s, c, e);
      AddReports(s, c, e);
    case RemoveStep(name) =>
      RemoveAnnounces(s, name);
      RemoveKeepsCompletions(s, name);
    case TargetStep(tag, target) =>
      TargetAnnounces(s, tag, target);
      TargetReports(s, tag, target);
    case TickStep(k) => TickAnnounces(s, k);
  }

  lemma StartServes(s: System, stopped: bool)
    requires !s.started && AllServed(s, stopped)
    ensures AllServed(StartWorkers(s), stopped)
  {
    var r := StartWorkers(s);
    forall w, l | 0 <= w < |r.workers| && l in r.active ensures Served(r, w, l, stopped) {
      StartQueuesActive(s, w);
      var i :| 0 <= i < |s.active| && s.active[i] == l;
      assert r.workers[w].queue[|s.workers[w].queue| + i] == AddTask(l);
    }
    forall w | 0 <= w < |r.workers| && StopAllTask in r.workers[w].queue ensures StopAllTask in s.workers[w].queue {
      StartQueuesActive(s, w);
    }
  }

  lemma StopAllServes(s: System, stopped: bool)
    requires AllServed(s, stopped)
    ensures AllServed(StopListeners(s), true)
  {
    var r := StopListeners(s);
    if r.started {
      forall w, l | 0 <= w < |r.workers| && l in r.active ensures Served(r, w, l, true) {
        assert Served(s, w, l, stopped);
        PostExtends(s.workers, StopAllTask, w);
      }
    }
  }

  lemma WorkersServe(s: System, v: nat, ok: bool, stopped: bool)
    requires Core(s) && s.started && v < |s.workers| && s.workers[v].queue != [] && AllServed(s, stopped)
    ensures AllServed(WorkerRun(s, v, ok), stopped)
  {
    hide Core, Served, RunTask, Reply;
    var r := WorkerRun(s, v, ok);
    forall w, l | 0 <= w < |r.workers| && l in r.active ensures Served(r, w, l, stopped) {
      assert Served(s, w, l, stopped);
      WorkerServes(s, v, ok, w, l, stopped);
    }
  }

  lemma ServedStep(s: System, step: Step, stopped: bool)
    requires Inv(s) && Enabled(s, step) && AllServed(s, stopped)
    ensures AllServed(Apply(s, step), stopped || step.StopAllStep?)
  {
    assert Core(s);
    hide Inv, Core, AllServed, Announced, Ownership, Naming, DistinctTags;
    CoreFacts(s);
    if Configures(step) {
      ConfigurationAnnounces(s, step);
      AnnouncedServes(s, Apply(s, step), stopped);
    } else {
      match step
      case StartStep => StartServes(s, stopped);
      case StopAllStep => StopAllServes(s, stopped);
      case WorkerStep(w, ok) => WorkersServe(s, w, ok, stopped);
      case MainStep => MainServes(s, stopped);
    }
  }

  /** The server was told to stop all its listeners before state `i`. */
  ghost predicate StoppedBefore(steps: seq<Step>, i: nat) {
    exists k :: 0 <= k < i && k < |steps| && steps[k].StopAllStep?
  }

  lemma InitServes(s: System)
    requires Init(s)
    ensures AllServed(s, false)
  {
  }

  lemma {:induction false} ServedRun(states: seq<System>, steps: seq<Step>, i: nat)
    requires IsRun(states, steps) && Init(states[0]) && i < |states|
    ensures AllServed(states[i], StoppedBefore(steps, i))
  {
    hide Inv, Enabled, Apply, AllServed;
    if i == 0 {
      InitServes(states[0]);
    } else {
      ServedRun(states, steps, i - 1);
      InvRun(states, steps, i - 1);
      ServedStep(states[i - 1], steps[i - 1], StoppedBefore(steps, i - 1));
    }
  }

  /** In every reachable state with running workers each worker has, for each active listener, the add
      still queued, or an entry, which accepts if the server was never told to stop all, or a failed add. */
  lemma ActiveIsServed(states: seq<System>, steps: seq<Step>, i: nat, w: nat, l: Listener)
    requires IsRun(states, steps) && Init(states[0]) && i < |states|
    requires states[i].started && w < |states[i].workers| && l in states[i].active
    ensures var s := states[i];
            || AddTask(l) in s.workers[w].queue
            || (exists e :: e in s.workers[w].handler && e.l == l && (StoppedBefore(steps, i) || e.accepting))
            || AddDone(w, l, false) in s.completions
            || l.tag in s.failed
  {
    ServedRun(states, steps, i);
    assert Served(states[i], w, l, StoppedBefore(steps, i));
  }

  // ---------- adds that succeeded and failed ----------

  /** How many successful adds main has handled before state `i`. */
  ghost function Successes(states: seq<System>, steps: seq<Step>, i: nat): nat
    requires IsRun(states, steps) && i < |states|
  {
    if i == 0 then 0
    else
      var s := states[i - 1];
      Successes(states, steps, i - 1)
      + if steps[i - 1].MainStep? && s.completions[0].AddDone? && s.completions[0].success then 1 else 0
  }

  lemma CreatesStep(s: System, step: Step)
    requires Inv(s) && Enabled(s, step)
    ensures step.MainStep? ==> s.completions != []
    ensures var r := Apply(s, step);
            && r.stats.createSuccess == s.stats.createSuccess
               + (if step.MainStep? && s.completions[0].AddDone? && s.completions[0].success then 1 else 0)
            && (s.stats.createFailure == |s.failed| ==> r.stats.createFailure == |r.failed|)
  {
    assert Core(s);
    hide Inv, Core, Announced, Ownership, Naming, DistinctTags, Apply, Enabled;
    CoreFacts(s);
    if Configures(step) {
      ConfigurationAnnounces(s, step);
    } else {
      OtherCreates(s, step);
    }
  }

  lemma OtherCreates(s: System, step: Step)
    requires s.drainTime >= 1 && Enabled(s, step) && !Configures(step)
    ensures var r := Apply(s, step);
            && r.stats.createSuccess == s.stats.createSuccess
               + (if step.MainStep? && s.completions[0].AddDone? && s.completions[0].success then 1 else 0)
            && (s.stats.createFailure == |s.failed| ==> r.stats.createFailure == |r.failed|)
  {
    hide MainRun, RunTask, Reply, PostAll, PostActive;
    match step
    case StartStep =>
    case StopAllStep =>
    case WorkerStep(_, _) =>
    case MainStep => MainCreates(s);
  }

  lemma MainCreates(s: System)
    requires s.drainTime >= 1 && s.completions != []
    ensures var r := MainRun(s);
            && r.stats.createSuccess == s.stats.createSuccess
               + (if s.completions[0].AddDone? && s.completions[0].success then 1 else 0)
            && (s.stats.createFailure == |s.failed| ==> r.stats.createFailure == |r.failed|)
  {
    hide RemoveListener, FindTag, Erase;
    var s1 := s.(completions := s.completions[1..]);
    match s.completions[0]
    case AddDone(_, l, success) =>
      if !success && l.tag !in s.failed {
        RemoveKeepsCompletions(FailureNoted(s1, l), l.name);
      }
    case RemoveDone(_, _) =>
  }

  /** Over any run the one counter is the number of successful adds that main has handled, and the other the
      number of listeners of which at least one add failed. */
  lemma {:induction false} CreatesAreCounted(states: seq<System>, steps: seq<Step>, i: nat)
    requires IsRun(states, steps) && Init(states[0]) && i < |states|
    ensures states[i].stats.createSuccess == Successes(states, steps, i)
    ensures states[i].stats.createFailure == |states[i].failed|
  {
    hide Inv, Enabled, Apply;
    if i > 0 {
      CreatesAreCounted(states, steps, i - 1);
      InvRun(states, steps, i - 1);
      CreatesStep(states[i - 1], steps[i - 1]);
    }
  }

  // ---------- a draining listener that a worker has stopped accepts nothing ----------

  ghost predicate RefusesAt(s: System, w: nat)
    requires w < |s.workers|
  {
    forall e :: e in s.workers[w].handler && e.accepting && e.l.tag in DrainingTags(s.draining) ==>
      StopTask(e.l.tag) in s.workers[w].queue
  }

  ghost predicate Refuses(s: System) {
    forall w :: 0 <= w < |s.workers| ==> RefusesAt(s, w)
  }

  lemma AnnouncedRefuses(s: System, r: System)
    requires Refuses(s) && Announced(s, r)
    ensures Refuses(r)
  {
    hide DrainingTags;
    forall w | 0 <= w < |r.workers| ensures RefusesAt(r, w) {
      assert RefusesAt(s, w);
    }
  }

  lemma WorkerRefuses(s: System, v: nat, ok: bool)
    requires Core(s) && s.started && v < |s.workers| && s.workers[v].queue != [] && RefusesAt(s, v)
    ensures RefusesAt(WorkerRun(s, v, ok), v)
  {
    var r := WorkerRun(s, v, ok);
    var h, q, t := s.workers[v].handler, s.workers[v].queue, s.workers[v].queue[0];
    assert q == [t] + q[1..];
    forall e | e in r.workers[v].handler && e.accepting && e.l.tag in DrainingTags(s.draining)
      ensures StopTask(e.l.tag) in q[1..]
    {
      if e in h && t != StopTask(e.l.tag) {
        assert StopTask(e.l.tag) in q;
      } else if e !in h && t.AddTask? {
        assert e == Entry(t.l, true);
        StopFollowsAdd(s, v, t.l);
      } else {
        hide Core;
        TaskStops(h, t, ok, e);
      }
    }
  }

  /** Nothing else makes an entry accept, and the stop of a listener takes effect. */
  lemma TaskStops(h: seq<Entry>, t: Task, ok: bool, e: Entry)
    requires e in RunTask(h, t, ok) && e.accepting && !t.AddTask?
    ensures e in h && t != StopTask(e.l.tag)
  {
    var i :| 0 <= i < |RunTask(h, t, ok)| && RunTask(h, t, ok)[i] == e;
    match t
    case StopTask(g) => assert h[i] == e;
    case RemoveTask(g) =>
    case StopAllTask =>
  }

  lemma WorkerRefusesAll(s: System, v: nat, ok: bool)
    requires Core(s) && s.started && v < |s.workers| && s.workers[v].queue != [] && Refuses(s)
    ensures Refuses(WorkerRun(s, v, ok))
  {
    var r := WorkerRun(s, v, ok);
    forall w | 0 <= w < |r.workers| ensures RefusesAt(r, w) {
      assert RefusesAt(s, w);
      if w == v {
        WorkerRefuses(s, v, ok);
      }
    }
  }

  /** A confirmation only takes entries off the draining list. */
  lemma ConfirmTags(s: System, g: nat)
    requires DistinctDraining(s.draining)
    ensures var r := ConfirmRemoval(s, g);
            r.workers == s.workers && DrainingTags(r.draining) <= DrainingTags(s.draining)
  {
    var k := FindTag(s.draining, g);
    if k < |s.draining| {
      EraseTags(s.draining, k);
      FindTagUpdate(s.draining, k, s.draining[k].(pending := Decrement(s.draining[k].pending)), 0);
    }
  }

  lemma RefusesLess(s: System, r: System)
    requires Refuses(s) && r.workers == s.workers && DrainingTags(r.draining) <= DrainingTags(s.draining)
    ensures Refuses(r)
  {
    hide DrainingTags;
    forall w | 0 <= w < |r.workers| ensures RefusesAt(r, w) {
      assert RefusesAt(s, w);
    }
  }

  lemma MainRefuses(s: System)
    requires s.drainTime >= 1 && DistinctDraining(s.draining) && s.completions != [] && Refuses(s)
    ensures Refuses(MainRun(s))
  {
    hide Refuses, RemoveListener, DrainingTags, ConfirmRemoval, Announced, DistinctDraining;
    var s1 := s.(completions := s.completions[1..]);
    match s.completions[0]
    case AddDone(_, l, success) =>
      if !success && l.tag !in s.failed {
        var t := FailureNoted(s1, l);
        RefusesLess(s, t);
        RemoveAnnounces(t, l.name);
        AnnouncedRefuses(t, RemoveListener(t, l.name).0);
      } else {
        RefusesLess(s, MainRun(s));
      }
    case RemoveDone(_, g) =>
      ConfirmTags(s1, g);
      RefusesLess(s, ConfirmRemoval(s1, g));
  }

  lemma StartRefuses(s: System)
    requires Refuses(s)
    ensures Refuses(StartWorkers(s))
  {
    var r := StartWorkers(s);
    forall w | 0 <= w < |r.workers| ensures RefusesAt(r, w) {
      assert RefusesAt(s, w);
      StartQueuesActive(s, w);
    }
  }

  lemma StopAllRefuses(s: System)
    requires Refuses(s)
    ensures Refuses(StopListeners(s))
  {
    var r := StopListeners(s);
    forall w | 0 <= w < |r.workers| ensures RefusesAt(r, w) {
      assert RefusesAt(s, w);
      PostExtends(s.workers, StopAllTask, w);
    }
  }

  lemma RefusesStep(s: System, step: Step)
    requires Inv(s) && Enabled(s, step) && Refuses(s)
    ensures Refuses(Apply(s, step))
  {
    assert Core(s) && s.drainTime >= 1 && DistinctDraining(s.draining);
    hide Inv, Core, Refuses, Announced, DistinctDraining;
    if Configures(step) {
      ConfigurationAnnounces(s, step);
      AnnouncedRefuses(s, Apply(s, step));
    } else {
      match step
      case StartStep => StartRefuses(s);
      case StopAllStep => StopAllRefuses(s);
      case WorkerStep(w, ok) => WorkerRefusesAll(s, w, ok);
      case MainStep => MainRefuses(s);
    }
  }

  lemma {:induction false} RefusesRun(states: seq<System>, steps: seq<Step>, i: nat)
    requires IsRun(states, steps) && Init(states[0]) && i < |states|
    ensures Refuses(states[i])
  {
    hide Inv, Enabled, Apply;
    if i > 0 {
      RefusesRun(states, steps, i - 1);
      InvRun(states, steps, i - 1);
      hide Refuses;
      RefusesStep(states[i - 1], steps[i - 1]);
    }
  }

  /** In every reachable state: once a worker has run the stop of a draining listener, which was posted to it
      when the drain began, no entry that it has for the listener accepts connections. */
  lemma StoppedRefuses(states: seq<System>, steps: seq<Step>, i: nat, w: nat, d: Draining, e: Entry)
    requires IsRun(states, steps) && Init(states[0]) && i < |states| && w < |states[i].workers|
    requires d in states[i].draining && StopTask(d.l.tag) !in states[i].workers[w].queue
    requires e in states[i].workers[w].handler && e.l.tag == d.l.tag
    ensures !e.accepting
  {
    RefusesRun(states, steps, i);
    assert RefusesAt(states[i], w);
    assert d.l.tag in DrainingTags(states[i].draining);
  }

  lemma AnnouncedStop(s: System, r: System, w: nat, g: nat)
    requires Announced(s, r) && w < |s.workers|
    requires g in DrainingTags(r.draining) && g !in DrainingTags(s.draining)
    ensures w < |r.workers| && StopTask(g) in r.workers[w].queue
  {
    hide DrainingTags;
    assert QueuedEverywhere(r, StopTask(g));
  }

  lemma MainStops(s: System, w: nat, g: nat)
    requires s.drainTime >= 1 && DistinctDraining(s.draining) && s.completions != [] && w < |s.workers|
    requires g in DrainingTags(MainRun(s).draining) && g !in DrainingTags(s.draining)
    ensures w < |MainRun(s).workers| && StopTask(g) in MainRun(s).workers[w].queue
  {
    hide DistinctDraining, DrainingTags, RemoveListener, ConfirmRemoval, Announced;
    var s1 := s.(completions := s.completions[1..]);
    match s.completions[0]
    case AddDone(_, l, success) =>
      if !success && l.tag !in s.failed {
        var t := FailureNoted(s1, l);
        RemoveAnnounces(t, l.name);
        AnnouncedStop(t, RemoveListener(t, l.name).0, w, g);
      }
    case RemoveDone(_, x) => ConfirmTags(s1, x);
  }

  /** A listener that starts to drain is stopped by a task on every worker. */
  lemma DrainingIsStopped(s: System, step: Step, w: nat, g: nat)
    requires Inv(s) && Enabled(s, step) && w < |s.workers|
    requires g in DrainingTags(Apply(s, step).draining) && g !in DrainingTags(s.draining)
    ensures w < |Apply(s, step).workers| && StopTask(g) in Apply(s, step).workers[w].queue
  {
    assert Core(s) && s.drainTime >= 1 && DistinctDraining(s.draining);
    hide Inv, Core, DistinctDraining, DrainingTags, Announced;
    if Configures(step) {
      hide Apply, Enabled;
      ConfigurationAnnounces(s, step);
      AnnouncedStop(s, Apply(s, step), w, g);
    } else if step.MainStep? {
      hide MainRun;
      MainStops(s, w, g);
    }
  }
}
