/** Running queued closures, drain ticks and start-up keep the invariant. */
module ListenerQueues {
  import opened ListenerModel
  import opened ListenerSafety
  import opened ListenerSteps
  import opened ListenerWarm

  /** Two states with the same lists, as far as the invariant's list clauses can tell. */
  ghost predicate SameLists(s: System, r: System) {
    && r.active == s.active && r.warming == s.warming && r.draining == s.draining
    && r.started == s.started && r.nextTag == s.nextTag && r.drainTime == s.drainTime
    && r.stats.(createSuccess := 0, createFailure := 0) == s.stats.(createSuccess := 0, createFailure := 0)
    && |r.workers| == |s.workers|
  }

  lemma SamePhase(s: System, r: System, tag: nat)
    requires SameLists(s, r)
    ensures PhaseOf(r, tag) == PhaseOf(s, tag)
  {
  }

  // ---------- workers ----------

  lemma RunTaskHandler(h: seq<Entry>, t: Task, ok: bool, tag: nat)
    ensures var h' := RunTask(h, t, ok);
            (tag in HandlerTags(h')) ==
              match t
              case AddTask(l) => tag in HandlerTags(h) || (ok && l.tag == tag)
              case RemoveTask(g) => tag in HandlerTags(h) && tag != g
              case _ => tag in HandlerTags(h)
  {
    var h' := RunTask(h, t, ok);
    match t
    case AddTask(l) =>
      if ok {
        assert Entry(l, true) in h';
        assert forall e :: e in h ==> e in h';
      }
    case RemoveTask(g) =>
    case StopTask(g) => KeepTags(h, h', tag);
    case StopAllTask => KeepTags(h, h', tag);
  }

  lemma KeepTags(h: seq<Entry>, h': seq<Entry>, tag: nat)
    requires |h'| == |h| && forall i :: 0 <= i < |h| ==> h'[i].l == h[i].l
    ensures (tag in HandlerTags(h')) == (tag in HandlerTags(h))
  {
    if tag in HandlerTags(h) {
      var i :| 0 <= i < |h| && h[i].l.tag == tag;
      assert h'[i] in h';
    }
    if tag in HandlerTags(h') {
      var i :| 0 <= i < |h'| && h'[i].l.tag == tag;
      assert h[i] in h;
    }
  }

  lemma ReplyMarks(v: nat, t: Task, ok: bool, w: nat, tag: nat)
    ensures Posted(Reply(v, t, ok), w, tag) ==
            if v != w then []
            else match TaskMarks(t, tag)
                 case ms => if ms == [Add] then [AddAck] else if ms == [Remove] then [RemoveAck] else []
  {
    if Reply(v, t, ok) != [] {
      PostedOne(Reply(v, t, ok)[0], w, tag);
      assert Reply(v, t, ok) == [Reply(v, t, ok)[0]];
    }
  }

  lemma WorkerInOrder(s: System, v: nat, ok: bool, w: nat, tag: nat)
    requires v < |s.workers| && s.workers[v].queue != [] && w < |s.workers| && InOrder(s, w, tag)
    ensures InOrder(WorkerRun(s, v, ok), w, tag)
    ensures var r := WorkerRun(s, v, ok);
            Outstanding(Queued(r.workers[w].queue, tag), Posted(r.completions, w, tag))
            == Outstanding(Queued(s.workers[w].queue, tag), Posted(s.completions, w, tag))
  {
    var r := WorkerRun(s, v, ok);
    var t := s.workers[v].queue[0];
    SamePhase(s, r, tag);
    PostedConcat(s.completions, Reply(v, t, ok), w, tag);
    ReplyMarks(v, t, ok, w, tag);
    var m := Posted(s.completions, w, tag);
    assert m + [] == m;
    if v == w {
      var q := Queued(s.workers[w].queue[1..], tag);
      var h := s.workers[w].handler;
      RunTaskHandler(h, t, ok, tag);
      if TaskMarks(t, tag) == [] {
        assert [] + q == q;
      } else {
        PipelineWorker(PhaseOf(s, tag), TaskMarks(t, tag)[0], q, m, Posted(Reply(v, t, ok), w, tag),
                       tag in HandlerTags(h), tag in HandlerTags(RunTask(h, t, ok)));
      }
    }
  }

  lemma WorkerCore(s: System, v: nat, ok: bool)
    requires Core(s) && s.started && v < |s.workers| && s.workers[v].queue != []
    ensures Core(WorkerRun(s, v, ok))
  {
    var r := WorkerRun(s, v, ok);
    forall w, tag: nat | 0 <= w < |r.workers|
      ensures InOrder(r, w, tag)
      ensures Outstanding(Queued(r.workers[w].queue, tag), Posted(r.completions, w, tag))
              == Outstanding(Queued(s.workers[w].queue, tag), Posted(s.completions, w, tag))
    {
      assert InOrder(s, w, tag);
      WorkerInOrder(s, v, ok, w, tag);
    }
    forall d | d in r.draining ensures PendingExact(r, d) {
      assert PendingExact(s, d);
      SameOutstanding(s, r, d.l.tag);
    }
  }

  // ---------- drain ticks ----------

  lemma FindTagUpdate(ds: seq<Draining>, k: nat, d: Draining, tag: nat)
    requires k < |ds| && d.l == ds[k].l
    ensures FindTag(ds[k := d], tag) == FindTag(ds, tag)
    ensures DrainingTags(ds[k := d]) == DrainingTags(ds)
    ensures DistinctDraining(ds) ==> DistinctDraining(ds[k := d])
  {
    var u := ds[k := d];
    assert forall i :: 0 <= i < |ds| ==> u[i].l == ds[i].l;
    forall t | t in DrainingTags(ds) ensures t in DrainingTags(u) {
      var i :| 0 <= i < |ds| && ds[i].l.tag == t;
      assert u[i] in u;
    }
    forall t | t in DrainingTags(u) ensures t in DrainingTags(ds) {
      var i :| 0 <= i < |u| && u[i].l.tag == t;
      assert ds[i] in ds;
    }
  }

  lemma FindTagAt(ds: seq<Draining>, k: nat)
    requires DistinctDraining(ds) && k < |ds|
    ensures FindTag(ds, ds[k].l.tag) == k
  {
  }

  lemma TickQueues(s: System, k: nat, w: nat, tag: nat)
    requires k < |s.draining| && w < |s.workers|
    ensures var d := s.draining[k]; var r := Tick(s, k);
            && |r.workers| == |s.workers| && r.workers[w].handler == s.workers[w].handler
            && Queued(r.workers[w].queue, tag) == Queued(s.workers[w].queue, tag)
                 + if d.ticks + 1 == s.drainTime && tag == d.l.tag then [Remove] else []
  {
    var q := Queued(s.workers[w].queue, tag);
    assert q + [] == q;
    PostedTask(s.workers, RemoveTask(s.draining[k].l.tag), w, tag);
  }

  lemma DrainPhaseUpdate(ds: seq<Draining>, k: nat, d: Draining, drainTime: nat, tag: nat)
    requires DistinctDraining(ds) && k < |ds| && d.l == ds[k].l
    ensures DrainPhase(ds[k := d], drainTime, tag)
            == if tag == d.l.tag then IsDraining(d.ticks >= drainTime) else DrainPhase(ds, drainTime, tag)
    ensures DrainPhase(ds, drainTime, d.l.tag) == IsDraining(ds[k].ticks >= drainTime)
  {
    FindTagAt(ds, k);
    FindTagUpdate(ds, k, d, tag);
  }

  lemma TickLists(s: System, k: nat)
    requires k < |s.draining|
    ensures var d := s.draining[k]; var r := Tick(s, k);
            && r.draining == s.draining[k := d.(ticks := d.ticks + 1)]
            && r.active == s.active && r.drainTime == s.drainTime
  {
  }

  lemma TickPhase(s: System, k: nat, tag: nat)
    requires DistinctDraining(s.draining) && k < |s.draining| && s.draining[k].ticks < s.drainTime
    requires s.draining[k].l.tag !in Tags(s.active)
    ensures PhaseOf(s, s.draining[k].l.tag) == IsDraining(false)
    ensures PhaseOf(Tick(s, k), tag) ==
            if tag == s.draining[k].l.tag then IsDraining(s.draining[k].ticks + 1 >= s.drainTime)
            else PhaseOf(s, tag)
  {
    hide PhaseOf, Tags, DrainPhase, FindTag, Tick, DistinctDraining;
    var d := s.draining[k];
    TickLists(s, k);
    PhaseIs(s, tag);
    PhaseIs(s, d.l.tag);
    PhaseIs(Tick(s, k), tag);
    DrainPhaseUpdate(s.draining, k, d.(ticks := d.ticks + 1), s.drainTime, tag);
  }

  lemma TickInOrder(s: System, k: nat, w: nat, tag: nat)
    requires DistinctDraining(s.draining) && k < |s.draining| && s.draining[k].ticks < s.drainTime
    requires s.draining[k].l.tag !in Tags(s.active)
    requires w < |s.workers| && InOrder(s, w, tag)
    ensures InOrder(Tick(s, k), w, tag)
  {
    var q := Queued(s.workers[w].queue, tag);
    var m := Posted(s.completions, w, tag);
    assert q + [] == q;
    TickQueues(s, k, w, tag);
    TickPhase(s, k, tag);
    if tag == s.draining[k].l.tag && s.draining[k].ticks + 1 == s.drainTime {
      PipelineRemove(q, m, tag in HandlerTags(s.workers[w].handler));
    }
  }

  lemma TickPending(s: System, k: nat, d: Draining)
    requires Core(s) && k < |s.draining| && s.draining[k].ticks < s.drainTime && d in Tick(s, k).draining
    ensures PendingExact(Tick(s, k), d)
  {
    var r := Tick(s, k);
    var i :| 0 <= i < |r.draining| && r.draining[i] == d;
    assert PendingExact(s, s.draining[i]);
    assert s.draining[k] in s.draining;
    if i == k {
      if d.ticks == s.drainTime {
        forall w | 0 <= w < |r.workers|
          ensures Outstanding(Queued(r.workers[w].queue, d.l.tag), Posted(r.completions, w, d.l.tag))
        {
          TickQueues(s, k, w, d.l.tag);
          var q := Queued(s.workers[w].queue, d.l.tag);
          assert (q + [Remove])[|q|] == Remove;
        }
        AllOutstanding(r, d.l.tag);
      }
    } else {
      assert s.draining[i].l.tag != s.draining[k].l.tag;
      forall w | 0 <= w < |r.workers|
        ensures Queued(r.workers[w].queue, d.l.tag) == Queued(s.workers[w].queue, d.l.tag)
      {
        TickQueues(s, k, w, d.l.tag);
        var q := Queued(s.workers[w].queue, d.l.tag);
        assert q + [] == q;
      }
      SameOutstanding(s, r, d.l.tag);
    }
  }

  lemma TickCore(s: System, k: nat)
    requires Core(s) && k < |s.draining| && s.draining[k].ticks < s.drainTime
    ensures Core(Tick(s, k))
  {
    var r := Tick(s, k);
    assert s.draining[k] in s.draining;
    forall w, tag: nat | 0 <= w < |r.workers| ensures InOrder(r, w, tag) {
      assert InOrder(s, w, tag);
      TickInOrder(s, k, w, tag);
    }
    forall d | d in r.draining ensures PendingExact(r, d) {
      TickPending(s, k, d);
    }
    FindTagUpdate(s.draining, k, s.draining[k].(ticks := s.draining[k].ticks + 1), 0);
  }

  // ---------- completions on the main thread ----------

  lemma MainHead(s: System, w: nat, tag: nat)
    requires s.completions != []
    ensures Posted(s.completions, w, tag)
            == CompletionMarks(s.completions[0], w, tag) + Posted(s.completions[1..], w, tag)
  {
  }

  /** Taking an add completion off the main queue. */
  lemma AddDoneCore(s: System, r: System)
    requires Core(s) && s.completions != [] && s.completions[0].AddDone?
    requires SameLists(s, r) && r.workers == s.workers && r.completions == s.completions[1..]
    ensures Core(r)
    ensures s.completions[0].l.tag in Tags(s.active) || s.completions[0].l.tag in DrainingTags(s.draining)
  {
    var c := s.completions[0];
    forall w, tag: nat | 0 <= w < |r.workers|
      ensures InOrder(r, w, tag)
      ensures Outstanding(Queued(r.workers[w].queue, tag), Posted(r.completions, w, tag))
              == Outstanding(Queued(s.workers[w].queue, tag), Posted(s.completions, w, tag))
    {
      AddDoneInOrder(s, r, w, tag);
    }
    forall d | d in r.draining ensures PendingExact(r, d) {
      assert PendingExact(s, d);
      SameOutstanding(s, r, d.l.tag);
    }
    AddDoneInOrder(s, r, c.worker, c.l.tag);
    FindTagMember(s.draining, c.l.tag);
  }

  lemma AddDoneInOrder(s: System, r: System, w: nat, tag: nat)
    requires Core(s) && s.completions != [] && s.completions[0].AddDone?
    requires SameLists(s, r) && r.workers == s.workers && r.completions == s.completions[1..]
    requires w < |s.workers|
    ensures InOrder(r, w, tag)
    ensures Outstanding(Queued(r.workers[w].queue, tag), Posted(r.completions, w, tag))
            == Outstanding(Queued(s.workers[w].queue, tag), Posted(s.completions, w, tag))
    ensures s.completions[0].worker == w && s.completions[0].l.tag == tag ==> PhaseOf(s, tag) != NotOnWorkers
  {
    assert InOrder(s, w, tag);
    MainHead(s, w, tag);
    SamePhase(s, r, tag);
    var m := Posted(r.completions, w, tag);
    assert [] + m == m;
    if s.completions[0].worker == w && s.completions[0].l.tag == tag {
      PipelineAddAck(PhaseOf(s, tag), Queued(s.workers[w].queue, tag), m,
                     tag in HandlerTags(s.workers[w].handler));
    }
  }

  /** The state in which the main thread handles a failed add, before it removes the listener. */
  function FailureNoted(s: System, l: Listener): System {
    s.(failed := s.failed + {l.tag}, stats := s.stats.(createFailure := s.stats.createFailure + 1))
  }

  lemma AddFailureCore(s: System)
    requires Core(s) && s.completions != [] && s.completions[0].AddDone?
    ensures var r := FailureNoted(s.(completions := s.completions[1..]), s.completions[0].l);
            Core(r) && r.started
  {
    AddDoneCore(s, FailureNoted(s.(completions := s.completions[1..]), s.completions[0].l));
  }

  lemma AddSuccessCore(s: System)
    requires Core(s) && s.completions != [] && s.completions[0].AddDone?
    requires s.completions[0].success || s.completions[0].l.tag in s.failed
    ensures Core(MainRun(s)) && MainRun(s).warming == s.warming
  {
    var r := MainRun(s);
    assert SameLists(s, r);
    AddDoneCore(s, r);
  }

  lemma AddRemovalCore(s: System)
    requires Core(s) && s.completions != [] && s.completions[0].AddDone?
    requires !s.completions[0].success && s.completions[0].l.tag !in s.failed
    ensures Core(MainRun(s))
    ensures Removes(s, MainRun(s), s.completions[0].l.name)
    ensures forall x :: x in MainRun(s).warming ==> x in s.warming
  {
    hide Core, RemoveListener, NamesOf;
    var c := s.completions[0];
    AddFailureCore(s);
    var r := FailureNoted(s.(completions := s.completions[1..]), c.l);
    assert MainRun(s) == RemoveListener(r, c.l.name).0;
    RemoveCore(r, c.l.name);
  }

  lemma EraseTags(ds: seq<Draining>, k: nat)
    requires DistinctDraining(ds) && k < |ds|
    ensures DistinctDraining(Erase(ds, k))
    ensures DrainingTags(Erase(ds, k)) == DrainingTags(ds) - {ds[k].l.tag}
  {
    var e := Erase(ds, k);
    hide Erase;
    forall t | t in DrainingTags(ds) && t != ds[k].l.tag ensures t in DrainingTags(e) {
      var i :| 0 <= i < |ds| && ds[i].l.tag == t;
      assert e[if i < k then i else i - 1] == ds[i];
    }
    forall t | t in DrainingTags(e) ensures t in DrainingTags(ds) && t != ds[k].l.tag {
      var i :| 0 <= i < |e| && e[i].l.tag == t;
    }
  }

  lemma FindTagErase(ds: seq<Draining>, k: nat, tag: nat)
    requires DistinctDraining(ds) && k < |ds|
    ensures DistinctDraining(Erase(ds, k))
    ensures DrainingTags(Erase(ds, k)) == DrainingTags(ds) - {ds[k].l.tag}
    ensures var i := FindTag(ds, tag); var j := FindTag(Erase(ds, k), tag);
            if tag == ds[k].l.tag || i == |ds| then j == |ds| - 1
            else j < |ds| - 1 && Erase(ds, k)[j] == ds[i]
  {
    var e := Erase(ds, k);
    EraseTags(ds, k);
    var i := FindTag(ds, tag);
    if tag == ds[k].l.tag || i == |ds| {
      hide Erase, DrainingTags, DistinctDraining, FindTag;
      FindTagMember(ds, tag);
      FindTagMember(e, tag);
    } else {
      var j := if i < k then i else i - 1;
      assert e[j] == ds[i];
      hide Erase, DrainingTags, DistinctDraining;
      FindTagAt(e, j);
    }
  }

  lemma DrainPhaseErase(ds: seq<Draining>, k: nat, drainTime: nat, tag: nat)
    requires DistinctDraining(ds) && k < |ds|
    ensures DrainPhase(Erase(ds, k), drainTime, tag)
            == if tag == ds[k].l.tag then NotOnWorkers else DrainPhase(ds, drainTime, tag)
  {
    FindTagErase(ds, k, tag);
  }

  /** Taking a remove completion off the main queue ends one worker's part in the drain. */
  lemma RemoveDoneOne(s: System, w: nat, tag: nat)
    requires Core(s) && s.completions != [] && s.completions[0].RemoveDone? && w < |s.workers|
    ensures var r := s.(completions := s.completions[1..]);
            && InOrder(r, w, tag)
            && (s.completions[0].worker == w && s.completions[0].tag == tag ==>
                  && PhaseOf(s, tag) == IsDraining(true)
                  && Outstanding(Queued(s.workers[w].queue, tag), Posted(s.completions, w, tag))
                  && !Outstanding(Queued(r.workers[w].queue, tag), Posted(r.completions, w, tag)))
            && (s.completions[0].worker != w || s.completions[0].tag != tag ==>
                  Posted(r.completions, w, tag) == Posted(s.completions, w, tag))
  {
    var r := s.(completions := s.completions[1..]);
    assert InOrder(s, w, tag);
    MainHead(s, w, tag);
    SamePhase(s, r, tag);
    var m := Posted(r.completions, w, tag);
    assert [] + m == m;
    if s.completions[0].worker == w && s.completions[0].tag == tag {
      PipelineRemoveAck(PhaseOf(s, tag), Queued(s.workers[w].queue, tag), m,
                        tag in HandlerTags(s.workers[w].handler));
    }
  }

  /** The confirmed listener is still in the draining list and its drain is complete. */
  lemma RemoveDoneEntry(s: System)
    requires Core(s) && s.completions != [] && s.completions[0].RemoveDone?
    ensures var tag := s.completions[0].tag; var k := FindTag(s.draining, tag);
            && k < |s.draining| && s.draining[k].ticks == s.drainTime && s.draining[k].pending >= 1
            && s.draining[k].pending == |OutstandingWorkers(s, tag)|
            && tag !in Tags(s.active)
  {
    var c := s.completions[0];
    assert c in s.completions;
    RemoveDoneOne(s, c.worker, c.tag);
    assert PendingExact(s, s.draining[FindTag(s.draining, c.tag)]);
  }

  lemma OneLess(s: System, r: System, v: nat, tag: nat)
    requires |r.workers| == |s.workers| && v < |s.workers|
    requires Outstanding(Queued(s.workers[v].queue, tag), Posted(s.completions, v, tag))
    requires !Outstanding(Queued(r.workers[v].queue, tag), Posted(r.completions, v, tag))
    requires forall w: nat :: w < |s.workers| && w != v ==>
               Outstanding(Queued(r.workers[w].queue, tag), Posted(r.completions, w, tag))
               == Outstanding(Queued(s.workers[w].queue, tag), Posted(s.completions, w, tag))
    ensures OutstandingWorkers(s, tag) == OutstandingWorkers(r, tag) + {v}
    ensures v !in OutstandingWorkers(r, tag)
  {
    hide Outstanding, Queued, Posted;
  }

  lemma OneLessOutstanding(s: System)
    requires Core(s) && s.completions != [] && s.completions[0].RemoveDone?
    ensures var c := s.completions[0]; var r := s.(completions := s.completions[1..]);
            OutstandingWorkers(s, c.tag) == OutstandingWorkers(r, c.tag) + {c.worker}
            && c.worker !in OutstandingWorkers(r, c.tag)
  {
    var c := s.completions[0];
    var r := s.(completions := s.completions[1..]);
    assert c in s.completions;
    assert c.worker < |s.workers|;
    hide Core, Outstanding, Queued, Posted, OutstandingWorkers, InOrder;
    RemoveDoneOne(s, c.worker, c.tag);
    forall w: nat | w < |s.workers| && w != c.worker
      ensures Outstanding(Queued(r.workers[w].queue, c.tag), Posted(r.completions, w, c.tag))
              == Outstanding(Queued(s.workers[w].queue, c.tag), Posted(s.completions, w, c.tag))
    {
      RemoveDoneOne(s, w, c.tag);
    }
    OneLess(s, r, c.worker, c.tag);
  }

  lemma OthersOutstanding(s: System, g: nat)
    requires Core(s) && s.completions != [] && s.completions[0].RemoveDone? && g != s.completions[0].tag
    ensures OutstandingWorkers(s.(completions := s.completions[1..]), g) == OutstandingWorkers(s, g)
  {
    forall w: nat | w < |s.workers|
      ensures Posted(s.completions[1..], w, g) == Posted(s.completions, w, g)
    {
      RemoveDoneOne(s, w, g);
    }
    SameOutstanding(s, s.(completions := s.completions[1..]), g);
  }

  lemma RemoveDoneCounts(s: System)
    requires Core(s) && s.completions != [] && s.completions[0].RemoveDone?
    ensures var r := s.(completions := s.completions[1..]);
            var tag := s.completions[0].tag; var k := FindTag(s.draining, tag);
            && k < |s.draining| && s.draining[k].ticks == s.drainTime
            && s.draining[k].pending >= 1
            && tag !in Tags(s.active)
            && |OutstandingWorkers(r, tag)| == s.draining[k].pending - 1
  {
    RemoveDoneEntry(s);
    OneLessOutstanding(s);
  }

  lemma LastShape(s: System)
    requires Ownership(s) && s.completions != [] && s.completions[0].RemoveDone?
    requires FindTag(s.draining, s.completions[0].tag) < |s.draining|
    requires s.draining[FindTag(s.draining, s.completions[0].tag)].pending == 1
    ensures var r := MainRun(s); var k := FindTag(s.draining, s.completions[0].tag);
            && r == s.(completions := s.completions[1..], draining := Erase(s.draining, k),
                       stats := s.stats.(drainingGauge := |s.draining| - 1))
            && Ownership(r)
            && s.completions[0].tag !in DrainingTags(r.draining)
            && forall d :: d in r.draining ==> d in s.draining
  {
    var k := FindTag(s.draining, s.completions[0].tag);
    assert MainRun(s).draining == Erase(s.draining, k);
    FindTagErase(s.draining, k, 0);
  }

  lemma LastCompletionCore(s: System)
    requires Core(s) && s.completions != [] && s.completions[0].RemoveDone?
    requires FindTag(s.draining, s.completions[0].tag) < |s.draining|
    requires s.draining[FindTag(s.draining, s.completions[0].tag)].pending == 1
    ensures Core(MainRun(s))
  {
    hide MainRun, Owned, Named, PendingExact, PhaseOf, InOrder;
    LastShape(s);
    var r := MainRun(s);
    forall w, tag: nat | 0 <= w < |r.workers| ensures InOrder(r, w, tag) {
      LastRemovalInOrder(s, w, tag);
    }
    forall d | d in r.draining ensures PendingExact(r, d) {
      assert d.l.tag in DrainingTags(r.draining);
      OtherPending(s, r, d);
    }
  }

  lemma EarlierPending(s: System, d: Draining)
    requires Core(s) && s.completions != [] && s.completions[0].RemoveDone?
    requires FindTag(s.draining, s.completions[0].tag) < |s.draining|
    requires s.draining[FindTag(s.draining, s.completions[0].tag)].pending > 1
    requires d in MainRun(s).draining
    ensures PendingExact(MainRun(s), d)
  {
    var tag := s.completions[0].tag;
    var k := FindTag(s.draining, tag);
    var r := MainRun(s);
    var i :| 0 <= i < |r.draining| && r.draining[i] == d;
    if i == k {
      RemoveDoneCounts(s);
      assert d == s.draining[k].(pending := s.draining[k].pending - 1);
      SameOutstanding(s.(completions := s.completions[1..]), r, tag);
    } else {
      assert s.draining[i].l.tag != s.draining[k].l.tag;
      OtherPending(s, r, d);
    }
  }

  lemma EarlierShape(s: System)
    requires Ownership(s) && s.completions != [] && s.completions[0].RemoveDone?
    requires FindTag(s.draining, s.completions[0].tag) < |s.draining|
    requires s.draining[FindTag(s.draining, s.completions[0].tag)].pending > 1
    ensures var r := MainRun(s);
            && r == s.(completions := s.completions[1..], draining := r.draining)
            && |r.draining| == |s.draining|
            && Ownership(r)
  {
    assert MainRun(s) == s.(completions := s.completions[1..], draining := MainRun(s).draining);
    var k := FindTag(s.draining, s.completions[0].tag);
    var d0 := s.draining[k].(pending := s.draining[k].pending - 1);
    assert MainRun(s).draining == s.draining[k := d0];
    hide MainRun, Tags, DrainingTags, DistinctTags, DistinctDraining, FindTag, WarmingListeners;
    FindTagUpdate(s.draining, k, d0, 0);
  }

  lemma EarlierPhase(s: System, g: nat)
    requires s.completions != [] && s.completions[0].RemoveDone?
    requires FindTag(s.draining, s.completions[0].tag) < |s.draining|
    requires s.draining[FindTag(s.draining, s.completions[0].tag)].pending > 1
    ensures PhaseOf(MainRun(s), g) == PhaseOf(s, g)
  {
    var k := FindTag(s.draining, s.completions[0].tag);
    FindTagUpdate(s.draining, k, s.draining[k].(pending := s.draining[k].pending - 1), g);
  }

  lemma EarlierCompletionCore(s: System)
    requires Core(s) && s.completions != [] && s.completions[0].RemoveDone?
    requires FindTag(s.draining, s.completions[0].tag) < |s.draining|
    requires s.draining[FindTag(s.draining, s.completions[0].tag)].pending > 1
    ensures Core(MainRun(s))
  {
    hide MainRun, Owned, Named, PendingExact, PhaseOf;
    EarlierShape(s);
    var r := MainRun(s);
    forall w, g: nat | 0 <= w < |r.workers| ensures InOrder(r, w, g) {
      EarlierPhase(s, g);
      RemoveDoneOne(s, w, g);
      SamePhase(s, s.(completions := s.completions[1..]), g);
    }
    hide InOrder;
    forall d | d in r.draining ensures PendingExact(r, d) {
      EarlierPending(s, d);
    }
  }

  lemma RemoveCompletionCore(s: System)
    requires Core(s) && s.completions != [] && s.completions[0].RemoveDone?
    ensures Core(MainRun(s))
    ensures MainRun(s).warming == s.warming
  {
    hide Core;
    RemoveDoneCounts(s);
    assert MainRun(s).warming == s.warming;
    hide MainRun;
    if s.draining[FindTag(s.draining, s.completions[0].tag)].pending == 1 {
      LastCompletionCore(s);
    } else {
      EarlierCompletionCore(s);
    }
  }

  lemma OtherPending(s: System, r: System, d: Draining)
    requires Core(s) && s.completions != [] && s.completions[0].RemoveDone?
    requires r.workers == s.workers && r.completions == s.completions[1..] && r.drainTime == s.drainTime
    requires d in s.draining && d.l.tag != s.completions[0].tag
    ensures PendingExact(r, d)
  {
    assert PendingExact(s, d);
    OthersOutstanding(s, d.l.tag);
    SameOutstanding(s.(completions := s.completions[1..]), r, d.l.tag);
  }

  lemma LastPhase(s: System, tag: nat)
    requires DistinctDraining(s.draining) && s.completions != [] && s.completions[0].RemoveDone?
    requires FindTag(s.draining, s.completions[0].tag) < |s.draining|
    requires s.draining[FindTag(s.draining, s.completions[0].tag)].pending == 1
    requires s.completions[0].tag !in Tags(s.active)
    ensures PhaseOf(MainRun(s), tag) == if tag == s.completions[0].tag then NotOnWorkers else PhaseOf(s, tag)
    ensures MainRun(s).workers == s.workers && MainRun(s).completions == s.completions[1..]
  {
    var k := FindTag(s.draining, s.completions[0].tag);
    var r := MainRun(s);
    assert r.draining == Erase(s.draining, k) && r.active == s.active && r.drainTime == s.drainTime;
    assert r.workers == s.workers && r.completions == s.completions[1..];
    hide MainRun, PhaseOf, DrainPhase, Tags, FindTag, DistinctDraining, Erase;
    PhaseIs(s, tag);
    PhaseIs(r, tag);
    DrainPhaseErase(s.draining, k, s.drainTime, tag);
  }

  /** After the last confirmation nothing on any worker and nothing queued refers to the listener. */
  lemma LastRemovalInOrder(s: System, w: nat, tag: nat)
    requires Core(s) && s.completions != [] && s.completions[0].RemoveDone? && w < |s.workers|
    requires FindTag(s.draining, s.completions[0].tag) < |s.draining|
    requires s.draining[FindTag(s.draining, s.completions[0].tag)].pending == 1
    ensures InOrder(MainRun(s), w, tag)
  {
    assert DistinctDraining(s.draining);
    hide Core, PhaseOf, DistinctDraining, Queued, Posted, Outstanding, MainRun, FindTag, Pipeline;
    RemoveDoneCounts(s);
    RemoveDoneOne(s, w, tag);
    LastPhase(s, tag);
    var g := s.completions[0].tag;
    var r := s.(completions := s.completions[1..]);
    if tag == g {
      RemoveDonePhase(s, g);
      assert OutstandingWorkers(r, g) == {};
      assert w !in OutstandingWorkers(r, g);
      PipelineGone(Queued(r.workers[w].queue, g), Posted(r.completions, w, g),
                   g in HandlerTags(r.workers[w].handler));
    } else {
      SamePhase(s, r, tag);
    }
  }

  /** The listener whose removal is confirmed has completed its drain. */
  lemma RemoveDonePhase(s: System, tag: nat)
    requires Core(s) && s.completions != [] && s.completions[0] == RemoveDone(s.completions[0].worker, tag)
    ensures PhaseOf(s, tag) == IsDraining(true)
    ensures PhaseOf(s.(completions := s.completions[1..]), tag) == IsDraining(true)
  {
    var c := s.completions[0];
    assert c in s.completions;
    RemoveDoneOne(s, c.worker, tag);
  }
}
