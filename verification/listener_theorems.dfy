/** What the invariant means: ownership of every reference, the end of a listener's life, and the
    one way a listener becomes active. All statements are about arbitrary runs. */
module ListenerTheorems {
  import opened Common
  import opened ListenerModel
  import opened ListenerSafety
  import opened ListenerSteps
  import opened ListenerWarm
  import opened ListenerQueues
  import opened ListenerInvariant

  /** The listener objects the main thread owns. */
  ghost function OwnedTags(s: System): set<nat> {
    Tags(s.active) + Tags(WarmingListeners(s.warming)) + DrainingTags(s.draining)
  }

  ghost predicate Refers(t: Task, tag: nat) {
    TaskMarks(t, tag) != []
  }

  /** Some closure or handler entry mentions the listener. */
  ghost predicate Mentioned(s: System, tag: nat) {
    || (exists w, t :: 0 <= w < |s.workers| && t in s.workers[w].queue && Refers(t, tag))
    || (exists c :: c in s.completions
                    && ((c.AddDone? && c.l.tag == tag) || (c.RemoveDone? && c.tag == tag)))
    || (exists w, e :: 0 <= w < |s.workers| && e in s.workers[w].handler && e.l.tag == tag)
  }

  lemma TaskIsOwned(s: System, w: nat, t: Task, tag: nat)
    requires Core(s) && w < |s.workers| && t in s.workers[w].queue && Refers(t, tag)
    ensures PhaseOf(s, tag) != NotOnWorkers
  {
    assert InOrder(s, w, tag);
    QueuedMember(s.workers[w].queue, t, tag);
  }

  lemma EntryIsOwned(s: System, w: nat, e: Entry, tag: nat)
    requires Core(s) && w < |s.workers| && e in s.workers[w].handler && e.l.tag == tag
    ensures PhaseOf(s, tag) != NotOnWorkers
  {
    assert InOrder(s, w, tag);
    assert tag in HandlerTags(s.workers[w].handler);
  }

  lemma CompletionIsOwned(s: System, c: Completion, tag: nat)
    requires Core(s) && c in s.completions && CompletionMarks(c, c.worker, tag) != []
    ensures PhaseOf(s, tag) != NotOnWorkers
  {
    assert InOrder(s, c.worker, tag);
    PostedMember(s.completions, c, c.worker, tag);
  }

  /** Only active and draining listeners are mentioned anywhere outside the main thread's lists. */
  lemma MentionedIsOwned(s: System, tag: nat)
    requires Core(s) && Mentioned(s, tag)
    ensures tag in Tags(s.active) || tag in DrainingTags(s.draining)
  {
    FindTagMember(s.draining, tag);
    hide Core;
    if w, t :| 0 <= w < |s.workers| && t in s.workers[w].queue && Refers(t, tag) {
      TaskIsOwned(s, w, t, tag);
    } else if w, e :| 0 <= w < |s.workers| && e in s.workers[w].handler && e.l.tag == tag {
      EntryIsOwned(s, w, e, tag);
    } else {
      var c :| c in s.completions && ((c.AddDone? && c.l.tag == tag) || (c.RemoveDone? && c.tag == tag));
      CompletionIsOwned(s, c, tag);
    }
  }

  /** In every state of every run, whatever a queued closure or a handler entry mentions is still
      owned by the main thread, and removals concern draining listeners whose drain is over. */
  lemma NoDanglingReference(states: seq<System>, steps: seq<Step>, i: nat, tag: nat)
    requires IsRun(states, steps) && Init(states[0]) && i < |states| && Mentioned(states[i], tag)
    ensures tag in OwnedTags(states[i])
    ensures tag in Tags(states[i].active) || tag in DrainingTags(states[i].draining)
  {
    InvRun(states, steps, i);
    MentionedIsOwned(states[i], tag);
  }

  /** A confirmed removal finds its draining entry, with a count that can still be decremented. */
  lemma ConfirmationFindsEntry(states: seq<System>, steps: seq<Step>, i: nat)
    requires IsRun(states, steps) && Init(states[0]) && i < |states|
    requires states[i].completions != [] && states[i].completions[0].RemoveDone?
    ensures var s := states[i]; var k := FindTag(s.draining, s.completions[0].tag);
            k < |s.draining| && s.draining[k].pending >= 1 && s.draining[k].ticks == s.drainTime
  {
    InvRun(states, steps, i);
    RemoveDoneCounts(states[i]);
  }

  /** When an object stops being owned, in whatever way, nothing mentions it any more. */
  lemma DestroyedIsUnmentioned(states: seq<System>, steps: seq<Step>, i: nat, tag: nat)
    requires IsRun(states, steps) && Init(states[0]) && i < |steps|
    requires tag in OwnedTags(states[i]) && tag !in OwnedTags(states[i + 1])
    ensures !Mentioned(states[i + 1], tag)
  {
    InvRun(states, steps, i + 1);
    if Mentioned(states[i + 1], tag) {
      MentionedIsOwned(states[i + 1], tag);
    }
  }

  // ---------- draining entries end only through the last confirmation ----------

  lemma DrainingKept(s: System, step: Step, tag: nat)
    requires Inv(s) && Enabled(s, step) && tag in DrainingTags(s.draining)
    requires step != MainStep || !s.completions[0].RemoveDone? || s.completions[0].tag != tag
    ensures tag in DrainingTags(Apply(s, step).draining)
  {
    match step
    case AddOrUpdateStep(c, e) => AddKeepsDraining(s, c, e, tag);
    case RemoveStep(name) => RemoveKeepsDraining(s, name, tag);
    case StartStep =>
    case StopAllStep =>
    case TargetStep(g, target) => TargetKeepsDraining(s, g, target, tag);
    case TickStep(k) => FindTagUpdate(s.draining, k, s.draining[k].(ticks := s.draining[k].ticks + 1), tag);
    case WorkerStep(w, ok) =>
    case MainStep => MainKeepsDraining(s, tag);
  }

  lemma RemoveKeepsDraining(s: System, name: string, tag: nat)
    requires s.drainTime >= 1 && tag in DrainingTags(s.draining)
    ensures tag in DrainingTags(RemoveListener(s, name).0.draining)
  {
    RemoveFields(s, name);
    var i := FindName(s.active, name);
    if i < |s.active| {
      DrainingTagsCons(Draining(s.active[i], |s.workers|, 1), s.draining);
    }
  }

  lemma WarmedKeepsDraining(s: System, j: nat, tag: nat)
    requires Core(s) && j < |s.warming| && tag in DrainingTags(s.draining)
    ensures FindName(WarmingListeners(s.warming), s.warming[j].l.name) == j
    ensures tag in DrainingTags(Warmed(s, s.warming[j].l).draining)
  {
    WarmedIsFoundByName(s, j);
    var l := s.warming[j].l;
    WarmedFields(s, l, j);
    var i := FindName(s.active, l.name);
    if i < |s.active| {
      DrainingTagsCons(Draining(s.active[i], |s.workers|, 1), s.draining);
    }
  }

  lemma TargetKeepsDraining(s: System, g: nat, target: nat, tag: nat)
    requires Core(s) && tag in DrainingTags(s.draining)
    ensures tag in DrainingTags(TargetDone(s, g, target).draining)
  {
    hide Core, Warmed, DrainingTags;
    var j := WarmingTagIndex(s.warming, g);
    if j < |s.warming| {
      WarmedKeepsDraining(s, j, tag);
    }
  }

  lemma InitializeKeepsDraining(s: System, g: nat, inline: set<nat>, tag: nat)
    requires Core(s) && tag in DrainingTags(s.draining)
    ensures tag in DrainingTags(Initialize(s, g, inline).draining)
  {
    hide Core, Warmed, DrainingTags;
    var j := WarmingTagIndex(s.warming, g);
    if j < |s.warming| {
      WarmedKeepsDraining(s, j, tag);
    }
  }

  lemma AddKeepsDraining(s: System, c: Config, e: Env, tag: nat)
    requires Core(s) && tag in DrainingTags(s.draining)
    ensures tag in DrainingTags(AddOrUpdate(s, c, e).0.draining)
  {
    hide Core, AddOrUpdate, NewVersion, Initialize;
    AddOrUpdateSplit(s, c, e);
    match NewVersion(s, c, e) {
      case None =>
      case Some(l) =>
        PlacedCore(s, c, e, l);
        InitializeKeepsDraining(Placed(s, c, e, l), l.tag, e.inline, tag);
    }
  }

  /** A confirmation about one listener keeps the entries of the others. */
  lemma ConfirmKeepsDraining(s: System, g: nat, tag: nat)
    requires DistinctDraining(s.draining) && g != tag && tag in DrainingTags(s.draining)
    ensures tag in DrainingTags(ConfirmRemoval(s, g).draining)
  {
    var k := FindTag(s.draining, g);
    if k < |s.draining| {
      var d := s.draining[k].(pending := Decrement(s.draining[k].pending));
      hide DrainingTags, DistinctDraining, FindTag;
      EraseTags(s.draining, k);
      FindTagUpdate(s.draining, k, d, tag);
    }
  }

  lemma MainKeepsDraining(s: System, tag: nat)
    requires Inv(s) && s.completions != [] && tag in DrainingTags(s.draining)
    requires !s.completions[0].RemoveDone? || s.completions[0].tag != tag
    ensures tag in DrainingTags(MainRun(s).draining)
  {
    assert s.drainTime >= 1 && DistinctDraining(s.draining);
    hide Core, Inv, DrainingTags, DistinctDraining, RemoveListener, ConfirmRemoval;
    var s1 := s.(completions := s.completions[1..]);
    match s.completions[0]
    case AddDone(_, l, _) => RemoveKeepsDraining(FailureNoted(s1, l), l.name, tag);
    case RemoveDone(_, g) => ConfirmKeepsDraining(s1, g, tag);
  }

  /** Before the last confirmation the entry stays; at it nobody else is outstanding. */
  lemma ErasedMeansLast(s: System, tag: nat)
    requires Core(s) && s.completions != [] && s.completions[0] == RemoveDone(s.completions[0].worker, tag)
    requires tag !in DrainingTags(MainRun(s).draining)
    ensures var k := FindTag(s.draining, tag);
            k < |s.draining| && s.draining[k].pending == 1 && s.draining[k].ticks == s.drainTime
    ensures OutstandingWorkers(s, tag) == {s.completions[0].worker}
    ensures OutstandingWorkers(s.(completions := s.completions[1..]), tag) == {}
  {
    hide Core, OutstandingWorkers;
    RemoveDoneCounts(s);
    OneLessOutstanding(s);
    var k := FindTag(s.draining, tag);
    if s.draining[k].pending != 1 {
      FindTagMember(s.draining, tag);
      FindTagUpdate(s.draining, k, s.draining[k].(pending := Decrement(s.draining[k].pending)), tag);
    }
    assert |OutstandingWorkers(s.(completions := s.completions[1..]), tag)| == 0;
  }

  /** A draining listener is erased only by the confirmation of its last outstanding worker: its
      drain time has passed, every worker has run its removal, and main has handled every earlier
      completion about it. */
  lemma ErasedByLastConfirmation(s: System, step: Step, tag: nat)
    requires Inv(s) && Enabled(s, step)
    requires tag in DrainingTags(s.draining) && tag !in DrainingTags(Apply(s, step).draining)
    ensures step == MainStep && s.completions[0].RemoveDone? && s.completions[0].tag == tag
    ensures var k := FindTag(s.draining, tag);
            k < |s.draining| && s.draining[k].pending == 1 && s.draining[k].ticks == s.drainTime
    ensures OutstandingWorkers(s, tag) == {s.completions[0].worker}
    ensures forall w :: 0 <= w < |s.workers| ==>
              && Queued(s.workers[w].queue, tag) == []
              && Posted(s.completions[1..], w, tag) == []
              && tag !in HandlerTags(s.workers[w].handler)
  {
    assert Core(s);
    hide Core, Inv, MainRun, DrainingTags, OutstandingWorkers, Queued, Posted, HandlerTags;
    if step != MainStep || !s.completions[0].RemoveDone? || s.completions[0].tag != tag {
      DrainingKept(s, step, tag);
    }
    ErasedMeansLast(s, tag);
    forall w: nat | w < |s.workers|
      ensures Queued(s.workers[w].queue, tag) == []
      ensures Posted(s.completions[1..], w, tag) == []
      ensures tag !in HandlerTags(s.workers[w].handler)
    {
      LastOneGone(s, w, tag);
    }
  }

  lemma LastOneGone(s: System, w: nat, tag: nat)
    requires Core(s) && s.completions != [] && s.completions[0] == RemoveDone(s.completions[0].worker, tag)
    requires w < |s.workers|
    requires OutstandingWorkers(s.(completions := s.completions[1..]), tag) == {}
    ensures Queued(s.workers[w].queue, tag) == [] && Posted(s.completions[1..], w, tag) == []
    ensures tag !in HandlerTags(s.workers[w].handler)
  {
    hide Core, PhaseOf, Queued, Posted, Outstanding;
    RemoveDonePhase(s, tag);
    RemoveDoneOne(s, w, tag);
    var r := s.(completions := s.completions[1..]);
    assert w !in OutstandingWorkers(r, tag);
    PipelineGone(Queued(r.workers[w].queue, tag), Posted(r.completions, w, tag),
                 tag in HandlerTags(r.workers[w].handler));
  }
}
