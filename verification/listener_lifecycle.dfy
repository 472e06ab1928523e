/** How a listener becomes active: once, and only when its init targets have all completed. */
module ListenerLifecycle {
  import opened Common
  import opened ListenerModel
  import opened ListenerSafety
  import opened ListenerSteps
  import opened ListenerWarm
  import opened ListenerQueues
  import opened ListenerInvariant

  /** Listeners that are active or may still become active. */
  ghost function Live(s: System): set<nat> {
    Tags(s.active) + Tags(WarmingListeners(s.warming))
  }

  /** No object comes back: whatever is live after a step was live before or did not exist. */
  ghost predicate NoReturn(s: System, r: System) {
    s.nextTag <= r.nextTag && forall t :: t in Live(r) ==> t in Live(s) || t >= s.nextTag
  }

  /** What justifies that the step makes the listener active. */
  ghost predicate Warrant(s: System, step: Step, tag: nat) {
    match step
    case AddOrUpdateStep(c, e) => tag == s.nextTag && (s.started ==> c.targets <= e.inline)
    case TargetStep(g, target) =>
      g == tag && exists x :: x in s.warming && x.l.tag == tag && x.targets == {target}
    case _ => false
  }

  ghost predicate Activates(s: System, r: System, step: Step) {
    forall t :: t in Tags(r.active) && t !in Tags(s.active) ==> Warrant(s, step, t)
  }

  lemma WarmedTags(s: System, j: nat)
    requires s.drainTime >= 1 && Ownership(s) && Naming(s) && j < |s.warming|
    ensures FindName(WarmingListeners(s.warming), s.warming[j].l.name) == j
    ensures var r := Warmed(s, s.warming[j].l);
            && r.nextTag == s.nextTag
            && Tags(r.active) <= Tags(s.active) + {s.warming[j].l.tag}
            && WarmingListeners(r.warming) == Erase(WarmingListeners(s.warming), j)
  {
    hide Ownership, Naming, Warmed, Erase, Tags;
    WarmedLists(s, j);
    WarmedFields(s, s.warming[j].l, j);
    WarmingEdit(s.warming, j, s.warming[j]);
  }

  lemma WarmedLive(s: System, j: nat)
    requires Core(s) && j < |s.warming|
    ensures FindName(WarmingListeners(s.warming), s.warming[j].l.name) == j
    ensures var r := Warmed(s, s.warming[j].l);
            && r.nextTag == s.nextTag
            && Live(r) <= Live(s)
            && Tags(r.active) <= Tags(s.active) + {s.warming[j].l.tag}
  {
    hide Core, Ownership, Naming, DistinctTags, Warmed, Erase;
    CoreFacts(s);
    WarmedTags(s, j);
    var ws := WarmingListeners(s.warming);
    TagsErase(ws, j);
    assert ws[j] in ws;
    assert ws[j].tag in Tags(ws);
  }

  lemma RemoveLive(s: System, name: string)
    requires Core(s)
    ensures var r := RemoveListener(s, name).0;
            && r.nextTag == s.nextTag && Live(r) <= Live(s) && Tags(r.active) <= Tags(s.active)
  {
    RemoveFields(s, name);
    RemoveOwned(s, name);
    var j := FindName(WarmingListeners(s.warming), name);
    if j < |s.warming| {
      WarmingEdit(s.warming, j, s.warming[j]);
      TagsErase(WarmingListeners(s.warming), j);
    }
  }

  lemma RetargetLive(s: System, j: nat, targets: set<nat>)
    requires j < |s.warming|
    ensures WarmingListeners(s.warming[j := Warming(s.warming[j].l, targets)]) == WarmingListeners(s.warming)
  {
  }

  lemma InitializeLive(s: System, tag: nat, inline: set<nat>)
    requires Core(s)
    ensures var r := Initialize(s, tag, inline);
            && r.nextTag == s.nextTag && Live(r) <= Live(s)
            && Tags(r.active) <= Tags(s.active) + {tag}
            && (tag in Tags(r.active) && tag !in Tags(s.active) ==>
                  exists x :: x in s.warming && x.l.tag == tag && x.targets <= inline)
  {
    hide Core, Warmed, Tags;
    var j := WarmingTagIndex(s.warming, tag);
    if j < |s.warming| {
      var rest := s.warming[j].targets - inline;
      if rest == {} {
        WarmedLive(s, j);
        assert forall x :: x in s.warming[j].targets && x !in inline ==> x in rest;
      } else {
        RetargetLive(s, j, rest);
      }
    }
  }

  lemma PlacedLive(s: System, c: Config, e: Env, l: Listener)
    requires NewVersion(s, c, e) == Some(l) && (!s.started ==> s.warming == [])
    requires DistinctTags(WarmingListeners(s.warming)) && DistinctTags(s.active)
    requires s.nextTag !in Tags(WarmingListeners(s.warming)) && s.nextTag !in Tags(s.active)
    ensures var r := Placed(s, c, e, l);
            && r.nextTag == s.nextTag + 1 && l.tag == s.nextTag
            && Live(r) <= Live(s) + {l.tag}
            && Tags(r.active) <= Tags(s.active) + {l.tag}
            && (s.started ==> r.active == s.active)
            && (forall x :: x in r.warming && x.l.tag == l.tag ==> x.targets == c.targets)
  {
    hide AddOrUpdate, NewVersion, ChooseSocket, Mismatched, IsNew, Initialize, DistinctTags;
    AddOrUpdateSplit(s, c, e);
    PlacedWarming(s, c, e, l);
    var ws := WarmingListeners(s.warming);
    var i := FindName(s.active, l.name);
    var j := FindName(ws, l.name);
    WarmingEdit(s.warming, j, Warming(l, c.targets));
    if j < |ws| {
      TagsUpdate(ws, j, l);
    } else {
      TagsAppend(ws, l);
    }
    if i < |s.active| {
      TagsUpdate(s.active, i, l);
    } else {
      TagsAppend(s.active, l);
    }
    forall x | x in s.warming ensures x.l.tag != l.tag {
      var k :| 0 <= k < |s.warming| && s.warming[k] == x;
      assert ws[k].tag in Tags(ws);
    }
  }

  lemma AddOrUpdateLive(s: System, c: Config, e: Env)
    requires Core(s)
    ensures var r := AddOrUpdate(s, c, e).0;
            && s.nextTag <= r.nextTag && Live(r) <= Live(s) + {s.nextTag}
            && Tags(r.active) <= Tags(s.active) + {s.nextTag}
            && (s.started && s.nextTag in Tags(r.active) ==> c.targets <= e.inline)
  {
    hide Core, Ownership, Naming, DistinctTags, AddOrUpdate, NewVersion, Placed, Initialize;
    CoreFacts(s);
    AddOrUpdateSplit(s, c, e);
    match NewVersion(s, c, e) {
      case None =>
      case Some(l) =>
        PlacedLive(s, c, e, l);
        PlacedCore(s, c, e, l);
        if s.started {
          InitializeLive(Placed(s, c, e, l), l.tag, e.inline);
        }
    }
  }

  lemma TargetLive(s: System, tag: nat, target: nat)
    requires Core(s)
    ensures var r := TargetDone(s, tag, target);
            && r.nextTag == s.nextTag && Live(r) <= Live(s)
            && (forall t :: t in Tags(r.active) && t !in Tags(s.active) ==> Warrant(s, TargetStep(tag, target), t))
  {
    hide Core, Warmed;
    var j := WarmingTagIndex(s.warming, tag);
    if j < |s.warming| && target in s.warming[j].targets {
      var rest := s.warming[j].targets - {target};
      if rest == {} {
        WarmedLive(s, j);
        assert s.warming[j].targets == {target};
      } else {
        RetargetLive(s, j, rest);
      }
    }
  }

  lemma FailureLive(s: System)
    requires Core(s) && s.completions != [] && s.completions[0].AddDone?
    ensures var r := RemoveListener(FailureNoted(s.(completions := s.completions[1..]), s.completions[0].l),
                                    s.completions[0].l.name).0;
            && r.nextTag == s.nextTag && Live(r) <= Live(s) && Tags(r.active) <= Tags(s.active)
  {
    hide Core, RemoveListener, Tags;
    AddFailureCore(s);
    RemoveLive(FailureNoted(s.(completions := s.completions[1..]), s.completions[0].l),
               s.completions[0].l.name);
  }

  lemma MainLive(s: System)
    requires Core(s) && s.completions != []
    ensures var r := MainRun(s);
            && r.nextTag == s.nextTag && Live(r) <= Live(s) && Tags(r.active) <= Tags(s.active)
  {
    hide Core, RemoveListener, Tags;
    if s.completions[0].AddDone? {
      FailureLive(s);
    }
  }

  lemma LiveStep(s: System, step: Step)
    requires Inv(s) && Enabled(s, step)
    ensures NoReturn(s, Apply(s, step)) && Activates(s, Apply(s, step), step)
  {
    hide Core, AddOrUpdate, RemoveListener, MainRun, TargetDone;
    match step
    case AddOrUpdateStep(c, e) => AddOrUpdateLive(s, c, e);
    case RemoveStep(name) => RemoveLive(s, name);
    case StartStep =>
    case StopAllStep =>
    case TargetStep(tag, target) => TargetLive(s, tag, target);
    case TickStep(k) =>
    case WorkerStep(w, ok) =>
    case MainStep => MainLive(s);
  }

  /** A step makes a listener active only when it is new and has no target left to wait for, or when
      it is warming and the step completes its last target. */
  lemma ActivationIsWarranted(states: seq<System>, steps: seq<Step>, i: nat, tag: nat)
    requires IsRun(states, steps) && Init(states[0]) && i < |steps|
    requires tag in Tags(states[i + 1].active) && tag !in Tags(states[i].active)
    ensures Warrant(states[i], steps[i], tag)
  {
    hide Inv, Warrant, Apply, Enabled;
    InvRun(states, steps, i);
    LiveStep(states[i], steps[i]);
  }

  /** A listener that was replaced or removed while warming, or that has left the active list, never
      becomes active or warming again in any later state; so it becomes active at most once. */
  lemma {:induction false} GoneForGood(states: seq<System>, steps: seq<Step>, i: nat, j: nat, tag: nat)
    requires IsRun(states, steps) && Init(states[0]) && i <= j < |states|
    requires tag < states[i].nextTag && tag !in Live(states[i])
    ensures tag < states[j].nextTag && tag !in Live(states[j])
  {
    hide Inv, Live, Apply, Enabled;
    if i < j {
      GoneForGood(states, steps, i, j - 1, tag);
      InvRun(states, steps, j - 1);
      LiveStep(states[j - 1], steps[j - 1]);
    }
  }

  /** The bookkeeping that every main-thread operation leaves exact, in every state of every run. */
  lemma Bookkeeping(states: seq<System>, steps: seq<Step>, i: nat)
    requires IsRun(states, steps) && Init(states[0]) && i < |states|
    ensures var s := states[i];
            && DistinctNames(s.active) && DistinctNames(WarmingListeners(s.warming))
            && (forall l, x :: l in s.active && x in WarmingListeners(s.warming) && l.name == x.name ==>
                  l.address == x.address && l.socket == x.socket)
            && (!s.started ==> s.warming == [] && s.draining == [])
            && s.stats.activeGauge == |s.active| && s.stats.warmingGauge == |s.warming|
            && s.stats.drainingGauge == |s.draining|
            && s.stats.added - s.stats.removed == |Names(s)|
  {
    InvRun(states, steps, i);
  }

  /** From its first tick to its end a drain has between one and `drainTime` ticks; until the last
      tick it waits for all workers, afterwards for exactly those whose removal is still queued or
      whose confirmation main has not handled, and never for none. */
  lemma DrainAccounting(states: seq<System>, steps: seq<Step>, i: nat, d: Draining)
    requires IsRun(states, steps) && Init(states[0]) && i < |states| && d in states[i].draining
    ensures var s := states[i];
            && 1 <= d.ticks <= s.drainTime && 1 <= d.pending <= |s.workers|
            && (d.ticks < s.drainTime ==> d.pending == |s.workers| && OutstandingWorkers(s, d.l.tag) == {})
            && (d.ticks == s.drainTime ==> d.pending == |OutstandingWorkers(s, d.l.tag)|)
  {
    InvRun(states, steps, i);
    var s := states[i];
    assert PendingExact(s, d);
    var k :| 0 <= k < |s.draining| && s.draining[k] == d;
    FindTagAt(s.draining, k);
    assert d.l.tag in DrainingTags(s.draining);
    if d.ticks < s.drainTime {
      NoneOutstanding(s, d.l.tag);
    } else {
      OutstandingBound(s, d.l.tag);
    }
  }

  lemma NoneOutstanding(s: System, tag: nat)
    requires Core(s) && PhaseOf(s, tag) == IsDraining(false)
    ensures OutstandingWorkers(s, tag) == {}
  {
    forall w: nat | w < |s.workers|
      ensures !Outstanding(Queued(s.workers[w].queue, tag), Posted(s.completions, w, tag))
    {
      assert InOrder(s, w, tag);
      PipelineBeforeRemoval(Queued(s.workers[w].queue, tag), Posted(s.completions, w, tag),
                            tag in HandlerTags(s.workers[w].handler));
    }
  }

  lemma PipelineBeforeRemoval(q: seq<Mark>, m: seq<Mark>, h: bool)
    requires Pipeline(IsDraining(false), q, m, h)
    ensures !Outstanding(q, m)
  {
  }

  lemma OutstandingBound(s: System, tag: nat)
    ensures |OutstandingWorkers(s, tag)| <= |s.workers|
  {
    assert OutstandingWorkers(s, tag) <= Below(|s.workers|);
    SubsetSize(OutstandingWorkers(s, tag), Below(|s.workers|));
  }

  lemma {:induction false} SubsetSize(a: set<nat>, b: set<nat>)
    requires a <= b
    ensures |a| <= |b|
  {
    if a != {} {
      var x :| x in a;
      SubsetSize(a - {x}, b - {x});
    }
  }
}
