/** Draining ends: without new configuration, every run of drain ticks, init-target completions and
    queued closures is finite, and where it cannot go on every drained listener has been erased. */
module ListenerProgress {
  import opened Common
  import opened ListenerModel
  import opened ListenerSafety
  import opened ListenerSteps
  import opened ListenerWarm
  import opened ListenerQueues
  import opened ListenerInvariant

  /** The steps the server takes by itself; an init target reports to a listener that awaits it. */
  ghost predicate Internal(s: System, step: Step) {
    match step
    case TickStep(_) => true
    case WorkerStep(_, _) => true
    case MainStep => true
    case TargetStep(tag, target) =>
      var j := WarmingTagIndex(s.warming, tag);
      j < |s.warming| && target in s.warming[j].targets
    case _ => false
  }

  // ---------- the measure: work that is queued, and work that may still be caused ----------

  function TaskCost(t: Task): nat {
    match t
    case AddTask(_) => 2
    case RemoveTask(_) => 2
    case _ => 1
  }

  function QueueCost(q: seq<Task>): nat {
    if q == [] then 0 else TaskCost(q[0]) + QueueCost(q[1..])
  }

  function WorkersCost(ws: seq<Worker>): nat {
    if ws == [] then 0 else QueueCost(ws[0].queue) + WorkersCost(ws[1..])
  }

  /** Draining an active listener posts a stop and a remove per worker and takes all the ticks. */
  function ActiveCost(n: nat, drainTime: nat): nat {
    3 * n + drainTime + 1
  }

  function DrainingCost(ds: seq<Draining>, n: nat, drainTime: nat): nat {
    if ds == [] then 0
    else (if ds[0].ticks < drainTime then drainTime - ds[0].ticks + 2 * n else 0)
         + DrainingCost(ds[1..], n, drainTime)
  }

  function WarmingCost(ws: seq<Warming>, n: nat, drainTime: nat): nat {
    if ws == [] then 0
    else |ws[0].targets| + 2 * n + ActiveCost(n, drainTime) + WarmingCost(ws[1..], n, drainTime)
  }

  function ActivesCost(ls: seq<Listener>, n: nat, drainTime: nat): nat {
    if ls == [] then 0 else ActiveCost(n, drainTime) + ActivesCost(ls[1..], n, drainTime)
  }

  function Measure(s: System): nat {
    ActivesCost(s.active, |s.workers|, s.drainTime)
    + WarmingCost(s.warming, |s.workers|, s.drainTime)
    + DrainingCost(s.draining, |s.workers|, s.drainTime)
    + WorkersCost(s.workers) + |s.completions|
  }

  // ---------- how the parts of the measure change ----------

  lemma {:induction false} QueueCostAppend(q: seq<Task>, t: Task)
    ensures QueueCost(q + [t]) == QueueCost(q) + TaskCost(t)
  {
    if q == [] {
      assert [] + [t] == [t] && [t][1..] == [];
    } else {
      assert (q + [t])[1..] == q[1..] + [t];
      QueueCostAppend(q[1..], t);
    }
  }

  lemma {:induction false} WorkersCostUpdate(ws: seq<Worker>, w: nat, x: Worker)
    requires w < |ws|
    ensures WorkersCost(ws[w := x]) == WorkersCost(ws) - QueueCost(ws[w].queue) + QueueCost(x.queue)
  {
    if w == 0 {
      assert ws[w := x][1..] == ws[1..];
    } else {
      assert ws[w := x][1..] == ws[1..][w - 1 := x];
      WorkersCostUpdate(ws[1..], w - 1, x);
    }
  }

  lemma {:induction false} WorkersCostPost(ws: seq<Worker>, t: Task)
    ensures WorkersCost(PostAll(ws, t)) == WorkersCost(ws) + if TaskCost(t) == 2 then 2 * |ws| else |ws|
  {
    if ws != [] {
      var r := PostAll(ws, t);
      assert r[1..] == PostAll(ws[1..], t);
      QueueCostAppend(ws[0].queue, t);
      WorkersCostPost(ws[1..], t);
    }
  }

  lemma {:induction false} DrainingCostUpdate(ds: seq<Draining>, k: nat, d: Draining, n: nat, time: nat)
    requires k < |ds|
    ensures DrainingCost(ds[k := d], n, time) + DrainingCost([ds[k]], n, time)
            == DrainingCost(ds, n, time) + DrainingCost([d], n, time)
    ensures DrainingCost(Erase(ds, k), n, time) + DrainingCost([ds[k]], n, time)
            == DrainingCost(ds, n, time)
  {
    assert [d][1..] == [] && [ds[k]][1..] == [];
    if k == 0 {
      assert ds[k := d][1..] == ds[1..];
      assert Erase(ds, k) == ds[1..];
    } else {
      assert ds[k := d][1..] == ds[1..][k - 1 := d];
      assert Erase(ds, k)[1..] == Erase(ds[1..], k - 1);
      DrainingCostUpdate(ds[1..], k - 1, d, n, time);
    }
  }

  lemma {:induction false} WarmingCostUpdate(ws: seq<Warming>, j: nat, x: Warming, n: nat, time: nat)
    requires j < |ws|
    ensures WarmingCost(ws[j := x], n, time) + |ws[j].targets| == WarmingCost(ws, n, time) + |x.targets|
    ensures WarmingCost(Erase(ws, j), n, time) + |ws[j].targets| + 2 * n + ActiveCost(n, time)
            == WarmingCost(ws, n, time)
  {
    if j == 0 {
      assert ws[j := x][1..] == ws[1..];
      assert Erase(ws, j) == ws[1..];
    } else {
      assert ws[j := x][1..] == ws[1..][j - 1 := x];
      assert Erase(ws, j)[1..] == Erase(ws[1..], j - 1);
      WarmingCostUpdate(ws[1..], j - 1, x, n, time);
    }
  }

  lemma {:induction false} ActivesCostSize(ls: seq<Listener>, ls': seq<Listener>, n: nat, time: nat)
    ensures |ls| == |ls'| ==> ActivesCost(ls, n, time) == ActivesCost(ls', n, time)
    ensures |ls'| == |ls| + 1 ==> ActivesCost(ls', n, time) == ActivesCost(ls, n, time) + ActiveCost(n, time)
  {
    if ls != [] && ls' != [] {
      ActivesCostSize(ls[1..], ls'[1..], n, time);
    } else if |ls'| == 1 {
      assert ls'[1..] == [];
    }
  }

  // ---------- operations ----------

  /** Draining costs less than the active listener it takes away. */
  lemma DrainMeasure(s: System, l: Listener)
    requires s.drainTime >= 1
    ensures var r := Drain(s, l);
            && |r.workers| == |s.workers|
            && DrainingCost(r.draining, |r.workers|, r.drainTime) + WorkersCost(r.workers)
               < DrainingCost(s.draining, |s.workers|, s.drainTime) + WorkersCost(s.workers)
                 + ActiveCost(|s.workers|, s.drainTime)
  {
    DrainShape(s, l);
    var r := Drain(s, l);
    var d := Draining(l, |s.workers|, 1);
    assert ([d] + s.draining)[1..] == s.draining;
    WorkersCostPost(s.workers, StopTask(l.tag));
    WorkersCostPost(PostAll(s.workers, StopTask(l.tag)), RemoveTask(l.tag));
  }

  lemma RemoveMeasure(s: System, name: string)
    requires s.drainTime >= 1
    ensures Measure(RemoveListener(s, name).0) <= Measure(s)
  {
    RemoveFields(s, name);
    var r := RemoveListener(s, name).0;
    var i := FindName(s.active, name);
    var j := FindName(WarmingListeners(s.warming), name);
    var s1 := if j < |s.warming| then s.(warming := Erase(s.warming, j)) else s;
    if j < |s.warming| {
      WarmingCostUpdate(s.warming, j, s.warming[j], |s.workers|, s.drainTime);
    }
    if i < |s.active| {
      DrainMeasure(s1, s.active[i]);
      ActivesCostSize(Erase(s.active, i), s.active, |s.workers|, s.drainTime);
    }
  }

  lemma WarmedWorkers(s: System, l: Listener)
    requires FindName(WarmingListeners(s.warming), l.name) < |s.warming|
    ensures var s1 := s.(workers := PostAll(s.workers, AddTask(l)));
            Warmed(s, l).workers == if VersionOf(s, l.name).Some? then Drain(s1, VersionOf(s, l.name).value).workers
                                    else s1.workers
  {
  }

  lemma WarmedLoad(s: System, l: Listener, j: nat)
    requires s.drainTime >= 1
    requires FindName(WarmingListeners(s.warming), l.name) == j < |s.warming| && s.warming[j].l == l
    ensures var r := Warmed(s, l);
            DrainingCost(r.draining, |r.workers|, r.drainTime) + WorkersCost(r.workers)
            <= DrainingCost(s.draining, |s.workers|, s.drainTime) + WorkersCost(s.workers) + 2 * |s.workers|
               + if VersionOf(s, l.name).Some? then ActiveCost(|s.workers|, s.drainTime) else 0
  {
    WarmedFields(s, l, j);
    WarmedWorkers(s, l);
    WorkersCostPost(s.workers, AddTask(l));
    hide Warmed;
    var s1 := s.(workers := PostAll(s.workers, AddTask(l)));
    var i := FindName(s.active, l.name);
    if i < |s.active| {
      DrainMeasure(s1, s.active[i]);
      DrainShape(s1, s.active[i]);
      hide Drain;
    }
  }

  lemma WarmedMeasure(s: System, j: nat)
    requires Core(s) && j < |s.warming|
    ensures FindName(WarmingListeners(s.warming), s.warming[j].l.name) == j
    ensures Measure(Warmed(s, s.warming[j].l)) + |s.warming[j].targets| <= Measure(s)
  {
    WarmedIsFoundByName(s, j);
    var l := s.warming[j].l;
    WarmedFields(s, l, j);
    WarmedLoad(s, l, j);
    hide Core, Warmed;
    WarmingCostUpdate(s.warming, j, s.warming[j], |s.workers|, s.drainTime);
    ActivesCostSize(s.active, Warmed(s, l).active, |s.workers|, s.drainTime);
  }

  lemma TargetMeasure(s: System, tag: nat, target: nat)
    requires Core(s) && Internal(s, TargetStep(tag, target))
    ensures Measure(TargetDone(s, tag, target)) < Measure(s)
  {
    hide Core;
    var j := WarmingTagIndex(s.warming, tag);
    var rest := s.warming[j].targets - {target};
    if rest != {} {
      WarmingCostUpdate(s.warming, j, Warming(s.warming[j].l, rest), |s.workers|, s.drainTime);
    } else {
      WarmedMeasure(s, j);
    }
  }

  lemma TickMeasure(s: System, k: nat)
    requires k < |s.draining| && s.draining[k].ticks < s.drainTime
    ensures Measure(Tick(s, k)) < Measure(s)
  {
    var d := s.draining[k].(ticks := s.draining[k].ticks + 1);
    DrainingCostUpdate(s.draining, k, d, |s.workers|, s.drainTime);
    assert [d][1..] == [] && [s.draining[k]][1..] == [];
    WorkersCostPost(s.workers, RemoveTask(d.l.tag));
  }

  lemma WorkerMeasure(s: System, w: nat, ok: bool)
    requires w < |s.workers| && s.workers[w].queue != []
    ensures Measure(WorkerRun(s, w, ok)) < Measure(s)
  {
    var t := s.workers[w].queue[0];
    WorkersCostUpdate(s.workers, w,
                      Worker(s.workers[w].queue[1..], RunTask(s.workers[w].handler, t, ok)));
  }

  lemma CompletionMeasure(s: System)
    requires s.completions != []
    ensures Measure(s.(completions := s.completions[1..])) + 1 == Measure(s)
  {
  }

  lemma ConfirmMeasure(s: System, tag: nat)
    requires FindTag(s.draining, tag) < |s.draining|
    ensures Measure(ConfirmRemoval(s, tag)) <= Measure(s)
  {
    var k := FindTag(s.draining, tag);
    var d := s.draining[k].(pending := Decrement(s.draining[k].pending));
    DrainingCostUpdate(s.draining, k, d, |s.workers|, s.drainTime);
    assert [d][1..] == [] && [s.draining[k]][1..] == [];
  }

  lemma FailureMeasure(s: System, l: Listener)
    ensures Measure(FailureNoted(s, l)) == Measure(s)
  {
  }

  lemma AddDoneMeasure(s: System)
    requires s.drainTime >= 1 && s.completions != [] && s.completions[0].AddDone?
    ensures Measure(MainRun(s)) < Measure(s)
  {
    hide Measure, RemoveListener;
    CompletionMeasure(s);
    var s1 := s.(completions := s.completions[1..]);
    var l := s.completions[0].l;
    if s.completions[0].success {
      StatsMeasure(s1, MainRun(s));
    } else if l.tag !in s.failed {
      FailureMeasure(s1, l);
      RemoveMeasure(FailureNoted(s1, l), l.name);
    }
  }

  lemma MainMeasure(s: System)
    requires Core(s) && s.completions != []
    ensures Measure(MainRun(s)) < Measure(s)
  {
    if s.completions[0].AddDone? {
      AddDoneMeasure(s);
    } else {
      RemoveDoneEntry(s);
      hide Core, Measure, ConfirmRemoval;
      CompletionMeasure(s);
      ConfirmMeasure(s.(completions := s.completions[1..]), s.completions[0].tag);
    }
  }

  lemma StatsMeasure(s: System, r: System)
    requires r == s.(stats := r.stats)
    ensures Measure(r) == Measure(s)
  {
  }

  /** Every internal step uses up some of the measure. */
  lemma InternalDecreases(s: System, step: Step)
    requires Inv(s) && Enabled(s, step) && Internal(s, step)
    ensures Measure(Apply(s, step)) < Measure(s)
  {
    hide Core, Measure, Tick, MainRun, TargetDone, WorkerRun;
    match step
    case TargetStep(tag, target) => TargetMeasure(s, tag, target);
    case TickStep(k) => TickMeasure(s, k);
    case WorkerStep(w, ok) => WorkerMeasure(s, w, ok);
    case MainStep => MainMeasure(s);
  }

  /** Without new configuration the server takes at most `Measure` steps by itself. */
  lemma {:induction false} InternalRunIsBounded(states: seq<System>, steps: seq<Step>, from: nat, to: nat)
    requires IsRun(states, steps) && Init(states[0]) && from <= to < |states|
    requires forall i :: from <= i < to ==> Internal(states[i], steps[i])
    ensures to - from <= Measure(states[from]) - Measure(states[to])
  {
    hide Inv, Measure, Apply, Enabled, Internal;
    if from < to {
      InternalRunIsBounded(states, steps, from, to - 1);
      InvRun(states, steps, to - 1);
      InternalDecreases(states[to - 1], steps[to - 1]);
    }
  }

  /** Where no internal step is possible, all queues are empty, nothing is warming, and every
      listener that was ever drained has been erased. */
  lemma QuiescentMeansErased(states: seq<System>, steps: seq<Step>, i: nat)
    requires IsRun(states, steps) && Init(states[0]) && i < |states|
    requires forall step :: Enabled(states[i], step) ==> !Internal(states[i], step)
    ensures var s := states[i];
            && s.completions == [] && s.draining == [] && s.warming == []
            && forall w :: 0 <= w < |s.workers| ==> s.workers[w].queue == []
  {
    var s := states[i];
    InvRun(states, steps, i);
    assert !Enabled(s, MainStep) by {
      assert Internal(s, MainStep);
    }
    if s.warming != [] {
      assert s.warming[0] in s.warming;
      var target :| target in s.warming[0].targets;
      assert Internal(s, TargetStep(s.warming[0].l.tag, target));
      assert Enabled(s, TargetStep(s.warming[0].l.tag, target));
    }
    forall w: nat | w < |s.workers| ensures s.workers[w].queue == [] {
      assert Internal(s, WorkerStep(w, true));
    }
    if s.draining != [] {
      DrainingHasWork(s);
    }
  }

  /** A draining listener always has a tick or a queued closure ahead of it. */
  lemma DrainingHasWork(s: System)
    requires Inv(s) && s.draining != []
    ensures Enabled(s, TickStep(0)) || s.completions != []
            || exists w :: 0 <= w < |s.workers| && s.workers[w].queue != []
    ensures Internal(s, TickStep(0))
  {
    var d := s.draining[0];
    assert PendingExact(s, d);
    if d.ticks >= s.drainTime {
      assert OutstandingWorkers(s, d.l.tag) != {};
      var w :| w in OutstandingWorkers(s, d.l.tag);
      assert Queued(s.workers[w].queue, d.l.tag) != [] || Posted(s.completions, w, d.l.tag) != [];
    }
  }
}
