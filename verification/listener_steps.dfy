/** Every operation of the listener life cycle keeps the invariant. */
module ListenerSteps {
  import opened Common
  import opened ListenerModel
  import opened ListenerSafety

  // ---------- lists ----------

  lemma TagsErase(ls: seq<Listener>, i: nat)
    requires DistinctTags(ls) && i < |ls|
    ensures Tags(Erase(ls, i)) == Tags(ls) - {ls[i].tag}
    ensures DistinctTags(Erase(ls, i))
  {
    var e := Erase(ls, i);
    forall t | t in Tags(ls) && t != ls[i].tag ensures t in Tags(e) {
      var k :| 0 <= k < |ls| && ls[k].tag == t;
      assert e[if k < i then k else k - 1] == ls[k];
    }
    forall t | t in Tags(e) ensures t in Tags(ls) && t != ls[i].tag {
      var k :| 0 <= k < |e| && e[k].tag == t;
    }
  }

  lemma TagsUpdate(ls: seq<Listener>, i: nat, l: Listener)
    requires DistinctTags(ls) && i < |ls|
    ensures Tags(ls[i := l]) == Tags(ls) - {ls[i].tag} + {l.tag}
    ensures l.tag !in Tags(ls) ==> DistinctTags(ls[i := l])
  {
    var u := ls[i := l];
    assert forall k :: 0 <= k < |ls| ==> ls[k].tag in Tags(ls);
    forall t | t in Tags(ls) && t != ls[i].tag ensures t in Tags(u) {
      var k :| 0 <= k < |ls| && ls[k].tag == t;
      assert u[k].tag == t;
    }
    assert u[i].tag in Tags(u);
    forall t | t in Tags(u) ensures t in Tags(ls) - {ls[i].tag} + {l.tag} {
      var k :| 0 <= k < |ls| && u[k].tag == t;
    }
  }

  lemma TagsAppend(ls: seq<Listener>, l: Listener)
    ensures Tags(ls + [l]) == Tags(ls) + {l.tag}
    ensures DistinctTags(ls) && l.tag !in Tags(ls) ==> DistinctTags(ls + [l])
  {
    assert forall k :: 0 <= k < |ls| ==> ls[k].tag in Tags(ls);
    assert l in ls + [l];
    forall t | t in Tags(ls) ensures t in Tags(ls + [l]) {
      var k :| 0 <= k < |ls| && ls[k].tag == t;
      assert ls[k] in ls + [l];
    }
  }

  lemma WarmingEdit(ws: seq<Warming>, j: nat, x: Warming)
    ensures j < |ws| ==> WarmingListeners(Erase(ws, j)) == Erase(WarmingListeners(ws), j)
    ensures j < |ws| ==> WarmingListeners(ws[j := x]) == WarmingListeners(ws)[j := x.l]
    ensures WarmingListeners(ws + [x]) == WarmingListeners(ws) + [x.l]
  {
  }

  // ---------- posting ----------

  lemma PostedTask(ws: seq<Worker>, t: Task, w: nat, tag: nat)
    requires w < |ws|
    ensures Queued(PostAll(ws, t)[w].queue, tag) == Queued(ws[w].queue, tag) + TaskMarks(t, tag)
    ensures PostAll(ws, t)[w].handler == ws[w].handler
  {
    QueuedConcat(ws[w].queue, [t], tag);
    QueuedOne(t, tag);
  }

  // ---------- draining ----------

  /** Drain changes the queues and the draining list and nothing else. */
  lemma DrainShape(s: System, l: Listener)
    requires s.drainTime >= 1
    ensures var r := Drain(s, l);
            && r.draining == [Draining(l, |s.workers|, 1)] + s.draining
            && |r.workers| == |s.workers|
            && r.completions == s.completions && r.active == s.active && r.warming == s.warming
            && r.started == s.started && r.nextTag == s.nextTag && r.drainTime == s.drainTime
            && r.failed == s.failed && r.nextSocket == s.nextSocket
            && r.stats == s.stats.(drainingGauge := |s.draining| + 1)
  {
    var ds := [Draining(l, |s.workers|, 0)] + s.draining;
    assert ds[0 := Draining(l, |s.workers|, 1)] == [Draining(l, |s.workers|, 1)] + s.draining;
  }

  lemma DrainQueues(s: System, l: Listener, w: nat, tag: nat)
    requires s.drainTime >= 1 && w < |s.workers|
    ensures var r := Drain(s, l);
            && |r.workers| == |s.workers|
            && r.workers[w].handler == s.workers[w].handler
            && Queued(r.workers[w].queue, tag)
               == if tag != l.tag then Queued(s.workers[w].queue, tag)
                  else Queued(s.workers[w].queue, tag) + [Stop]
                       + if s.drainTime == 1 then [Remove] else []
  {
    PostedTask(s.workers, StopTask(l.tag), w, tag);
    PostedTask(PostAll(s.workers, StopTask(l.tag)), RemoveTask(l.tag), w, tag);
  }

  lemma FindTagCons(d: Draining, ds: seq<Draining>, tag: nat)
    ensures FindTag([d] + ds, tag) == if d.l.tag == tag then 0 else 1 + FindTag(ds, tag)
  {
    assert ([d] + ds)[1..] == ds;
  }

  lemma DrainingTagsCons(d: Draining, ds: seq<Draining>)
    ensures DrainingTags([d] + ds) == DrainingTags(ds) + {d.l.tag}
  {
    assert d in [d] + ds;
    assert forall x :: x in ds ==> x in [d] + ds;
  }

  /** Putting a listener from elsewhere at the front of the draining list keeps its tags distinct. */
  lemma DrainingFront(ds: seq<Draining>, d: Draining)
    requires DistinctDraining(ds) && d.l.tag !in DrainingTags(ds)
    ensures DrainingTags([d] + ds) == DrainingTags(ds) + {d.l.tag}
    ensures DistinctDraining([d] + ds)
  {
    DrainingTagsCons(d, ds);
    var r := [d] + ds;
    assert forall i :: 0 <= i < |ds| ==> ds[i].l.tag in DrainingTags(ds);
    forall i, j | 0 <= i < j < |r| ensures r[i].l.tag != r[j].l.tag {
      assert r[j] == ds[j - 1];
      if i > 0 {
        assert r[i] == ds[i - 1];
      }
    }
  }

  lemma FindTagMember(ds: seq<Draining>, tag: nat)
    ensures FindTag(ds, tag) < |ds| <==> tag in DrainingTags(ds)
  {
    if tag in DrainingTags(ds) {
      var k :| 0 <= k < |ds| && ds[k].l.tag == tag;
    }
  }

  /** The workers that a freshly completed drain waits for are all of them. */
  lemma AllOutstanding(s: System, tag: nat)
    requires forall w :: 0 <= w < |s.workers| ==>
               Outstanding(Queued(s.workers[w].queue, tag), Posted(s.completions, w, tag))
    ensures |OutstandingWorkers(s, tag)| == |s.workers|
  {
    assert OutstandingWorkers(s, tag) == Below(|s.workers|);
  }

  /** The first n worker indices. */
  ghost function Below(n: nat): (r: set<nat>)
    ensures forall w: nat :: w in r <==> w < n
    ensures |r| == n
  {
    if n == 0 then {} else Below(n - 1) + {n - 1}
  }

  // ---------- the lists after replacing, dropping or appending ----------

  ghost predicate Relisted(s: System, r: System, out: Option<Listener>, incoming: Option<Listener>) {
    && r.drainTime == s.drainTime
    && Tags(r.active) == Tags(s.active) - (if out.Some? then {out.value.tag} else {})
                         + (if incoming.Some? then {incoming.value.tag} else {})
    && r.draining == if out.Some? then [Draining(out.value, |s.workers|, 1)] + s.draining
                     else s.draining
  }

  /** The tasks about `tag` after `incoming` is posted to every worker and then `out` is drained. */
  ghost function QueuedAfter(s: System, out: Option<Listener>, incoming: Option<Listener>, w: nat, tag: nat)
    : seq<Mark>
    requires w < |s.workers|
  {
    var q := Queued(s.workers[w].queue, tag);
    if incoming.Some? && tag == incoming.value.tag then q + [Add]
    else if out.Some? && tag == out.value.tag then
      q + [Stop] + if s.drainTime == 1 then [Remove] else []
    else q
  }

  /** What an edit of the active list that retires `out` (if any) and admits `incoming` (if any) does to
      the phase of every listener, given that the retired one is put at the front of draining. */
  ghost predicate Retired(s: System, r: System, out: Option<Listener>, incoming: Option<Listener>) {
    && |r.workers| == |s.workers| && r.completions == s.completions
    && r.started == s.started && r.nextTag == s.nextTag
    && Relisted(s, r, out, incoming)
    && (forall w :: 0 <= w < |s.workers| ==> r.workers[w].handler == s.workers[w].handler)
    && (forall w, tag: nat :: 0 <= w < |s.workers| ==>
          Queued(r.workers[w].queue, tag) == QueuedAfter(s, out, incoming, w, tag))
  }

  lemma RetiredInOrder(s: System, r: System, out: Option<Listener>, incoming: Option<Listener>)
    requires Core(s) && Retired(s, r, out, incoming)
    requires out.Some? ==> out.value in s.active
    requires incoming.Some? ==> incoming.value.tag in Tags(WarmingListeners(s.warming))
    ensures forall w, tag: nat :: 0 <= w < |r.workers| ==> InOrder(r, w, tag)
    ensures forall d :: d in r.draining ==> PendingExact(r, d)
  {
    if out.Some? {
      assert out.value.tag in Tags(s.active);
    }
    forall w, tag: nat | 0 <= w < |r.workers| ensures InOrder(r, w, tag) {
      RetiredOne(s, r, out, incoming, w, tag);
    }
    forall d | d in r.draining ensures PendingExact(r, d) {
      RetiredPending(s, r, out, incoming, d);
    }
  }

  /** A tag is in at most one of the lists. */
  lemma Apart(s: System, tag: nat)
    requires Ownership(s)
    ensures tag in Tags(s.active) ==> tag !in Tags(WarmingListeners(s.warming)) && tag !in DrainingTags(s.draining)
    ensures tag in Tags(WarmingListeners(s.warming)) ==> tag !in DrainingTags(s.draining)
  {
  }

  /** The phase of a listener that is not active, from the draining list alone. */
  ghost function DrainPhase(ds: seq<Draining>, drainTime: nat, tag: nat): Phase {
    var k := FindTag(ds, tag);
    if k < |ds| then IsDraining(ds[k].ticks >= drainTime) else NotOnWorkers
  }

  lemma PhaseIs(s: System, tag: nat)
    ensures PhaseOf(s, tag) == if tag in Tags(s.active) then IsActive else DrainPhase(s.draining, s.drainTime, tag)
  {
  }

  lemma DrainPhaseCons(d: Draining, ds: seq<Draining>, drainTime: nat, tag: nat)
    ensures DrainPhase([d] + ds, drainTime, tag)
            == if tag == d.l.tag then IsDraining(d.ticks >= drainTime) else DrainPhase(ds, drainTime, tag)
  {
    FindTagCons(d, ds, tag);
  }

  lemma DrainPhaseNone(ds: seq<Draining>, drainTime: nat, tag: nat)
    ensures DrainPhase(ds, drainTime, tag) == NotOnWorkers <==> tag !in DrainingTags(ds)
  {
    FindTagMember(ds, tag);
  }

  lemma RetiredPhase(s: System, r: System, out: Option<Listener>, incoming: Option<Listener>, tag: nat)
    requires Ownership(s) && Relisted(s, r, out, incoming)
    requires out.Some? ==> out.value.tag in Tags(s.active)
    requires incoming.Some? ==> incoming.value.tag in Tags(WarmingListeners(s.warming))
    ensures PhaseOf(r, tag) ==
            if incoming.Some? && tag == incoming.value.tag then IsActive
            else if out.Some? && tag == out.value.tag then IsDraining(s.drainTime <= 1)
            else PhaseOf(s, tag)
    ensures incoming.Some? && tag == incoming.value.tag ==> PhaseOf(s, tag) == NotOnWorkers
    ensures out.Some? && tag == out.value.tag ==> PhaseOf(s, tag) == IsActive
  {
    hide Owned, Ownership, PhaseOf, Tags, DrainPhase, FindTag, DrainingTags, WarmingListeners;
    Apart(s, tag);
    PhaseIs(s, tag);
    PhaseIs(r, tag);
    DrainPhaseNone(s.draining, s.drainTime, tag);
    if out.Some? {
      DrainPhaseCons(Draining(out.value, |s.workers|, 1), s.draining, s.drainTime, tag);
    }
  }

  lemma RetiredOne(s: System, r: System, out: Option<Listener>, incoming: Option<Listener>,
                   w: nat, tag: nat)
    requires Core(s) && Retired(s, r, out, incoming) && w < |r.workers|
    requires out.Some? ==> out.value.tag in Tags(s.active)
    requires incoming.Some? ==> incoming.value.tag in Tags(WarmingListeners(s.warming))
    ensures InOrder(r, w, tag)
  {
    assert InOrder(s, w, tag);
    RetiredPhase(s, r, out, incoming, tag);
    var q := Queued(s.workers[w].queue, tag);
    var m := Posted(s.completions, w, tag);
    var h := tag in HandlerTags(s.workers[w].handler);
    if incoming.Some? && tag == incoming.value.tag {
      PipelineAdd(q, m, h);
    } else if out.Some? && tag == out.value.tag {
      PipelineStop(q, m, h);
      if s.drainTime == 1 {
        PipelineRemove(q + [Stop], m, h);
      } else {
        assert q + [Stop] + [] == q + [Stop];
      }
    }
  }

  lemma RetiredPending(s: System, r: System, out: Option<Listener>, incoming: Option<Listener>, d: Draining)
    requires Core(s) && Retired(s, r, out, incoming) && d in r.draining
    requires out.Some? ==> out.value.tag in Tags(s.active)
    requires incoming.Some? ==> incoming.value.tag in Tags(WarmingListeners(s.warming))
    ensures PendingExact(r, d)
  {
    if out.Some? && d == Draining(out.value, |s.workers|, 1) {
      if s.drainTime == 1 {
        forall w | 0 <= w < |r.workers|
          ensures Outstanding(Queued(r.workers[w].queue, d.l.tag), Posted(r.completions, w, d.l.tag))
        {
          RetiredOutstanding(s, r, out, incoming, w);
        }
        AllOutstanding(r, d.l.tag);
      }
    } else {
      assert d in s.draining;
      assert d.l.tag in DrainingTags(s.draining);
      assert PendingExact(s, d);
      SameOutstanding(s, r, d.l.tag);
    }
  }

  lemma RetiredOutstanding(s: System, r: System, out: Option<Listener>, incoming: Option<Listener>, w: nat)
    requires Core(s) && Retired(s, r, out, incoming) && w < |r.workers|
    requires out.Some? && out.value.tag in Tags(s.active) && s.drainTime == 1
    requires incoming.Some? ==> incoming.value.tag in Tags(WarmingListeners(s.warming))
    ensures Outstanding(Queued(r.workers[w].queue, out.value.tag),
                        Posted(r.completions, w, out.value.tag))
  {
    var tag := out.value.tag;
    assert InOrder(s, w, tag);
    RetiredPhase(s, r, out, incoming, tag);
    var q := Queued(s.workers[w].queue, tag);
    PipelineStop(q, Posted(s.completions, w, tag), tag in HandlerTags(s.workers[w].handler));
    PipelineRemove(q + [Stop], Posted(s.completions, w, tag), tag in HandlerTags(s.workers[w].handler));
  }

  lemma SameOutstanding(s: System, r: System, tag: nat)
    requires |r.workers| == |s.workers|
    requires forall w :: 0 <= w < |s.workers| ==>
               Outstanding(Queued(r.workers[w].queue, tag), Posted(r.completions, w, tag))
               == Outstanding(Queued(s.workers[w].queue, tag), Posted(s.completions, w, tag))
    ensures OutstandingWorkers(r, tag) == OutstandingWorkers(s, tag)
  {
  }
}
