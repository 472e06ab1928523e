/** Warming up, removing and draining keep the invariant. */
module ListenerWarm {
  import opened Common
  import opened ListenerModel
  import opened ListenerSafety
  import opened ListenerSteps

  // ---------- names ----------

  lemma FindNameMember(ls: seq<Listener>, name: string)
    ensures FindName(ls, name) < |ls| <==> name in NamesOf(ls)
  {
    if name in NamesOf(ls) {
      var k :| 0 <= k < |ls| && ls[k].name == name;
    }
  }

  lemma FindNameAt(ls: seq<Listener>, i: nat)
    requires DistinctNames(ls) && i < |ls|
    ensures FindName(ls, ls[i].name) == i
  {
  }

  lemma NamesEdit(ls: seq<Listener>, i: nat, l: Listener)
    requires DistinctNames(ls) && i < |ls|
    ensures NamesOf(Erase(ls, i)) == NamesOf(ls) - {ls[i].name}
    ensures DistinctNames(Erase(ls, i))
    ensures l.name == ls[i].name ==> NamesOf(ls[i := l]) == NamesOf(ls) && DistinctNames(ls[i := l])
  {
    var e := Erase(ls, i);
    forall n | n in NamesOf(ls) && n != ls[i].name ensures n in NamesOf(e) {
      var k :| 0 <= k < |ls| && ls[k].name == n;
      assert ls[k] == e[if k < i then k else k - 1];
    }
    forall n | n in NamesOf(e) ensures n in NamesOf(ls) && n != ls[i].name {
      var k :| 0 <= k < |e| && e[k].name == n;
    }
    if l.name == ls[i].name {
      var u := ls[i := l];
      forall n | n in NamesOf(ls) ensures n in NamesOf(u) {
        var k :| 0 <= k < |ls| && ls[k].name == n;
        assert u[k].name == n;
      }
      forall n | n in NamesOf(u) ensures n in NamesOf(ls) {
        var k :| 0 <= k < |u| && u[k].name == n;
        assert ls[k].name == n;
      }
    }
  }

  lemma NamesAppend(ls: seq<Listener>, l: Listener)
    requires DistinctNames(ls) && l.name !in NamesOf(ls)
    ensures NamesOf(ls + [l]) == NamesOf(ls) + {l.name}
    ensures DistinctNames(ls + [l])
  {
    assert l in ls + [l];
    forall n | n in NamesOf(ls) ensures n in NamesOf(ls + [l]) {
      var k :| 0 <= k < |ls| && ls[k].name == n;
      assert ls[k] in ls + [l];
    }
    assert forall k :: 0 <= k < |ls| ==> ls[k].name in NamesOf(ls);
  }

  // ---------- moving listeners between the lists ----------

  /** A warming listener replaces an active one, which goes to the front of the draining list. */
  lemma ReplaceOwned(active: seq<Listener>, ws: seq<Listener>, ds: seq<Draining>, next: nat,
                     i: nat, j: nat, d: Draining)
    requires Owned(active, ws, ds, next) && i < |active| && j < |ws| && d.l == active[i]
    ensures Owned(active[i := ws[j]], Erase(ws, j), [d] + ds, next)
    ensures Tags(active[i := ws[j]]) == Tags(active) - {active[i].tag} + {ws[j].tag}
  {
    assert active[i].tag in Tags(active) && ws[j].tag in Tags(ws);
    TagsUpdate(active, i, ws[j]);
    TagsErase(ws, j);
    DrainingFront(ds, d);
  }

  lemma PromoteOwned(active: seq<Listener>, ws: seq<Listener>, ds: seq<Draining>, next: nat, j: nat)
    requires Owned(active, ws, ds, next) && j < |ws|
    ensures Owned(active + [ws[j]], Erase(ws, j), ds, next)
    ensures Tags(active + [ws[j]]) == Tags(active) + {ws[j].tag}
  {
    assert ws[j].tag in Tags(ws);
    TagsAppend(active, ws[j]);
    TagsErase(ws, j);
  }

  lemma RetireOwned(active: seq<Listener>, ws: seq<Listener>, ds: seq<Draining>, next: nat,
                    i: nat, d: Draining)
    requires Owned(active, ws, ds, next) && i < |active| && d.l == active[i]
    ensures Owned(Erase(active, i), ws, [d] + ds, next)
    ensures Tags(Erase(active, i)) == Tags(active) - {active[i].tag}
  {
    assert active[i].tag in Tags(active);
    TagsErase(active, i);
    DrainingFront(ds, d);
  }

  lemma DropOwned(active: seq<Listener>, ws: seq<Listener>, ds: seq<Draining>, next: nat, j: nat)
    requires Owned(active, ws, ds, next) && j < |ws|
    ensures Owned(active, Erase(ws, j), ds, next)
  {
    TagsErase(ws, j);
  }

  lemma EraseMembers<T>(s: seq<T>, i: nat)
    requires i < |s|
    ensures forall x :: x in Erase(s, i) ==> x in s
    ensures forall x :: x in s && x != s[i] ==> x in Erase(s, i)
  {
    var e := Erase(s, i);
    forall x | x in s && x != s[i] ensures x in e {
      var k :| 0 <= k < |s| && s[k] == x;
      assert e[if k < i then k else k - 1] == x;
    }
  }

  /** Where a warming listener goes: over the active version of its name, or to the end. */
  function Promoted(active: seq<Listener>, l: Listener): seq<Listener> {
    var i := FindName(active, l.name);
    if i < |active| then active[i := l] else active + [l]
  }

  lemma PromotedNames(active: seq<Listener>, l: Listener)
    requires DistinctNames(active)
    ensures DistinctNames(Promoted(active, l)) && NamesOf(Promoted(active, l)) == NamesOf(active) + {l.name}
    ensures forall a :: a in Promoted(active, l) ==> a == l || a in active
  {
    var i := FindName(active, l.name);
    FindNameMember(active, l.name);
    if i < |active| {
      NamesEdit(active, i, l);
    } else {
      NamesAppend(active, l);
    }
  }

  /** Promoting keeps the names. */
  lemma PromoteNamed(active: seq<Listener>, ws: seq<Listener>, j: nat)
    requires Named(active, ws) && j < |ws|
    ensures Named(Promoted(active, ws[j]), Erase(ws, j))
    ensures NamesOf(Promoted(active, ws[j])) + NamesOf(Erase(ws, j)) == NamesOf(active) + NamesOf(ws)
  {
    var l := ws[j];
    assert l in ws;
    assert l.name in NamesOf(ws);
    PromotedNames(active, l);
    NamesEdit(ws, j, l);
    EraseMembers(ws, j);
    hide DistinctNames, Erase, Promoted;
    forall a, x | a in Promoted(active, l) && x in Erase(ws, j) && a.name == x.name
      ensures a.address == x.address && a.socket == x.socket
    {
      assert x.name in NamesOf(Erase(ws, j));
    }
  }

  lemma RetireNamed(active: seq<Listener>, ws: seq<Listener>, i: nat)
    requires Named(active, ws) && i < |active|
    ensures Named(Erase(active, i), ws)
    ensures NamesOf(Erase(active, i)) == NamesOf(active) - {active[i].name}
  {
    NamesEdit(active, i, active[i]);
    EraseMembers(active, i);
  }

  lemma DropNamed(active: seq<Listener>, ws: seq<Listener>, j: nat)
    requires Named(active, ws) && j < |ws|
    ensures Named(active, Erase(ws, j))
    ensures NamesOf(Erase(ws, j)) == NamesOf(ws) - {ws[j].name}
  {
    NamesEdit(ws, j, ws[j]);
    EraseMembers(ws, j);
  }

  // ---------- warming up ----------

  function VersionOf(s: System, name: string): Option<Listener> {
    var i := FindName(s.active, name);
    if i < |s.active| then Some(s.active[i]) else None
  }

  /** The name lookup of the source finds the very object that has warmed up. */
  lemma WarmedIsFoundByName(s: System, j: nat)
    requires Ownership(s) && Naming(s) && j < |s.warming|
    ensures FindName(WarmingListeners(s.warming), s.warming[j].l.name) == j
    ensures WarmingTagIndex(s.warming, s.warming[j].l.tag) == j
  {
    var ws := WarmingListeners(s.warming);
    FindNameAt(ws, j);
    var k := WarmingTagIndex(s.warming, s.warming[j].l.tag);
    assert ws[k].tag == ws[j].tag;
  }

  lemma WarmedQueues(s: System, l: Listener, w: nat, tag: nat)
    requires s.drainTime >= 1 && w < |s.workers|
    requires FindName(WarmingListeners(s.warming), l.name) < |s.warming|
    requires VersionOf(s, l.name) != Some(l)
    requires VersionOf(s, l.name).Some? ==> VersionOf(s, l.name).value.tag != l.tag
    ensures var r := Warmed(s, l);
            && |r.workers| == |s.workers|
            && r.workers[w].handler == s.workers[w].handler
            && Queued(r.workers[w].queue, tag) == QueuedAfter(s, VersionOf(s, l.name), Some(l), w, tag)
  {
    var s1 := s.(workers := PostAll(s.workers, AddTask(l)));
    var q := Queued(s.workers[w].queue, tag);
    assert q + [] == q;
    PostedTask(s.workers, AddTask(l), w, tag);
    var i := FindName(s.active, l.name);
    if i < |s.active| {
      DrainQueues(s1, s.active[i], w, tag);
    }
  }

  lemma WarmedFields(s: System, l: Listener, j: nat)
    requires s.drainTime >= 1
    requires FindName(WarmingListeners(s.warming), l.name) == j < |s.warming| && s.warming[j].l == l
    ensures var r := Warmed(s, l); var i := FindName(s.active, l.name);
            && |r.workers| == |s.workers| && r.completions == s.completions
            && r.started == s.started && r.nextTag == s.nextTag && r.drainTime == s.drainTime
            && r.draining == (if i < |s.active| then [Draining(s.active[i], |s.workers|, 1)] + s.draining
                              else s.draining)
            && r.active == (if i < |s.active| then s.active[i := l] else s.active + [l])
            && r.warming == Erase(s.warming, j)
            && r.failed == s.failed && r.nextSocket == s.nextSocket
            && r.stats == s.stats.(activeGauge := |r.active|, warmingGauge := |r.warming|,
                                   drainingGauge := if i < |s.active| then |s.draining| + 1
                                                    else s.stats.drainingGauge)
  {
    var s1 := s.(workers := PostAll(s.workers, AddTask(l)));
    var i := FindName(s.active, l.name);
    if i < |s.active| {
      DrainShape(s1, s.active[i]);
    }
  }

  lemma WarmedOwned(s: System, j: nat)
    requires s.drainTime >= 1 && Ownership(s) && j < |s.warming|
    requires FindName(WarmingListeners(s.warming), s.warming[j].l.name) == j
    ensures var l := s.warming[j].l;
            Ownership(Warmed(s, l)) && Relisted(s, Warmed(s, l), VersionOf(s, l.name), Some(l))
  {
    hide Warmed, Owned, Erase, Tags, WarmingListeners;
    var l := s.warming[j].l;
    var ws := WarmingListeners(s.warming);
    var i := FindName(s.active, l.name);
    WarmedFields(s, l, j);
    WarmingEdit(s.warming, j, s.warming[j]);
    if i < |s.active| {
      ReplaceOwned(s.active, ws, s.draining, s.nextTag, i, j, Draining(s.active[i], |s.workers|, 1));
    } else {
      PromoteOwned(s.active, ws, s.draining, s.nextTag, j);
    }
  }

  lemma WarmedNamed(s: System, j: nat)
    requires s.drainTime >= 1 && Naming(s) && j < |s.warming|
    requires FindName(WarmingListeners(s.warming), s.warming[j].l.name) == j
    ensures var r := Warmed(s, s.warming[j].l); Naming(r) && Names(r) == Names(s)
  {
    hide Warmed, Named, NamesOf;
    var l := s.warming[j].l;
    WarmedFields(s, l, j);
    WarmingEdit(s.warming, j, s.warming[j]);
    PromoteNamed(s.active, WarmingListeners(s.warming), j);
  }

  lemma WarmedLists(s: System, j: nat)
    requires s.drainTime >= 1 && Ownership(s) && Naming(s) && j < |s.warming|
    ensures FindName(WarmingListeners(s.warming), s.warming[j].l.name) == j
    ensures var l := s.warming[j].l; var r := Warmed(s, l);
            && Relisted(s, r, VersionOf(s, l.name), Some(l))
            && Ownership(r) && Naming(r) && Names(r) == Names(s)
  {
    hide Warmed, Ownership, Naming, Names, Relisted;
    WarmedIsFoundByName(s, j);
    WarmedOwned(s, j);
    WarmedNamed(s, j);
  }

  lemma WarmedRetires(s: System, j: nat)
    requires s.drainTime >= 1 && Ownership(s) && Naming(s) && j < |s.warming|
    ensures FindName(WarmingListeners(s.warming), s.warming[j].l.name) == j
    ensures var l := s.warming[j].l; Retired(s, Warmed(s, l), VersionOf(s, l.name), Some(l))
  {
    hide Ownership, Naming, Warmed, Relisted, QueuedAfter, Queued;
    WarmedLists(s, j);
    var l := s.warming[j].l;
    var r := Warmed(s, l);
    WarmedFields(s, l, j);
    DifferentVersion(s, j);
    WarmedWorkers(s, j);
  }

  lemma WarmedWorkers(s: System, j: nat)
    requires s.drainTime >= 1 && Ownership(s) && j < |s.warming|
    requires FindName(WarmingListeners(s.warming), s.warming[j].l.name) == j
    ensures var l := s.warming[j].l; var r := Warmed(s, l);
            && |r.workers| == |s.workers|
            && (forall w :: 0 <= w < |s.workers| ==> r.workers[w].handler == s.workers[w].handler)
            && (forall w, tag: nat :: 0 <= w < |s.workers| ==>
                  Queued(r.workers[w].queue, tag) == QueuedAfter(s, VersionOf(s, l.name), Some(l), w, tag))
  {
    hide Ownership, QueuedAfter, Queued;
    var l := s.warming[j].l;
    DifferentVersion(s, j);
    var r := Warmed(s, l);
    hide Warmed;
    forall w, tag: nat | 0 <= w < |s.workers|
      ensures r.workers[w].handler == s.workers[w].handler
      ensures Queued(r.workers[w].queue, tag) == QueuedAfter(s, VersionOf(s, l.name), Some(l), w, tag)
    {
      WarmedQueues(s, l, w, tag);
    }
    if |s.workers| > 0 {
      WarmedQueues(s, l, 0, 0);
    } else {
      WarmedFields(s, l, j);
    }
  }

  lemma DifferentVersion(s: System, j: nat)
    requires Ownership(s) && j < |s.warming|
    ensures s.warming[j].l.tag in Tags(WarmingListeners(s.warming))
    ensures var l := s.warming[j].l;
            VersionOf(s, l.name).Some? ==> VersionOf(s, l.name).value.tag != l.tag
  {
    var ws := WarmingListeners(s.warming);
    assert ws[j].tag in Tags(ws);
    var i := FindName(s.active, ws[j].name);
    if i < |s.active| {
      assert s.active[i].tag in Tags(s.active);
    }
  }

  lemma WarmedCore(s: System, j: nat)
    requires Core(s) && s.started && j < |s.warming|
    ensures FindName(WarmingListeners(s.warming), s.warming[j].l.name) == j
    ensures Core(Warmed(s, s.warming[j].l))
    ensures Names(Warmed(s, s.warming[j].l)) == Names(s)
  {
    WarmedRetires(s, j);
    WarmedLists(s, j);
    DifferentVersion(s, j);
    var l := s.warming[j].l;
    WarmedFields(s, l, j);
    RetiredInOrder(s, Warmed(s, l), VersionOf(s, l.name), Some(l));
  }

  // ---------- removal ----------

  lemma RemoveFields(s: System, name: string)
    requires s.drainTime >= 1
    ensures var i := FindName(s.active, name);
            var j := FindName(WarmingListeners(s.warming), name);
            var (r, found) := RemoveListener(s, name);
            && found == (i < |s.active| || j < |s.warming|)
            && (found ==>
                  && |r.workers| == |s.workers| && r.completions == s.completions
                  && r.started == s.started && r.nextTag == s.nextTag && r.drainTime == s.drainTime
                  && r.draining == (if i < |s.active| then [Draining(s.active[i], |s.workers|, 1)] + s.draining
                                    else s.draining)
                  && r.active == (if i < |s.active| then Erase(s.active, i) else s.active)
                  && r.warming == (if j < |s.warming| then Erase(s.warming, j) else s.warming)
                  && r.failed == s.failed && r.nextSocket == s.nextSocket
                  && r.stats == s.stats.(removed := s.stats.removed + 1, activeGauge := |r.active|,
                                         warmingGauge := |r.warming|,
                                         drainingGauge := if i < |s.active| then |s.draining| + 1
                                                          else s.stats.drainingGauge))
            && (!found ==> r == s)
  {
    var i := FindName(s.active, name);
    var j := FindName(WarmingListeners(s.warming), name);
    if i < |s.active| {
      DrainShape(if j < |s.warming| then s.(warming := Erase(s.warming, j)) else s, s.active[i]);
    }
  }

  lemma RemoveQueues(s: System, name: string, w: nat, tag: nat)
    requires s.drainTime >= 1 && w < |s.workers|
    ensures var r := RemoveListener(s, name).0;
            && |r.workers| == |s.workers|
            && r.workers[w].handler == s.workers[w].handler
            && Queued(r.workers[w].queue, tag) == QueuedAfter(s, VersionOf(s, name), None, w, tag)
  {
    var i := FindName(s.active, name);
    var j := FindName(WarmingListeners(s.warming), name);
    if i < |s.active| {
      DrainQueues(if j < |s.warming| then s.(warming := Erase(s.warming, j)) else s, s.active[i], w, tag);
    }
  }

  lemma RemoveOwned(s: System, name: string)
    requires s.drainTime >= 1 && Ownership(s)
    ensures var r := RemoveListener(s, name).0; var out := VersionOf(s, name);
            Ownership(r) && Tags(r.active) == Tags(s.active) - if out.Some? then {out.value.tag} else {}
  {
    RemoveFields(s, name);
    var i := FindName(s.active, name);
    var j := FindName(WarmingListeners(s.warming), name);
    var ws := WarmingListeners(s.warming);
    var ws' := if j < |ws| then Erase(ws, j) else ws;
    if j < |s.warming| {
      WarmingEdit(s.warming, j, s.warming[j]);
      DropOwned(s.active, ws, s.draining, s.nextTag, j);
    }
    if i < |s.active| {
      RetireOwned(s.active, ws', s.draining, s.nextTag, i, Draining(s.active[i], |s.workers|, 1));
    }
  }

  /** Removing a name takes away all its versions and nothing else. */
  ghost predicate Removes(s: System, r: System, name: string) {
    && Names(r) == Names(s) - {name}
    && (forall x :: x in r.warming <==> x in s.warming && x.l.name != name)
    && (forall l :: l in r.active <==> l in s.active && l.name != name)
  }

  /** Erasing the versions of a name from both lists. */
  lemma RemovedNamed(active: seq<Listener>, warming: seq<Warming>, name: string)
    requires Named(active, WarmingListeners(warming))
    ensures var ws := WarmingListeners(warming);
            var i := FindName(active, name); var j := FindName(ws, name);
            var act := if i < |active| then Erase(active, i) else active;
            var rest := if j < |warming| then Erase(warming, j) else warming;
            && Named(act, WarmingListeners(rest))
            && NamesOf(act) == NamesOf(active) - {name}
            && NamesOf(WarmingListeners(rest)) == NamesOf(ws) - {name}
  {
    hide Named, NamesOf, Erase;
    var ws := WarmingListeners(warming);
    var i := FindName(active, name);
    var j := FindName(ws, name);
    FindNameMember(active, name);
    FindNameMember(ws, name);
    if j < |warming| {
      WarmingEdit(warming, j, warming[j]);
      DropNamed(active, ws, j);
    }
    if i < |active| {
      RetireNamed(active, if j < |ws| then Erase(ws, j) else ws, i);
    }
  }

  lemma RemoveNamed(s: System, name: string)
    requires s.drainTime >= 1 && Naming(s)
    ensures Naming(RemoveListener(s, name).0)
    ensures Removes(s, RemoveListener(s, name).0, name)
  {
    hide RemoveListener, Named, NamesOf, Erase, WarmingListeners;
    RemoveFields(s, name);
    var r := RemoveListener(s, name).0;
    var i := FindName(s.active, name);
    var j := FindName(WarmingListeners(s.warming), name);
    RemovedNamed(s.active, s.warming, name);
    if j < |s.warming| {
      EraseMembers(s.warming, j);
    }
    if i < |s.active| {
      EraseMembers(s.active, i);
    }
    hide FindName, Removes;
    RemovedMembers(s, r, name);
  }

  lemma RemovedMembers(s: System, r: System, name: string)
    requires Names(r) == Names(s) - {name}
    requires forall x :: x in r.warming ==> x in s.warming
    requires forall x :: x in s.warming && x.l.name != name ==> x in r.warming
    requires forall l :: l in r.active ==> l in s.active
    requires forall l :: l in s.active && l.name != name ==> l in r.active
    ensures Removes(s, r, name)
  {
    forall x | x in r.warming ensures x.l.name != name {
      var k :| 0 <= k < |r.warming| && r.warming[k] == x;
      assert WarmingListeners(r.warming)[k] in WarmingListeners(r.warming);
      assert x.l.name in Names(r);
    }
    forall l | l in r.active ensures l.name != name {
      assert l.name in Names(r);
    }
  }

  lemma RemoveWorkers(s: System, name: string)
    requires s.drainTime >= 1 && RemoveListener(s, name).1
    ensures var r := RemoveListener(s, name).0;
            && |r.workers| == |s.workers|
            && (forall w :: 0 <= w < |s.workers| ==> r.workers[w].handler == s.workers[w].handler)
            && (forall w, tag: nat :: 0 <= w < |s.workers| ==>
                  Queued(r.workers[w].queue, tag) == QueuedAfter(s, VersionOf(s, name), None, w, tag))
  {
    hide RemoveListener, Queued, QueuedAfter;
    RemoveFields(s, name);
    var r := RemoveListener(s, name).0;
    forall w, tag: nat | 0 <= w < |s.workers|
      ensures r.workers[w].handler == s.workers[w].handler
      ensures Queued(r.workers[w].queue, tag) == QueuedAfter(s, VersionOf(s, name), None, w, tag)
    {
      RemoveQueues(s, name, w, tag);
    }
    forall w | 0 <= w < |s.workers| ensures r.workers[w].handler == s.workers[w].handler {
      RemoveQueues(s, name, w, 0);
    }
  }

  lemma RemoveRetires(s: System, name: string)
    requires s.drainTime >= 1 && Ownership(s) && RemoveListener(s, name).1
    ensures Retired(s, RemoveListener(s, name).0, VersionOf(s, name), None)
  {
    hide Ownership, RemoveListener, Queued, QueuedAfter, Tags, Erase, HandlerTags;
    RemoveFields(s, name);
    RemoveOwned(s, name);
    RemoveWorkers(s, name);
    var t := Tags(s.active);
    assert forall x :: t - x + {} == t - x;
  }

  lemma RemoveStats(s: System, name: string)
    requires s.drainTime >= 1 && Naming(s) && StatsExact(s)
    ensures StatsExact(RemoveListener(s, name).0)
  {
    hide RemoveListener, Named, NamesOf, Erase, WarmingListeners;
    RemoveFields(s, name);
    RemoveNamed(s, name);
    FindNameMember(s.active, name);
    FindNameMember(WarmingListeners(s.warming), name);
  }

  lemma RemoveCore(s: System, name: string)
    requires Core(s) && (s.started || FindName(s.active, name) == |s.active|)
    ensures Core(RemoveListener(s, name).0)
    ensures Removes(s, RemoveListener(s, name).0, name)
  {
    RemoveFields(s, name);
    RemoveOwned(s, name);
    RemoveNamed(s, name);
    RemoveStats(s, name);
    if RemoveListener(s, name).1 {
      RemoveRetires(s, name);
      RetiredInOrder(s, RemoveListener(s, name).0, VersionOf(s, name), None);
    }
  }
}
