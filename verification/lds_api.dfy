/** The listener discovery service: reconciling the manager's listeners with a received update. */
module ListenerDiscovery {
  import opened Common
  import opened ListenerModel
  import opened ListenerSafety
  import opened ListenerSteps
  import opened ListenerWarm
  import opened ListenerQueues
  import opened ListenerInvariant
  import opened ListenerManagement

  /** Some active or warming version of the name has this hash. */
  ghost predicate HasVersion(s: System, name: string, hash: nat) {
    exists l :: (l in s.active || l in WarmingListeners(s.warming)) && l.name == name && l.hash == hash
  }

  ghost predicate KeepsOthers(s: System, r: System, name: string) {
    forall n, h :: n != name && HasVersion(s, n, h) ==> HasVersion(r, n, h)
  }

  lemma KeepsOthersByMembers(s: System, r: System, name: string)
    requires forall l :: (l in s.active || l in WarmingListeners(s.warming)) && l.name != name ==>
               l in r.active || l in WarmingListeners(r.warming)
    ensures KeepsOthers(s, r, name)
  {
    forall n, h | n != name && HasVersion(s, n, h) ensures HasVersion(r, n, h) {
      var l :| (l in s.active || l in WarmingListeners(s.warming)) && l.name == n && l.hash == h;
    }
  }

  lemma PromoteMembers(active: seq<Listener>, ws: seq<Listener>, j: nat)
    requires j < |ws|
    ensures var l := ws[j]; var i := FindName(active, l.name);
            var act := if i < |active| then active[i := l] else active + [l];
            && l in act && NamesOf(act) <= NamesOf(active) + {l.name}
            && (forall a :: a in active && a.name != l.name ==> a in act)
            && (forall a :: a in ws && a.name != l.name ==> a in Erase(ws, j))
  {
    var l := ws[j];
    var i := FindName(active, l.name);
    EraseMembers(ws, j);
    if i < |active| {
      UpdateOthers(active, i, l);
    }
  }

  lemma WarmedVersions(s: System, j: nat)
    requires Core(s) && j < |s.warming|
    ensures FindName(WarmingListeners(s.warming), s.warming[j].l.name) == j
    ensures var l := s.warming[j].l; var r := Warmed(s, l);
            && l in r.active && NamesOf(r.active) <= NamesOf(s.active) + {l.name}
            && Names(r) == Names(s) && KeepsOthers(s, r, l.name)
  {
    WarmedLists(s, j);
    var l := s.warming[j].l;
    WarmedFields(s, l, j);
    hide Core, Warmed, Owned, Named, FindName;
    WarmingEdit(s.warming, j, s.warming[j]);
    PromoteMembers(s.active, WarmingListeners(s.warming), j);
    KeepsOthersByMembers(s, Warmed(s, l), l.name);
  }

  lemma PlacedVersions(s: System, c: Config, e: Env, l: Listener)
    requires Core(s) && NewVersion(s, c, e) == Some(l)
    ensures var r := Placed(s, c, e, l);
            && (l in r.active || l in WarmingListeners(r.warming))
            && NamesOf(r.active) <= NamesOf(s.active) + {l.name}
            && Names(r) == Names(s) + {l.name} && KeepsOthers(s, r, l.name)
  {
    NewVersionAdmissible(s, c, e, l);
    PlaceNamed(Constructed(s, l), l, c.targets);
    hide Core, Admissible;
    var r := Placed(s, c, e, l);
    var ws := WarmingListeners(s.warming);
    var i := FindName(s.active, l.name);
    var j := FindName(ws, l.name);
    WarmingEdit(s.warming, j, Warming(l, c.targets));
    if j < |ws| {
      UpdateOthers(ws, j, l);
    } else if !s.started && i < |s.active| {
      UpdateOthers(s.active, i, l);
    }
    KeepsOthersByMembers(s, r, l.name);
  }

  lemma UpdateOthers(ls: seq<Listener>, i: nat, l: Listener)
    requires i < |ls| && ls[i].name == l.name
    ensures forall a :: a in ls && a.name != l.name ==> a in ls[i := l]
    ensures l in ls[i := l] && NamesOf(ls[i := l]) <= NamesOf(ls) + {l.name}
  {
    UpdateMembers(ls, i, l);
    forall a | a in ls && a.name != l.name ensures a in ls[i := l] {
      var k :| 0 <= k < |ls| && ls[k] == a;
      assert ls[i := l][k] == a;
    }
  }

  lemma InitializeVersions(s: System, tag: nat, inline: set<nat>, l: Listener)
    requires Core(s) && l.tag == tag && l in WarmingListeners(s.warming)
    ensures var r := Initialize(s, tag, inline);
            && (l in r.active || l in WarmingListeners(r.warming))
            && NamesOf(r.active) <= NamesOf(s.active) + {l.name}
            && Names(r) == Names(s) && KeepsOthers(s, r, l.name)
  {
    hide Core, Warmed, Ownership, Naming, DistinctTags;
    CoreFacts(s);
    var k :| 0 <= k < |s.warming| && WarmingListeners(s.warming)[k] == l;
    WarmedIsFoundByName(s, k);
    var rest := s.warming[k].targets - inline;
    if rest == {} {
      WarmedVersions(s, k);
    } else {
      var r := Initialize(s, tag, inline);
      assert WarmingListeners(r.warming) == WarmingListeners(s.warming);
      KeepsOthersByMembers(s, r, l.name);
    }
  }

  predicate Threw(res: AddResult) {
    res == AddressMismatch || res == DuplicateAddress || res == BindFailed
  }

  /** What one add or update means for the managed names and versions. */
  lemma AddOrUpdateVersions(s: System, c: Config, e: Env)
    requires Inv(s)
    ensures var (r, res) := AddOrUpdate(s, c, e); var name := Resolve(c, e);
            && KeepsOthers(s, r, name)
            && NamesOf(r.active) <= NamesOf(s.active) + {name}
            && (!Threw(res) ==> HasVersion(r, name, c.hash) && Names(r) == Names(s) + {name})
            && (Threw(res) ==> Names(r) == Names(s))
  {
    hide Core, Ownership, Naming, DistinctTags, AddOrUpdate, NewVersion, Placed, Initialize;
    CoreFacts(s);
    AddOrUpdateSplit(s, c, e);
    var (r, res) := AddOrUpdate(s, c, e);
    match NewVersion(s, c, e) {
      case None =>
        KeepsOthersByMembers(s, r, Resolve(c, e));
        if !Threw(res) {
          SkippedVersion(s, c, e);
        }
      case Some(l) =>
        PlacedVersions(s, c, e, l);
        PlacedCore(s, c, e, l);
        PlacedWarming(s, c, e, l);
        if s.started {
          var p := Placed(s, c, e, l);
          var k :| 0 <= k < |p.warming| && p.warming[k] == Warming(l, c.targets);
          assert WarmingListeners(p.warming)[k] == l;
          InitializeVersions(p, l.tag, e.inline, l);
        }
    }
  }

  lemma SkippedVersion(s: System, c: Config, e: Env)
    requires AddOrUpdate(s, c, e).1 == Skipped
    ensures HasVersion(s, Resolve(c, e), c.hash) && Resolve(c, e) in Names(s)
  {
    var name := Resolve(c, e);
    var i := FindName(s.active, name);
    var ws := WarmingListeners(s.warming);
    var j := FindName(ws, name);
    if j < |ws| && ws[j].hash == c.hash {
      assert ws[j] in ws;
    } else {
      assert s.active[i] in s.active;
    }
  }

  lemma RemovesVersions(s: System, r: System, name: string)
    requires Removes(s, r, name)
    ensures NamesOf(r.active) == NamesOf(s.active) - {name} && KeepsOthers(s, r, name)
  {
    forall l | l in WarmingListeners(s.warming) && l.name != name ensures l in WarmingListeners(r.warming) {
      var k :| 0 <= k < |s.warming| && WarmingListeners(s.warming)[k] == l;
      assert s.warming[k] in r.warming;
      var k' :| 0 <= k' < |r.warming| && r.warming[k'] == s.warming[k];
      assert WarmingListeners(r.warming)[k'] == l;
    }
    KeepsOthersByMembers(s, r, name);
  }

  lemma RemoveVersions(s: System, name: string)
    requires Core(s) && (s.started || FindName(s.active, name) == |s.active|)
    ensures var r := RemoveListener(s, name).0;
            && r.started == s.started
            && Names(r) == Names(s) - {name} && NamesOf(r.active) == NamesOf(s.active) - {name}
            && KeepsOthers(s, r, name)
  {
    RemoveFields(s, name);
    hide ListenerModel.RemoveListener, KeepsOthers;
    RemoveCore(s, name);
    hide Core;
    RemovesVersions(s, RemoveListener(s, name).0, name);
  }

  // ---------- the update ----------

  function UpdateNames(resources: seq<Config>): set<string> {
    set c | c in resources :: c.name
  }

  predicate DistinctResources(resources: seq<Config>) {
    (forall c :: c in resources ==> c.name != "")
    && forall i, j :: 0 <= i < j < |resources| ==> resources[i].name != resources[j].name
  }

  class LdsApi {
    const manager: ListenerManager
    var initializeCallback: bool
    var callbacksRun: nat

    constructor (manager: ListenerManager)
      ensures this.manager == manager && !initializeCallback && callbacksRun == 0
    {
      this.manager := manager;
      initializeCallback, callbacksRun := false, 0;
    }

    /** The init manager's callback; it is dropped after its one call. */
    method RunInitializeCallbackIfAny()
      modifies this
      ensures callbacksRun == old(callbacksRun) + (if old(initializeCallback) then 1 else 0)
      ensures !initializeCallback
    {
      if initializeCallback {
        callbacksRun := callbacksRun + 1;
        initializeCallback := false;
      }
    }

    /** Adds or updates every listener of the update, then removes the active listeners that are not
        in it, in any order. `ok` is false when an add throws, which abandons the update. Before the
        workers run, removals would trip the worker's assertion, so none may be needed.

        When the names of the update are given and distinct, the names managed afterwards are exactly
        those of the update and those that were warming but not active before: a listener that is
        still warming up is not removed by its absence. */
    method OnConfigUpdate(resources: seq<Config>, envs: seq<Env>) returns (ok: bool)
      requires manager.Valid() && |envs| == |resources|
      requires manager.started || NamesOf(manager.active) <= UpdateNames(resources)
      modifies this, manager, manager.workers
      ensures manager.Valid()
      ensures ok && DistinctResources(resources) ==> NamesOf(manager.active) <= UpdateNames(resources)
      ensures ok && DistinctResources(resources) ==>
                forall c :: c in resources ==> HasVersion(manager.View(), c.name, c.hash)
      ensures ok && DistinctResources(resources) ==>
                Names(manager.View())
                == UpdateNames(resources)
                   + (NamesOf(WarmingListeners(old(manager.warming))) - NamesOf(old(manager.active)))
      ensures ok ==> !initializeCallback
    {
      hide Inv, HasVersion, Accepted, Reconciled;
      ghost var s := manager.View();
      ReconciledStart(s);
      var toRemove := NamesOf(manager.active);
      var k := 0;
      while k < |resources|
        modifies manager, manager.workers
        invariant k <= |resources|
        invariant manager.Valid() && manager.started == s.started
        invariant toRemove == NamesOf(s.active) - UpdateNames(resources[..k])
        invariant DistinctResources(resources) ==> Reconciled(s, manager.View(), resources[..k])
      {
        var c := resources[k];
        toRemove := toRemove - {c.name};
        ghost var before := manager.View();
        var res := AddOne(c, envs[k]);
        if Threw(res) {
          return false;
        }
        NextResource(s, resources, k, before, manager.View());
        k := k + 1;
      }
      assert resources[..k] == resources;
      if DistinctResources(resources) {
        ReconciledMeans(s, manager.View(), resources);
      }
      RemoveMissing(toRemove, resources);
      RunInitializeCallbackIfAny();
      ok := true;
    }

    method AddOne(c: Config, e: Env) returns (res: AddResult)
      requires manager.Valid()
      modifies manager, manager.workers
      ensures manager.Valid() && manager.started == old(manager.started)
      ensures c.name != "" && !Threw(res) ==> Accepted(old(manager.View()), manager.View(), c)
    {
      hide Inv, AddOrUpdate, KeepsOthers, HasVersion;
      AddOrUpdateVersions(manager.View(), c, e);
      AddKeepsStarted(manager.View(), c, e);
      res := manager.AddOrUpdateListener(c, e);
    }

    method RemoveMissing(names: set<string>, resources: seq<Config>)
      requires manager.Valid() && names !! UpdateNames(resources)
      requires manager.started || names == {}
      modifies manager, manager.workers
      ensures manager.Valid()
      ensures NamesOf(manager.active) == NamesOf(old(manager.active)) - names
      ensures Names(manager.View()) == Names(old(manager.View())) - names
      ensures (forall c :: c in resources ==> HasVersion(old(manager.View()), c.name, c.hash)) ==>
                forall c :: c in resources ==> HasVersion(manager.View(), c.name, c.hash)
    {
      hide Inv, HasVersion;
      ghost var s := manager.View();
      var rest := names;
      while rest != {}
        modifies manager, manager.workers
        invariant rest <= names
        invariant manager.Valid() && (manager.started || rest == {})
        invariant NamesOf(manager.active) == NamesOf(s.active) - (names - rest)
        invariant Names(manager.View()) == Names(s) - (names - rest)
        invariant forall c :: c in resources && HasVersion(s, c.name, c.hash) ==>
                    HasVersion(manager.View(), c.name, c.hash)
        decreases rest
      {
        var name :| name in rest;
        ghost var before := manager.View();
        RemoveOne(name);
        forall c | c in resources && HasVersion(s, c.name, c.hash)
          ensures HasVersion(manager.View(), c.name, c.hash)
        {
          assert HasVersion(before, c.name, c.hash) && c.name in UpdateNames(resources);
        }
        rest := rest - {name};
      }
    }

    method RemoveOne(name: string)
      requires manager.Valid() && manager.started
      modifies manager, manager.workers
      ensures manager.Valid() && manager.started
      ensures KeepsOthers(old(manager.View()), manager.View(), name)
      ensures NamesOf(manager.active) == NamesOf(old(manager.active)) - {name}
      ensures Names(manager.View()) == Names(old(manager.View())) - {name}
    {
      RemoveVersions(manager.View(), name);
      hide Inv, ListenerModel.RemoveListener, KeepsOthers;
      var removed := manager.RemoveListener(name);
    }
  }

  lemma AddKeepsStarted(s: System, c: Config, e: Env)
    requires Inv(s)
    ensures AddOrUpdate(s, c, e).0.started == s.started
  {
    hide Core, Ownership, Naming, DistinctTags, AddOrUpdate, NewVersion, Placed, Initialize;
    CoreFacts(s);
    AddOrUpdateSplit(s, c, e);
    match NewVersion(s, c, e) {
      case None =>
      case Some(l) =>
        PlacedCore(s, c, e, l);
        PlacedWarming(s, c, e, l);
        InitializeKeepsStarted(Placed(s, c, e, l), l.tag, e.inline);
    }
  }

  lemma InitializeKeepsStarted(s: System, tag: nat, inline: set<nat>)
    requires Core(s)
    ensures Initialize(s, tag, inline).started == s.started
  {
    var j := WarmingTagIndex(s.warming, tag);
    if j < |s.warming| {
      WarmedIsFoundByName(s, j);
      WarmedFields(s, s.warming[j].l, j);
    }
  }

  /** After the part `done` of an update, starting from `s`. */
  ghost predicate Reconciled(s: System, r: System, done: seq<Config>) {
    && NamesOf(r.active) <= NamesOf(s.active) + UpdateNames(done)
    && Names(r) == Names(s) + UpdateNames(done)
    && forall c :: c in done ==> HasVersion(r, c.name, c.hash)
  }

  /** One resource was taken over. */
  ghost predicate Accepted(s: System, r: System, c: Config) {
    && KeepsOthers(s, r, c.name)
    && NamesOf(r.active) <= NamesOf(s.active) + {c.name}
    && HasVersion(r, c.name, c.hash)
    && Names(r) == Names(s) + {c.name}
  }

  lemma ReconciledStart(s: System)
    ensures Reconciled(s, s, [])
  {
  }

  lemma ReconciledMeans(s: System, r: System, resources: seq<Config>)
    requires Reconciled(s, r, resources)
    ensures NamesOf(r.active) - (NamesOf(s.active) - UpdateNames(resources)) <= UpdateNames(resources)
    ensures Names(r) - (NamesOf(s.active) - UpdateNames(resources))
            == UpdateNames(resources) + (NamesOf(WarmingListeners(s.warming)) - NamesOf(s.active))
    ensures forall c :: c in resources ==> HasVersion(r, c.name, c.hash)
  {
  }

  lemma NextResource(s0: System, resources: seq<Config>, k: nat, s: System, r: System)
    requires k < |resources|
    requires DistinctResources(resources) ==>
               Reconciled(s0, s, resources[..k]) && Accepted(s, r, resources[k])
    ensures UpdateNames(resources[..k + 1]) == UpdateNames(resources[..k]) + {resources[k].name}
    ensures DistinctResources(resources) ==> Reconciled(s0, r, resources[..k + 1])
  {
    assert resources[..k + 1] == resources[..k] + [resources[k]];
    assert resources[k] in resources[..k + 1];
    forall n | n in UpdateNames(resources[..k]) ensures n in UpdateNames(resources[..k + 1]) {
      var c :| c in resources[..k] && c.name == n;
      assert c in resources[..k + 1];
    }
    if DistinctResources(resources) {
      forall c | c in resources[..k + 1] ensures HasVersion(r, c.name, c.hash) {
        var i :| 0 <= i <= k && resources[i] == c;
        if i < k {
          assert resources[i] in resources[..k];
        }
      }
    }
  }
}
