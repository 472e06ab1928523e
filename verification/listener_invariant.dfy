/** Adding listeners and starting workers keep the invariant, and so does every step of every run. */
module ListenerInvariant {
  import opened Common
  import opened ListenerModel
  import opened ListenerSafety
  import opened ListenerSteps
  import opened ListenerWarm
  import opened ListenerQueues

  // ---------- start-up and server-wide stop ----------

  lemma {:induction false} QueuedActive(ls: seq<Listener>, tag: nat)
    requires DistinctTags(ls)
    ensures Queued(PostActive(ls), tag) == if tag in Tags(ls) then [Add] else []
  {
    if ls != [] {
      var q := PostActive(ls);
      assert q[1..] == PostActive(ls[1..]);
      QueuedActive(ls[1..], tag);
      assert forall l :: l in ls <==> l == ls[0] || l in ls[1..];
      assert ls[0] in ls;
      if tag == ls[0].tag {
        forall l | l in ls[1..] ensures l.tag != tag {
          var k :| 0 <= k < |ls[1..]| && ls[1..][k] == l;
          assert ls[k + 1] == l;
        }
      }
      assert [Add] + [] == [Add];
    } else {
      assert PostActive(ls) == [];
    }
  }

  lemma StartInOrder(s: System, w: nat, tag: nat)
    requires Core(s) && !s.started && w < |s.workers|
    ensures InOrder(StartWorkers(s), w, tag)
  {
    var r := StartWorkers(s);
    assert s.workers[w] == Worker([], []);
    assert r.workers[w].queue == PostActive(s.active);
    QueuedActive(s.active, tag);
    assert s.completions == [];
  }

  lemma StartCore(s: System)
    requires Core(s) && !s.started
    ensures Core(StartWorkers(s))
  {
    var r := StartWorkers(s);
    forall w, tag: nat | 0 <= w < |r.workers| ensures InOrder(r, w, tag) {
      StartInOrder(s, w, tag);
    }
  }

  lemma StopAllInOrder(s: System)
    requires forall w, tag: nat :: 0 <= w < |s.workers| ==> InOrder(s, w, tag)
    ensures var r := StopListeners(s);
            && |r.workers| == |s.workers|
            && (forall w, tag: nat :: 0 <= w < |r.workers| ==> InOrder(r, w, tag))
            && (forall w, tag: nat :: 0 <= w < |r.workers| ==>
                  Queued(r.workers[w].queue, tag) == Queued(s.workers[w].queue, tag))
  {
    var r := StopListeners(s);
    forall w, tag: nat | 0 <= w < |r.workers|
      ensures InOrder(r, w, tag)
      ensures Queued(r.workers[w].queue, tag) == Queued(s.workers[w].queue, tag)
    {
      assert InOrder(s, w, tag);
      PostedTask(s.workers, StopAllTask, w, tag);
      var q := Queued(s.workers[w].queue, tag);
      assert q + [] == q;
      SamePhase(s, r, tag);
    }
  }

  lemma StopAllCore(s: System)
    requires Core(s) && s.started
    ensures Core(StopListeners(s))
  {
    var r := StopListeners(s);
    StopAllInOrder(s);
    hide InOrder, PendingExact, Owned, Named, Queued;
    forall d | d in r.draining ensures PendingExact(r, d) {
      assert PendingExact(s, d);
      SameOutstanding(s, r, d.l.tag);
    }
  }

  // ---------- init targets ----------

  lemma RetargetCore(s: System, j: nat, targets: set<nat>)
    requires Core(s) && s.started && j < |s.warming|
    ensures Core(s.(warming := s.warming[j := Warming(s.warming[j].l, targets)]))
  {
    var r := s.(warming := s.warming[j := Warming(s.warming[j].l, targets)]);
    assert WarmingListeners(r.warming) == WarmingListeners(s.warming);
    SameInOrder(s, r);
  }

  /** The queue clauses do not look at the warming list, the statistics or the tag counters. */
  lemma SameInOrder(s: System, r: System)
    requires r.active == s.active && r.draining == s.draining && r.drainTime == s.drainTime
    requires r.workers == s.workers && r.completions == s.completions
    requires forall w, tag: nat :: 0 <= w < |s.workers| ==> InOrder(s, w, tag)
    requires forall d :: d in s.draining ==> PendingExact(s, d)
    ensures forall w, tag: nat :: 0 <= w < |r.workers| ==> InOrder(r, w, tag)
    ensures forall d :: d in r.draining ==> PendingExact(r, d)
  {
    forall w, tag: nat | 0 <= w < |r.workers| ensures InOrder(r, w, tag) {
      assert InOrder(s, w, tag);
    }
    forall d | d in r.draining ensures PendingExact(r, d) {
      assert PendingExact(s, d);
      assert OutstandingWorkers(r, d.l.tag) == OutstandingWorkers(s, d.l.tag);
    }
  }

  lemma ErasedRest(ws: seq<Warming>, j: nat)
    requires DistinctTags(WarmingListeners(ws)) && j < |ws|
    ensures forall x :: x in Erase(ws, j) ==> x in ws && x != ws[j]
  {
    var e := Erase(ws, j);
    forall x | x in e ensures x in ws && x != ws[j] {
      var k :| 0 <= k < |e| && e[k] == x;
      var k' := if k < j then k else k + 1;
      assert ws[k'] == x;
      assert WarmingListeners(ws)[k'].tag != WarmingListeners(ws)[j].tag;
    }
  }

  lemma WarmedWarming(s: System, j: nat)
    requires s.drainTime >= 1 && Ownership(s) && Naming(s) && j < |s.warming|
    requires forall x :: x in s.warming && x != s.warming[j] ==> x.targets != {}
    ensures FindName(WarmingListeners(s.warming), s.warming[j].l.name) == j
    ensures forall x :: x in Warmed(s, s.warming[j].l).warming ==> x.targets != {}
  {
    assert DistinctTags(WarmingListeners(s.warming));
    hide Owned, Named, Warmed, Ownership, Naming, DistinctTags, Erase;
    WarmedIsFoundByName(s, j);
    WarmedFields(s, s.warming[j].l, j);
    ErasedRest(s.warming, j);
  }

  lemma WarmedInv(s: System, j: nat)
    requires Core(s) && s.started && j < |s.warming|
    requires forall x :: x in s.warming && x != s.warming[j] ==> x.targets != {}
    ensures FindName(WarmingListeners(s.warming), s.warming[j].l.name) == j
    ensures Inv(Warmed(s, s.warming[j].l))
  {
    hide Core, Ownership, Naming, DistinctTags;
    CoreFacts(s);
    WarmedWarming(s, j);
    WarmedCore(s, j);
  }

  lemma TargetInv(s: System, tag: nat, target: nat)
    requires Inv(s)
    ensures Inv(TargetDone(s, tag, target))
  {
    var j := WarmingTagIndex(s.warming, tag);
    if j < |s.warming| && target in s.warming[j].targets {
      var rest := s.warming[j].targets - {target};
      if rest != {} {
        RetargetCore(s, j, rest);
      } else {
        WarmedInv(s, j);
      }
    }
  }

  // ---------- adding and updating ----------

  lemma TagCounterCore(s: System, r: System)
    requires Core(s) && s.nextTag <= r.nextTag
    requires r == s.(nextTag := r.nextTag, nextSocket := r.nextSocket)
    ensures Core(r)
  {
    SameInOrder(s, r);
  }

  /** A version that does not take part in any list yet and may take the place of its name. */
  ghost predicate Admissible(s: System, l: Listener) {
    && l.tag < s.nextTag
    && l.tag !in Tags(s.active) && l.tag !in Tags(WarmingListeners(s.warming))
    && l.tag !in DrainingTags(s.draining)
    && Agrees(s.active, l) && Agrees(WarmingListeners(s.warming), l)
  }

  lemma PlaceOwned(s: System, l: Listener, targets: set<nat>)
    requires Ownership(s) && Admissible(s, l)
    ensures Ownership(Place(s, l, targets))
    ensures Tags(Place(s, l, targets).active) <= Tags(s.active) + {l.tag}
  {
    var ws := WarmingListeners(s.warming);
    var i := FindName(s.active, l.name);
    var j := FindName(ws, l.name);
    WarmingEdit(s.warming, j, Warming(l, targets));
    if j < |s.warming| {
      TagsUpdate(ws, j, l);
    } else if s.started {
      TagsAppend(ws, l);
    } else if i < |s.active| {
      TagsUpdate(s.active, i, l);
    } else {
      TagsAppend(s.active, l);
    }
  }

  lemma UpdateMembers<T>(s: seq<T>, i: nat, x: T)
    requires i < |s|
    ensures forall y :: y in s[i := x] ==> y == x || y in s
    ensures x in s[i := x]
  {
    assert s[i := x][i] == x;
  }

  lemma PlaceNames(s: System, l: Listener, targets: set<nat>)
    requires DistinctNames(s.active) && DistinctNames(WarmingListeners(s.warming))
    ensures Names(Place(s, l, targets)) == Names(s) + {l.name}
    ensures IsNew(s, l.name) <==> l.name !in Names(s)
  {
    hide NamesOf, DistinctNames;
    var ws := WarmingListeners(s.warming);
    var i := FindName(s.active, l.name);
    var j := FindName(ws, l.name);
    FindNameMember(s.active, l.name);
    FindNameMember(ws, l.name);
    WarmingEdit(s.warming, j, Warming(l, targets));
    if j < |s.warming| {
      NamesEdit(ws, j, l);
    } else if s.started {
      NamesAppend(ws, l);
    } else if i < |s.active| {
      NamesEdit(s.active, i, l);
    } else {
      NamesAppend(s.active, l);
    }
  }

  /** Every version of the name of `l` has the address and the socket of `l`. */
  ghost predicate Agrees(ls: seq<Listener>, l: Listener) {
    forall a :: a in ls && a.name == l.name ==> a.address == l.address && a.socket == l.socket
  }

  lemma NamedEditWarming(active: seq<Listener>, ws: seq<Listener>, j: nat, l: Listener)
    requires Named(active, ws) && j < |ws| && l.name == ws[j].name && Agrees(active, l)
    ensures Named(active, ws[j := l])
  {
    NamesEdit(ws, j, l);
    UpdateMembers(ws, j, l);
    hide DistinctNames;
  }

  lemma NamedAppendWarming(active: seq<Listener>, ws: seq<Listener>, l: Listener)
    requires Named(active, ws) && l.name !in NamesOf(ws) && Agrees(active, l)
    ensures Named(active, ws + [l])
  {
    NamesAppend(ws, l);
    hide DistinctNames;
  }

  lemma NamedEditActive(active: seq<Listener>, ws: seq<Listener>, i: nat, l: Listener)
    requires Named(active, ws) && i < |active| && l.name == active[i].name && Agrees(ws, l)
    ensures Named(active[i := l], ws)
  {
    NamesEdit(active, i, l);
    UpdateMembers(active, i, l);
    hide DistinctNames;
  }

  lemma NamedAppendActive(active: seq<Listener>, ws: seq<Listener>, l: Listener)
    requires Named(active, ws) && l.name !in NamesOf(active) && Agrees(ws, l)
    ensures Named(active + [l], ws)
  {
    NamesAppend(active, l);
    hide DistinctNames;
  }

  lemma PlaceNaming(s: System, l: Listener, targets: set<nat>)
    requires Naming(s) && Agrees(s.active, l) && Agrees(WarmingListeners(s.warming), l)
    ensures Naming(Place(s, l, targets))
  {
    hide Named, NamesOf, Agrees, WarmingListeners;
    var ws := WarmingListeners(s.warming);
    var i := FindName(s.active, l.name);
    var j := FindName(ws, l.name);
    FindNameMember(s.active, l.name);
    FindNameMember(ws, l.name);
    WarmingEdit(s.warming, j, Warming(l, targets));
    if j < |s.warming| {
      NamedEditWarming(s.active, ws, j, l);
    } else if s.started {
      NamedAppendWarming(s.active, ws, l);
    } else if i < |s.active| {
      NamedEditActive(s.active, ws, i, l);
    } else {
      NamedAppendActive(s.active, ws, l);
    }
  }

  lemma PlaceNamed(s: System, l: Listener, targets: set<nat>)
    requires Naming(s) && Admissible(s, l)
    ensures Naming(Place(s, l, targets))
    ensures Names(Place(s, l, targets)) == Names(s) + {l.name}
    ensures IsNew(s, l.name) <==> l.name !in Names(s)
  {
    hide Agrees, Place, Names, IsNew, DistinctNames;
    PlaceNames(s, l, targets);
    PlaceNaming(s, l, targets);
  }

  lemma PlaceInOrder(s: System, l: Listener, targets: set<nat>)
    requires Core(s) && Admissible(s, l)
    ensures var r := Place(s, l, targets);
            (forall w, tag: nat :: 0 <= w < |r.workers| ==> InOrder(r, w, tag))
            && forall d :: d in r.draining ==> PendingExact(r, d)
  {
    var r := Place(s, l, targets);
    if s.started || FindName(WarmingListeners(s.warming), l.name) < |s.warming| {
      SameInOrder(s, r);
    } else {
      forall w, tag: nat | 0 <= w < |r.workers| ensures InOrder(r, w, tag) {
        assert s.workers[w] == Worker([], []);
        assert s.draining == [] && s.completions == [];
      }
    }
  }

  lemma PlaceFields(s: System, l: Listener, targets: set<nat>)
    ensures var p := Place(s, l, targets);
            && p == s.(active := p.active, warming := p.warming)
            && (!s.started && s.warming == [] ==> p.warming == [])
  {
  }

  lemma PlaceStats(s: System, p: System, name: string)
    requires StatsExact(s) && p == s.(active := p.active, warming := p.warming)
    requires Names(p) == Names(s) + {name}
    ensures StatsExact(Count(SyncGauges(p), name !in Names(s)))
  {
    var r := Count(SyncGauges(p), name !in Names(s));
    hide NamesOf, WarmingListeners;
    assert Names(r) == Names(p);
    if name in Names(s) {
      assert Names(s) + {name} == Names(s);
    }
  }

  /** Counting and setting the gauges touches only the statistics. */
  lemma CountedCore(s: System, p: System, r: System, l: Listener)
    requires Core(s) && p == s.(active := p.active, warming := p.warming)
    requires r == p.(stats := r.stats)
    requires Ownership(p) && Naming(p) && StatsExact(r)
    requires !s.started ==> p.warming == []
    requires forall w, tag: nat :: 0 <= w < |p.workers| ==> InOrder(p, w, tag)
    requires forall d :: d in p.draining ==> PendingExact(p, d)
    ensures Core(r)
  {
    hide Owned, Named, InOrder, PendingExact, StatsExact;
    SameInOrder(p, r);
  }

  /** Placing a version and counting it keeps everything but the rule about empty target sets. */
  lemma PlaceCore(s: System, l: Listener, targets: set<nat>)
    requires Core(s) && Admissible(s, l)
    ensures Core(Count(SyncGauges(Place(s, l, targets)), IsNew(s, l.name)))
  {
    var p := Place(s, l, targets);
    PlaceFields(s, l, targets);
    PlaceOwned(s, l, targets);
    PlaceNamed(s, l, targets);
    PlaceStats(s, p, l.name);
    PlaceInOrder(s, l, targets);
    hide Owned, Named, InOrder, PendingExact, Admissible, StatsExact, FindName, Place, IsNew;
    CountedCore(s, p, Count(SyncGauges(p), IsNew(s, l.name)), l);
  }

  lemma ChosenSocketShared(s: System, name: string, c: Config, e: Env)
    requires Naming(s) && !Mismatched(s, name, c.address) && ChooseSocket(s, name, c, e).Some?
    ensures var socket := ChooseSocket(s, name, c, e).value;
            && (forall a :: a in s.active && a.name == name ==> a.address == c.address && a.socket == socket)
            && (forall x :: x in WarmingListeners(s.warming) && x.name == name ==>
                  x.address == c.address && x.socket == socket)
  {
    var ws := WarmingListeners(s.warming);
    var i := FindName(s.active, name);
    var j := FindName(ws, name);
    FindNameMember(s.active, name);
    FindNameMember(ws, name);
    forall a | a in s.active && a.name == name ensures a == s.active[i] {
      var k :| 0 <= k < |s.active| && s.active[k] == a;
      FindNameAt(s.active, k);
    }
    forall x | x in ws && x.name == name ensures x == ws[j] {
      var k :| 0 <= k < |ws| && ws[k] == x;
      FindNameAt(ws, k);
    }
    if i < |s.active| && j < |ws| {
      assert s.active[i] in s.active && ws[j] in ws;
    }
  }

  /** The intermediate state of a successful add or update, before the listener is initialized. */
  function Placed(s: System, c: Config, e: Env, l: Listener): System {
    Count(SyncGauges(Place(Constructed(s, l), l, c.targets)), IsNew(s, l.name))
  }

  /** Whether an add or update gets as far as placing a new version, and which. */
  function NewVersion(s: System, c: Config, e: Env): Option<Listener> {
    var name := Resolve(c, e);
    if IsDuplicate(s, name, c.hash) || Mismatched(s, name, c.address)
       || (IsNew(s, name) && !c.bindToPort
           && (HasAddress(WarmingListeners(s.warming), c.address) || HasAddress(s.active, c.address)))
    then None
    else match ChooseSocket(s, name, c, e)
      case None => None
      case Some(socket) => Some(Listener(s.nextTag, name, c.address, c.hash, c.bindToPort, socket))
  }

  lemma AddOrUpdateSplit(s: System, c: Config, e: Env)
    ensures var (r, res) := AddOrUpdate(s, c, e);
            match NewVersion(s, c, e)
            case None => (r == s && res == Skipped)
                         || (r == s.(nextTag := s.nextTag + 1)
                             && (res == AddressMismatch || res == DuplicateAddress || res == BindFailed))
            case Some(l) =>
              && r == (if s.started then Initialize(Placed(s, c, e, l), l.tag, e.inline) else Placed(s, c, e, l))
              && res == (if IsNew(s, l.name) then Added else Updated)
              && !Mismatched(s, l.name, c.address) && ChooseSocket(s, l.name, c, e) == Some(l.socket)
              && l == Listener(s.nextTag, Resolve(c, e), c.address, c.hash, c.bindToPort, l.socket)
  {
  }

  /** The counters after the new listener object, and perhaps its socket, have been created. */
  function Constructed(s: System, l: Listener): System {
    s.(nextTag := s.nextTag + 1,
       nextSocket := if l.socket.id == s.nextSocket then s.nextSocket + 1 else s.nextSocket)
  }

  lemma NewVersionAdmissible(s: System, c: Config, e: Env, l: Listener)
    requires Ownership(s) && Naming(s) && NewVersion(s, c, e) == Some(l)
    ensures Admissible(Constructed(s, l), l)
  {
    AddOrUpdateSplit(s, c, e);
    ChosenSocketShared(s, l.name, c, e);
  }

  lemma ConstructedCore(s: System, c: Config, e: Env, l: Listener)
    requires Core(s) && NewVersion(s, c, e) == Some(l)
    ensures Core(Constructed(s, l)) && Admissible(Constructed(s, l), l)
  {
    NewVersionAdmissible(s, c, e, l);
    hide Admissible, NewVersion, Core;
    TagCounterCore(s, Constructed(s, l));
  }

  lemma PlacedCore(s: System, c: Config, e: Env, l: Listener)
    requires Core(s) && NewVersion(s, c, e) == Some(l)
    ensures Core(Placed(s, c, e, l))
  {
    assert IsNew(Constructed(s, l), l.name) == IsNew(s, l.name);
    hide Core, Admissible, Place, FindName, IsNew, NewVersion, Count, SyncGauges, Constructed;
    ConstructedCore(s, c, e, l);
    PlaceCore(Constructed(s, l), l, c.targets);
  }

  /** After placing, the new version is in the warming list exactly when the workers run, and every
      other warming listener is one that was there before. */
  lemma PlacedWarming(s: System, c: Config, e: Env, l: Listener)
    requires (!s.started ==> s.warming == []) && NewVersion(s, c, e) == Some(l)
    ensures var r := Placed(s, c, e, l);
            && r.started == s.started
            && (forall x :: x in r.warming ==> x in s.warming || x == Warming(l, c.targets))
            && (s.started ==> Warming(l, c.targets) in r.warming)
            && (!s.started ==> r.warming == [] && l in r.active)
  {
    AddOrUpdateSplit(s, c, e);
    var ws := WarmingListeners(s.warming);
    var i := FindName(s.active, l.name);
    var j := FindName(ws, l.name);
    if j < |s.warming| {
      UpdateMembers(s.warming, j, Warming(l, c.targets));
    } else if !s.started && i < |s.active| {
      UpdateMembers(s.active, i, l);
    }
  }

  lemma RetargetInv(s: System, j: nat, targets: set<nat>)
    requires Core(s) && s.started && j < |s.warming| && targets != {}
    requires forall x :: x in s.warming ==> x.targets != {} || x == s.warming[j]
    ensures Inv(s.(warming := s.warming[j := Warming(s.warming[j].l, targets)]))
  {
    var r := s.(warming := s.warming[j := Warming(s.warming[j].l, targets)]);
    forall x | x in r.warming ensures x.targets != {} {
      var k :| 0 <= k < |r.warming| && r.warming[k] == x;
      if k != j {
        var a, b := if k < j then k else j, if k < j then j else k;
        assert WarmingListeners(s.warming)[a].tag != WarmingListeners(s.warming)[b].tag;
      }
    }
    hide Core;
    RetargetCore(s, j, targets);
  }

  lemma InitializeInv(s: System, l: Listener, targets: set<nat>, inline: set<nat>)
    requires Core(s) && s.started && Warming(l, targets) in s.warming
    requires forall x :: x in s.warming ==> x.targets != {} || x == Warming(l, targets)
    ensures Inv(Initialize(s, l.tag, inline))
  {
    var j :| 0 <= j < |s.warming| && s.warming[j] == Warming(l, targets);
    WarmedIsFoundByName(s, j);
    hide Core, Warmed;
    var rest := targets - inline;
    if rest == {} {
      WarmedInv(s, j);
    } else {
      RetargetInv(s, j, rest);
    }
  }

  lemma AddOrUpdateInv(s: System, c: Config, e: Env)
    requires Inv(s)
    ensures Inv(AddOrUpdate(s, c, e).0)
  {
    hide Core, Ownership, Naming, DistinctTags, AddOrUpdate, NewVersion, Placed, Initialize;
    CoreFacts(s);
    AddOrUpdateSplit(s, c, e);
    match NewVersion(s, c, e) {
      case None =>
        if AddOrUpdate(s, c, e).0 != s {
          TagCounterCore(s, AddOrUpdate(s, c, e).0);
        }
      case Some(l) =>
        PlacedCore(s, c, e, l);
        PlacedWarming(s, c, e, l);
        if s.started {
          InitializeInv(Placed(s, c, e, l), l, c.targets, e.inline);
        }
    }
  }

  // ---------- every step and every run ----------

  lemma InvInit(s: System)
    requires Init(s)
    ensures Inv(s)
  {
    forall w, tag: nat | 0 <= w < |s.workers| ensures InOrder(s, w, tag) {
      assert s.workers[w] == Worker([], []);
    }
    assert Names(s) == {};
  }

  lemma WorkerInv(s: System, w: nat, ok: bool)
    requires Inv(s) && s.started && w < |s.workers| && s.workers[w].queue != []
    ensures Inv(WorkerRun(s, w, ok))
  {
    hide Core;
    WorkerCore(s, w, ok);
  }

  lemma MainInv(s: System)
    requires Inv(s) && s.completions != []
    ensures Inv(MainRun(s))
  {
    hide Core, MainRun;
    if s.completions[0].RemoveDone? {
      RemoveCompletionCore(s);
    } else if s.completions[0].success || s.completions[0].l.tag in s.failed {
      AddSuccessCore(s);
    } else {
      AddRemovalCore(s);
    }
  }

  lemma RemoveInv(s: System, name: string)
    requires Inv(s) && (s.started || FindName(s.active, name) == |s.active|)
    ensures Inv(RemoveListener(s, name).0)
  {
    hide Core, RemoveListener;
    RemoveCore(s, name);
  }

  /** Every step keeps the invariant. */
  lemma InvStep(s: System, step: Step)
    requires Inv(s) && Enabled(s, step)
    ensures Inv(Apply(s, step))
  {
    hide Core, AddOrUpdate, RemoveListener, MainRun, TargetDone, Tick;
    match step
    case AddOrUpdateStep(c, e) => AddOrUpdateInv(s, c, e);
    case RemoveStep(name) => RemoveInv(s, name);
    case StartStep => StartCore(s);
    case StopAllStep => StopAllCore(s);
    case TargetStep(tag, target) => TargetInv(s, tag, target);
    case TickStep(k) => TickCore(s, k); TickKeepsWarming(s, k);
    case WorkerStep(w, ok) => WorkerInv(s, w, ok);
    case MainStep => MainInv(s);
  }

  lemma TickKeepsWarming(s: System, k: nat)
    requires k < |s.draining|
    ensures Tick(s, k).warming == s.warming
  {
  }

  /** The invariant holds in every state of every run. */
  lemma {:induction false} InvRun(states: seq<System>, steps: seq<Step>, i: nat)
    requires IsRun(states, steps) && Init(states[0]) && i < |states|
    ensures Inv(states[i])
  {
    hide Inv, Apply, Enabled;
    if i == 0 {
      InvInit(states[0]);
    } else {
      InvRun(states, steps, i - 1);
      InvStep(states[i - 1], steps[i - 1]);
    }
  }
}
