/** The listener manager as the main thread runs it: lists and counters that its methods update, and
    one queue and handler per worker in an array. Each method takes the state where the transition
    system says it goes, and keeps the invariant. */
module ListenerManagement {
  import opened Common
  import opened ListenerModel
  import opened ListenerSafety
  import opened ListenerSteps
  import opened ListenerWarm
  import opened ListenerQueues
  import opened ListenerInvariant

  class ListenerManager {
    var active: seq<Listener>
    var warming: seq<Warming>
    var draining: seq<Draining>
    var started: bool
    const workers: array<Worker>
    var completions: seq<Completion>
    var failed: set<nat>
    var stats: Stats
    var nextTag: nat
    var nextSocket: nat
    const drainTime: nat

    ghost function View(): System
      reads this, workers
    {
      System(active, warming, draining, started, workers[..], completions, failed, stats, nextTag,
             nextSocket, drainTime)
    }

    ghost predicate Valid()
      reads this, workers
    {
      Inv(View())
    }

    /** At least one worker is created whatever the configured concurrency is. */
    constructor (concurrency: nat, drainTime: nat)
      requires drainTime >= 1
      ensures Init(View()) && Valid() && fresh(workers)
      ensures workers.Length == (if concurrency > 1 then concurrency else 1)
      ensures this.drainTime == drainTime
    {
      active, warming, draining, started, completions, failed := [], [], [], false, [], {};
      stats := Stats(0, 0, 0, 0, 0, 0, 0, 0);
      nextTag, nextSocket := 1, 0;
      workers := new Worker[if concurrency > 1 then concurrency else 1](_ => Worker([], []));
      this.drainTime := drainTime;
      new;
      InvInit(View());
    }

    // ---------- searching ----------

    /** Walks the whole list, as the source does to check that a name occurs only once. */
    static method GetListenerByName(list: seq<Listener>, name: string) returns (i: nat)
      requires DistinctNames(list)
      ensures i == FindName(list, name)
    {
      i := |list|;
      var k := 0;
      while k < |list|
        invariant k <= |list|
        invariant i == |list| || i < k
        invariant i < |list| ==> list[i].name == name
        invariant forall n :: 0 <= n < k && n != i ==> list[n].name != name
      {
        if list[k].name == name {
          i := k;
        }
        k := k + 1;
      }
    }

    static method HasListenerWithAddress(list: seq<Listener>, address: string) returns (found: bool)
      ensures found == HasAddress(list, address)
    {
      for k := 0 to |list|
        invariant forall n :: 0 <= n < k ==> list[n].address != address
      {
        if list[k].address == address {
          return true;
        }
      }
      return false;
    }

    method FindDrainingSocket(address: string) returns (i: nat)
      ensures i == FindDrainingAddress(draining, address)
    {
      i := 0;
      while i < |draining| && draining[i].l.socket.localAddress != address
        invariant i <= |draining|
        invariant forall n :: 0 <= n < i ==> draining[n].l.socket.localAddress != address
      {
        i := i + 1;
      }
    }

    // ---------- posting and draining ----------

    method PostToWorkers(t: Task)
      modifies workers
      ensures workers[..] == PostAll(old(workers[..]), t)
    {
      var w := 0;
      while w < workers.Length
        invariant w <= workers.Length
        invariant forall v :: 0 <= v < w ==>
                    workers[v] == old(workers[v]).(queue := old(workers[v]).queue + [t])
        invariant forall v :: w <= v < workers.Length ==> workers[v] == old(workers[v])
      {
        workers[w] := workers[w].(queue := workers[w].queue + [t]);
        w := w + 1;
      }
    }

    /** One tick of the drain manager of entry `k`; after the last one every worker is told to
        remove the listener. */
    method DrainSequenceTick(k: nat)
      requires k < |draining| && draining[k].ticks < drainTime
      modifies this, workers
      ensures View() == Tick(old(View()), k)
    {
      var d := draining[k];
      draining := draining[k := d.(ticks := d.ticks + 1)];
      if d.ticks + 1 == drainTime {
        PostToWorkers(RemoveTask(d.l.tag));
      }
    }

    method DrainListener(l: Listener)
      requires drainTime >= 1
      modifies this, workers
      ensures View() == Drain(old(View()), l)
    {
      draining := [Draining(l, workers.Length, 0)] + draining;
      stats := stats.(drainingGauge := |draining|);
      PostToWorkers(StopTask(l.tag));
      DrainSequenceTick(0);
    }

    method UpdateWarmingActiveGauges()
      modifies `stats
      ensures View() == SyncGauges(old(View()))
    {
      stats := stats.(warmingGauge := |warming|, activeGauge := |active|);
    }

    // ---------- operations ----------

    /** Moves the warmed listener to the active list; its adds are queued before the stops of the
        version it replaces. */
    method OnListenerWarmed(l: Listener)
      requires drainTime >= 1 && Naming(View())
      requires FindName(WarmingListeners(warming), l.name) < |warming|
      modifies this, workers
      ensures View() == Warmed(old(View()), l)
    {
      PostToWorkers(AddTask(l));
      var i := GetListenerByName(active, l.name);
      var j := GetListenerByName(WarmingListeners(warming), l.name);
      if i < |active| {
        DrainListener(active[i]);
        active := active[i := warming[j].l];
      } else {
        active := active + [warming[j].l];
      }
      warming := Erase(warming, j);
      UpdateWarmingActiveGauges();
    }

    method RemoveListener(name: string) returns (removed: bool)
      requires Valid()
      requires started || FindName(active, name) == |active|
      modifies this, workers
      ensures Valid() && (View(), removed) == ListenerModel.RemoveListener(old(View()), name)
    {
      hide Inv, Drain, Owned, Named, FindName, WarmingListeners, Erase;
      Basics(View());
      InvStep(View(), RemoveStep(name));
      ghost var s := View();
      var i := GetListenerByName(active, name);
      var j := GetListenerByName(WarmingListeners(warming), name);
      if i == |active| && j == |warming| {
        return false;
      }
      if j < |warming| {
        warming := Erase(warming, j);
      }
      ghost var s1 := if j < |s.warming| then s.(warming := Erase(s.warming, j)) else s;
      assert View() == s1;
      if i < |active| {
        DrainShape(s1, active[i]);
        DrainListener(active[i]);
        active := Erase(active, i);
      }
      ghost var s2 := if i < |s.active| then Drain(s1, s.active[i]).(active := Erase(s.active, i)) else s1;
      assert View() == s2;
      stats := stats.(removed := stats.removed + 1);
      UpdateWarmingActiveGauges();
      removed := true;
    }

    // ---------- adding and updating ----------

    /** The socket for a new version of `name`, or None when a new one is needed and cannot be bound. */
    method ObtainSocket(name: string, c: Config, e: Env, i: nat, j: nat) returns (socket: Option<Socket>)
      requires i == FindName(active, name) && j == FindName(WarmingListeners(warming), name)
      ensures socket == ChooseSocket(View(), name, c, e)
    {
      if j < |warming| {
        return Some(warming[j].l.socket);
      }
      if i < |active| {
        return Some(active[i].socket);
      }
      var k := FindDrainingSocket(c.address);
      if k < |draining| {
        return Some(draining[k].l.socket);
      }
      match e.bound
      case None => return None;
      case Some(address) => return Some(Socket(nextSocket, address));
    }

    method PlaceListener(l: Listener, targets: set<nat>, i: nat, j: nat)
      requires i == FindName(active, l.name) && j == FindName(WarmingListeners(warming), l.name)
      modifies `active, `warming
      ensures View() == Place(old(View()), l, targets)
    {
      if j < |warming| {
        warming := warming[j := Warming(l, targets)];
      } else if started {
        warming := warming + [Warming(l, targets)];
      } else if i < |active| {
        active := active[i := l];
      } else {
        active := active + [l];
      }
    }

    /** Starts the init targets of a listener created after the workers started. */
    method InitializeListener(tag: nat, inline: set<nat>)
      requires drainTime >= 1 && Naming(View()) && Ownership(View())
      modifies this, workers
      ensures View() == Initialize(old(View()), tag, inline)
    {
      var j := WarmingTagIndex(warming, tag);
      if j < |warming| {
        WarmedIsFoundByName(View(), j);
        var l := warming[j].l;
        var rest := warming[j].targets - inline;
        if rest != {} {
          warming := warming[j := Warming(l, rest)];
        } else {
          OnListenerWarmed(l);
        }
      }
    }

    method AddOrUpdateListener(c: Config, e: Env) returns (res: AddResult)
      requires Valid()
      modifies this, workers
      ensures Valid() && (View(), res) == AddOrUpdate(old(View()), c, e)
    {
      hide Inv, Owned, Named, AddOrUpdate, NewVersion, ChooseSocket, HasAddress, FindName, WarmingListeners;
      ghost var s := View();
      Basics(s);
      AddOrUpdateVerdict(s, c, e);
      InvStep(s, AddOrUpdateStep(c, e));
      var name := if c.name != "" then c.name else e.uuid;
      var i := GetListenerByName(active, name);
      var j := GetListenerByName(WarmingListeners(warming), name);
      if (j < |warming| && warming[j].l.hash == c.hash) || (i < |active| && active[i].hash == c.hash) {
        return Skipped;
      }
      var tag := nextTag;
      nextTag := nextTag + 1;
      if (j < |warming| && warming[j].l.address != c.address)
         || (i < |active| && active[i].address != c.address) {
        return AddressMismatch;
      }
      var isNew := i == |active| && j == |warming|;
      if isNew && !c.bindToPort {
        var onWarming := HasListenerWithAddress(WarmingListeners(warming), c.address);
        var onActive := HasListenerWithAddress(active, c.address);
        if onWarming || onActive {
          return DuplicateAddress;
        }
      }
      var socket := ObtainSocket(name, c, e, i, j);
      if socket == None {
        return BindFailed;
      }
      res := if isNew then Added else Updated;
      AddVersion(c, e, Listener(tag, name, c.address, c.hash, c.bindToPort, socket.value), i, j, isNew, s);
    }

    method AddVersion(c: Config, e: Env, l: Listener, i: nat, j: nat, isNew: bool, ghost s: System)
      requires Inv(s) && NewVersion(s, c, e) == Some(l) && View() == s.(nextTag := s.nextTag + 1)
      requires i == FindName(active, l.name) && j == FindName(WarmingListeners(warming), l.name)
      requires isNew == IsNew(s, l.name)
      modifies this, workers
      ensures View() == AddOrUpdate(s, c, e).0
    {
      hide Inv, Owned, Named, Initialize, Place, NewVersion, AddOrUpdate, IsNew, ChooseSocket, Mismatched, FindName;
      hide WarmingListeners, Placed, Ownership, Naming;
      AddOrUpdateSplit(s, c, e);
      NewVersionBasics(s, c, e, l);
      PlacedIs(s, c, e, l);
      if l.socket.id == nextSocket {
        nextSocket := nextSocket + 1;
      }
      PlaceListener(l, c.targets, i, j);
      ghost var s1 := View();
      UpdateWarmingActiveGauges();
      if isNew {
        stats := stats.(added := stats.added + 1);
      } else {
        stats := stats.(modified := stats.modified + 1);
      }
      assert View() == Count(SyncGauges(s1), isNew);
      if started {
        InitializeListener(l.tag, e.inline);
      }
    }

    /** An init target of the listener with this tag reports completion. */
    method OnTargetInitialized(tag: nat, target: nat)
      requires Valid()
      modifies this, workers
      ensures Valid() && View() == TargetDone(old(View()), tag, target)
    {
      hide Inv, Warmed, Owned;
      Basics(View());
      InvStep(View(), TargetStep(tag, target));
      var j := WarmingTagIndex(warming, tag);
      if j == |warming| || target !in warming[j].targets {
        return;
      }
      WarmedIsFoundByName(View(), j);
      var l := warming[j].l;
      var rest := warming[j].targets - {target};
      if rest != {} {
        warming := warming[j := Warming(l, rest)];
      } else {
        OnListenerWarmed(l);
      }
    }

    method StartWorkers()
      requires Valid() && !started
      modifies this, workers
      ensures Valid() && View() == ListenerModel.StartWorkers(old(View()))
      ensures started && forall w :: 0 <= w < workers.Length ==>
                workers[w] == Worker(old(workers[w]).queue + PostActive(active), old(workers[w]).handler)
    {
      hide Inv;
      InvStep(View(), StartStep);
      started := true;
      var w := 0;
      while w < workers.Length
        modifies workers
        invariant w <= workers.Length
        invariant forall v :: 0 <= v < w ==>
                    workers[v] == old(workers[v]).(queue := old(workers[v]).queue + PostActive(active))
        invariant forall v :: w <= v < workers.Length ==> workers[v] == old(workers[v])
      {
        var before := workers[w];
        var k := 0;
        while k < |active|
          modifies workers
          invariant k <= |active|
          invariant workers[w] == before.(queue := before.queue + PostActive(active[..k]))
          invariant forall v :: 0 <= v < workers.Length && v != w ==>
                      workers[v] == if v < w then old(workers[v]).(queue := old(workers[v]).queue
                                                                            + PostActive(active))
                                    else old(workers[v])
        {
          workers[w] := workers[w].(queue := workers[w].queue + [AddTask(active[k])]);
          assert PostActive(active[..k + 1]) == PostActive(active[..k]) + [AddTask(active[k])];
          k := k + 1;
        }
        assert active[..k] == active;
        w := w + 1;
      }
      assert workers[..] == ListenerModel.StartWorkers(old(View())).workers;
    }

    method StopListeners()
      requires Valid() && started
      modifies workers
      ensures Valid() && View() == ListenerModel.StopListeners(old(View()))
      ensures forall w :: 0 <= w < workers.Length ==>
                && workers[w].handler == old(workers[w]).handler
                && workers[w].queue == old(workers[w]).queue + [StopAllTask]
    {
      hide Inv;
      InvStep(View(), StopAllStep);
      PostToWorkers(StopAllTask);
    }

    /** Worker `w`'s dispatcher runs the oldest closure of its queue: it changes the handler and
        posts what the closure reports back. `ok` says whether a listener could be created. */
    method RunWorkerTask(w: nat, ok: bool)
      requires Valid() && started && w < workers.Length && workers[w].queue != []
      modifies `completions, workers
      ensures Valid() && View() == WorkerRun(old(View()), w, ok)
    {
      hide Inv;
      InvStep(View(), WorkerStep(w, ok));
      var task := workers[w].queue[0];
      workers[w] := Worker(workers[w].queue[1..], RunTask(workers[w].handler, task, ok));
      completions := completions + Reply(w, task, ok);
      assert workers[..] == WorkerRun(old(View()), w, ok).workers;
    }

    /** The main thread's dispatcher runs the oldest completion. */
    method RunCompletion()
      requires Valid() && completions != []
      modifies this, workers
      ensures Valid() && View() == MainRun(old(View()))
    {
      hide Inv;
      InvStep(View(), MainStep);
      var c := completions[0];
      match c {
        case AddDone(_, l, success) =>
          if success {
            completions := completions[1..];
            stats := stats.(createSuccess := stats.createSuccess + 1);
          } else if l.tag in failed {
            completions := completions[1..];
          } else {
            HandleCreateFailure(l);
          }
        case RemoveDone(_, tag) =>
          completions := completions[1..];
          OnWorkerRemoved(tag);
      }
    }

    method HandleCreateFailure(l: Listener)
      requires Valid() && completions != [] && completions[0].AddDone? && completions[0].l == l
      requires !completions[0].success && l.tag !in failed
      modifies this, workers
      ensures Valid() && View() == MainRun(old(View()))
    {
      hide Inv, ListenerModel.RemoveListener;
      InvStep(View(), MainStep);
      CreateFailureReady(View());
      completions := completions[1..];
      failed := failed + {l.tag};
      stats := stats.(createFailure := stats.createFailure + 1);
      var removed := RemoveListener(l.name);
    }

    method OnWorkerRemoved(tag: nat)
      modifies this
      ensures View() == ConfirmRemoval(old(View()), tag)
    {
      var k := FindTag(draining, tag);
      if k < |draining| {
        var d := draining[k].(pending := Decrement(draining[k].pending));
        if d.pending == 0 {
          draining := Erase(draining, k);
          stats := stats.(drainingGauge := |draining|);
        } else {
          draining := draining[k := d];
        }
      }
    }
  }

  /** The state between noting a failed add and removing the listener satisfies the invariant. */
  lemma CreateFailureReady(s: System)
    requires Inv(s) && s.completions != [] && s.completions[0].AddDone?
    ensures var r := FailureNoted(s.(completions := s.completions[1..]), s.completions[0].l);
            Inv(r) && r.started
  {
    hide Core;
    AddFailureCore(s);
  }

  /** The ways in which an add or update is turned down, and what is left of it otherwise. */
  lemma AddOrUpdateVerdict(s: System, c: Config, e: Env)
    ensures var name := Resolve(c, e);
            var i := FindName(s.active, name);
            var j := FindName(WarmingListeners(s.warming), name);
            var s0 := s.(nextTag := s.nextTag + 1);
            var r := AddOrUpdate(s, c, e);
            if (j < |s.warming| && s.warming[j].l.hash == c.hash)
               || (i < |s.active| && s.active[i].hash == c.hash) then r == (s, Skipped)
            else if (j < |s.warming| && s.warming[j].l.address != c.address)
                    || (i < |s.active| && s.active[i].address != c.address) then r == (s0, AddressMismatch)
            else if i == |s.active| && j == |s.warming| && !c.bindToPort
                    && (HasAddress(WarmingListeners(s.warming), c.address) || HasAddress(s.active, c.address))
            then r == (s0, DuplicateAddress)
            else if ChooseSocket(s, name, c, e) == None then r == (s0, BindFailed)
            else NewVersion(s, c, e) == Some(Listener(s.nextTag, name, c.address, c.hash, c.bindToPort,
                                                      ChooseSocket(s, name, c, e).value))
                 && r.1 == if i == |s.active| && j == |s.warming| then Added else Updated
    ensures forall t: nat :: ChooseSocket(s.(nextTag := t), Resolve(c, e), c, e)
                             == ChooseSocket(s, Resolve(c, e), c, e)
  {
    AddOrUpdateSplit(s, c, e);
  }

  lemma PlacedIs(s: System, c: Config, e: Env, l: Listener)
    ensures Placed(s, c, e, l) == Count(SyncGauges(Place(Constructed(s, l), l, c.targets)), IsNew(s, l.name))
  {
  }

  lemma NewVersionBasics(s: System, c: Config, e: Env, l: Listener)
    requires Inv(s) && NewVersion(s, c, e) == Some(l)
    ensures var r := Placed(s, c, e, l);
            r.drainTime >= 1 && Ownership(r) && Naming(r) && r.started == s.started
  {
    PlacedCore(s, c, e, l);
    PlacedWarming(s, c, e, l);
  }

  lemma Basics(s: System)
    requires Inv(s)
    ensures s.drainTime >= 1 && Ownership(s) && Naming(s)
    ensures DistinctNames(s.active) && DistinctNames(WarmingListeners(s.warming))
  {
  }
}
