/** A worker's connection handler: its listeners with their connections, the deferred-delete list of
    its dispatcher, the connection count and the per-listener connection statistics. */
module ConnectionHandling {
  import opened ListenerModel

  datatype Address = Ip(host: string, port: nat) | Pipe(path: string)

  /** An address that listens on every interface of its port. */
  predicate IsAny(a: Address) {
    a.Ip? && (a.host == "0.0.0.0" || a.host == "::")
  }

  /** A listener in the handler. `id` stands for the object; `scope` names the statistics, which
      versions with one address share. */
  datatype ActiveListener = ActiveListener(
    id: nat, l: Listener, local: Address, scope: string, accepting: bool, connections: seq<nat>)

  /** A closed connection that waits for deletion; it refers to its listener object. */
  datatype Deferred = Deferred(connection: nat, owner: nat, scope: string)

  datatype CxStats = CxStats(total: nat, active: nat, destroyed: nat)

  // ---------- counting ----------

  function Listed(ls: seq<ActiveListener>): nat {
    if ls == [] then 0 else |ls[0].connections| + Listed(ls[1..])
  }

  function ListedIn(ls: seq<ActiveListener>, scope: string): nat {
    if ls == [] then 0
    else (if ls[0].scope == scope then |ls[0].connections| else 0) + ListedIn(ls[1..], scope)
  }

  function DeferredIn(ds: seq<Deferred>, scope: string): nat {
    if ds == [] then 0 else (if ds[0].scope == scope then 1 else 0) + DeferredIn(ds[1..], scope)
  }

  function StatsOf(stats: map<string, CxStats>, scope: string): CxStats {
    if scope in stats then stats[scope] else CxStats(0, 0, 0)
  }

  lemma {:induction false} ListedConcat(a: seq<ActiveListener>, b: seq<ActiveListener>, scope: string)
    ensures Listed(a + b) == Listed(a) + Listed(b)
    ensures ListedIn(a + b, scope) == ListedIn(a, scope) + ListedIn(b, scope)
  {
    if a == [] {
      assert a + b == b;
    } else {
      assert (a + b)[1..] == a[1..] + b;
      ListedConcat(a[1..], b, scope);
    }
  }

  lemma ListedUpdate(ls: seq<ActiveListener>, i: nat, x: ActiveListener, scope: string)
    requires i < |ls| && x.scope == ls[i].scope
    ensures Listed(ls[i := x]) == Listed(ls) - |ls[i].connections| + |x.connections|
    ensures ListedIn(ls[i := x], scope)
            == ListedIn(ls, scope) + if x.scope == scope then |x.connections| - |ls[i].connections| else 0
    ensures Listed(Erase(ls, i)) == Listed(ls) - |ls[i].connections|
    ensures ListedIn(Erase(ls, i), scope)
            == ListedIn(ls, scope) - if x.scope == scope then |ls[i].connections| else 0
  {
    assert ls == ls[..i] + ([ls[i]] + ls[i + 1..]);
    assert ls[i := x] == ls[..i] + ([x] + ls[i + 1..]);
    ListedConcat(ls[..i], [ls[i]] + ls[i + 1..], scope);
    ListedConcat(ls[..i], [x] + ls[i + 1..], scope);
    ListedConcat(ls[..i], ls[i + 1..], scope);
    assert ([x] + ls[i + 1..])[1..] == ls[i + 1..];
    assert ([ls[i]] + ls[i + 1..])[1..] == ls[i + 1..];
  }

  lemma {:induction false} DeferredAppend(ds: seq<Deferred>, d: Deferred, scope: string)
    ensures DeferredIn(ds + [d], scope) == DeferredIn(ds, scope) + if d.scope == scope then 1 else 0
  {
    if ds == [] {
      assert [] + [d] == [d] && [d][1..] == [];
    } else {
      assert (ds + [d])[1..] == ds[1..] + [d];
      DeferredAppend(ds[1..], d, scope);
    }
  }

  lemma {:induction false} ListedNone(ls: seq<ActiveListener>)
    requires forall a :: a in ls ==> a.connections == []
    ensures Listed(ls) == 0
  {
    if ls != [] {
      ListedNone(ls[1..]);
    }
  }

  // ---------- the handler's views ----------

  /** What the listener life cycle sees of the handler. */
  function EntriesOf(ls: seq<ActiveListener>): (es: seq<Entry>)
    ensures |es| == |ls|
    ensures forall i :: 0 <= i < |ls| ==> es[i] == Entry(ls[i].l, ls[i].accepting)
  {
    seq(|ls|, i requires 0 <= i < |ls| => Entry(ls[i].l, ls[i].accepting))
  }

  /** The listeners without those of one tag, each with its connections as they are. */
  function WithoutTag(ls: seq<ActiveListener>, tag: nat): (r: seq<ActiveListener>)
    ensures forall a :: a in r <==> a in ls && a.l.tag != tag
  {
    if ls == [] then []
    else if ls[0].l.tag == tag then WithoutTag(ls[1..], tag)
    else [ls[0]] + WithoutTag(ls[1..], tag)
  }

  lemma {:induction false} WithoutTagEntries(ls: seq<ActiveListener>, tag: nat)
    ensures EntriesOf(WithoutTag(ls, tag)) == RemoveEntries(EntriesOf(ls), tag)
  {
    if ls != [] {
      WithoutTagEntries(ls[1..], tag);
      assert EntriesOf(ls)[1..] == EntriesOf(ls[1..]);
      if ls[0].l.tag != tag {
        assert EntriesOf([ls[0]] + WithoutTag(ls[1..], tag))
               == [EntriesOf(ls)[0]] + EntriesOf(WithoutTag(ls[1..], tag));
      }
    }
  }

  predicate HasTag(ls: seq<ActiveListener>, tag: nat) {
    exists a :: a in ls && a.l.tag == tag
  }

  /** One turn of the removal walk over the listeners: the listener under the iterator goes, or stays. */
  lemma TurnSlices<T>(kept: seq<T>, ahead: seq<T>)
    requires ahead != []
    ensures (kept + ahead)[|kept|] == ahead[0]
    ensures Erase(kept + ahead, |kept|) == kept + ahead[1..]
    ensures kept + ahead == (kept + [ahead[0]]) + ahead[1..]
  {
  }

  lemma Regroup<T>(a: seq<T>, b: seq<T>, c: seq<T>)
    ensures a + (b + c) == (a + b) + c
  {
  }

  lemma RemovalKeeps(kept: seq<ActiveListener>, ahead: seq<ActiveListener>, tag: nat)
    requires ahead != [] && ahead[0].l.tag != tag
    ensures kept + WithoutTag(ahead, tag) == (kept + [ahead[0]]) + WithoutTag(ahead[1..], tag)
    ensures ClosedWithTag(ahead, tag) == ClosedWithTag(ahead[1..], tag)
  {
    assert WithoutTag(ahead, tag) == [ahead[0]] + WithoutTag(ahead[1..], tag);
    hide WithoutTag;
    Regroup(kept, [ahead[0]], WithoutTag(ahead[1..], tag));
  }

  // ---------- the order of deletion ----------

  /** The connections of a listener as they are put on the deferred list when it is destroyed. */
  function ClosedInOrder(a: ActiveListener): (r: seq<Deferred>)
    ensures |r| == |a.connections|
    ensures forall k :: 0 <= k < |r| ==> r[k] == Deferred(a.connections[k], a.id, a.scope)
  {
    seq(|a.connections|, k requires 0 <= k < |a.connections| => Deferred(a.connections[k], a.id, a.scope))
  }

  /** The same for all listeners of a tag. */
  function ClosedWithTag(ls: seq<ActiveListener>, tag: nat): seq<Deferred> {
    if ls == [] then []
    else if ls[0].l.tag == tag then ClosedInOrder(ls[0]) + ClosedWithTag(ls[1..], tag)
    else ClosedWithTag(ls[1..], tag)
  }

  lemma {:induction false} NoneClosed(ls: seq<ActiveListener>, tag: nat)
    requires !HasTag(ls, tag)
    ensures ClosedWithTag(ls, tag) == []
  {
    if ls != [] {
      HasTagTurn(ls, tag);
      NoneClosed(ls[1..], tag);
    }
  }

  /** The front connection closes first. */
  lemma FrontCloses(a: ActiveListener, queued: seq<Deferred>)
    requires a.connections != []
    ensures var b := a.(connections := Erase(a.connections, 0));
            (queued + [Deferred(a.connections[0], a.id, a.scope)]) + ClosedInOrder(b) == queued + ClosedInOrder(a)
  {
  }

  lemma DestroyTurn(ended: seq<Deferred>, queued: seq<Deferred>, ahead: seq<ActiveListener>, tag: nat)
    requires ahead != [] && ahead[0].l.tag == tag
    ensures ended + (queued + ClosedWithTag(ahead, tag))
            == (ended + queued + ClosedInOrder(ahead[0])) + ([] + ClosedWithTag(ahead[1..], tag))
    ensures WithoutTag(ahead, tag) == WithoutTag(ahead[1..], tag)
  {
    var rest := ClosedWithTag(ahead[1..], tag);
    assert ClosedWithTag(ahead, tag) == ClosedInOrder(ahead[0]) + rest;
    hide ClosedWithTag;
    assert ended + (queued + (ClosedInOrder(ahead[0]) + rest)) == (ended + queued + ClosedInOrder(ahead[0])) + rest;
    assert [] + rest == rest;
  }

  lemma WalkEnds(kept: seq<ActiveListener>, ended: seq<Deferred>, queued: seq<Deferred>, tag: nat)
    ensures kept + [] == kept && kept + WithoutTag([], tag) == kept && !HasTag([], tag)
    ensures ended + (queued + ClosedWithTag([], tag)) == ended + queued
  {
    assert queued + [] == queued;
  }

  lemma HasTagTurn(ahead: seq<ActiveListener>, tag: nat)
    requires ahead != []
    ensures HasTag(ahead, tag) <==> ahead[0].l.tag == tag || HasTag(ahead[1..], tag)
  {
    assert forall a :: a in ahead <==> a == ahead[0] || a in ahead[1..];
  }

  // ---------- the handler ----------

  /** The counters of one scope: every connection ever kept is active or destroyed, and the active
      ones are those in a listener's list or waiting for deletion. */
  ghost predicate Balanced(ls: seq<ActiveListener>, ds: seq<Deferred>, stats: map<string, CxStats>, scope: string) {
    var c := StatsOf(stats, scope);
    c.total == c.active + c.destroyed && c.active == ListedIn(ls, scope) + DeferredIn(ds, scope)
  }

  ghost predicate Owned(ls: seq<ActiveListener>, ds: seq<Deferred>) {
    forall d :: d in ds ==> exists a :: a in ls && a.id == d.owner && a.scope == d.scope
  }

  ghost predicate Identified(ls: seq<ActiveListener>, nextId: nat) {
    && (forall i :: 0 <= i < |ls| ==> ls[i].id < nextId)
    && (forall i, j :: 0 <= i < j < |ls| ==> ls[i].id != ls[j].id)
  }

  /** Conservation of connections, and every deferred entry's listener still exists. */
  ghost predicate Sound(ls: seq<ActiveListener>, ds: seq<Deferred>, n: nat, stats: map<string, CxStats>, nextId: nat) {
    && n == Listed(ls)
    && (forall scope :: Balanced(ls, ds, stats, scope))
    && Identified(ls, nextId)
    && Owned(ls, ds)
  }

  class ConnectionHandler {
    var listeners: seq<ActiveListener>
    var deferred: seq<Deferred>
    var numConnections: nat
    var stats: map<string, CxStats>
    var nextId: nat
    /** The connections that were deleted, in order. */
    var ended: seq<Deferred>

    ghost predicate Valid()
      reads this
    {
      Sound(listeners, deferred, numConnections, stats, nextId)
    }

    constructor ()
      ensures Valid() && listeners == [] && deferred == [] && stats == map[] && ended == []
    {
      listeners, deferred, numConnections, stats, nextId, ended := [], [], 0, map[], 0, [];
    }

    method AddListener(l: Listener, local: Address, scope: string)
      requires Valid()
      modifies this
      ensures Valid() && EntriesOf(listeners) == EntriesOf(old(listeners)) + [Entry(l, true)]
      ensures deferred == old(deferred) && stats == old(stats) && numConnections == old(numConnections)
      ensures ended == old(ended)
      ensures listeners[..|old(listeners)|] == old(listeners)
    {
      hide Sound;
      var a := ActiveListener(nextId, l, local, scope, true, []);
      SoundAdded(listeners, deferred, numConnections, stats, nextId, a);
      listeners := listeners + [a];
      nextId := nextId + 1;
    }

    method StopListeners(tag: nat)
      requires Valid()
      modifies this
      ensures Valid() && EntriesOf(listeners) == StopEntries(EntriesOf(old(listeners)), tag)
      ensures |listeners| == |old(listeners)|
      ensures forall i :: 0 <= i < |listeners| ==>
                if old(listeners)[i].l.tag == tag then
                  !listeners[i].accepting && listeners[i] == old(listeners)[i].(accepting := listeners[i].accepting)
                else listeners[i] == old(listeners)[i]
      ensures deferred == old(deferred) && stats == old(stats) && numConnections == old(numConnections)
      ensures ended == old(ended)
    {
      hide Sound;
      ghost var was := listeners;
      var i := 0;
      while i < |listeners|
        invariant i <= |listeners| == |was|
        invariant forall k :: 0 <= k < i ==>
                    listeners[k] == if was[k].l.tag == tag then was[k].(accepting := false) else was[k]
        invariant forall k :: i <= k < |was| ==> listeners[k] == was[k]
        invariant deferred == old(deferred) && stats == old(stats) && ended == old(ended)
        invariant numConnections == old(numConnections) && nextId == old(nextId)
      {
        if listeners[i].l.tag == tag {
          listeners := listeners[i := listeners[i].(accepting := false)];
        }
        i := i + 1;
      }
      SoundStopped(was, listeners, deferred, numConnections, stats, nextId);
    }

    method StopAllListeners()
      requires Valid()
      modifies this
      ensures Valid() && EntriesOf(listeners) == StopAllEntries(EntriesOf(old(listeners)))
      ensures |listeners| == |old(listeners)|
      ensures forall i :: 0 <= i < |listeners| ==>
                !listeners[i].accepting && listeners[i] == old(listeners)[i].(accepting := listeners[i].accepting)
      ensures deferred == old(deferred) && stats == old(stats) && numConnections == old(numConnections)
      ensures ended == old(ended)
    {
      hide Sound;
      ghost var was := listeners;
      var i := 0;
      while i < |listeners|
        invariant i <= |listeners| == |was|
        invariant forall k :: 0 <= k < i ==> listeners[k] == was[k].(accepting := false)
        invariant forall k :: i <= k < |was| ==> listeners[k] == was[k]
        invariant deferred == old(deferred) && stats == old(stats) && ended == old(ended)
        invariant numConnections == old(numConnections) && nextId == old(nextId)
      {
        listeners := listeners[i := listeners[i].(accepting := false)];
        i := i + 1;
      }
      SoundStopped(was, listeners, deferred, numConnections, stats, nextId);
    }

    // ---------- connections ----------

    /** A new connection reaches listener `i`. It is kept unless the filters closed it or there are
        none; in the latter case it is closed at once and never counted. */
    method OnNewConnection(i: nat, connection: nat, closed: bool, emptyFilterChain: bool)
      requires Valid() && i < |listeners|
      modifies this
      ensures Valid() && deferred == old(deferred) && ended == old(ended)
      ensures var keep := !closed && !emptyFilterChain; var a := old(listeners)[i];
              listeners == if keep then old(listeners)[i := a.(connections := [connection] + a.connections)]
                           else old(listeners)
      ensures numConnections == old(numConnections) + if !closed && !emptyFilterChain then 1 else 0
      ensures var c := StatsOf(old(stats), listeners[i].scope);
              StatsOf(stats, listeners[i].scope)
              == if !closed && !emptyFilterChain then CxStats(c.total + 1, c.active + 1, c.destroyed) else c
      ensures forall sc :: sc != listeners[i].scope ==> StatsOf(stats, sc) == StatsOf(old(stats), sc)
    {
      hide Sound;
      if !closed && !emptyFilterChain {
        var a := listeners[i];
        var c := StatsOf(stats, a.scope);
        SoundOpened(listeners, deferred, numConnections, stats, nextId, i, connection);
        listeners := listeners[i := a.(connections := [connection] + a.connections)];
        stats := stats[a.scope := CxStats(c.total + 1, c.active + 1, c.destroyed)];
        numConnections := numConnections + 1;
      }
    }

    /** A connection of listener `i` has closed: it moves to the deferred-delete list. */
    method RemoveConnection(i: nat, k: nat)
      requires Valid() && i < |listeners| && k < |listeners[i].connections|
      modifies this
      ensures Valid() && stats == old(stats) && ended == old(ended)
      ensures var a := old(listeners)[i];
              && listeners == old(listeners)[i := a.(connections := Erase(a.connections, k))]
              && deferred == old(deferred) + [Deferred(a.connections[k], a.id, a.scope)]
      ensures numConnections == old(numConnections) - 1 && nextId == old(nextId)
    {
      hide Sound, Erase;
      var a := listeners[i];
      SoundClosed(listeners, deferred, numConnections, stats, nextId, i, k);
      deferred := deferred + [Deferred(a.connections[k], a.id, a.scope)];
      listeners := listeners[i := a.(connections := Erase(a.connections, k))];
      numConnections := numConnections - 1;
    }

    /** The dispatcher deletes what is deferred, oldest first; each deletion ends a connection. */
    method ClearDeferredDeleteList()
      requires Valid()
      modifies this
      ensures Valid() && deferred == [] && listeners == old(listeners)
      ensures ended == old(ended) + old(deferred)
      ensures numConnections == old(numConnections) && nextId == old(nextId)
      ensures forall sc :: StatsOf(stats, sc).total == StatsOf(old(stats), sc).total
    {
      while deferred != []
        invariant Valid() && listeners == old(listeners)
        invariant ended + deferred == old(ended) + old(deferred)
        invariant numConnections == old(numConnections) && nextId == old(nextId)
        invariant forall sc :: StatsOf(stats, sc).total == StatsOf(old(stats), sc).total
        decreases |deferred|
      {
        hide Sound;
        var d := deferred[0];
        var c := StatsOf(stats, d.scope);
        SoundEnded(listeners, deferred, numConnections, stats, nextId);
        stats := stats[d.scope := CxStats(c.total, c.active - 1, c.destroyed + 1)];
        deferred := deferred[1..];
        ended := ended + [d];
      }
    }

    /** Destroys listener `i`: every connection of it is closed, front first, and then the deferred
        list is emptied, oldest first, so that nothing refers to the listener when it is gone. */
    method DestroyListener(i: nat)
      requires Valid() && i < |listeners|
      modifies this
      ensures Valid() && deferred == [] && listeners == Erase(old(listeners), i)
      ensures ended == old(ended) + old(deferred) + ClosedInOrder(old(listeners)[i])
      ensures numConnections == old(numConnections) - |old(listeners)[i].connections|
      ensures forall sc :: StatsOf(stats, sc).total == StatsOf(old(stats), sc).total
    {
      hide Sound, Erase, ClosedInOrder;
      ghost var was := listeners;
      while listeners[i].connections != []
        invariant Valid() && |listeners| == |was|
        invariant listeners == was[i := was[i].(connections := listeners[i].connections)]
        invariant numConnections - |listeners[i].connections| == old(numConnections) - |was[i].connections|
        invariant stats == old(stats) && ended == old(ended)
        invariant deferred + ClosedInOrder(listeners[i]) == old(deferred) + ClosedInOrder(was[i])
        decreases |listeners[i].connections|
      {
        FrontCloses(listeners[i], deferred);
        RemoveConnection(i, 0);
      }
      assert deferred == old(deferred) + ClosedInOrder(was[i]);
      Regroup(ended, old(deferred), ClosedInOrder(was[i]));
      ClearDeferredDeleteList();
      SoundGone(listeners, numConnections, stats, nextId, i);
      EraseUpdated(was, i, listeners[i]);
      listeners := Erase(listeners, i);
    }

    /** Destroys every listener of a tag. The other listeners keep their connections; the deferred
        list is empty afterwards if there was such a listener and as it was otherwise. */
    method RemoveListeners(tag: nat)
      requires Valid()
      modifies this
      ensures Valid() && listeners == WithoutTag(old(listeners), tag)
      ensures EntriesOf(listeners) == RemoveEntries(EntriesOf(old(listeners)), tag)
      ensures deferred == if HasTag(old(listeners), tag) then [] else old(deferred)
      ensures ended == old(ended) + if HasTag(old(listeners), tag) then
                                      old(deferred) + ClosedWithTag(old(listeners), tag)
                                    else []
      ensures forall sc :: StatsOf(stats, sc).total == StatsOf(old(stats), sc).total
    {
      hide Sound, WithoutTag, ClosedWithTag, ClosedInOrder, HasTag, EntriesOf, Erase;
      ghost var was := listeners;
      ghost var kept, ahead := [], listeners;
      ghost var found := false;
      assert [] + WithoutTag(was, tag) == WithoutTag(was, tag);
      var i := 0;
      while i < |listeners|
        invariant Valid() && listeners == kept + ahead && i == |kept|
        invariant kept + WithoutTag(ahead, tag) == WithoutTag(was, tag)
        invariant found || HasTag(ahead, tag) <==> HasTag(was, tag)
        invariant deferred == if found then [] else old(deferred)
        invariant ended + (deferred + ClosedWithTag(ahead, tag))
                  == old(ended) + (old(deferred) + ClosedWithTag(was, tag))
        invariant !found ==> ended == old(ended)
        invariant forall sc :: StatsOf(stats, sc).total == StatsOf(old(stats), sc).total
        decreases |ahead|
      {
        TurnSlices(kept, ahead);
        HasTagTurn(ahead, tag);
        if listeners[i].l.tag == tag {
          DestroyTurn(ended, deferred, ahead, tag);
          DestroyListener(i);
          found := true;
        } else {
          RemovalKeeps(kept, ahead, tag);
          kept := kept + [listeners[i]];
          i := i + 1;
        }
        ahead := ahead[1..];
      }
      WalkEnds(kept, ended, deferred, tag);
      WithoutTagEntries(was, tag);
    }

    // ---------- lookup ----------

    /** The accepting listener that serves an address: the first with exactly this address, else the
        first that listens on every interface of its port; the length of the list when there is none. */
    method FindListenerByAddress(host: string, port: nat) returns (i: nat)
      ensures i <= |listeners|
      ensures i < |listeners| ==>
                && listeners[i].accepting && listeners[i].local.Ip? && listeners[i].local.port == port
                && listeners[i].local.host in {host, "0.0.0.0", "::"}
      ensures i == |listeners| ==> forall k :: 0 <= k < |listeners| && listeners[k].accepting ==>
                listeners[k].local.Ip? && listeners[k].local.port == port ==>
                  listeners[k].local.host !in {host, "0.0.0.0", "::"}
      ensures i < |listeners| && listeners[i].local == Ip(host, port) ==>
                forall k :: 0 <= k < i && listeners[k].accepting ==> listeners[k].local != Ip(host, port)
      ensures i < |listeners| && listeners[i].local != Ip(host, port) ==>
                && (forall k :: 0 <= k < |listeners| && listeners[k].accepting ==>
                      listeners[k].local != Ip(host, port))
                && (forall k :: 0 <= k < i && listeners[k].accepting && listeners[k].local.Ip? ==>
                      listeners[k].local.port == port ==> listeners[k].local.host !in {"0.0.0.0", "::"})
    {
      i := 0;
      while i < |listeners| && !Serves(listeners[i], Ip(host, port))
        invariant i <= |listeners|
        invariant forall k :: 0 <= k < i ==> !Serves(listeners[k], Ip(host, port))
      {
        i := i + 1;
      }
      if i < |listeners| {
        return;
      }
      i := 0;
      while i < |listeners| && !ServesAny(listeners[i], port)
        invariant i <= |listeners|
        invariant forall k :: 0 <= k < i ==> !ServesAny(listeners[k], port)
      {
        i := i + 1;
      }
    }
  }

  // ---------- what each operation keeps ----------

  lemma EraseUpdated(ls: seq<ActiveListener>, i: nat, x: ActiveListener)
    requires i < |ls|
    ensures Erase(ls[i := x], i) == Erase(ls, i)
  {
  }

  lemma SoundAdded(
      ls: seq<ActiveListener>, ds: seq<Deferred>, n: nat, stats: map<string, CxStats>, nextId: nat, a: ActiveListener)
    requires Sound(ls, ds, n, stats, nextId) && a.id == nextId && a.connections == []
    ensures Sound(ls + [a], ds, n, stats, nextId + 1)
  {
    AddedCounts(ls, a);
    assert Owned(ls + [a], ds) by {
      assert forall b :: b in ls ==> b in ls + [a];
    }
    hide Owned, Listed, ListedIn, DeferredIn;
    forall sc ensures Balanced(ls + [a], ds, stats, sc) {
      assert Balanced(ls, ds, stats, sc);
    }
  }

  lemma SoundStopped(
      ls: seq<ActiveListener>, r: seq<ActiveListener>, ds: seq<Deferred>, n: nat, stats: map<string, CxStats>,
      nextId: nat)
    requires Sound(ls, ds, n, stats, nextId) && Stopped(ls, r)
    ensures Sound(r, ds, n, stats, nextId)
  {
    StoppedCounts(ls, r);
    assert Owned(r, ds) by {
      StoppedOwners(ls, r, ds);
    }
    hide Owned, Listed, ListedIn, DeferredIn;
    forall sc ensures Balanced(r, ds, stats, sc) {
      assert Balanced(ls, ds, stats, sc);
    }
  }

  /** One connection more on the list of its listener, and one more total and active. */
  lemma BalancedOpened(
      ls: seq<ActiveListener>, ds: seq<Deferred>, stats: map<string, CxStats>, i: nat, b: ActiveListener, sc: string)
    requires i < |ls| && b.scope == ls[i].scope && |b.connections| == |ls[i].connections| + 1
    requires Balanced(ls, ds, stats, sc)
    ensures var c := StatsOf(stats, b.scope);
            Balanced(ls[i := b], ds, stats[b.scope := CxStats(c.total + 1, c.active + 1, c.destroyed)], sc)
  {
    hide Listed, ListedIn, DeferredIn;
    ListedUpdate(ls, i, b, sc);
  }

  lemma SoundOpened(
      ls: seq<ActiveListener>, ds: seq<Deferred>, n: nat, stats: map<string, CxStats>, nextId: nat, i: nat, x: nat)
    requires Sound(ls, ds, n, stats, nextId) && i < |ls|
    ensures var a := ls[i]; var c := StatsOf(stats, a.scope);
            Sound(ls[i := a.(connections := [x] + a.connections)], ds, n + 1,
                  stats[a.scope := CxStats(c.total + 1, c.active + 1, c.destroyed)], nextId)
  {
    var a := ls[i];
    var c := StatsOf(stats, a.scope);
    var b := a.(connections := [x] + a.connections);
    OwnersUpdate(ls, i, b, ds);
    ListedUpdate(ls, i, b, a.scope);
    hide Owned, Listed, Balanced;
    var ls1, stats1 := ls[i := b], stats[a.scope := CxStats(c.total + 1, c.active + 1, c.destroyed)];
    forall sc ensures Balanced(ls1, ds, stats1, sc) {
      BalancedOpened(ls, ds, stats, i, b, sc);
    }
  }

  lemma SoundClosed(
      ls: seq<ActiveListener>, ds: seq<Deferred>, n: nat, stats: map<string, CxStats>, nextId: nat, i: nat, k: nat)
    requires Sound(ls, ds, n, stats, nextId) && i < |ls| && k < |ls[i].connections|
    ensures var a := ls[i];
            && n > 0
            && Sound(ls[i := a.(connections := Erase(a.connections, k))],
                     ds + [Deferred(a.connections[k], a.id, a.scope)], n - 1, stats, nextId)
  {
    var a := ls[i];
    var b := a.(connections := Erase(a.connections, k));
    var d := Deferred(a.connections[k], a.id, a.scope);
    ClosedCounts(ls, ds, i, k);
    assert Owned(ls[i := b], ds + [d]) by {
      ClosedOwners(ls, ds, i, k);
    }
    hide Owned, Listed, ListedIn, DeferredIn, Erase;
    var ls1, ds1 := ls[i := b], ds + [d];
    forall sc ensures Balanced(ls1, ds1, stats, sc) {
      assert Balanced(ls, ds, stats, sc);
    }
  }

  lemma SoundEnded(ls: seq<ActiveListener>, ds: seq<Deferred>, n: nat, stats: map<string, CxStats>, nextId: nat)
    requires Sound(ls, ds, n, stats, nextId) && ds != []
    ensures var c := StatsOf(stats, ds[0].scope);
            && c.active > 0
            && Sound(ls, ds[1..], n, stats[ds[0].scope := CxStats(c.total, c.active - 1, c.destroyed + 1)], nextId)
  {
    var c := StatsOf(stats, ds[0].scope);
    hide Listed, ListedIn;
    assert Balanced(ls, ds, stats, ds[0].scope);
    var r := stats[ds[0].scope := CxStats(c.total, c.active - 1, c.destroyed + 1)];
    forall sc ensures Balanced(ls, ds[1..], r, sc) {
      assert Balanced(ls, ds, stats, sc);
    }
  }

  lemma SoundGone(ls: seq<ActiveListener>, n: nat, stats: map<string, CxStats>, nextId: nat, i: nat)
    requires Sound(ls, [], n, stats, nextId) && i < |ls| && ls[i].connections == []
    ensures Sound(Erase(ls, i), [], n, stats, nextId)
  {
    ListedUpdate(ls, i, ls[i], ls[i].scope);
    hide Listed, ListedIn, DeferredIn;
    forall sc ensures Balanced(Erase(ls, i), [], stats, sc) {
      ListedUpdate(ls, i, ls[i], sc);
      assert Balanced(ls, [], stats, sc);
    }
  }

  predicate Serves(a: ActiveListener, address: Address) {
    a.accepting && a.local.Ip? && a.local == address
  }

  predicate ServesAny(a: ActiveListener, port: nat) {
    a.accepting && a.local.Ip? && a.local.port == port && IsAny(a.local)
  }

  // ---------- facts about stopping and updating ----------

  /** The same listeners with the same connections; only the accepting flags may have gone. */
  ghost predicate Stopped(ls: seq<ActiveListener>, r: seq<ActiveListener>) {
    |r| == |ls|
    && forall i :: 0 <= i < |ls| ==> r[i] == ls[i] || r[i] == ls[i].(accepting := false)
  }

  lemma {:induction false} StoppedCounts(ls: seq<ActiveListener>, r: seq<ActiveListener>)
    requires Stopped(ls, r)
    ensures Listed(r) == Listed(ls)
    ensures forall sc :: ListedIn(r, sc) == ListedIn(ls, sc)
  {
    if ls != [] {
      assert forall i :: 0 <= i < |ls| - 1 ==> r[1..][i] == r[i + 1] && ls[1..][i] == ls[i + 1];
      StoppedCounts(ls[1..], r[1..]);
    }
  }

  lemma StoppedOwners(ls: seq<ActiveListener>, r: seq<ActiveListener>, ds: seq<Deferred>)
    requires Stopped(ls, r)
    requires Owned(ls, ds)
    ensures Owned(r, ds)
  {
    forall d | d in ds ensures exists a :: a in r && a.id == d.owner && a.scope == d.scope {
      var i :| 0 <= i < |ls| && ls[i].id == d.owner && ls[i].scope == d.scope;
      assert r[i] in r;
    }
  }

  /** A listener without connections adds nothing. */
  lemma AddedCounts(ls: seq<ActiveListener>, a: ActiveListener)
    requires a.connections == []
    ensures Listed(ls + [a]) == Listed(ls)
    ensures forall sc :: ListedIn(ls + [a], sc) == ListedIn(ls, sc)
  {
    assert [a][1..] == [];
    ListedConcat(ls, [a], a.scope);
    forall sc ensures ListedIn(ls + [a], sc) == ListedIn(ls, sc) {
      ListedConcat(ls, [a], sc);
    }
  }

  /** Connection `k` of listener `i` moves to the deferred list. */
  lemma ClosedCounts(ls: seq<ActiveListener>, ds: seq<Deferred>, i: nat, k: nat)
    requires i < |ls| && k < |ls[i].connections|
    ensures var a := ls[i]; var b := a.(connections := Erase(a.connections, k));
            var d := Deferred(a.connections[k], a.id, a.scope);
            && Listed(ls[i := b]) == Listed(ls) - 1
            && forall sc :: ListedIn(ls[i := b], sc) + DeferredIn(ds + [d], sc)
                            == ListedIn(ls, sc) + DeferredIn(ds, sc)
  {
    var a := ls[i];
    var b := a.(connections := Erase(a.connections, k));
    var d := Deferred(a.connections[k], a.id, a.scope);
    ListedUpdate(ls, i, b, a.scope);
    forall sc
      ensures ListedIn(ls[i := b], sc) + DeferredIn(ds + [d], sc) == ListedIn(ls, sc) + DeferredIn(ds, sc)
    {
      ListedUpdate(ls, i, b, sc);
      DeferredAppend(ds, d, sc);
    }
  }

  lemma ClosedOwners(ls: seq<ActiveListener>, ds: seq<Deferred>, i: nat, k: nat)
    requires i < |ls| && k < |ls[i].connections|
    requires Owned(ls, ds)
    ensures var a := ls[i]; var b := a.(connections := Erase(a.connections, k));
            Owned(ls[i := b], ds + [Deferred(a.connections[k], a.id, a.scope)])
  {
    var a := ls[i];
    var b := a.(connections := Erase(a.connections, k));
    OwnersUpdate(ls, i, b, ds);
    assert ls[i := b][i] == b;
  }

  lemma OwnersUpdate(ls: seq<ActiveListener>, i: nat, b: ActiveListener, ds: seq<Deferred>)
    requires i < |ls| && b.id == ls[i].id && b.scope == ls[i].scope
    requires Owned(ls, ds)
    ensures Owned(ls[i := b], ds)
  {
    forall d | d in ds ensures exists a :: a in ls[i := b] && a.id == d.owner && a.scope == d.scope {
      var k :| 0 <= k < |ls| && ls[k].id == d.owner && ls[k].scope == d.scope;
      assert ls[i := b][k] in ls[i := b];
    }
  }
}
