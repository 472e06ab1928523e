/** What an add or update comes to, told by the members of the lists: when it is refused and why, which
    socket the new version gets, and where it goes. */
module ListenerUpdates {
  import opened Common
  import opened ListenerModel
  import opened ListenerSafety
  import opened ListenerSteps
  import opened ListenerWarm
  import opened ListenerQueues
  import opened ListenerInvariant

  /** An active or warming listener. */
  predicate Managed(s: System, l: Listener) {
    l in s.active || l in WarmingListeners(s.warming)
  }

  /** A version of a name. */
  predicate Version(s: System, l: Listener, name: string) {
    Managed(s, l) && l.name == name
  }

  /** A draining listener whose socket is bound to an address. */
  predicate DrainsOn(s: System, d: Draining, address: string) {
    d in s.draining && d.l.socket.localAddress == address
  }

  lemma OnlyOne(ls: seq<Listener>, name: string)
    requires DistinctNames(ls)
    ensures var i := FindName(ls, name);
            && (i < |ls| ==> ls[i] in ls && ls[i].name == name)
            && forall l :: l in ls && l.name == name ==> i < |ls| && l == ls[i]
  {
    forall l | l in ls && l.name == name ensures FindName(ls, name) < |ls| && l == ls[FindName(ls, name)] {
      var k :| 0 <= k < |ls| && ls[k] == l;
      FindNameAt(ls, k);
    }
  }

  /** The versions of a name are the ones that the two searches find. */
  lemma VersionsFound(s: System, name: string)
    requires Naming(s)
    ensures var i := FindName(s.active, name); var ws := WarmingListeners(s.warming); var j := FindName(ws, name);
            && (i < |s.active| ==> Version(s, s.active[i], name))
            && (j < |ws| ==> Version(s, ws[j], name) && ws[j] == s.warming[j].l)
            && (forall l :: Version(s, l, name) ==>
                  (i < |s.active| && l == s.active[i]) || (j < |ws| && l == ws[j]))
  {
    OnlyOne(s.active, name);
    OnlyOne(WarmingListeners(s.warming), name);
  }

  lemma DrainingFound(s: System, address: string)
    ensures FindDrainingAddress(s.draining, address) < |s.draining| <==> exists d :: DrainsOn(s, d, address)
    ensures var k := FindDrainingAddress(s.draining, address);
            k < |s.draining| ==> DrainsOn(s, s.draining[k], address)
  {
    var i := FindDrainingAddress(s.draining, address);
    if i < |s.draining| {
      assert DrainsOn(s, s.draining[i], address);
    }
    if d :| DrainsOn(s, d, address) {
      var k :| 0 <= k < |s.draining| && s.draining[k] == d;
    }
  }

  function NameOf(c: Config, e: Env): (name: string)
    ensures c.name != "" ==> name == c.name
    ensures c.name == "" ==> name == e.uuid
  {
    if c.name == "" then e.uuid else c.name
  }

  /** The outcome in terms of the two searches, as the code tests them. */
  lemma OutcomeBySearch(s: System, c: Config, e: Env)
    ensures var name := NameOf(c, e); var ws := WarmingListeners(s.warming); var res := AddOrUpdate(s, c, e).1;
            var i, j := FindName(s.active, name), FindName(ws, name);
            var isNew := i == |s.active| && j == |ws|;
            var same := (j < |ws| && ws[j].hash == c.hash) || (i < |s.active| && s.active[i].hash == c.hash);
            var moved := (j < |ws| && ws[j].address != c.address)
                         || (i < |s.active| && s.active[i].address != c.address);
            var taken := !c.bindToPort && (HasAddress(ws, c.address) || HasAddress(s.active, c.address));
            var unbound := FindDrainingAddress(s.draining, c.address) == |s.draining| && e.bound.None?;
            && (res == Skipped <==> same)
            && (res == AddressMismatch <==> !same && moved)
            && (res == DuplicateAddress <==> isNew && taken)
            && (res == BindFailed <==> isNew && !taken && unbound)
            && (res == Updated <==> !isNew && !same && !moved)
            && (res == Added <==> isNew && !taken && !unbound)
  {
    hide FindName, FindDrainingAddress, HasAddress, Place, Initialize, WarmingListeners;
  }

  lemma AddressTaken(s: System, address: string)
    ensures HasAddress(WarmingListeners(s.warming), address) || HasAddress(s.active, address)
            <==> exists l :: Managed(s, l) && l.address == address
  {
    hide WarmingListeners;
  }

  /** Every outcome, exactly. */
  lemma OutcomeExactly(s: System, c: Config, e: Env)
    requires Naming(s)
    ensures var name := if c.name != "" then c.name else e.uuid; var res := AddOrUpdate(s, c, e).1;
            && (res == Skipped <==> exists l :: Version(s, l, name) && l.hash == c.hash)
            && (res == AddressMismatch <==>
                  && (forall l :: Version(s, l, name) ==> l.hash != c.hash)
                  && exists l :: Version(s, l, name) && l.address != c.address)
            && (res == DuplicateAddress <==>
                  && (forall l :: !Version(s, l, name)) && !c.bindToPort
                  && exists l :: Managed(s, l) && l.address == c.address)
            && (res == BindFailed <==>
                  && (forall l :: !Version(s, l, name))
                  && (c.bindToPort || forall l :: Managed(s, l) ==> l.address != c.address)
                  && (forall d :: !DrainsOn(s, d, c.address)) && e.bound == None)
            && (res == Updated <==>
                  && (exists l :: Version(s, l, name))
                  && forall l :: Version(s, l, name) ==> l.hash != c.hash && l.address == c.address)
  {
    var name := NameOf(c, e);
    hide Named, Naming, FindName, FindDrainingAddress, HasAddress, AddOrUpdate, Version, DrainsOn, NameOf, Managed;
    hide WarmingListeners;
    OutcomeBySearch(s, c, e);
    VersionsFound(s, name);
    DrainingFound(s, c.address);
    AddressTaken(s, c.address);
  }

  /** An add or update that is skipped or refused changes no list, no worker and no counter but the tag of
      the listener object that was thrown away. */
  lemma RefusalChangesNothing(s: System, c: Config, e: Env)
    ensures var (r, res) := AddOrUpdate(s, c, e);
            && (res == Skipped ==> r == s)
            && (res != Skipped && res != Updated && res != Added ==> r == s.(nextTag := s.nextTag + 1))
  {
    hide Initialize, Placed, NewVersion, FindName, ChooseSocket;
    AddOrUpdateSplit(s, c, e);
  }

  /** The new version: what it is made of, and which socket it gets. One version's socket is shared by the
      next; a new name takes over the socket of a draining listener on its address, and binds only if there
      is none. */
  lemma SocketChosen(s: System, c: Config, e: Env)
    requires Naming(s) && AddOrUpdate(s, c, e).1 in {Added, Updated}
    ensures NewVersion(s, c, e).Some?
    ensures var l := NewVersion(s, c, e).value; var res := AddOrUpdate(s, c, e).1;
            && l == Listener(s.nextTag, if c.name != "" then c.name else e.uuid, c.address, c.hash, c.bindToPort,
                             l.socket)
            && (res == Updated ==> forall v :: Version(s, v, l.name) ==> l.socket == v.socket)
            && (res == Added && (exists d :: DrainsOn(s, d, c.address)) ==>
                  exists d :: DrainsOn(s, d, c.address) && l.socket == d.l.socket)
            && (res == Added && (forall d :: !DrainsOn(s, d, c.address)) ==>
                  e.bound.Some? && l.socket == Socket(s.nextSocket, e.bound.value))
  {
    AddOrUpdateSplit(s, c, e);
    hide AddOrUpdate, NewVersion, Named, FindName, Initialize, Placed;
    var l := NewVersion(s, c, e).value;
    ChosenSocketShared(s, l.name, c, e);
    DrainingFound(s, c.address);
  }

  /** Where the new version goes, and what is counted. */
  lemma NewVersionLands(s: System, c: Config, e: Env)
    requires Inv(s) && NewVersion(s, c, e).Some?
    ensures var (r, res) := AddOrUpdate(s, c, e); var l := NewVersion(s, c, e).value;
            && (if !s.started || c.targets <= e.inline then l in r.active
                else Warming(l, c.targets - e.inline) in r.warming && r.active == s.active)
            && r.stats.added == s.stats.added + (if res == Added then 1 else 0)
            && r.stats.modified == s.stats.modified + (if res == Updated then 1 else 0)
  {
    var l := NewVersion(s, c, e).value;
    var p := Placed(s, c, e, l);
    assert p.stats.added == s.stats.added + (if IsNew(s, l.name) then 1 else 0);
    assert p.stats.modified == s.stats.modified + (if IsNew(s, l.name) then 0 else 1);
    assert s.started ==> p.active == s.active;
    AddOrUpdateSplit(s, c, e);
    hide AddOrUpdate, NewVersion, Core, Placed, IsNew;
    PlacedCore(s, c, e, l);
    assert !s.started ==> s.warming == [] by {
      CoreFacts(s);
    }
    PlacedWarming(s, c, e, l);
    if s.started {
      InitializeLands(p, l, c.targets, e.inline);
    }
  }

  lemma WarmedLands(s: System, j: nat)
    requires s.drainTime >= 1 && Ownership(s) && Naming(s) && j < |s.warming|
    ensures FindName(WarmingListeners(s.warming), s.warming[j].l.name) == j
    ensures var l := s.warming[j].l; var r := Warmed(s, l);
            && l in r.active && r.warming == Erase(s.warming, j)
            && r.stats.added == s.stats.added && r.stats.modified == s.stats.modified
  {
    hide Ownership, Naming, Warmed;
    WarmedIsFoundByName(s, j);
    var l := s.warming[j].l;
    WarmedFields(s, l, j);
    var i := FindName(s.active, l.name);
    if i < |s.active| {
      UpdateMembers(s.active, i, l);
    }
  }

  /** A warming listener with the targets that are left, or without any. */
  function Retargeted(s: System, j: nat, rest: set<nat>): System
    requires j < |s.warming| && FindName(WarmingListeners(s.warming), s.warming[j].l.name) == j
  {
    if rest != {} then s.(warming := s.warming[j := Warming(s.warming[j].l, rest)]) else Warmed(s, s.warming[j].l)
  }

  lemma RetargetedLands(s: System, j: nat, rest: set<nat>)
    requires s.drainTime >= 1 && Ownership(s) && Naming(s) && j < |s.warming|
    ensures FindName(WarmingListeners(s.warming), s.warming[j].l.name) == j
    ensures var l := s.warming[j].l; var r := Retargeted(s, j, rest);
            && (if rest == {} then l in r.active && s.warming[j] !in r.warming
                else Warming(l, rest) in r.warming && r.active == s.active)
            && r.stats.added == s.stats.added && r.stats.modified == s.stats.modified
  {
    assert DistinctTags(WarmingListeners(s.warming));
    hide Ownership, Naming, Warmed, DistinctTags, FindName, WarmingListeners;
    WarmedLands(s, j);
    if rest == {} {
      ErasedRest(s.warming, j);
    } else {
      UpdateMembers(s.warming, j, Warming(s.warming[j].l, rest));
    }
  }

  lemma InitializeIs(s: System, j: nat, inline: set<nat>)
    requires s.drainTime >= 1 && Ownership(s) && Naming(s) && j < |s.warming|
    ensures FindName(WarmingListeners(s.warming), s.warming[j].l.name) == j
    ensures Initialize(s, s.warming[j].l.tag, inline) == Retargeted(s, j, s.warming[j].targets - inline)
  {
    hide Ownership, Naming, Warmed;
    WarmedIsFoundByName(s, j);
  }

  lemma NothingLeft(targets: set<nat>, done: set<nat>)
    ensures targets <= done <==> targets - done == {}
  {
    if targets - done == {} {
      forall t | t in targets ensures t in done {
        assert t !in targets - done;
      }
    }
  }

  /** Targets that complete inside their own initialize call are gone; without any left the listener is
      active at once. */
  lemma InitializeLands(s: System, l: Listener, targets: set<nat>, inline: set<nat>)
    requires Core(s) && Warming(l, targets) in s.warming
    ensures var r := Initialize(s, l.tag, inline);
            && (if targets <= inline then l in r.active
                else Warming(l, targets - inline) in r.warming && r.active == s.active)
            && r.stats.added == s.stats.added && r.stats.modified == s.stats.modified
  {
    var j :| 0 <= j < |s.warming| && s.warming[j] == Warming(l, targets);
    CoreFacts(s);
    hide Core, Ownership, Naming, Warmed;
    InitializeIs(s, j, inline);
    hide Initialize, Retargeted, FindName, WarmingListeners, WarmingTagIndex;
    RetargetedLands(s, j, targets - inline);
    NothingLeft(targets, inline);
  }

  /** The completion of a target: the last one makes the listener active, an earlier one leaves the others,
      and one of no warming listener does nothing. */
  lemma TargetLands(s: System, x: Warming, target: nat)
    requires Core(s) && x in s.warming && target in x.targets
    ensures var r := TargetDone(s, x.l.tag, target);
            if x.targets == {target} then x.l in r.active && x !in r.warming
            else Warming(x.l, x.targets - {target}) in r.warming && r.active == s.active
  {
    var j :| 0 <= j < |s.warming| && s.warming[j] == x;
    CoreFacts(s);
    hide Core, Ownership, Naming, Warmed;
    WarmedIsFoundByName(s, j);
    assert TargetDone(s, x.l.tag, target) == Retargeted(s, j, x.targets - {target});
    hide TargetDone, Retargeted, FindName, WarmingListeners;
    RetargetedLands(s, j, x.targets - {target});
    assert x.targets == {target} <==> x.targets - {target} == {};
  }

  lemma StrayTarget(s: System, tag: nat, target: nat)
    requires forall x :: x in s.warming && x.l.tag == tag ==> target !in x.targets
    ensures TargetDone(s, tag, target) == s
  {
    var j := WarmingTagIndex(s.warming, tag);
    if j < |s.warming| {
      assert s.warming[j] in s.warming;
    }
  }
}
