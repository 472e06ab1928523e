/** Whole runs of the guard dog: dogs come and go between scans, and the two counters are shared. */
module GuardDogRuns {
  import opened GuardDogs

  /** A watched dog, by the number it got when it was created, and what the scanner remembers of it. */
  datatype Watch = Watch(dog: nat, alerts: Alerts)

  /** The guard dog, and for every dog ever created the looks that scans took at it. */
  datatype Kennel = Kennel(watched: seq<Watch>, looks: seq<seq<Look>>, miss: nat, megamiss: nat, panic: Panic)

  const EMPTY_KENNEL := Kennel([], [], 0, 0, NoPanic)

  /** A scan reads the clock once, and then the touch time of each watched dog. */
  datatype Event = Create | Stop(dog: nat) | ScanDogs(now: int, touches: seq<int>)

  function AlertsIn(watched: seq<Watch>): (r: seq<Alerts>)
    ensures |r| == |watched| && forall k :: 0 <= k < |watched| ==> r[k] == watched[k].alerts
  {
    seq(|watched|, k requires 0 <= k < |watched| => watched[k].alerts)
  }

  /** The list without the first entry of a dog. */
  function WithoutDog(watched: seq<Watch>, dog: nat): seq<Watch> {
    if watched == [] then []
    else if watched[0].dog == dog then watched[1..]
    else [watched[0]] + WithoutDog(watched[1..], dog)
  }

  /** The looks after the first `k` watched dogs have been looked at. */
  function Noted(looks: seq<seq<Look>>, watched: seq<Watch>, touches: seq<int>, now: int, k: nat): (r: seq<seq<Look>>)
    requires k <= |watched| == |touches|
    requires forall i :: 0 <= i < k ==> watched[i].dog < |looks|
    ensures |r| == |looks|
  {
    if k == 0 then looks
    else
      var before := Noted(looks, watched, touches, now, k - 1);
      var dog := watched[k - 1].dog;
      before[dog := before[dog] + [Look(now, touches[k - 1])]]
  }

  /** The new alerts of the dogs that were scanned. */
  function Alerted(watched: seq<Watch>, alerts: seq<Alerts>): (r: seq<Watch>)
    requires |alerts| <= |watched|
    ensures |r| == |watched|
    ensures forall k :: 0 <= k < |watched| ==>
              r[k] == if k < |alerts| then Watch(watched[k].dog, alerts[k]) else watched[k]
  {
    seq(|watched|, k requires 0 <= k < |watched| =>
          if k < |alerts| then Watch(watched[k].dog, alerts[k]) else watched[k])
  }

  ghost predicate Apart(watched: seq<Watch>) {
    forall i, j :: 0 <= i < j < |watched| ==> watched[i].dog != watched[j].dog
  }

  /** Every watched dog was created, and is watched once. */
  ghost predicate Known(k: Kennel) {
    && (forall i :: 0 <= i < |k.watched| ==> k.watched[i].dog < |k.looks|)
    && Apart(k.watched)
  }

  /** A scan sees no touch time that is older than one that an earlier scan saw. */
  ghost predicate Ordered(k: Kennel, touches: seq<int>)
    requires Known(k)
  {
    |touches| == |k.watched|
    && forall i :: 0 <= i < |touches| ==>
         var looks := k.looks[k.watched[i].dog];
         looks == [] || looks[|looks| - 1].touched <= touches[i]
  }

  /** A panic ends the process. */
  ghost predicate Possible(k: Kennel, e: Event) {
    Known(k) && k.panic == NoPanic && (e.ScanDogs? ==> Ordered(k, e.touches))
  }

  ghost function Step(t: Timeouts, k: Kennel, e: Event): Kennel
    requires Possible(k, e)
  {
    match e
    case Create => k.(watched := k.watched + [Watch(|k.looks|, UNALERTED)], looks := k.looks + [[]])
    case Stop(dog) => k.(watched := WithoutDog(k.watched, dog))
    case ScanDogs(now, touches) =>
      var s := ScanAll(t, AlertsIn(k.watched), touches, now);
      Kennel(Alerted(k.watched, s.alerts), Noted(k.looks, k.watched, touches, now, |s.alerts|),
             k.miss + s.miss, k.megamiss + s.megamiss, s.panic)
  }

  // ---------- stalls ----------

  /** The touch times that some look found overdue. */
  ghost function OverdueTouches(looks: seq<Look>, timeout: nat): set<int> {
    set i | 0 <= i < |looks| && looks[i].now - looks[i].touched > timeout :: looks[i].touched
  }

  /** The number of stalls of one dog that some scan found overdue. */
  ghost function Stalls(looks: seq<Look>, timeout: nat): nat {
    |OverdueTouches(looks, timeout)|
  }

  ghost function AllStalls(looks: seq<seq<Look>>, timeout: nat): nat {
    if looks == [] then 0 else AllStalls(looks[..|looks| - 1], timeout) + Stalls(looks[|looks| - 1], timeout)
  }

  lemma OverdueTouchesAre(looks: seq<Look>, touched: int, timeout: nat)
    ensures touched in OverdueTouches(looks, timeout) <==> Overdue(looks, touched, timeout)
  {
  }

  lemma OneMoreLook(looks: seq<Look>, l: Look, timeout: nat)
    ensures OverdueTouches(looks + [l], timeout)
            == if l.now - l.touched > timeout then OverdueTouches(looks, timeout) + {l.touched}
               else OverdueTouches(looks, timeout)
  {
    var more := looks + [l];
    forall x | x in OverdueTouches(looks, timeout) ensures x in OverdueTouches(more, timeout) {
      var i :| 0 <= i < |looks| && looks[i].now - looks[i].touched > timeout && looks[i].touched == x;
      assert more[i] == looks[i];
    }
    assert more[|looks|] == l;
  }

  lemma OneMoreStall(looks: seq<Look>, l: Look, timeout: nat)
    ensures Stalls(looks + [l], timeout)
            == Stalls(looks, timeout)
               + if l.now - l.touched > timeout && !Overdue(looks, l.touched, timeout) then 1 else 0
  {
    OneMoreLook(looks, l, timeout);
    OverdueTouchesAre(looks, l.touched, timeout);
    hide OverdueTouches, Overdue;
    var s := OverdueTouches(looks, timeout);
    if l.touched in s {
      assert s + {l.touched} == s;
    }
  }

  /** A look counts exactly if it finds a stall overdue that no earlier look found overdue. */
  lemma LookCounts(t: Timeouts, looks: seq<Look>, l: Look)
    requires TouchesOrdered(looks + [l])
    ensures var (_, miss, megamiss) := ScanDog(t, AlertsAfter(t, looks), l.touched, l.now);
            && Stalls(looks + [l], t.miss) == Stalls(looks, t.miss) + miss
            && Stalls(looks + [l], t.megamiss) == Stalls(looks, t.megamiss) + megamiss
  {
    hide ScanDog, Overdue, Stalls;
    var more := looks + [l];
    assert more[..|looks|] == looks;
    LastLook(t, more, l.touched);
    OneMoreStall(looks, l, t.miss);
    OneMoreStall(looks, l, t.megamiss);
  }

  lemma {:induction false} AllStallsUpdate(looks: seq<seq<Look>>, d: nat, l: seq<Look>, timeout: nat)
    requires d < |looks|
    ensures AllStalls(looks[d := l], timeout)
            == AllStalls(looks, timeout) - Stalls(looks[d], timeout) + Stalls(l, timeout)
  {
    hide Stalls;
    var n := |looks| - 1;
    if d == n {
      assert looks[d := l][..n] == looks[..n];
    } else {
      assert looks[d := l][..n] == looks[..n][d := l];
      AllStallsUpdate(looks[..n], d, l, timeout);
    }
  }

  // ---------- one scan ----------

  /** What the first `k` dogs of a scan add to the two counters. */
  function Counted(t: Timeouts, alerts: seq<Alerts>, touches: seq<int>, now: int, k: nat): (nat, nat)
    requires k <= |alerts| == |touches|
  {
    if k == 0 then (0, 0)
    else
      var before := Counted(t, alerts, touches, now, k - 1);
      var dog := ScanDog(t, alerts[k - 1], touches[k - 1], now);
      (before.0 + dog.1, before.1 + dog.2)
  }

  lemma {:induction false} CountedPrefix(
      t: Timeouts, alerts: seq<Alerts>, touches: seq<int>, now: int, n: nat, k: nat)
    requires k <= n <= |alerts| == |touches|
    ensures Counted(t, alerts[..n], touches[..n], now, k) == Counted(t, alerts, touches, now, k)
  {
    hide ScanDog;
    if k > 0 {
      CountedPrefix(t, alerts, touches, now, n, k - 1);
    }
  }

  /** A scan treats every dog that it reaches by itself, whether or not it ends with a panic: ... */
  lemma {:induction false} ScanTreatsEach(t: Timeouts, alerts: seq<Alerts>, touches: seq<int>, now: int)
    requires |alerts| == |touches|
    ensures var s := ScanAll(t, alerts, touches, now);
            && (s.panic == NoPanic ==> |s.alerts| == |alerts|)
            && forall k :: 0 <= k < |s.alerts| ==> s.alerts[k] == ScanDog(t, alerts[k], touches[k], now).0
  {
    if alerts != [] {
      hide ScanDog, KillsOne, CountsForMulti;
      var n := |alerts| - 1;
      ScanTreatsEach(t, alerts[..n], touches[..n], now);
    }
  }

  lemma CountedNext(t: Timeouts, alerts: seq<Alerts>, touches: seq<int>, now: int, n: nat)
    requires n < |alerts| == |touches|
    ensures var before := Counted(t, alerts, touches, now, n);
            var dog := ScanDog(t, alerts[n], touches[n], now);
            Counted(t, alerts, touches, now, n + 1) == (before.0 + dog.1, before.1 + dog.2)
  {
    hide ScanDog;
  }

  lemma ScanUnfolds(t: Timeouts, alerts: seq<Alerts>, touches: seq<int>, now: int)
    requires |alerts| == |touches| && alerts != []
    ensures var n := |alerts| - 1; var s := ScanAll(t, alerts[..n], touches[..n], now);
            ScanAll(t, alerts, touches, now)
            == if s.panic != NoPanic then s else ScanNext(t, s, alerts[n], touches[n], now)
  {
    hide ScanNext;
  }

  /** ... and it counts what these dogs count. */
  lemma {:induction false} ScanCounts(t: Timeouts, alerts: seq<Alerts>, touches: seq<int>, now: int)
    requires |alerts| == |touches|
    ensures var s := ScanAll(t, alerts, touches, now);
            (s.miss, s.megamiss) == Counted(t, alerts, touches, now, |s.alerts|)
  {
    if alerts != [] {
      ScanUnfolds(t, alerts, touches, now);
      hide ScanAll, ScanDog, KillsOne, CountsForMulti, Counted;
      var n := |alerts| - 1;
      ScanCounts(t, alerts[..n], touches[..n], now);
      var s := ScanAll(t, alerts[..n], touches[..n], now);
      CountedPrefix(t, alerts, touches, now, n, |s.alerts|);
      if s.panic == NoPanic {
        ScanTreatsEach(t, alerts[..n], touches[..n], now);
        CountedNext(t, alerts, touches, now, n);
      }
    }
  }

  /** The looks of a scan: one more for each dog it reached, and the same as before for the others. */
  lemma {:induction false} NotedLooks(looks: seq<seq<Look>>, watched: seq<Watch>, touches: seq<int>, now: int, k: nat)
    requires k <= |watched| == |touches|
    requires forall i :: 0 <= i < |watched| ==> watched[i].dog < |looks|
    requires Apart(watched)
    ensures var r := Noted(looks, watched, touches, now, k);
            && (forall i :: 0 <= i < k ==> r[watched[i].dog] == looks[watched[i].dog] + [Look(now, touches[i])])
            && (forall i :: k <= i < |watched| ==> r[watched[i].dog] == looks[watched[i].dog])
            && (forall d :: 0 <= d < |looks| && (forall i :: 0 <= i < k ==> watched[i].dog != d) ==> r[d] == looks[d])
  {
    if k > 0 {
      NotedLooks(looks, watched, touches, now, k - 1);
    }
  }

  /** What the scanner remembers of each watched dog is the outcome of the looks at it. */
  ghost predicate Remembers(t: Timeouts, k: Kennel) {
    && Known(k)
    && (forall d :: 0 <= d < |k.looks| ==> TouchesOrdered(k.looks[d]))
    && forall i :: 0 <= i < |k.watched| ==> k.watched[i].alerts == AlertsAfter(t, k.looks[k.watched[i].dog])
  }

  lemma OrderedMore(looks: seq<Look>, l: Look)
    requires TouchesOrdered(looks) && (looks == [] || looks[|looks| - 1].touched <= l.touched)
    ensures TouchesOrdered(looks + [l])
  {
  }

  lemma AlertsAfterMore(t: Timeouts, looks: seq<Look>, l: Look)
    ensures AlertsAfter(t, looks + [l]) == ScanDog(t, AlertsAfter(t, looks), l.touched, l.now).0
  {
    assert (looks + [l])[..|looks|] == looks;
  }

  lemma LookAddsStalls(t: Timeouts, looks: seq<seq<Look>>, dog: nat, l: Look)
    requires dog < |looks| && TouchesOrdered(looks[dog] + [l])
    ensures var (_, miss, megamiss) := ScanDog(t, AlertsAfter(t, looks[dog]), l.touched, l.now);
            var r := looks[dog := looks[dog] + [l]];
            && AllStalls(r, t.miss) == AllStalls(looks, t.miss) + miss
            && AllStalls(r, t.megamiss) == AllStalls(looks, t.megamiss) + megamiss
  {
    hide ScanDog, AlertsAfter, TouchesOrdered, Stalls, AllStalls;
    LookCounts(t, looks[dog], l);
    AllStallsUpdate(looks, dog, looks[dog] + [l], t.miss);
    AllStallsUpdate(looks, dog, looks[dog] + [l], t.megamiss);
  }

  lemma OrderedAt(k: Kennel, touches: seq<int>, now: int, i: nat)
    requires Known(k) && Ordered(k, touches) && i < |touches|
    requires TouchesOrdered(k.looks[k.watched[i].dog])
    ensures TouchesOrdered(k.looks[k.watched[i].dog] + [Look(now, touches[i])])
  {
    OrderedMore(k.looks[k.watched[i].dog], Look(now, touches[i]));
  }

  /** The turn of one dog. */
  lemma ScanTurnStalls(t: Timeouts, k: Kennel, now: int, touches: seq<int>, n: nat)
    requires Remembers(t, k) && Ordered(k, touches) && n < |touches|
    ensures var before := Noted(k.looks, k.watched, touches, now, n);
            var r := Noted(k.looks, k.watched, touches, now, n + 1);
            var dog := ScanDog(t, k.watched[n].alerts, touches[n], now);
            && AllStalls(r, t.miss) == AllStalls(before, t.miss) + dog.1
            && AllStalls(r, t.megamiss) == AllStalls(before, t.megamiss) + dog.2
  {
    hide ScanDog, AlertsAfter, TouchesOrdered, Stalls, AllStalls;
    var before := Noted(k.looks, k.watched, touches, now, n);
    var dog := k.watched[n].dog;
    assert before[dog] == k.looks[dog] by {
      NotedLooks(k.looks, k.watched, touches, now, n);
    }
    OrderedAt(k, touches, now, n);
    hide Ordered, Apart;
    LookAddsStalls(t, before, dog, Look(now, touches[n]));
  }

  /** The first `n` dogs of a scan add to the counters what they add to the stalls of all dogs. */
  lemma {:induction false} ScanAddsStalls(t: Timeouts, k: Kennel, now: int, touches: seq<int>, n: nat)
    requires Remembers(t, k) && Ordered(k, touches) && n <= |touches|
    ensures var r := Noted(k.looks, k.watched, touches, now, n);
            var counted := Counted(t, AlertsIn(k.watched), touches, now, n);
            && AllStalls(r, t.miss) == AllStalls(k.looks, t.miss) + counted.0
            && AllStalls(r, t.megamiss) == AllStalls(k.looks, t.megamiss) + counted.1
  {
    if n == 0 {
      hide AllStalls, Remembers;
    } else {
      hide *;
      ScanAddsStalls(t, k, now, touches, n - 1);
      ScanTurnStalls(t, k, now, touches, n - 1);
      CountedNext(t, AlertsIn(k.watched), touches, now, n - 1);
    }
  }

  /** The looks of a scan that reached the first `n` dogs are in order, ... */
  lemma NotedInOrder(t: Timeouts, k: Kennel, now: int, touches: seq<int>, n: nat)
    requires Remembers(t, k) && Ordered(k, touches) && n <= |touches|
    ensures forall d :: 0 <= d < |k.looks| ==> TouchesOrdered(Noted(k.looks, k.watched, touches, now, n)[d])
  {
    NotedLooks(k.looks, k.watched, touches, now, n);
    hide AlertsAfter, TouchesOrdered, Noted, Apart;
    forall d | 0 <= d < |k.looks| ensures TouchesOrdered(Noted(k.looks, k.watched, touches, now, n)[d]) {
      if i :| 0 <= i < n && k.watched[i].dog == d {
        OrderedAt(k, touches, now, i);
      }
    }
  }

  /** ... and the new alerts of these dogs are the outcome of their looks. */
  lemma NotedAlerts(t: Timeouts, k: Kennel, now: int, touches: seq<int>, n: nat, i: nat)
    requires Remembers(t, k) && n <= |touches| == |k.watched| && i < |k.watched|
    ensures AlertsAfter(t, Noted(k.looks, k.watched, touches, now, n)[k.watched[i].dog])
            == if i < n then ScanDog(t, k.watched[i].alerts, touches[i], now).0 else k.watched[i].alerts
  {
    NotedLooks(k.looks, k.watched, touches, now, n);
    hide ScanDog, AlertsAfter, TouchesOrdered, Noted, Apart;
    AlertsAfterMore(t, k.looks[k.watched[i].dog], Look(now, touches[i]));
  }

  lemma ScannedAlerts(t: Timeouts, k: Kennel, now: int, touches: seq<int>, i: nat)
    requires Remembers(t, k) && |touches| == |k.watched| && i < |k.watched|
    ensures var s := ScanAll(t, AlertsIn(k.watched), touches, now);
            AlertsAfter(t, Noted(k.looks, k.watched, touches, now, |s.alerts|)[k.watched[i].dog])
            == Alerted(k.watched, s.alerts)[i].alerts
  {
    var s := ScanAll(t, AlertsIn(k.watched), touches, now);
    ScanTreatsEach(t, AlertsIn(k.watched), touches, now);
    hide ScanDog, ScanAll, AlertsAfter, TouchesOrdered, Apart, Noted, AlertsIn, Alerted;
    NotedAlerts(t, k, now, touches, |s.alerts|, i);
  }

  lemma ScanRemembers(t: Timeouts, k: Kennel, now: int, touches: seq<int>)
    requires Remembers(t, k) && Possible(k, ScanDogs(now, touches))
    ensures Remembers(t, Step(t, k, ScanDogs(now, touches)))
  {
    assert |touches| == |k.watched|;
    var s := ScanAll(t, AlertsIn(k.watched), touches, now);
    NotedInOrder(t, k, now, touches, |s.alerts|);
    hide AlertsAfter, TouchesOrdered, ScanAll, Noted, Ordered, AlertsIn, Alerted;
    forall i | 0 <= i < |k.watched|
      ensures AlertsAfter(t, Noted(k.looks, k.watched, touches, now, |s.alerts|)[k.watched[i].dog])
              == Alerted(k.watched, s.alerts)[i].alerts
    {
      ScannedAlerts(t, k, now, touches, i);
    }
  }

  lemma ApartTail(watched: seq<Watch>)
    requires Apart(watched) && watched != []
    ensures Apart(watched[1..]) && forall x :: x in watched[1..] ==> x.dog != watched[0].dog
  {
  }

  lemma ApartCons(w: Watch, rest: seq<Watch>)
    requires Apart(rest) && forall x :: x in rest ==> x.dog != w.dog
    ensures Apart([w] + rest)
  {
    forall i, j | 0 <= i < j < |rest| + 1 ensures ([w] + rest)[i].dog != ([w] + rest)[j].dog {
      assert rest[j - 1] in rest;
    }
  }

  lemma {:induction false} WithoutDogKeeps(watched: seq<Watch>, dog: nat)
    requires Apart(watched)
    ensures forall x :: x in WithoutDog(watched, dog) <==> x in watched && x.dog != dog
    ensures Apart(WithoutDog(watched, dog))
  {
    if watched != [] {
      hide Apart;
      assert watched == [watched[0]] + watched[1..];
      ApartTail(watched);
      WithoutDogKeeps(watched[1..], dog);
      if watched[0].dog != dog {
        ApartCons(watched[0], WithoutDog(watched[1..], dog));
      }
    }
  }

  // ---------- whole runs ----------

  /** The counters are the stalls of all dogs that were ever watched. */
  ghost predicate Settled(t: Timeouts, k: Kennel) {
    && Remembers(t, k)
    && k.miss == AllStalls(k.looks, t.miss) && k.megamiss == AllStalls(k.looks, t.megamiss)
  }

  lemma NoStalls(timeout: nat)
    ensures Stalls([], timeout) == 0
  {
    assert OverdueTouches([], timeout) == {};
  }

  lemma CreateSettles(t: Timeouts, k: Kennel)
    requires Settled(t, k) && Possible(k, Create)
    ensures Settled(t, Step(t, k, Create))
  {
    hide Stalls;
    assert (k.looks + [[]])[..|k.looks|] == k.looks;
    NoStalls(t.miss);
    NoStalls(t.megamiss);
  }

  lemma StopSettles(t: Timeouts, k: Kennel, dog: nat)
    requires Settled(t, k) && Possible(k, Stop(dog))
    ensures Settled(t, Step(t, k, Stop(dog)))
  {
    WithoutDogKeeps(k.watched, dog);
    hide AlertsAfter, WithoutDog, AllStalls, TouchesOrdered, Apart;
    var r := WithoutDog(k.watched, dog);
    forall i | 0 <= i < |r|
      ensures r[i].dog < |k.looks| && r[i].alerts == AlertsAfter(t, k.looks[r[i].dog])
    {
      assert r[i] in k.watched;
    }
  }

  lemma ScanSettles(t: Timeouts, k: Kennel, now: int, touches: seq<int>)
    requires Settled(t, k) && Possible(k, ScanDogs(now, touches))
    ensures Settled(t, Step(t, k, ScanDogs(now, touches)))
  {
    assert Ordered(k, touches) && |touches| == |k.watched|;
    hide ScanAll, Noted, AllStalls, Remembers, Ordered;
    ScanRemembers(t, k, now, touches);
    ScanCounts(t, AlertsIn(k.watched), touches, now);
    ScanAddsStalls(t, k, now, touches, |ScanAll(t, AlertsIn(k.watched), touches, now).alerts|);
  }

  lemma SettledStep(t: Timeouts, k: Kennel, e: Event)
    requires Settled(t, k) && Possible(k, e)
    ensures Settled(t, Step(t, k, e))
  {
    hide Settled, Possible, Step;
    match e
    case Create => CreateSettles(t, k);
    case Stop(dog) => StopSettles(t, k, dog);
    case ScanDogs(now, touches) => ScanSettles(t, k, now, touches);
  }

  ghost predicate IsRun(t: Timeouts, kennels: seq<Kennel>, events: seq<Event>) {
    |kennels| == |events| + 1 && kennels[0] == EMPTY_KENNEL
    && forall i :: 0 <= i < |events| ==>
         Possible(kennels[i], events[i]) && kennels[i + 1] == Step(t, kennels[i], events[i])
  }

  /** Over any run, with dogs that come and go, each counter is the number of stalls that some scan
      found overdue, summed over all dogs that were ever created, also if the run ends with a panic. */
  lemma {:induction false} CountersAreAllStalls(t: Timeouts, kennels: seq<Kennel>, events: seq<Event>, i: nat)
    requires IsRun(t, kennels, events) && i < |kennels|
    ensures Settled(t, kennels[i])
    ensures kennels[i].miss == AllStalls(kennels[i].looks, t.miss)
    ensures kennels[i].megamiss == AllStalls(kennels[i].looks, t.megamiss)
  {
    hide Step, Possible;
    if i > 0 {
      CountersAreAllStalls(t, kennels, events, i - 1);
      SettledStep(t, kennels[i - 1], events[i - 1]);
    } else {
      assert AllStalls([], t.miss) == 0;
    }
  }
}
