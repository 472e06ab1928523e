/** The guard dog: a thread that scans the last touch times of all watched threads, counts misses and
    mega-misses, and panics when a thread, or two of them, are stuck for too long. */
module GuardDogs {
  import opened Common

  /** The configured timeouts. A kill or multikill timeout of zero is disabled. */
  datatype Timeouts = Timeouts(miss: nat, megamiss: nat, kill: nat, multikill: nat)

  function Min(a: nat, b: nat): nat {
    if a < b then a else b
  }

  /** The time between scans. */
  function LoopInterval(t: Timeouts): nat {
    var nonfatal := Min(t.miss, t.megamiss);
    Min(if t.kill > 0 then t.kill else nonfatal, Min(if t.multikill > 0 then t.multikill else nonfatal, nonfatal))
  }

  /** The loop interval is the least of the enabled timeouts. */
  lemma LoopIntervalIsLeast(t: Timeouts)
    ensures var i := LoopInterval(t);
            && i <= t.miss && i <= t.megamiss
            && (t.kill > 0 ==> i <= t.kill) && (t.multikill > 0 ==> i <= t.multikill)
            && (i == t.miss || i == t.megamiss || (t.kill > 0 && i == t.kill) || (t.multikill > 0 && i == t.multikill))
  {
  }

  // ---------- one dog in one scan ----------

  /** What the scanner remembers of a dog. */
  datatype Alerts = Alerts(lastAlertTime: Option<int>, missAlerted: bool, megamissAlerted: bool)

  const UNALERTED: Alerts := Alerts(None, false, false)

  /** A touch since the last alert clears both flags. */
  function Refresh(a: Alerts, touched: int): Alerts {
    if a.lastAlertTime.Some? && a.lastAlertTime.value < touched then Alerts(a.lastAlertTime, false, false) else a
  }

  function AlertMiss(t: Timeouts, a: Alerts, touched: int, now: int): (Alerts, nat) {
    if now - touched > t.miss && !a.missAlerted then (Alerts(Some(touched), true, a.megamissAlerted), 1) else (a, 0)
  }

  function AlertMegamiss(t: Timeouts, a: Alerts, touched: int, now: int): (Alerts, nat) {
    if now - touched > t.megamiss && !a.megamissAlerted then (Alerts(Some(touched), a.missAlerted, true), 1) else (a, 0)
  }

  /** The new memory, and what is added to the miss and mega-miss counters. */
  function ScanDog(t: Timeouts, a: Alerts, touched: int, now: int): (Alerts, nat, nat) {
    var (b, miss) := AlertMiss(t, Refresh(a, touched), touched, now);
    var (c, megamiss) := AlertMegamiss(t, b, touched, now);
    (c, miss, megamiss)
  }

  // ---------- one dog over a run ----------

  /** One scan of a dog: when it happens and which touch time it sees. */
  datatype Look = Look(now: int, touched: int)

  /** Touch times never go back. */
  predicate TouchesOrdered(looks: seq<Look>) {
    forall i, j :: 0 <= i < j < |looks| ==> looks[i].touched <= looks[j].touched
  }

  function AlertsAfter(t: Timeouts, looks: seq<Look>): Alerts {
    if looks == [] then UNALERTED
    else
      var n := |looks| - 1;
      ScanDog(t, AlertsAfter(t, looks[..n]), looks[n].touched, looks[n].now).0
  }

  /** The misses that a run counts while it sees the touch time `touched`. */
  function Misses(t: Timeouts, looks: seq<Look>, touched: int): nat {
    if looks == [] then 0
    else
      var n := |looks| - 1;
      Misses(t, looks[..n], touched)
      + if looks[n].touched == touched then ScanDog(t, AlertsAfter(t, looks[..n]), touched, looks[n].now).1 else 0
  }

  function Megamisses(t: Timeouts, looks: seq<Look>, touched: int): nat {
    if looks == [] then 0
    else
      var n := |looks| - 1;
      Megamisses(t, looks[..n], touched)
      + if looks[n].touched == touched then ScanDog(t, AlertsAfter(t, looks[..n]), touched, looks[n].now).2 else 0
  }

  /** Some scan sees this touch time more than `timeout` ago. */
  predicate Overdue(looks: seq<Look>, touched: int, timeout: nat) {
    exists i :: 0 <= i < |looks| && looks[i].touched == touched && looks[i].now - touched > timeout
  }

  lemma OverdueSplits(looks: seq<Look>, touched: int, timeout: nat)
    requires looks != []
    ensures var n := |looks| - 1;
            Overdue(looks, touched, timeout)
            <==> Overdue(looks[..n], touched, timeout)
                 || (looks[n].touched == touched && looks[n].now - touched > timeout)
  {
    var n := |looks| - 1;
    if Overdue(looks[..n], touched, timeout) {
      var i :| 0 <= i < n && looks[..n][i].touched == touched && looks[..n][i].now - touched > timeout;
      assert looks[i] == looks[..n][i];
    }
    if Overdue(looks, touched, timeout) {
      var i :| 0 <= i < |looks| && looks[i].touched == touched && looks[i].now - touched > timeout;
      assert i < n ==> looks[..n][i] == looks[i];
    }
  }

  /** After a scan that saw `last`: a flag is up exactly if the stall that began at `last` is overdue, and
      no alert is newer than `last`. */
  lemma {:induction false} FlagsAfter(t: Timeouts, looks: seq<Look>, last: int)
    requires looks != [] && TouchesOrdered(looks) && looks[|looks| - 1].touched == last
    ensures var a := AlertsAfter(t, looks);
            && (a.missAlerted <==> Overdue(looks, last, t.miss))
            && (a.megamissAlerted <==> Overdue(looks, last, t.megamiss))
            && (a.missAlerted || a.megamissAlerted ==> a.lastAlertTime == Some(last))
            && (a.lastAlertTime.Some? ==> a.lastAlertTime.value <= last)
  {
    var n := |looks| - 1;
    OverdueSplits(looks, last, t.miss);
    OverdueSplits(looks, last, t.megamiss);
    if n > 0 {
      var before := looks[n - 1].touched;
      FlagsAfter(t, looks[..n], before);
      if before < last {
        assert forall i :: 0 <= i < n ==> looks[..n][i].touched <= before;
      }
    }
  }

  /** What the last scan counts. */
  lemma LastLook(t: Timeouts, looks: seq<Look>, touched: int)
    requires looks != [] && TouchesOrdered(looks) && looks[|looks| - 1].touched == touched
    ensures var n := |looks| - 1;
            var (_, miss, megamiss) := ScanDog(t, AlertsAfter(t, looks[..n]), touched, looks[n].now);
            && miss == (if looks[n].now - touched > t.miss && !Overdue(looks[..n], touched, t.miss) then 1 else 0)
            && megamiss
               == if looks[n].now - touched > t.megamiss && !Overdue(looks[..n], touched, t.megamiss) then 1 else 0
  {
    hide Overdue;
    var n := |looks| - 1;
    if n > 0 {
      var before := looks[n - 1].touched;
      FlagsAfter(t, looks[..n], before);
      if before < touched {
        NotSeenYet(looks[..n], touched, t.miss);
        NotSeenYet(looks[..n], touched, t.megamiss);
      }
    } else {
      NotSeenYet([], touched, t.miss);
      NotSeenYet([], touched, t.megamiss);
    }
  }

  lemma NotSeenYet(looks: seq<Look>, touched: int, timeout: nat)
    requires TouchesOrdered(looks) && (looks != [] ==> looks[|looks| - 1].touched < touched)
    ensures !Overdue(looks, touched, timeout)
  {
    assert forall i :: 0 <= i < |looks| ==> looks[i].touched <= looks[|looks| - 1].touched;
  }

  /** Each stall counts once: for every touch time the run counts exactly one miss if some scan saw it
      overdue, and none otherwise; the same for mega-misses. */
  lemma {:induction false} EachStallCountsOnce(t: Timeouts, looks: seq<Look>, touched: int)
    requires TouchesOrdered(looks)
    ensures Misses(t, looks, touched) == if Overdue(looks, touched, t.miss) then 1 else 0
    ensures Megamisses(t, looks, touched) == if Overdue(looks, touched, t.megamiss) then 1 else 0
  {
    hide ScanDog, Overdue;
    if looks != [] {
      var n := |looks| - 1;
      EachStallCountsOnce(t, looks[..n], touched);
      OverdueSplits(looks, touched, t.miss);
      OverdueSplits(looks, touched, t.megamiss);
      if looks[n].touched == touched {
        LastLook(t, looks, touched);
      }
    } else {
      NotSeenYet([], touched, t.miss);
      NotSeenYet([], touched, t.megamiss);
    }
  }

  // ---------- detection ----------

  /** Scans are at most `interval` apart. */
  predicate Paced(looks: seq<Look>, interval: nat) {
    forall i :: 0 <= i < |looks| - 1 ==> looks[i].now <= looks[i + 1].now <= looks[i].now + interval
  }

  /** A thread that stops touching its dog is found out within the timeout and one scan interval: if the
      scans begin before the timeout is over and go on past it, and every scan up to the bound still sees
      the same touch time, then the first scan past the timeout is within the bound. */
  lemma {:induction false} DetectedInTime(looks: seq<Look>, touched: int, timeout: nat, interval: nat) returns (i: nat)
    requires Paced(looks, interval) && looks != []
    requires looks[0].now <= touched + timeout < looks[|looks| - 1].now
    requires forall k :: 0 <= k < |looks| && touched + timeout < looks[k].now <= touched + timeout + interval ==>
               looks[k].touched == touched
    ensures i < |looks| && touched + timeout < looks[i].now <= touched + timeout + interval
    ensures Overdue(looks[..i + 1], touched, timeout) && !Overdue(looks[..i], touched, timeout)
  {
    i := 0;
    while looks[i].now <= touched + timeout
      invariant i < |looks|
      invariant forall k :: 0 <= k < i ==> looks[k].now <= touched + timeout
      decreases |looks| - i
    {
      i := i + 1;
    }
    assert looks[i - 1].now <= looks[i].now <= looks[i - 1].now + interval;
    assert looks[..i + 1][i] == looks[i];
  }

  /** Then the miss is counted in that very scan. */
  lemma MissCountedInTime(t: Timeouts, looks: seq<Look>, touched: int, interval: nat) returns (i: nat)
    requires TouchesOrdered(looks) && Paced(looks, interval) && looks != []
    requires looks[0].now <= touched + t.miss < looks[|looks| - 1].now
    requires forall k :: 0 <= k < |looks| && touched + t.miss < looks[k].now <= touched + t.miss + interval ==>
               looks[k].touched == touched
    ensures i < |looks| && looks[i].now <= touched + t.miss + interval
    ensures Misses(t, looks[..i], touched) == 0 && Misses(t, looks[..i + 1], touched) == 1
  {
    i := DetectedInTime(looks, touched, t.miss, interval);
    EachStallCountsOnce(t, looks[..i], touched);
    EachStallCountsOnce(t, looks[..i + 1], touched);
  }

  // ---------- one scan of all dogs ----------

  datatype Panic = NoPanic | Kill | MultiKill

  datatype Scan = Scan(alerts: seq<Alerts>, miss: nat, megamiss: nat, seenOne: bool, panic: Panic)

  predicate KillsOne(t: Timeouts, touched: int, now: int) {
    t.kill > 0 && now - touched > t.kill
  }

  predicate CountsForMulti(t: Timeouts, touched: int, now: int) {
    t.multikill > 0 && now - touched > t.multikill
  }

  function ScanNext(t: Timeouts, s: Scan, a: Alerts, touched: int, now: int): Scan {
    var (b, miss, megamiss) := ScanDog(t, a, touched, now);
    var multi := CountsForMulti(t, touched, now);
    Scan(s.alerts + [b], s.miss + miss, s.megamiss + megamiss, s.seenOne || multi,
         if KillsOne(t, touched, now) then Kill else if multi && s.seenOne then MultiKill else NoPanic)
  }

  /** The scan of the first dogs; it ends with a panic. */
  function ScanAll(t: Timeouts, alerts: seq<Alerts>, touches: seq<int>, now: int): (s: Scan)
    requires |alerts| == |touches|
    ensures |s.alerts| <= |alerts|
  {
    if alerts == [] then Scan([], 0, 0, false, NoPanic)
    else
      var n := |alerts| - 1;
      var s := ScanAll(t, alerts[..n], touches[..n], now);
      if s.panic != NoPanic then s else ScanNext(t, s, alerts[n], touches[n], now)
  }

  predicate SomeKills(t: Timeouts, touches: seq<int>, now: int) {
    exists i :: 0 <= i < |touches| && KillsOne(t, touches[i], now)
  }

  predicate SomeCounts(t: Timeouts, touches: seq<int>, now: int) {
    exists i :: 0 <= i < |touches| && CountsForMulti(t, touches[i], now)
  }

  predicate TwoCount(t: Timeouts, touches: seq<int>, now: int) {
    exists i, j :: 0 <= i < j < |touches| && CountsForMulti(t, touches[i], now) && CountsForMulti(t, touches[j], now)
  }

  lemma KillsSplit(t: Timeouts, touches: seq<int>, now: int)
    requires touches != []
    ensures var n := |touches| - 1;
            && (SomeKills(t, touches, now) <==> SomeKills(t, touches[..n], now) || KillsOne(t, touches[n], now))
            && (SomeCounts(t, touches, now) <==> SomeCounts(t, touches[..n], now) || CountsForMulti(t, touches[n], now))
  {
    hide KillsOne, CountsForMulti;
    var n := |touches| - 1;
    assert forall i :: 0 <= i < n ==> touches[..n][i] == touches[i];
  }

  lemma TwoSplit(t: Timeouts, touches: seq<int>, now: int)
    requires touches != []
    ensures var n := |touches| - 1;
            TwoCount(t, touches, now)
            <==> || TwoCount(t, touches[..n], now)
                 || (SomeCounts(t, touches[..n], now) && CountsForMulti(t, touches[n], now))
  {
    hide CountsForMulti;
    var n := |touches| - 1;
    if TwoCount(t, touches[..n], now) {
      var i, j :| 0 <= i < j < n && CountsForMulti(t, touches[..n][i], now) && CountsForMulti(t, touches[..n][j], now);
      assert touches[i] == touches[..n][i] && touches[j] == touches[..n][j];
    }
    if i :| 0 <= i < n && CountsForMulti(t, touches[..n][i], now) {
      assert touches[i] == touches[..n][i];
    }
    if i, j :| 0 <= i < j < |touches| && CountsForMulti(t, touches[i], now) && CountsForMulti(t, touches[j], now) {
      assert touches[..n][i] == touches[i];
      assert j < n ==> touches[..n][j] == touches[j];
    }
  }

  lemma {:induction false} PanicsWhen(t: Timeouts, alerts: seq<Alerts>, touches: seq<int>, now: int)
    requires |alerts| == |touches|
    ensures var s := ScanAll(t, alerts, touches, now);
            && (s.panic != NoPanic <==> SomeKills(t, touches, now) || TwoCount(t, touches, now))
            && (s.panic == NoPanic ==>
                  && |s.alerts| == |alerts|
                  && (s.seenOne <==> SomeCounts(t, touches, now))
                  && forall i :: 0 <= i < |alerts| ==> s.alerts[i] == ScanDog(t, alerts[i], touches[i], now).0)
  {
    if alerts != [] {
      hide ScanDog, KillsOne, CountsForMulti, SomeKills, SomeCounts, TwoCount;
      var n := |alerts| - 1;
      PanicsWhen(t, alerts[..n], touches[..n], now);
      KillsSplit(t, touches, now);
      TwoSplit(t, touches, now);
    }
  }

  /** A scan panics exactly if one dog is past an enabled kill timeout or two are past an enabled
      multikill timeout; otherwise it treats every dog by itself. */
  lemma PanicsExactly(t: Timeouts, alerts: seq<Alerts>, touches: seq<int>, now: int)
    requires |alerts| == |touches|
    ensures var s := ScanAll(t, alerts, touches, now);
            && (s.panic != NoPanic <==>
                  || (t.kill > 0 && exists i :: 0 <= i < |touches| && now - touches[i] > t.kill)
                  || (t.multikill > 0
                      && exists i, j :: (0 <= i < j < |touches|
                           && now - touches[i] > t.multikill && now - touches[j] > t.multikill)))
            && (s.panic == NoPanic ==>
                  && |s.alerts| == |alerts|
                  && forall i :: 0 <= i < |alerts| ==> s.alerts[i] == ScanDog(t, alerts[i], touches[i], now).0)
  {
    hide ScanDog, ScanAll;
    PanicsWhen(t, alerts, touches, now);
  }

  /** The scan ends at dog `i`: it is the first that is past the kill timeout, or past the multikill timeout
      after another one. */
  predicate PanicsAt(t: Timeouts, touches: seq<int>, now: int, i: nat)
    requires i < |touches|
  {
    || (t.kill > 0 && now - touches[i] > t.kill)
    || (t.multikill > 0 && now - touches[i] > t.multikill
        && exists j :: 0 <= j < i && now - touches[j] > t.multikill)
  }

  /** The first such dog decides which panic it is; the dogs after it are not looked at. */
  lemma WhichPanic(t: Timeouts, alerts: seq<Alerts>, touches: seq<int>, now: int, i: nat)
    requires |alerts| == |touches| && i < |touches| && PanicsAt(t, touches, now, i)
    requires forall j :: 0 <= j < i ==> !PanicsAt(t, touches, now, j)
    ensures var s := ScanAll(t, alerts, touches, now);
            && |s.alerts| == i + 1
            && s.panic == if t.kill > 0 && now - touches[i] > t.kill then Kill else MultiKill
  {
    NoPanicBefore(t, alerts, touches, now, i);
    ScanTurn(t, alerts, touches, now, i);
    hide ScanAll, ScanDog;
    assert alerts[..i + 1][..i] == alerts[..i];
    PanicEndsScan(t, alerts, touches, now, i + 1);
  }

  lemma NoPanicBefore(t: Timeouts, alerts: seq<Alerts>, touches: seq<int>, now: int, i: nat)
    requires |alerts| == |touches| && i <= |touches|
    requires forall j :: 0 <= j < i ==> !PanicsAt(t, touches, now, j)
    ensures var s := ScanAll(t, alerts[..i], touches[..i], now);
            && s.panic == NoPanic && |s.alerts| == i
            && (s.seenOne <==> t.multikill > 0 && exists j :: 0 <= j < i && now - touches[j] > t.multikill)
  {
    hide ScanAll, ScanDog;
    assert forall j :: 0 <= j < i ==> touches[..i][j] == touches[j];
    assert SomeCounts(t, touches[..i], now)
           <==> t.multikill > 0 && exists j :: 0 <= j < i && now - touches[j] > t.multikill;
    forall k | 0 <= k < i ensures !KillsOne(t, touches[..i][k], now) {
      assert !PanicsAt(t, touches, now, k);
    }
    forall k, j | 0 <= k < j < i && CountsForMulti(t, touches[..i][k], now)
      ensures !CountsForMulti(t, touches[..i][j], now)
    {
      assert !PanicsAt(t, touches, now, j);
    }
    PanicsWhen(t, alerts[..i], touches[..i], now);
  }

  // ---------- the guard dog ----------

  /** The watch dog of one thread. */
  class WatchDog {
    const threadId: int
    var lastTouchTime: int

    constructor (threadId: int, now: int)
      ensures this.threadId == threadId && lastTouchTime == now
    {
      this.threadId, lastTouchTime := threadId, now;
    }

    method Touch(now: int)
      modifies this
      ensures lastTouchTime == now
    {
      lastTouchTime := now;
    }
  }

  datatype WatchedDog = WatchedDog(dog: WatchDog, alerts: Alerts)

  class GuardDog {
    const timeouts: Timeouts
    const loopInterval: nat
    var watchedDogs: seq<WatchedDog>
    var missCounter: nat
    var megamissCounter: nat

    constructor (timeouts: Timeouts)
      ensures this.timeouts == timeouts && loopInterval == LoopInterval(timeouts)
      ensures watchedDogs == [] && missCounter == 0 && megamissCounter == 0
    {
      this.timeouts, loopInterval := timeouts, LoopInterval(timeouts);
      watchedDogs, missCounter, megamissCounter := [], 0, 0;
    }

    function AlertsOf(dogs: seq<WatchedDog>): (r: seq<Alerts>)
      ensures |r| == |dogs| && forall i :: 0 <= i < |dogs| ==> r[i] == dogs[i].alerts
    {
      seq(|dogs|, i requires 0 <= i < |dogs| => dogs[i].alerts)
    }

    ghost function Touches(dogs: seq<WatchedDog>): (r: seq<int>)
      reads set i | 0 <= i < |dogs| :: dogs[i].dog
      ensures |r| == |dogs| && forall i :: 0 <= i < |dogs| ==> r[i] == dogs[i].dog.lastTouchTime
    {
      if dogs == [] then [] else Touches(dogs[..|dogs| - 1]) + [dogs[|dogs| - 1].dog.lastTouchTime]
    }

    /** The miss and mega-miss checks of dog `i`. */
    method CheckDog(i: nat, touched: int, now: int)
      requires i < |watchedDogs|
      modifies this
      ensures var (b, miss, megamiss) := ScanDog(timeouts, old(watchedDogs)[i].alerts, touched, now);
              && watchedDogs == old(watchedDogs)[i := old(watchedDogs)[i].(alerts := b)]
              && missCounter == old(missCounter) + miss && megamissCounter == old(megamissCounter) + megamiss
    {
      var delta := now - touched;
      var a := watchedDogs[i].alerts;
      if a.lastAlertTime.Some? && a.lastAlertTime.value < touched {
        a := a.(missAlerted := false);
        a := a.(megamissAlerted := false);
      }
      if delta > timeouts.miss {
        if !a.missAlerted {
          missCounter := missCounter + 1;
          a := a.(lastAlertTime := Some(touched), missAlerted := true);
        }
      }
      if delta > timeouts.megamiss {
        if !a.megamissAlerted {
          megamissCounter := megamissCounter + 1;
          a := a.(lastAlertTime := Some(touched), megamissAlerted := true);
        }
      }
      watchedDogs := watchedDogs[i := watchedDogs[i].(alerts := a)];
    }

    /** One turn of the thread routine: all dogs in order, until a panic. A panic leaves the dogs after
        the one that caused it as they were. */
    method CheckAll(now: int) returns (panic: Panic)
      modifies this
      ensures var s := ScanAll(timeouts, AlertsOf(old(watchedDogs)), Touches(old(watchedDogs)), now);
              && panic == s.panic
              && missCounter == old(missCounter) + s.miss && megamissCounter == old(megamissCounter) + s.megamiss
              && AlertsOf(watchedDogs) == s.alerts + AlertsOf(old(watchedDogs))[|s.alerts|..]
      ensures |watchedDogs| == |old(watchedDogs)|
      ensures forall i :: 0 <= i < |watchedDogs| ==> watchedDogs[i].dog == old(watchedDogs)[i].dog
    {
      hide ScanDog, ScanAll, KillsOne, CountsForMulti, Touches;
      panic := NoPanic;
      ghost var dogs := watchedDogs;
      ghost var alerts, touches := AlertsOf(dogs), Touches(dogs);
      var seenOneMultiTimeout := false;
      var i := 0;
      ghost var s := Scan([], 0, 0, false, NoPanic);
      ScanNone(timeouts, alerts, touches, now);
      while i < |watchedDogs| && panic == NoPanic
        invariant i <= |watchedDogs| == |dogs|
        invariant forall k :: 0 <= k < |dogs| ==> watchedDogs[k].dog == dogs[k].dog
        invariant forall k :: i <= k < |dogs| ==> watchedDogs[k] == dogs[k]
        invariant s == ScanAll(timeouts, alerts[..i], touches[..i], now)
        invariant panic == s.panic
        invariant missCounter == old(missCounter) + s.miss && megamissCounter == old(megamissCounter) + s.megamiss
        invariant |s.alerts| == i && forall k :: 0 <= k < i ==> watchedDogs[k].alerts == s.alerts[k]
        invariant panic == NoPanic ==> s.seenOne == seenOneMultiTimeout
      {
        ScanTurn(timeouts, alerts, touches, now, i);
        s := ScanNext(timeouts, s, alerts[i], touches[i], now);
        var touched := watchedDogs[i].dog.lastTouchTime;
        CheckDog(i, touched, now);
        if KillsOne(timeouts, touched, now) {
          panic := Kill;
        } else if CountsForMulti(timeouts, touched, now) {
          if seenOneMultiTimeout {
            panic := MultiKill;
          } else {
            seenOneMultiTimeout := true;
          }
        }
        i := i + 1;
      }
      if panic == NoPanic {
        assert alerts[..i] == alerts && touches[..i] == touches;
      } else {
        PanicEndsScan(timeouts, alerts, touches, now, i);
      }
    }

    /** A new dog is watched, unalerted and just touched. */
    method CreateWatchDog(threadId: int, created: int, now: int) returns (dog: WatchDog)
      modifies this
      ensures fresh(dog) && dog.threadId == threadId && dog.lastTouchTime == now
      ensures watchedDogs == old(watchedDogs) + [WatchedDog(dog, UNALERTED)]
      ensures missCounter == old(missCounter) && megamissCounter == old(megamissCounter)
    {
      dog := new WatchDog(threadId, created);
      watchedDogs := watchedDogs + [WatchedDog(dog, UNALERTED)];
      dog.Touch(now);
    }

    /** The first entry of the dog is erased; the others keep their alerts and their order. */
    method StopWatching(dog: WatchDog) returns (found: bool)
      modifies this
      ensures found <==> exists i :: 0 <= i < |old(watchedDogs)| && old(watchedDogs)[i].dog == dog
      ensures !found ==> watchedDogs == old(watchedDogs)
      ensures found ==> (exists i :: (0 <= i < |old(watchedDogs)| && old(watchedDogs)[i].dog == dog
                && (forall k :: 0 <= k < i ==> old(watchedDogs)[k].dog != dog)
                && watchedDogs == old(watchedDogs)[..i] + old(watchedDogs)[i + 1..]))
      ensures missCounter == old(missCounter) && megamissCounter == old(megamissCounter)
    {
      var i := 0;
      while i < |watchedDogs| && watchedDogs[i].dog != dog
        invariant i <= |watchedDogs| && forall k :: 0 <= k < i ==> watchedDogs[k].dog != dog
      {
        i := i + 1;
      }
      found := i < |watchedDogs|;
      if found {
        watchedDogs := watchedDogs[..i] + watchedDogs[i + 1..];
      }
    }
  }

  lemma {:induction false} PanicEndsScan(t: Timeouts, alerts: seq<Alerts>, touches: seq<int>, now: int, i: nat)
    requires |alerts| == |touches| && i <= |alerts|
    requires ScanAll(t, alerts[..i], touches[..i], now).panic != NoPanic
    ensures ScanAll(t, alerts, touches, now) == ScanAll(t, alerts[..i], touches[..i], now)
    decreases |alerts|
  {
    var n := |alerts| - 1;
    if i == |alerts| {
      assert alerts[..i] == alerts && touches[..i] == touches;
    } else {
      assert alerts[..n][..i] == alerts[..i] && touches[..n][..i] == touches[..i];
      PanicEndsScan(t, alerts[..n], touches[..n], now, i);
    }
  }

  lemma ScanNone(t: Timeouts, alerts: seq<Alerts>, touches: seq<int>, now: int)
    requires |alerts| == |touches|
    ensures ScanAll(t, alerts[..0], touches[..0], now) == Scan([], 0, 0, false, NoPanic)
  {
  }

  lemma ScanTurn(t: Timeouts, alerts: seq<Alerts>, touches: seq<int>, now: int, i: nat)
    requires |alerts| == |touches| && i < |alerts|
    requires ScanAll(t, alerts[..i], touches[..i], now).panic == NoPanic
    ensures ScanAll(t, alerts[..i + 1], touches[..i + 1], now)
            == ScanNext(t, ScanAll(t, alerts[..i], touches[..i], now), alerts[i], touches[i], now)
  {
    assert alerts[..i + 1][..i] == alerts[..i] && touches[..i + 1][..i] == touches[..i];
  }
}
