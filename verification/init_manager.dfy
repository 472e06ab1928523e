/** The init manager: it starts every registered target and runs its callback when all are done. */
module InitManagement {

  datatype State = NotInitialized | Initializing | Initialized

  /** The manager's fields, with the number of times its callback has run and the targets that it has
      started, in order. */
  datatype Manager = Manager(targets: seq<nat>, state: State, callbacks: nat, started: seq<nat>)

  function Without(ts: seq<nat>, done: set<nat>): (r: seq<nat>)
    ensures forall t :: t in r <==> t in ts && t !in done
  {
    if ts == [] then []
    else
      var rest := Without(ts[1..], done);
      if ts[0] in done then rest else [ts[0]] + rest
  }

  ghost predicate Distinct(ts: seq<nat>) {
    forall i, j :: 0 <= i < j < |ts| ==> ts[i] != ts[j]
  }

  // ---------- the operations on values ----------

  /** The completion callback of one target. */
  function Complete(m: Manager, t: nat): Manager {
    var rest := Without(m.targets, {t});
    if rest == [] then Manager(rest, Initialized, m.callbacks + 1, m.started) else m.(targets := rest)
  }

  /** Starting all targets; those in `inline` complete before their own initialize call returns. */
  function StartTargets(m: Manager, inline: set<nat>): Manager {
    var rest := Without(m.targets, inline);
    var started := m.started + m.targets;
    if rest == [] then Manager([], Initialized, m.callbacks + 1, started)
    else Manager(rest, Initializing, m.callbacks, started)
  }

  /** A target registered while initializing is started at once. */
  function Register(m: Manager, t: nat, inline: bool): Manager {
    var m1 := m.(targets := m.targets + [t]);
    if m.state != Initializing then m1
    else
      var m2 := m1.(started := m1.started + [t]);
      if inline then Complete(m2, t) else m2
  }

  lemma {:induction false} WithoutTwo(ts: seq<nat>, a: set<nat>, b: set<nat>)
    ensures Without(Without(ts, a), b) == Without(ts, a + b)
  {
    if ts != [] {
      WithoutTwo(ts[1..], a, b);
      if ts[0] !in a {
        assert ([ts[0]] + Without(ts[1..], a))[1..] == Without(ts[1..], a);
      }
    }
  }

  lemma {:induction false} WithoutConcat(a: seq<nat>, b: seq<nat>, done: set<nat>)
    ensures Without(a + b, done) == Without(a, done) + Without(b, done)
  {
    if a == [] {
      assert a + b == b;
    } else {
      assert (a + b)[1..] == a[1..] + b;
      WithoutConcat(a[1..], b, done);
    }
  }

  lemma {:induction false} WithoutNone(ts: seq<nat>, done: set<nat>)
    requires forall t :: t in ts ==> t !in done
    ensures Without(ts, done) == ts
  {
    if ts != [] {
      WithoutNone(ts[1..], done);
    }
  }

  // ---------- whole runs ----------

  datatype Op = RegisterOp(t: nat, done: bool) | InitializeOp(inline: set<nat>) | CompleteOp(t: nat)

  /** What the manager's assertions demand of its callers: distinct targets, no registration after
      the end, one call of initialize, and a completion only from a started, unfinished target. */
  predicate Legal(m: Manager, op: Op) {
    match op
    case RegisterOp(t, _) => m.state != Initialized && t !in m.targets
    case InitializeOp(_) => m.state == NotInitialized
    case CompleteOp(t) => m.state == Initializing && t in m.targets
  }

  function Apply(m: Manager, op: Op): Manager {
    match op
    case RegisterOp(t, inline) => Register(m, t, inline)
    case InitializeOp(inline) => StartTargets(m, inline)
    case CompleteOp(t) => Complete(m, t)
  }

  ghost predicate IsRun(states: seq<Manager>, ops: seq<Op>) {
    |states| == |ops| + 1 && states[0] == Manager([], NotInitialized, 0, [])
    && forall i :: 0 <= i < |ops| ==> Legal(states[i], ops[i]) && states[i + 1] == Apply(states[i], ops[i])
  }

  /** The callback has run exactly when the manager is Initialized, once, and there are then no
      unfinished targets; while it is Initializing there are some. */
  ghost predicate Sound(m: Manager) {
    && Distinct(m.targets)
    && m.callbacks == (if m.state == Initialized then 1 else 0)
    && (m.state == Initialized ==> m.targets == [])
    && (m.state == Initializing ==> m.targets != [])
  }

  lemma {:induction false} WithoutDistinct(ts: seq<nat>, done: set<nat>)
    requires Distinct(ts)
    ensures Distinct(Without(ts, done))
  {
    if ts != [] {
      assert forall i :: 0 < i < |ts| ==> ts[i] == ts[1..][i - 1];
      WithoutDistinct(ts[1..], done);
    }
  }

  lemma SoundStep(m: Manager, op: Op)
    requires Sound(m) && Legal(m, op)
    ensures Sound(Apply(m, op))
  {
    match op
    case RegisterOp(t, _) =>
      var ts := m.targets + [t];
      assert Distinct(ts);
      WithoutConcat(m.targets, [t], {t});
      WithoutNone(m.targets, {t});
      WithoutDistinct(ts, {t});
    case InitializeOp(inline) => WithoutDistinct(m.targets, inline);
    case CompleteOp(t) => WithoutDistinct(m.targets, {t});
  }

  /** Over any run the callback runs at most once, and it has run exactly when initialize has been
      called and every registered target has completed. */
  lemma {:induction false} CallbackOnceWhenAllDone(states: seq<Manager>, ops: seq<Op>, i: nat)
    requires IsRun(states, ops) && i < |states|
    ensures Sound(states[i])
    ensures states[i].callbacks <= 1
    ensures states[i].callbacks == 1 <==>
              (exists k :: 0 <= k < i && ops[k].InitializeOp?) && states[i].targets == []
  {
    if i > 0 {
      CallbackOnceWhenAllDone(states, ops, i - 1);
      SoundStep(states[i - 1], ops[i - 1]);
      if states[i - 1].state == NotInitialized {
        StateTracksInitialize(states, ops, i - 1);
      } else {
        StateTracksInitialize(states, ops, i - 1);
        var k :| 0 <= k < i - 1 && ops[k].InitializeOp?;
      }
    }
  }

  lemma {:induction false} StateTracksInitialize(states: seq<Manager>, ops: seq<Op>, i: nat)
    requires IsRun(states, ops) && i < |states|
    ensures states[i].state != NotInitialized <==> exists k :: 0 <= k < i && ops[k].InitializeOp?
  {
    if i > 0 {
      StateTracksInitialize(states, ops, i - 1);
      if ops[i - 1].InitializeOp? {
        assert 0 <= i - 1 < i;
      }
    }
  }

  /** The operation is one in which a started target completes. */
  predicate Completes(m: Manager, op: Op, t: nat) {
    match op
    case RegisterOp(x, done) => x == t && done && m.state == Initializing
    case InitializeOp(inline) => t in m.targets && t in inline
    case CompleteOp(x) => x == t
  }

  predicate Registers(op: Op, t: nat) {
    op.RegisterOp? && op.t == t
  }

  /** What one operation does to one target: it is on the list afterwards exactly if it was there or is
      registered, and does not complete. */
  lemma TargetStep(m: Manager, op: Op, t: nat)
    requires Legal(m, op)
    ensures t in Apply(m, op).targets <==> (t in m.targets || Registers(op, t)) && !Completes(m, op, t)
  {
    if op.RegisterOp? {
      assert forall x :: x in m.targets + [op.t] <==> x in m.targets || x == op.t;
    }
  }

  /** The target was registered at step `k` and has not completed since. */
  ghost predicate Pending(states: seq<Manager>, ops: seq<Op>, i: nat, t: nat, k: nat)
    requires i <= |ops| <= |states|
  {
    k < i && Registers(ops[k], t) && forall n :: k <= n < i ==> !Completes(states[n], ops[n], t)
  }

  /** A target is unfinished exactly from its registration until it completes, whether inline or later. */
  lemma {:induction false} UnfinishedTargets(states: seq<Manager>, ops: seq<Op>, i: nat, t: nat)
    requires IsRun(states, ops) && i < |states|
    ensures t in states[i].targets <==> exists k: nat :: Pending(states, ops, i, t, k)
  {
    hide Apply, Legal, Completes, Registers;
    if i > 0 {
      var j := i - 1;
      UnfinishedTargets(states, ops, j, t);
      TargetStep(states[j], ops[j], t);
      if k: nat :| Pending(states, ops, i, t, k) {
        assert k < j ==> Pending(states, ops, j, t, k);
      }
      if k: nat :| Pending(states, ops, j, t, k) {
        assert !Completes(states[j], ops[j], t) ==> Pending(states, ops, i, t, k);
      }
      if Registers(ops[j], t) {
        assert !Completes(states[j], ops[j], t) ==> Pending(states, ops, i, t, j);
      }
    }
  }

  /** The targets in the order of their registration. */
  function InOrder(ops: seq<Op>): seq<nat> {
    if ops == [] then []
    else
      var before := InOrder(ops[..|ops| - 1]);
      var op := ops[|ops| - 1];
      if op.RegisterOp? then before + [op.t] else before
  }

  /** Nothing starts before initialize is called; from then on every registration has been started
      exactly once, in the order of registration, whether its target completed inline or not. */
  lemma {:induction false} StartedOnceInOrder(states: seq<Manager>, ops: seq<Op>, i: nat)
    requires IsRun(states, ops) && i < |states|
    ensures var s := states[i];
            if s.state == NotInitialized then s.started == [] && s.targets == InOrder(ops[..i])
            else s.started == InOrder(ops[..i])
  {
    hide Without;
    if i > 0 {
      assert ops[..i][..i - 1] == ops[..i - 1];
      StartedOnceInOrder(states, ops, i - 1);
    }
  }

  // ---------- the manager as an object ----------

  class InitManager {
    var targets: seq<nat>
    var state: State
    var callbacks: nat
    var started: seq<nat>

    ghost function View(): Manager
      reads this
    {
      Manager(targets, state, callbacks, started)
    }

    constructor ()
      ensures View() == Manager([], NotInitialized, 0, [])
    {
      targets, state, callbacks, started := [], NotInitialized, 0, [];
    }

    /** The callback given to a target: it drops the target and, after the last, ends. */
    method OnTargetDone(t: nat)
      requires t in targets && Distinct(targets)
      modifies this
      ensures View() == Complete(old(View()), t)
    {
      targets := Without(targets, {t});
      if targets == [] {
        state := Initialized;
        callbacks := callbacks + 1;
      }
    }

    /** Starts every target once, in order, while targets that complete inline remove themselves from
        the list. */
    method Initialize(inline: set<nat>)
      requires state == NotInitialized && Distinct(targets)
      modifies this
      ensures View() == StartTargets(old(View()), inline)
    {
      if targets == [] {
        callbacks := callbacks + 1;
        state := Initialized;
        return;
      }
      state := Initializing;
      ghost var kept, ahead := [], targets;
      ghost var all := targets;
      assert [] + Without(all, inline) == Without(all, inline);
      var i := 0;
      while i < |targets|
        invariant targets == kept + ahead && i == |kept|
        invariant kept + Without(ahead, inline) == Without(all, inline)
        invariant started + ahead == old(started) + all
        invariant Distinct(targets)
        invariant if targets == [] then state == Initialized && callbacks == old(callbacks) + 1
                  else state == Initializing && callbacks == old(callbacks)
        decreases |ahead|
      {
        var t := targets[i];
        TurnSlices(kept, ahead);
        LogTurn(started, ahead);
        started := started + [t];
        if ahead[0] in inline {
          WalkRemoves(kept, ahead, inline);
        } else {
          WalkKeeps(kept, ahead, inline);
        }
        if t in inline {
          OnTargetDone(t);
        } else {
          kept := kept + [t];
          i := i + 1;
        }
        ahead := ahead[1..];
      }
      assert ahead == [];
    }

    method RegisterTarget(t: nat, inline: bool)
      requires state != Initialized && t !in targets && Distinct(targets)
      modifies this
      ensures View() == Register(old(View()), t, inline) && Distinct(targets)
    {
      targets := targets + [t];
      WithoutDistinct(targets, {t});
      if state == Initializing {
        started := started + [t];
        if inline {
          OnTargetDone(t);
        }
      }
    }
  }

  lemma RemoveAt(a: seq<nat>, x: nat, b: seq<nat>)
    requires x !in a && x !in b
    ensures Without(a + ([x] + b), {x}) == a + b
  {
    WithoutConcat(a, [x] + b, {x});
    WithoutNone(a, {x});
    WithoutNone(b, {x});
    assert ([x] + b)[1..] == b;
  }

  lemma DistinctAround(a: seq<nat>, x: nat, b: seq<nat>)
    requires Distinct(a + ([x] + b))
    ensures x !in a && x !in b
    ensures Distinct(a + b)
  {
    var ts := a + ([x] + b);
    assert ts[|a|] == x;
    forall i | 0 <= i < |a| ensures a[i] != x {
      assert ts[i] == a[i];
    }
    forall i | 0 <= i < |b| ensures b[i] != x {
      assert ts[|a| + 1 + i] == b[i];
    }
    forall i, j | 0 <= i < j < |a + b| ensures (a + b)[i] != (a + b)[j] {
      assert (a + b)[i] == ts[if i < |a| then i else i + 1];
      assert (a + b)[j] == ts[if j < |a| then j else j + 1];
    }
  }

  /** One turn of the walk: the target under the iterator ... */
  lemma TurnSlices(kept: seq<nat>, ahead: seq<nat>)
    requires ahead != []
    ensures (kept + ahead)[|kept|] == ahead[0]
    ensures kept + ahead == (kept + [ahead[0]]) + ahead[1..]
  {
  }

  lemma LogTurn(log: seq<nat>, ahead: seq<nat>)
    requires ahead != []
    ensures (log + [ahead[0]]) + ahead[1..] == log + ahead
  {
  }

  lemma Regroup(kept: seq<nat>, x: nat, rest: seq<nat>)
    ensures kept + ([x] + rest) == (kept + [x]) + rest
  {
  }

  /** ... removes itself, ... */
  lemma WalkRemoves(kept: seq<nat>, ahead: seq<nat>, inline: set<nat>)
    requires ahead != [] && Distinct(kept + ahead) && ahead[0] in inline
    ensures Without(kept + ahead, {ahead[0]}) == kept + ahead[1..]
    ensures Without(ahead, inline) == Without(ahead[1..], inline)
    ensures Distinct(kept + ahead[1..])
  {
    assert ahead == [ahead[0]] + ahead[1..];
    hide Distinct;
    RemovingStep(kept, ahead[0], ahead[1..]);
  }

  /** ... or stays. */
  lemma WalkKeeps(kept: seq<nat>, ahead: seq<nat>, inline: set<nat>)
    requires ahead != [] && ahead[0] !in inline
    ensures kept + Without(ahead, inline) == (kept + [ahead[0]]) + Without(ahead[1..], inline)
  {
    assert Without(ahead, inline) == [ahead[0]] + Without(ahead[1..], inline);
    hide Without;
    Regroup(kept, ahead[0], Without(ahead[1..], inline));
  }

  lemma RemovingStep(kept: seq<nat>, x: nat, rest: seq<nat>)
    requires Distinct(kept + ([x] + rest))
    ensures Without(kept + ([x] + rest), {x}) == kept + rest && Distinct(kept + rest)
  {
    hide Without, Distinct;
    DistinctAround(kept, x, rest);
    RemoveAt(kept, x, rest);
  }
}
