/** The limiter as a whole: any number of service instances, their calls interleaved in one Redis in any
    way, and what all their statistics and answers together come to. */
module RateLimiter {
  import opened Common
  import opened RateAccounting
  import opened RateStore
  import opened RateCache

  /** A call of one instance: what it sent, what it was answered, and where in the history of Redis its
      commands stand. */
  datatype Call = Call(
    instance: nat, keys: seq<string>, limits: seq<Option<Limit>>, addend: uint32, jitters: seq<nat>, now: nat,
    replies: nat -> Reply, places: seq<nat>)

  predicate Shaped(c: Call) {
    && |c.keys| == |c.limits| == |c.jitters| && WellFormed(c.limits)
    && forall i :: 0 <= i < |c.keys| ==> (c.keys[i] == "" <==> c.limits[i].None?)
  }

  function Requests(c: Call): seq<Request>
    requires Shaped(c)
  {
    Pipeline(c.keys, c.limits, c.addend, c.jitters)
  }

  /** The call's commands stand in the history, and no reply was bad. */
  predicate Answered(cs: seq<Command>, c: Call) {
    && Shaped(c) && Served(cs, c.places, Requests(c), c.now, c.replies)
    && forall k :: 0 <= k < 2 * Present(c.limits) ==> !BadReply(c.replies, k)
  }

  /** All descriptors on these keys, and no others, meet the limit. A limit without a value has many keys
      in one window, and every limit has others in the next. */
  predicate OneLimit(c: Call, keys: seq<string>, l: Limit) {
    forall i :: 0 <= i < |c.keys| && i < |c.limits| ==>
      && (c.keys[i] in keys ==> c.limits[i] == Some(l))
      && (c.limits[i].Some? && c.limits[i].value.id == l.id ==> c.keys[i] in keys)
  }

  // ---------- effects ----------

  /** Hits sent, hits counted over and near the limit, and hits answered OK. */
  datatype Effect = Effect(hits: nat, over: nat, near: nat, admitted: nat)

  const NOTHING: Effect := Effect(0, 0, 0, 0)

  function Plus(a: Effect, b: Effect): Effect {
    Effect(a.hits + b.hits, a.over + b.over, a.near + b.near, a.admitted + b.admitted)
  }

  function EffectOf(v: Verdict, addend: nat): Effect {
    Effect(addend, v.overLimit, v.nearLimit, if v.code == OK then addend else 0)
  }

  predicate IsIncrement(cs: seq<Command>, p: nat) {
    p < |cs| && cs[p].operation.IncrBy?
  }

  /** What the INCRBY at a place of the history brings about. */
  function EffectAt(cs: seq<Command>, l: Limit, p: nat): Effect
    requires l.near <= l.requestsPerUnit
  {
    if !IsIncrement(cs, p) then NOTHING
    else
      var addend := cs[p].operation.addend;
      EffectOf(Judge(Sum(Addends(cs[..p], cs[p].key)) + addend, addend, l.requestsPerUnit, l.near), addend)
  }

  function SumAt(cs: seq<Command>, l: Limit, ps: seq<nat>): Effect
    requires l.near <= l.requestsPerUnit
  {
    if ps == [] then NOTHING else Plus(SumAt(cs, l, ps[..|ps| - 1]), EffectAt(cs, l, ps[|ps| - 1]))
  }

  lemma ConcatInit<T>(a: seq<T>, b: seq<T>)
    requires b != []
    ensures a + b != [] && (a + b)[|a + b| - 1] == b[|b| - 1]
    ensures (a + b)[..|a + b| - 1] == a + b[..|b| - 1]
  {
  }

  lemma PlusAssociates(a: Effect, b: Effect, c: Effect)
    ensures Plus(Plus(a, b), c) == Plus(a, Plus(b, c)) && Plus(a, NOTHING) == a == Plus(NOTHING, a)
  {
  }

  lemma {:induction false} SumAtConcat(cs: seq<Command>, l: Limit, a: seq<nat>, b: seq<nat>)
    requires l.near <= l.requestsPerUnit
    ensures SumAt(cs, l, a + b) == Plus(SumAt(cs, l, a), SumAt(cs, l, b))
    decreases |b|
  {
    hide EffectAt, Plus;
    if b == [] {
      assert a + b == a;
      PlusAssociates(SumAt(cs, l, a), NOTHING, NOTHING);
    } else {
      ConcatInit(a, b);
      SumAtConcat(cs, l, a, b[..|b| - 1]);
      PlusAssociates(SumAt(cs, l, a), SumAt(cs, l, b[..|b| - 1]), EffectAt(cs, l, b[|b| - 1]));
    }
  }

  /** The order of places does not matter. */
  lemma {:induction false} SumAtPermutation(cs: seq<Command>, l: Limit, ps: seq<nat>, qs: seq<nat>)
    requires l.near <= l.requestsPerUnit && multiset(ps) == multiset(qs)
    ensures SumAt(cs, l, ps) == SumAt(cs, l, qs)
    decreases |ps|
  {
    hide EffectAt, Plus;
    SameMembers(ps, qs);
    if ps != [] {
      var n := |ps| - 1;
      var x := ps[n];
      var j := Find(qs, x);
      Without(ps, qs, j);
      SumAtPermutation(cs, l, ps[..n], qs[..j] + qs[j + 1..]);
      hide SumAt;
      MoveToEnd(cs, l, qs[..j], x, qs[j + 1..]);
      SumAtLast(cs, l, ps);
    }
  }

  lemma SumAtLast(cs: seq<Command>, l: Limit, ps: seq<nat>)
    requires l.near <= l.requestsPerUnit && ps != []
    ensures SumAt(cs, l, ps) == Plus(SumAt(cs, l, ps[..|ps| - 1]), EffectAt(cs, l, ps[|ps| - 1]))
  {
    hide EffectAt, Plus;
  }

  lemma SumAtNothing(cs: seq<Command>, l: Limit)
    requires l.near <= l.requestsPerUnit
    ensures SumAt(cs, l, []) == NOTHING
  {
  }

  lemma MoveToEnd(cs: seq<Command>, l: Limit, a: seq<nat>, x: nat, b: seq<nat>)
    requires l.near <= l.requestsPerUnit
    ensures SumAt(cs, l, a + ([x] + b)) == Plus(SumAt(cs, l, a + b), EffectAt(cs, l, x))
  {
    hide EffectAt;
    SumAtConcat(cs, l, a, [x] + b);
    SumAtConcat(cs, l, [x], b);
    SumAtConcat(cs, l, a, b);
    assert [x][..0] == [];
    assert SumAt(cs, l, [x]) == Plus(NOTHING, EffectAt(cs, l, x));
  }

  lemma SameMembers(ps: seq<nat>, qs: seq<nat>)
    requires multiset(ps) == multiset(qs)
    ensures |ps| == |qs| && forall p :: p in ps <==> p in qs
  {
    assert |multiset(ps)| == |ps| && |multiset(qs)| == |qs|;
    forall p ensures p in ps <==> p in qs {
      assert p in ps <==> p in multiset(ps);
      assert p in qs <==> p in multiset(qs);
    }
  }

  lemma Find(qs: seq<nat>, x: nat) returns (j: nat)
    requires x in qs
    ensures j < |qs| && qs[j] == x && qs == qs[..j] + ([x] + qs[j + 1..])
  {
    j :| 0 <= j < |qs| && qs[j] == x;
  }

  lemma Without(ps: seq<nat>, qs: seq<nat>, j: nat)
    requires ps != [] && multiset(ps) == multiset(qs) && j < |qs| && qs[j] == ps[|ps| - 1]
    ensures multiset(ps[..|ps| - 1]) == multiset(qs[..j] + qs[j + 1..])
  {
    var x := qs[j];
    SplitAt(ps, |ps| - 1);
    SplitAt(qs, j);
    assert ps[..|ps| - 1] + ps[|ps|..] == ps[..|ps| - 1];
    var a, b := multiset(ps[..|ps| - 1]), multiset(qs[..j] + qs[j + 1..]);
    assert a + multiset{x} == b + multiset{x};
    assert a == a + multiset{x} - multiset{x} == b;
  }

  lemma SplitAt(qs: seq<nat>, j: nat)
    requires j < |qs|
    ensures multiset(qs) == multiset(qs[..j] + qs[j + 1..]) + multiset{qs[j]}
  {
    assert qs == qs[..j] + ([qs[j]] + qs[j + 1..]);
  }

  // ---------- what the calls bring about ----------

  /** The places of the INCRBY commands of the first `n` descriptors, on some keys. */
  function PlacesOf(c: Call, keys: seq<string>, n: nat): seq<nat>
    requires Shaped(c) && n <= |c.keys| && 2 * Present(c.limits) <= |c.places|
  {
    if n == 0 then []
    else
      PlacesOf(c, keys, n - 1)
      + if c.limits[n - 1].Some? && c.keys[n - 1] in keys then
          PresentBefore(c.limits, n - 1);
          [c.places[2 * Present(c.limits[..n - 1])]]
        else []
  }

  lemma PresentBefore(limits: seq<Option<Limit>>, i: nat)
    requires i < |limits| && limits[i].Some?
    ensures Present(limits[..i]) < Present(limits)
  {
    assert limits[..i + 1][..i] == limits[..i];
    PresentMonotone(limits, i + 1);
  }

  /** What one descriptor brings about: nothing unless it has a limit and one of the keys. */
  function Share(c: Call, keys: seq<string>, i: nat): Effect
    requires Shaped(c) && i < |c.keys|
  {
    if c.limits[i].Some? && c.keys[i] in keys then
      assert c.limits[i] in c.limits;
      EffectOf(VerdictAt(c.limits, i, c.replies, c.addend), c.addend)
    else NOTHING
  }

  /** What a call itself counts and admits on its first `n` descriptors, from its own replies. */
  function CallEffect(c: Call, keys: seq<string>, n: nat): Effect
    requires Shaped(c) && n <= |c.keys|
  {
    if n == 0 then NOTHING else Plus(CallEffect(c, keys, n - 1), Share(c, keys, n - 1))
  }

  /** Each key is used inside one window of its own. */
  ghost predicate Windowed(cs: seq<Command>, keys: seq<string>, starts: map<string, nat>, divider: nat) {
    forall k :: k in keys ==> k in starts && KeepsWindow(cs, k, starts[k], divider)
  }

  /** One descriptor's share is the effect of its command at its place. */
  lemma DescriptorEffect(
    cs: seq<Command>, c: Call, keys: seq<string>, l: Limit, starts: map<string, nat>, divider: nat, i: nat)
    requires InClockOrder(cs) && Answered(cs, c) && OneLimit(c, keys, l) && Windowed(cs, keys, starts, divider)
    requires i < |c.keys| && c.limits[i].Some? && c.keys[i] in keys
    ensures l.near <= l.requestsPerUnit && 2 * Present(c.limits[..i]) < |c.places|
    ensures var p := c.places[2 * Present(c.limits[..i])];
            && IsIncrement(cs, p)
            && EffectAt(cs, l, p) == EffectOf(VerdictAt(c.limits, i, c.replies, c.addend), c.addend)
  {
    hide Judge, VerdictAt, Pipeline, ExecuteAll, Value, Addends, Sum, InClockOrder, KeepsWindow;
    assert c.limits[i] in c.limits;
    PipelineAt(c.keys, c.limits, c.addend, c.jitters, i);
    ServedAt(cs, c.places, Requests(c), c.now, c.replies, 2 * Present(c.limits[..i]));
    var place := VerdictOnWindowTotal(
      cs, c.places, c.keys, c.limits, c.addend, c.jitters, c.now, c.replies, i, starts[c.keys[i]], divider);
  }

  lemma AnsweredShape(cs: seq<Command>, c: Call)
    requires Answered(cs, c)
    ensures |c.places| == 2 * Present(c.limits)
  {
    PipelineLength(c.keys, c.limits, c.addend, c.jitters);
  }

  lemma {:induction false} CallEffectAtPlaces(
    cs: seq<Command>, c: Call, keys: seq<string>, l: Limit, starts: map<string, nat>, divider: nat, n: nat)
    requires InClockOrder(cs) && Answered(cs, c) && OneLimit(c, keys, l) && Windowed(cs, keys, starts, divider)
    requires n <= |c.keys| && l.near <= l.requestsPerUnit
    ensures |c.places| == 2 * Present(c.limits)
    ensures SumAt(cs, l, PlacesOf(c, keys, n)) == CallEffect(c, keys, n)
    decreases n
  {
    hide Answered, OneLimit, Windowed, InClockOrder, EffectAt, EffectOf, VerdictAt, IsIncrement, SumAt, Plus;
    AnsweredShape(cs, c);
    ShapedAnswer(cs, c);
    if n == 0 {
      SumAtNothing(cs, l);
    } else {
      CallEffectAtPlaces(cs, c, keys, l, starts, divider, n - 1);
      var before := PlacesOf(c, keys, n - 1);
      if c.limits[n - 1].Some? && c.keys[n - 1] in keys {
        PresentBefore(c.limits, n - 1);
        DescriptorEffect(cs, c, keys, l, starts, divider, n - 1);
        var p := c.places[2 * Present(c.limits[..n - 1])];
        SumAtLast(cs, l, before + [p]);
        assert (before + [p])[..|before|] == before;
      } else {
        assert PlacesOf(c, keys, n) == before;
        PlusAssociates(CallEffect(c, keys, n - 1), NOTHING, NOTHING);
      }
    }
  }

  lemma ShapedAnswer(cs: seq<Command>, c: Call)
    requires Answered(cs, c)
    ensures Shaped(c)
  {
  }

  ghost predicate AllAnswered(cs: seq<Command>, calls: seq<Call>, keys: seq<string>, l: Limit) {
    forall i :: 0 <= i < |calls| ==> Answered(cs, calls[i]) && OneLimit(calls[i], keys, l)
  }

  ghost function AllPlaces(cs: seq<Command>, calls: seq<Call>, keys: seq<string>, l: Limit): seq<nat>
    requires AllAnswered(cs, calls, keys, l)
  {
    if calls == [] then []
    else
      var c := calls[|calls| - 1];
      AnsweredShape(cs, c);
      AllPlaces(cs, calls[..|calls| - 1], keys, l) + PlacesOf(c, keys, |c.keys|)
  }

  ghost function CallsEffect(cs: seq<Command>, calls: seq<Call>, keys: seq<string>, l: Limit): Effect
    requires AllAnswered(cs, calls, keys, l)
  {
    if calls == [] then NOTHING
    else
      var c := calls[|calls| - 1];
      Plus(CallsEffect(cs, calls[..|calls| - 1], keys, l), CallEffect(c, keys, |c.keys|))
  }

  lemma {:induction false} CallsEffectAtPlaces(
    cs: seq<Command>, calls: seq<Call>, keys: seq<string>, l: Limit, starts: map<string, nat>, divider: nat)
    requires InClockOrder(cs) && AllAnswered(cs, calls, keys, l) && Windowed(cs, keys, starts, divider)
    requires l.near <= l.requestsPerUnit
    ensures SumAt(cs, l, AllPlaces(cs, calls, keys, l)) == CallsEffect(cs, calls, keys, l)
    decreases |calls|
  {
    hide InClockOrder, Windowed, EffectAt, Answered, OneLimit, SumAt, Plus, CallEffect, PlacesOf;
    if calls == [] {
      SumAtNothing(cs, l);
    } else {
      var n := |calls| - 1;
      var c := calls[n];
      CallsEffectAtPlaces(cs, calls[..n], keys, l, starts, divider);
      ShapedAnswer(cs, c);
      CallEffectAtPlaces(cs, c, keys, l, starts, divider, |c.keys|);
      SumAtConcat(cs, l, AllPlaces(cs, calls[..n], keys, l), PlacesOf(c, keys, |c.keys|));
    }
  }

  // ---------- what the history brings about ----------

  /** The INCRBY commands on some keys, in the order of the history. */
  function Increments(cs: seq<Command>, keys: seq<string>): (ps: seq<nat>)
    ensures forall i :: 0 <= i < |ps| ==> ps[i] < |cs|
  {
    if cs == [] then []
    else
      var n := |cs| - 1;
      Increments(cs[..n], keys) + if cs[n].operation.IncrBy? && cs[n].key in keys then [n] else []
  }

  /** What one key's window comes to, call by call. */
  function KeyEffect(cs: seq<Command>, l: Limit, key: string): Effect
    requires l.near <= l.requestsPerUnit
  {
    var addends := Addends(cs, key);
    var vs := Verdicts(addends, l.requestsPerUnit, l.near);
    Effect(Sum(addends), TotalOver(vs), TotalNear(vs), Admitted(addends, vs))
  }

  function KeysEffect(cs: seq<Command>, l: Limit, keys: seq<string>): Effect
    requires l.near <= l.requestsPerUnit
  {
    if keys == [] then NOTHING
    else Plus(KeysEffect(cs, l, keys[..|keys| - 1]), KeyEffect(cs, l, keys[|keys| - 1]))
  }

  predicate Distinct(keys: seq<string>) {
    forall i, j :: 0 <= i < j < |keys| ==> keys[i] != keys[j]
  }

  /** One more command changes the window of its own key, by its own effect, and no other window. */
  lemma KeyEffectStep(cs: seq<Command>, l: Limit, key: string)
    requires cs != [] && l.near <= l.requestsPerUnit
    ensures var n := |cs| - 1;
            KeyEffect(cs, l, key)
            == if cs[n].operation.IncrBy? && cs[n].key == key
               then Plus(KeyEffect(cs[..n], l, key), EffectAt(cs, l, n))
               else KeyEffect(cs[..n], l, key)
  {
    hide Judge;
    var n := |cs| - 1;
    OneMoreAddend(cs, key);
    if cs[n].operation.IncrBy? && cs[n].key == key {
      hide Addends;
      VerdictsAppend(Addends(cs[..n], key), cs[n].operation.addend, l.requestsPerUnit, l.near);
    }
  }

  lemma VerdictsAppend(addends: seq<uint32>, addend: uint32, limit: uint32, near: uint32)
    requires near <= limit
    ensures var more := addends + [addend];
            var vs, ws := Verdicts(addends, limit, near), Verdicts(more, limit, near);
            var v := Judge(Sum(addends) + addend, addend, limit, near);
            && Sum(more) == Sum(addends) + addend && ws == vs + [v]
            && TotalOver(ws) == TotalOver(vs) + v.overLimit && TotalNear(ws) == TotalNear(vs) + v.nearLimit
            && Admitted(more, ws) == Admitted(addends, vs) + if v.code == OK then addend else 0
  {
    hide Judge;
    var more := addends + [addend];
    assert more[..|addends|] == addends;
    var ws := Verdicts(more, limit, near);
    assert ws[..|addends|] == Verdicts(addends, limit, near);
  }

  lemma {:induction false} KeysEffectStep(cs: seq<Command>, l: Limit, keys: seq<string>)
    requires cs != [] && l.near <= l.requestsPerUnit && Distinct(keys)
    ensures var n := |cs| - 1;
            KeysEffect(cs, l, keys)
            == if cs[n].operation.IncrBy? && cs[n].key in keys
               then Plus(KeysEffect(cs[..n], l, keys), EffectAt(cs, l, n))
               else KeysEffect(cs[..n], l, keys)
    decreases |keys|
  {
    hide KeyEffect, EffectAt;
    if keys != [] {
      var m := |keys| - 1;
      KeysEffectStep(cs, l, keys[..m]);
      KeyEffectStep(cs, l, keys[m]);
      LastKey(keys, cs[|cs| - 1].key);
    }
  }

  lemma LastKey(keys: seq<string>, key: string)
    requires keys != [] && Distinct(keys)
    ensures var m := |keys| - 1;
            (key in keys <==> key in keys[..m] || key == keys[m]) && (key == keys[m] ==> key !in keys[..m])
  {
  }

  lemma {:induction false} SumAtPrefix(cs: seq<Command>, l: Limit, ps: seq<nat>)
    requires cs != [] && l.near <= l.requestsPerUnit && forall i :: 0 <= i < |ps| ==> ps[i] < |cs| - 1
    ensures SumAt(cs, l, ps) == SumAt(cs[..|cs| - 1], l, ps)
    decreases |ps|
  {
    hide EffectAt;
    if ps != [] {
      var p := ps[|ps| - 1];
      SumAtPrefix(cs, l, ps[..|ps| - 1]);
      EffectAtPrefix(cs, l, p);
    }
  }

  lemma EffectAtPrefix(cs: seq<Command>, l: Limit, p: nat)
    requires cs != [] && l.near <= l.requestsPerUnit && p < |cs| - 1
    ensures EffectAt(cs, l, p) == EffectAt(cs[..|cs| - 1], l, p)
  {
    hide Judge, Addends, Sum;
    assert cs[..|cs| - 1][..p] == cs[..p];
  }

  /** The places of a history's INCRBY commands sum up to its windows. */
  lemma {:induction false} HistoryEffect(cs: seq<Command>, l: Limit, keys: seq<string>)
    requires l.near <= l.requestsPerUnit && Distinct(keys)
    ensures SumAt(cs, l, Increments(cs, keys)) == KeysEffect(cs, l, keys)
    decreases |cs|
  {
    hide EffectAt, KeyEffect, KeysEffect, Distinct, SumAt, Plus;
    if cs == [] {
      EmptyHistory(cs, l, keys);
      SumAtNothing(cs, l);
    } else {
      var n := |cs| - 1;
      HistoryEffect(cs[..n], l, keys);
      SumAtPrefix(cs, l, Increments(cs[..n], keys));
      KeysEffectStep(cs, l, keys);
      if cs[n].operation.IncrBy? && cs[n].key in keys {
        SumAtLast(cs, l, Increments(cs, keys));
        assert Increments(cs, keys)[..|Increments(cs, keys)| - 1] == Increments(cs[..n], keys);
      } else {
        assert Increments(cs, keys) == Increments(cs[..n], keys);
      }
    }
  }

  lemma NoEffect(cs: seq<Command>, l: Limit, key: string)
    requires cs == [] && l.near <= l.requestsPerUnit
    ensures KeyEffect(cs, l, key) == NOTHING
  {
    assert Addends(cs, key) == [];
  }

  lemma {:induction false} EmptyHistory(cs: seq<Command>, l: Limit, keys: seq<string>)
    requires cs == [] && l.near <= l.requestsPerUnit
    ensures KeysEffect(cs, l, keys) == NOTHING
    decreases |keys|
  {
    if keys != [] {
      hide KeyEffect, Plus;
      EmptyHistory(cs, l, keys[..|keys| - 1]);
      NoEffect(cs, l, keys[|keys| - 1]);
      PlusAssociates(KeysEffect(cs, l, keys[..|keys| - 1]), NOTHING, NOTHING);
    }
  }

  // ---------- the windows' totals ----------

  function Total(cs: seq<Command>, key: string): nat {
    Sum(Addends(cs, key))
  }

  /** The hits of all windows, those beyond the limit, those near it, and the most that may be admitted. */
  function Totals(cs: seq<Command>, l: Limit, keys: seq<string>): Effect {
    if keys == [] then NOTHING
    else
      var t := Total(cs, keys[|keys| - 1]);
      Plus(Totals(cs, l, keys[..|keys| - 1]),
           Effect(t, OverHits(t, l.requestsPerUnit), NearHits(t, l.requestsPerUnit, l.near), Min(t, l.requestsPerUnit)))
  }

  lemma {:induction false} KeysEffectIsTotals(cs: seq<Command>, l: Limit, keys: seq<string>)
    requires l.near <= l.requestsPerUnit && forall k :: k in keys ==> Total(cs, k) < UINT32
    ensures var e, t := KeysEffect(cs, l, keys), Totals(cs, l, keys);
            && e.hits == t.hits && e.over == t.over && e.near == t.near && e.admitted <= t.admitted
            && ((forall k :: k in keys ==> Total(cs, k) <= l.requestsPerUnit) ==> e.admitted == e.hits)
    decreases |keys|
  {
    if keys != [] {
      var m := |keys| - 1;
      KeysEffectIsTotals(cs, l, keys[..m]);
      assert keys[m] in keys;
      StatisticsTelescope(Addends(cs, keys[m]), l.requestsPerUnit, l.near);
      AdmittedWithinLimit(Addends(cs, keys[m]), l.requestsPerUnit, l.near);
    }
  }

  // ---------- the whole limiter ----------

  /** Every INCRBY on these keys is that of exactly one descriptor of one call. */
  ghost predicate AllAccounted(cs: seq<Command>, calls: seq<Call>, keys: seq<string>, l: Limit) {
    AllAnswered(cs, calls, keys, l) && multiset(AllPlaces(cs, calls, keys, l)) == multiset(Increments(cs, keys))
  }

  /** For any interleaving of the calls of any number of instances: what the calls count and admit, each
      from its own replies, adds up to the totals of the windows. The hits answered OK never exceed the
      limits of the windows, and all hits are answered OK if every window's total is within its limit. */
  lemma CallsAddUpToTotals(
    cs: seq<Command>, calls: seq<Call>, keys: seq<string>, l: Limit, starts: map<string, nat>, divider: nat)
    requires InClockOrder(cs) && AllAccounted(cs, calls, keys, l) && Windowed(cs, keys, starts, divider)
    requires l.near <= l.requestsPerUnit && Distinct(keys) && forall k :: k in keys ==> Total(cs, k) < UINT32
    ensures var e, t := CallsEffect(cs, calls, keys, l), Totals(cs, l, keys);
            && e.hits == t.hits && e.over == t.over && e.near == t.near && e.admitted <= t.admitted
            && ((forall k :: k in keys ==> Total(cs, k) <= l.requestsPerUnit) ==> e.admitted == e.hits)
  {
    hide AllAnswered, AllPlaces, CallsEffect, Increments, KeysEffect, Totals, SumAt, Windowed, InClockOrder;
    CallsEffectAtPlaces(cs, calls, keys, l, starts, divider);
    SumAtPermutation(cs, l, AllPlaces(cs, calls, keys, l), Increments(cs, keys));
    HistoryEffect(cs, l, keys);
    KeysEffectIsTotals(cs, l, keys);
  }

  /** One window by itself: of the hits on one key no more than the limit are answered OK. */
  lemma OneWindow(cs: seq<Command>, calls: seq<Call>, key: string, l: Limit, start: nat, divider: nat)
    requires InClockOrder(cs) && AllAccounted(cs, calls, [key], l) && KeepsWindow(cs, key, start, divider)
    requires l.near <= l.requestsPerUnit && Total(cs, key) < UINT32
    ensures var e, t := CallsEffect(cs, calls, [key], l), Total(cs, key);
            && e.hits == t && e.over == OverHits(t, l.requestsPerUnit)
            && e.near == NearHits(t, l.requestsPerUnit, l.near)
            && e.admitted <= Min(t, l.requestsPerUnit) && (t <= l.requestsPerUnit ==> e.admitted == t)
  {
    hide AllAccounted, CallsEffect, KeepsWindow, InClockOrder, Total;
    CallsAddUpToTotals(cs, calls, [key], l, map[key := start], divider);
    assert [key][..0] == [];
    assert Totals(cs, l, []) == NOTHING;
  }

  // ---------- the statistics that the instances hold ----------

  function Merge(a: Stats, b: Stats): Stats {
    Stats(a.totalHits + b.totalHits, a.overLimit + b.overLimit, a.nearLimit + b.nearLimit)
  }

  /** A limit's statistics over all instances. */
  function SumStats(stats: seq<map<string, Stats>>, id: string): Stats {
    if stats == [] then Stats(0, 0, 0)
    else Merge(SumStats(stats[..|stats| - 1], id), StatsOf(stats[|stats| - 1], id))
  }

  ghost predicate OnInstances(calls: seq<Call>, n: nat) {
    forall i :: 0 <= i < |calls| ==> calls[i].instance < n && Shaped(calls[i])
  }

  /** The statistics of all instances after their calls, in the order in which these count. */
  ghost function AfterCalls(calls: seq<Call>, stats: seq<map<string, Stats>>): (r: seq<map<string, Stats>>)
    requires OnInstances(calls, |stats|)
    ensures |r| == |stats|
  {
    if calls == [] then stats
    else
      var c := calls[|calls| - 1];
      var before := AfterCalls(calls[..|calls| - 1], stats);
      before[c.instance :=
        ReadAll(c.limits, c.replies, c.addend, CountHits(c.limits, c.addend, before[c.instance])).stats]
  }

  lemma {:induction false} SumStatsUpdate(
      stats: seq<map<string, Stats>>, i: nat, m: map<string, Stats>, id: string, d: Stats)
    requires i < |stats| && StatsOf(m, id) == Merge(StatsOf(stats[i], id), d)
    ensures SumStats(stats[i := m], id) == Merge(SumStats(stats, id), d)
    decreases |stats|
  {
    hide StatsOf;
    var n := |stats| - 1;
    if i < n {
      SumStatsUpdate(stats[..n], i, m, id, d);
      assert stats[i := m][..n] == stats[..n][i := m];
    } else {
      assert stats[i := m][..n] == stats[..n];
    }
  }

  /** What a call charges to a limit is its effect on the keys of this limit. */
  lemma {:induction false} ChargeIsEffect(c: Call, keys: seq<string>, l: Limit, n: nat)
    requires Shaped(c) && OneLimit(c, keys, l) && n <= |c.keys|
    ensures WellFormed(c.limits[..n])
    ensures var e := CallEffect(c, keys, n);
            && Meets(c.limits[..n], l.id) * c.addend == e.hits
            && ChargedTo(c.limits[..n], c.replies, c.addend, l.id) == (e.over, e.near)
    decreases n
  {
    hide VerdictAt, OneLimit, ChargedTo, Meets, Shaped, Share;
    PrefixWellFormed(c, n);
    if n == 0 {
      NoCharge(c, l);
    } else {
      ChargeIsEffect(c, keys, l, n - 1);
      ChargeStep(c, keys, l, n);
    }
  }

  lemma PrefixWellFormed(c: Call, n: nat)
    requires Shaped(c) && n <= |c.keys|
    ensures |c.limits| == |c.keys| && WellFormed(c.limits[..n])
  {
  }

  lemma NoCharge(c: Call, l: Limit)
    ensures WellFormed(c.limits[..0])
    ensures Meets(c.limits[..0], l.id) == 0 && ChargedTo(c.limits[..0], c.replies, c.addend, l.id) == (0, 0)
  {
  }

  /** One more descriptor is charged to the limit exactly if its key is one of the limit's. */
  lemma ChargeStep(c: Call, keys: seq<string>, l: Limit, n: nat)
    requires Shaped(c) && OneLimit(c, keys, l) && 0 < n <= |c.keys|
    ensures WellFormed(c.limits[..n]) && WellFormed(c.limits[..n - 1])
    ensures var (over, near) := ChargedTo(c.limits[..n - 1], c.replies, c.addend, l.id);
            var d := Share(c, keys, n - 1);
            && Meets(c.limits[..n], l.id) * c.addend == Meets(c.limits[..n - 1], l.id) * c.addend + d.hits
            && ChargedTo(c.limits[..n], c.replies, c.addend, l.id) == (over + d.over, near + d.near)
  {
    hide VerdictAt;
    PrefixWellFormed(c, n);
    PrefixWellFormed(c, n - 1);
    var prefix := c.limits[..n];
    assert prefix[..n - 1] == c.limits[..n - 1];
    OneMore(Meets(c.limits[..n - 1], l.id), c.addend);
    assert c.limits[n - 1] in c.limits;
    SameVerdict(c, n - 1);
  }

  lemma SameVerdict(c: Call, i: nat)
    requires Shaped(c) && i < |c.keys| && c.limits[i].Some? ==> c.limits[i] in c.limits
    ensures Shaped(c) && i < |c.keys| && c.limits[i].Some? ==>
              && c.limits[i].value.near <= c.limits[i].value.requestsPerUnit
              && VerdictAt(c.limits[..i + 1], i, c.replies, c.addend) == VerdictAt(c.limits, i, c.replies, c.addend)
  {
    if Shaped(c) && i < |c.keys| && c.limits[i].Some? {
      assert c.limits[..i + 1][..i] == c.limits[..i];
    }
  }

  lemma {:induction false} StatisticsOfCalls(
    cs: seq<Command>, calls: seq<Call>, keys: seq<string>, l: Limit, stats: seq<map<string, Stats>>)
    requires AllAnswered(cs, calls, keys, l) && OnInstances(calls, |stats|)
    ensures var e := CallsEffect(cs, calls, keys, l);
            SumStats(AfterCalls(calls, stats), l.id) == Merge(SumStats(stats, l.id), Stats(e.hits, e.over, e.near))
    decreases |calls|
  {
    hide StatsOf, CountHits, ReadAll, SumStats, CallEffect, OneLimit, Answered;
    if calls != [] {
      var n := |calls| - 1;
      var c := calls[n];
      StatisticsOfCalls(cs, calls[..n], keys, l, stats);
      var before := AfterCalls(calls[..n], stats);
      OneCallCounts(cs, c, keys, l, before[c.instance]);
      var e := CallEffect(c, keys, |c.keys|);
      SumStatsUpdate(before, c.instance,
                     ReadAll(c.limits, c.replies, c.addend, CountHits(c.limits, c.addend, before[c.instance])).stats,
                     l.id, Stats(e.hits, e.over, e.near));
    }
  }

  /** One call's own statistics, and that it does not fail. */
  lemma OneCallCounts(cs: seq<Command>, c: Call, keys: seq<string>, l: Limit, stats: map<string, Stats>)
    requires Answered(cs, c) && OneLimit(c, keys, l) && Shaped(c)
    ensures var r := ReadAll(c.limits, c.replies, c.addend, CountHits(c.limits, c.addend, stats));
            var e := CallEffect(c, keys, |c.keys|);
            !r.failed && StatsOf(r.stats, l.id) == Merge(StatsOf(stats, l.id), Stats(e.hits, e.over, e.near))
  {
    hide StatsOf, CountHits, ReadAll, CallEffect, OneLimit, Served;
    FailsOnFirstBadReply(c.limits, c.replies, c.addend, CountHits(c.limits, c.addend, stats));
    StatisticsOfACall(c.limits, c.replies, c.addend, stats, l.id);
    ChargeIsEffect(c, keys, l, |c.keys|);
    assert c.limits[..|c.keys|] == c.limits;
  }

  /** The hits that a call's statuses answer OK on some keys. */
  function AnsweredOk(c: Call, keys: seq<string>, statuses: seq<Status>, n: nat): nat
    requires Shaped(c) && |statuses| == |c.keys| && n <= |c.keys|
  {
    if n == 0 then 0
    else
      AnsweredOk(c, keys, statuses, n - 1)
      + if c.limits[n - 1].Some? && c.keys[n - 1] in keys && statuses[n - 1].code == OK then c.addend else 0
  }

  /** The statuses that a call returns admit what its effect says. */
  lemma {:induction false} StatusesAdmit(
    cs: seq<Command>, c: Call, keys: seq<string>, statuses: seq<Status>, stats: map<string, Stats>, n: nat)
    requires Answered(cs, c) && Shaped(c) && n <= |c.keys|
    requires statuses == ReadAll(c.limits, c.replies, c.addend, stats).statuses && |statuses| == |c.keys|
    ensures AnsweredOk(c, keys, statuses, n) == CallEffect(c, keys, n).admitted
    decreases n
  {
    hide ReadAll, Served, VerdictAt;
    if n > 0 {
      StatusesAdmit(cs, c, keys, statuses, stats, n - 1);
      FailsOnFirstBadReply(c.limits, c.replies, c.addend, stats);
      AnswersMatchReplies(c.limits, c.replies, c.addend, stats);
      assert AnswerIs(statuses[n - 1], c.limits, n - 1, c.replies, c.addend);
    }
  }

  /** The statistics that all instances together hold for a limit grow by exactly the totals of the
      limit's windows: the hits, those over the limit and those near it, over any interleaving. */
  lemma StatisticsAreTotals(
    cs: seq<Command>, calls: seq<Call>, keys: seq<string>, l: Limit, starts: map<string, nat>, divider: nat,
    stats: seq<map<string, Stats>>)
    requires InClockOrder(cs) && AllAccounted(cs, calls, keys, l) && Windowed(cs, keys, starts, divider)
    requires l.near <= l.requestsPerUnit && Distinct(keys) && forall k :: k in keys ==> Total(cs, k) < UINT32
    requires OnInstances(calls, |stats|)
    ensures var t := Totals(cs, l, keys);
            SumStats(AfterCalls(calls, stats), l.id) == Merge(SumStats(stats, l.id), Stats(t.hits, t.over, t.near))
  {
    hide AllAnswered, AllPlaces, CallsEffect, Totals, SumStats, AfterCalls, Windowed, InClockOrder, OnInstances;
    CallsAddUpToTotals(cs, calls, keys, l, starts, divider);
    StatisticsOfCalls(cs, calls, keys, l, stats);
  }

  // ---------- why the windows are kept ----------

  /** Every command on a key belongs to the pipeline of some call. */
  ghost predicate Owned(cs: seq<Command>, calls: seq<Call>, key: string) {
    forall p :: 0 <= p < |cs| && cs[p].key == key ==>
      exists i, k :: 0 <= i < |calls| && 0 <= k < |calls[i].places| && calls[i].places[k] == p
  }

  /** Commands that execute at the clock value that their call read keep the window, if the calls that use
      the key read the clock in it. */
  lemma CallsKeepWindow(
    cs: seq<Command>, calls: seq<Call>, keys: seq<string>, l: Limit, key: string, start: nat)
    requires AllAnswered(cs, calls, keys, l) && key in keys && key != "" && Owned(cs, calls, key)
    requires forall i :: 0 <= i < |calls| && key in calls[i].keys ==>
               WindowStart(calls[i].now, UnitToDivider(l.unit)) == start
    ensures KeepsWindow(cs, key, start, UnitToDivider(l.unit))
  {
    hide KeepsWindow;
    forall p | 0 <= p < |cs| && cs[p].key == key
      ensures start <= cs[p].at < start + UnitToDivider(l.unit)
      ensures cs[p].operation.Expire? ==> cs[p].operation.seconds >= UnitToDivider(l.unit)
    {
      var i, k :| 0 <= i < |calls| && 0 <= k < |calls[i].places| && calls[i].places[k] == p;
      CommandInWindow(cs, calls[i], keys, l, k);
    }
    WindowByCommands(cs, key, start, UnitToDivider(l.unit));
  }

  lemma WindowByCommands(cs: seq<Command>, key: string, start: nat, divider: nat)
    requires forall p :: 0 <= p < |cs| && cs[p].key == key ==>
               && start <= cs[p].at < start + divider
               && (cs[p].operation.Expire? ==> cs[p].operation.seconds >= divider)
    ensures KeepsWindow(cs, key, start, divider)
  {
  }

  lemma CommandInWindow(cs: seq<Command>, c: Call, keys: seq<string>, l: Limit, k: nat)
    requires Answered(cs, c) && OneLimit(c, keys, l) && k < |c.places|
    requires c.places[k] < |cs| && cs[c.places[k]].key in keys
    ensures var d := cs[c.places[k]]; var divider := UnitToDivider(l.unit);
            && d.key in c.keys
            && WindowStart(c.now, divider) <= d.at < WindowStart(c.now, divider) + divider
            && (d.operation.Expire? ==> d.operation.seconds >= divider)
  {
    hide UnitToDivider;
    var key := cs[c.places[k]].key;
    var requests := Requests(c);
    PipelineKeys(c.keys, c.limits, c.addend, c.jitters, k);
    PipelineKeepsWindow(c.keys, c.limits, c.addend, c.jitters, c.now, key, l.unit);
    assert ExecutedAt(requests, c.now)[k] == Command(c.now, requests[k].key, requests[k].operation);
  }

  /** A pipeline sends commands on the call's keys only. */
  lemma {:induction false} PipelineKeys(
    keys: seq<string>, limits: seq<Option<Limit>>, addend: uint32, jitters: seq<nat>, k: nat)
    requires |keys| == |limits| == |jitters|
    requires forall i :: 0 <= i < |keys| ==> (keys[i] == "" <==> limits[i].None?)
    requires k < |Pipeline(keys, limits, addend, jitters)|
    ensures Pipeline(keys, limits, addend, jitters)[k].key in keys
    decreases |keys|
  {
    if keys != [] {
      var n := |keys| - 1;
      if k < |Pipeline(keys[..n], limits[..n], addend, jitters[..n])| {
        PipelineKeys(keys[..n], limits[..n], addend, jitters[..n], k);
      }
    }
  }
}
