/** The rate limit cache of one service instance: a call becomes one pipeline of INCRBY and EXPIRE
    commands on a pooled connection, whose replies are judged and counted descriptor by descriptor. */
module RateCache {
  import opened Common
  import opened RateAccounting
  import opened RateStore

  /** A configured limit. `id` is its full name, which names its statistics; `near` is the near threshold,
      a value that the floating-point ratio yields and that never exceeds the limit. */
  datatype Limit = Limit(id: string, requestsPerUnit: uint32, unit: Unit, near: uint32)

  type Descriptor = seq<DescriptorEntry>

  datatype Status = Status(code: Code, limit: Option<Limit>, remaining: uint32)

  datatype Stats = Stats(totalHits: nat, overLimit: nat, nearLimit: nat)

  /** What Redis sends back for one command. */
  datatype Reply = Number(n: int) | Other | Failed

  datatype Result<T> = Success(value: T) | RedisError

  datatype Request = Request(key: string, operation: Operation)

  predicate WellFormed(limits: seq<Option<Limit>>) {
    forall l :: l in limits && l.Some? ==> l.value.near <= l.value.requestsPerUnit
  }

  // ---------- what a call sends ----------

  /** A request that names no number of hits counts as one hit. */
  function HitsAddend(requested: uint32): (addend: uint32)
    ensures addend >= 1 && (requested >= 1 ==> addend == requested)
  {
    Max(1, requested)
  }

  /** A descriptor without a limit has the empty key. */
  function KeyOf(domain: string, d: Descriptor, limit: Option<Limit>, now: nat): (key: string)
    ensures key == "" <==> limit.None?
  {
    if limit.None? then "" else CacheKey(domain, d, limit.value.unit, now)
  }

  /** Two calls count a descriptor together exactly if they read the clock in one window of the limit's unit. */
  lemma CallsShareCounter(domain: string, d: Descriptor, l: Limit, a: nat, b: nat)
    ensures KeyOf(domain, d, Some(l), a) == KeyOf(domain, d, Some(l), b)
            <==> WindowStart(a, UnitToDivider(l.unit)) == WindowStart(b, UnitToDivider(l.unit))
  {
    KeySeparatesWindows(domain, d, l.unit, a, b);
  }

  /** Descriptors without the separator share a counter only if they are the same, in the same domain. */
  lemma DescriptorsHaveOwnCounters(
    d1: string, e1: Descriptor, l1: Limit, t1: nat, d2: string, e2: Descriptor, l2: Limit, t2: nat)
    requires '_' !in d1 && '_' !in d2 && Plain(e1) && Plain(e2)
    requires KeyOf(d1, e1, Some(l1), t1) == KeyOf(d2, e2, Some(l2), t2)
    ensures d1 == d2 && e1 == e2
  {
    KeySeparatesDescriptors(d1, e1, l1.unit, t1, d2, e2, l2.unit, t2);
  }

  function Keys(domain: string, ds: seq<Descriptor>, limits: seq<Option<Limit>>, now: nat): (keys: seq<string>)
    requires |ds| == |limits|
    ensures |keys| == |ds|
    ensures forall i :: 0 <= i < |ds| ==> keys[i] == KeyOf(domain, ds[i], limits[i], now)
  {
    seq(|ds|, i requires 0 <= i < |ds| => KeyOf(domain, ds[i], limits[i], now))
  }

  function Pipeline(keys: seq<string>, limits: seq<Option<Limit>>, addend: uint32, jitters: seq<nat>): seq<Request>
    requires |keys| == |limits| == |jitters|
    requires forall i :: 0 <= i < |keys| ==> (keys[i] == "" <==> limits[i].None?)
  {
    if keys == [] then []
    else
      var n := |keys| - 1;
      Pipeline(keys[..n], limits[..n], addend, jitters[..n])
      + if limits[n].None? then []
        else [Request(keys[n], IncrBy(addend)),
              Request(keys[n], Expire(UnitToDivider(limits[n].value.unit) + jitters[n]))]
  }

  /** How many of the limits are there. */
  function Present(limits: seq<Option<Limit>>): (n: nat)
    ensures n <= |limits|
  {
    if limits == [] then 0 else Present(limits[..|limits| - 1]) + if limits[|limits| - 1].Some? then 1 else 0
  }

  lemma {:induction false} PipelineLength(
    keys: seq<string>, limits: seq<Option<Limit>>, addend: uint32, jitters: seq<nat>)
    requires |keys| == |limits| == |jitters|
    requires forall i :: 0 <= i < |keys| ==> (keys[i] == "" <==> limits[i].None?)
    ensures |Pipeline(keys, limits, addend, jitters)| == 2 * Present(limits)
  {
    if keys != [] {
      var n := |keys| - 1;
      PipelineLength(keys[..n], limits[..n], addend, jitters[..n]);
    }
  }

  /** A pipeline that executes at the clock value its call read. */
  function ExecutedAt(requests: seq<Request>, now: nat): (cs: seq<Command>)
    ensures |cs| == |requests|
    ensures forall i :: 0 <= i < |cs| ==> cs[i] == Command(now, requests[i].key, requests[i].operation)
  {
    seq(|requests|, i requires 0 <= i < |requests| => Command(now, requests[i].key, requests[i].operation))
  }

  /** Such a pipeline meets what the shared store asks of everybody who uses a window's key, if every
      limit that shares the key has the key's unit. */
  lemma {:induction false} PipelineKeepsWindow(
    keys: seq<string>, limits: seq<Option<Limit>>, addend: uint32, jitters: seq<nat>, now: nat, key: string, unit: Unit)
    requires |keys| == |limits| == |jitters|
    requires forall i :: 0 <= i < |keys| ==> (keys[i] == "" <==> limits[i].None?)
    requires forall i :: 0 <= i < |keys| && keys[i] == key && limits[i].Some? ==> limits[i].value.unit == unit
    ensures var cs := ExecutedAt(Pipeline(keys, limits, addend, jitters), now);
            InClockOrder(cs) && KeepsWindow(cs, key, WindowStart(now, UnitToDivider(unit)), UnitToDivider(unit))
  {
    if keys != [] {
      var n := |keys| - 1;
      PipelineKeepsWindow(keys[..n], limits[..n], addend, jitters[..n], now, key, unit);
      var prefix := Pipeline(keys[..n], limits[..n], addend, jitters[..n]);
      var cs := ExecutedAt(Pipeline(keys, limits, addend, jitters), now);
      assert forall i :: 0 <= i < |prefix| ==> cs[i] == ExecutedAt(prefix, now)[i];
    }
  }

  /** Where the two commands of descriptor `i` stand in the pipeline. */
  lemma {:induction false} PipelineAt(
    keys: seq<string>, limits: seq<Option<Limit>>, addend: uint32, jitters: seq<nat>, i: nat)
    requires |keys| == |limits| == |jitters| && i < |keys| && limits[i].Some?
    requires forall k :: 0 <= k < |keys| ==> (keys[k] == "" <==> limits[k].None?)
    ensures var requests := Pipeline(keys, limits, addend, jitters); var k := 2 * Present(limits[..i]);
            && k + 1 < |requests|
            && requests[k] == Request(keys[i], IncrBy(addend))
            && requests[k + 1] == Request(keys[i], Expire(UnitToDivider(limits[i].value.unit) + jitters[i]))
    decreases |keys|
  {
    var n := |keys| - 1;
    PipelineLength(keys[..n], limits[..n], addend, jitters[..n]);
    if i < n {
      PipelineAt(keys[..n], limits[..n], addend, jitters[..n], i);
      assert limits[..n][..i] == limits[..i];
    }
  }

  // ---------- what a call answers ----------

  function StatsOf(stats: map<string, Stats>, id: string): Stats {
    if id in stats then stats[id] else Stats(0, 0, 0)
  }

  /** Every limit that a descriptor meets counts the hits, whatever the answer will be. */
  function CountHits(limits: seq<Option<Limit>>, addend: uint32, stats: map<string, Stats>): map<string, Stats> {
    if limits == [] then stats
    else
      var n := |limits| - 1;
      var t := CountHits(limits[..n], addend, stats);
      if limits[n].None? then t
      else
        var id := limits[n].value.id;
        t[id := StatsOf(t, id).(totalHits := StatsOf(t, id).totalHits + addend)]
  }

  function Charge(s: Stats, v: Verdict): Stats {
    s.(overLimit := s.overLimit + v.overLimit, nearLimit := s.nearLimit + v.nearLimit)
  }

  /** The state of the reading loop: answers so far, statistics, replies read, and whether it failed. */
  datatype Reading = Reading(statuses: seq<Status>, stats: map<string, Stats>, read: nat, failed: bool)

  function ReadOne(r: Reading, limit: Option<Limit>, replies: nat -> Reply, addend: uint32): Reading
    requires limit.Some? ==> limit.value.near <= limit.value.requestsPerUnit
  {
    match limit
    case None => r.(statuses := r.statuses + [Status(OK, None, 0)])
    case Some(l) =>
      if !replies(r.read).Number? then r.(read := r.read + 1, failed := true)
      else if replies(r.read + 1).Failed? then r.(read := r.read + 2, failed := true)
      else
        var v := Judge(replies(r.read).n, addend, l.requestsPerUnit, l.near);
        Reading(r.statuses + [Status(v.code, limit, v.remaining)],
                r.stats[l.id := Charge(StatsOf(r.stats, l.id), v)], r.read + 2, false)
  }

  function ReadAll(limits: seq<Option<Limit>>, replies: nat -> Reply, addend: uint32, stats: map<string, Stats>)
    : Reading
    requires WellFormed(limits)
  {
    if limits == [] then Reading([], stats, 0, false)
    else
      var n := |limits| - 1;
      var r := ReadAll(limits[..n], replies, addend, stats);
      if r.failed then r else ReadOne(r, limits[n], replies, addend)
  }

  /** The verdict on descriptor `i`: its INCRBY reply comes after two replies for each limit before it. */
  function VerdictAt(limits: seq<Option<Limit>>, i: nat, replies: nat -> Reply, addend: uint32): Verdict
    requires i < |limits| && limits[i].Some? && limits[i].value.near <= limits[i].value.requestsPerUnit
  {
    var l := limits[i].value;
    var reply := replies(2 * Present(limits[..i]));
    Judge(if reply.Number? then reply.n else 0, addend, l.requestsPerUnit, l.near)
  }

  /** A call fails exactly when one of the replies to its pipeline is bad. It stops right after the first
      bad one; a call that succeeds has read the replies to its own commands and no more. */
  lemma {:induction false} FailsOnFirstBadReply(
    limits: seq<Option<Limit>>, replies: nat -> Reply, addend: uint32, stats: map<string, Stats>)
    requires WellFormed(limits)
    ensures var r := ReadAll(limits, replies, addend, stats);
            && (!r.failed ==>
                  && r.read == 2 * Present(limits) && |r.statuses| == |limits|
                  && forall k :: 0 <= k < r.read ==> !BadReply(replies, k))
            && (r.failed ==>
                  && 0 < r.read <= 2 * Present(limits) && BadReply(replies, r.read - 1)
                  && forall k :: 0 <= k < r.read - 1 ==> !BadReply(replies, k))
  {
    if limits != [] {
      var n := |limits| - 1;
      FailsOnFirstBadReply(limits[..n], replies, addend, stats);
      hide WellFormed, Judge, StatsOf, Charge;
      var r := ReadAll(limits[..n], replies, addend, stats);
      if !r.failed && limits[n].Some? {
        assert BadReply(replies, r.read) <==> !replies(r.read).Number?;
        assert BadReply(replies, r.read + 1) <==> replies(r.read + 1).Failed?;
      }
    }
  }

  /** The answer on descriptor `i`, from its own reply. */
  predicate AnswerIs(status: Status, limits: seq<Option<Limit>>, i: nat, replies: nat -> Reply, addend: uint32)
    requires i < |limits| && WellFormed(limits)
  {
    if limits[i].None? then status == Status(OK, None, 0)
    else
      assert limits[i] in limits;
      var v := VerdictAt(limits, i, replies, addend);
      status == Status(v.code, limits[i], v.remaining)
  }

  /** A call that succeeds has one answer a descriptor, in order: OK without a limit, else the verdict on
      its own reply. */
  lemma {:induction false} AnswersMatchReplies(
    limits: seq<Option<Limit>>, replies: nat -> Reply, addend: uint32, stats: map<string, Stats>)
    requires WellFormed(limits) && !ReadAll(limits, replies, addend, stats).failed
    ensures var r := ReadAll(limits, replies, addend, stats);
            && |r.statuses| == |limits|
            && forall i :: 0 <= i < |limits| ==> AnswerIs(r.statuses[i], limits, i, replies, addend)
  {
    hide ReadAll, ReadOne, AnswerIs, Present, VerdictAt;
    if limits != [] {
      var n := |limits| - 1;
      LastAnswer(limits, replies, addend, stats);
      AnswersMatchReplies(limits[..n], replies, addend, stats);
      var r, before := ReadAll(limits, replies, addend, stats), ReadAll(limits[..n], replies, addend, stats);
      forall i | 0 <= i < n ensures AnswerIs(r.statuses[i], limits, i, replies, addend) {
        assert AnswerIs(before.statuses[i], limits[..n], i, replies, addend);
        EarlierAnswer(before.statuses[i], limits, i, replies, addend);
      }
    } else {
      assert ReadAll(limits, replies, addend, stats).statuses == [] by {
        ReadNothing(limits, replies, addend, stats);
        assert limits[..0] == limits;
      }
    }
  }

  lemma EarlierAnswer(status: Status, limits: seq<Option<Limit>>, i: nat, replies: nat -> Reply, addend: uint32)
    requires i + 1 < |limits| && WellFormed(limits) && WellFormed(limits[..|limits| - 1])
    requires AnswerIs(status, limits[..|limits| - 1], i, replies, addend)
    ensures AnswerIs(status, limits, i, replies, addend)
  {
    assert limits[..|limits| - 1][..i] == limits[..i];
  }

  lemma LastAnswer(limits: seq<Option<Limit>>, replies: nat -> Reply, addend: uint32, stats: map<string, Stats>)
    requires limits != [] && WellFormed(limits) && !ReadAll(limits, replies, addend, stats).failed
    ensures var n := |limits| - 1;
            var r, before := ReadAll(limits, replies, addend, stats), ReadAll(limits[..n], replies, addend, stats);
            && !before.failed && |before.statuses| == n && |r.statuses| == n + 1
            && r.statuses[..n] == before.statuses
            && AnswerIs(r.statuses[n], limits, n, replies, addend)
  {
    hide Judge, ReadOne;
    var n := |limits| - 1;
    FailsOnFirstBadReply(limits[..n], replies, addend, stats);
    assert limits[n] in limits;
    OneAnswer(ReadAll(limits[..n], replies, addend, stats), limits[n], replies, addend);
  }

  lemma OneAnswer(r: Reading, limit: Option<Limit>, replies: nat -> Reply, addend: uint32)
    requires limit.Some? ==> limit.value.near <= limit.value.requestsPerUnit
    requires !r.failed && !ReadOne(r, limit, replies, addend).failed
    ensures var o := ReadOne(r, limit, replies, addend); var n := |r.statuses|;
            && |o.statuses| == n + 1 && o.statuses[..n] == r.statuses
            && (limit.None? ==> o.statuses[n] == Status(OK, None, 0))
            && (limit.Some? ==>
                  && replies(r.read).Number?
                  && var v := Judge(replies(r.read).n, addend, limit.value.requestsPerUnit, limit.value.near);
                  o.statuses[n] == Status(v.code, limit, v.remaining))
  {
    hide Judge, Charge, StatsOf;
  }

  /** The call's commands are among those that Redis executed: command `k` of the pipeline is number
      `places[k]`, and an INCRBY is answered with the value that it left. */
  predicate Served(cs: seq<Command>, places: seq<nat>, requests: seq<Request>, now: nat, replies: nat -> Reply) {
    && |places| == |requests|
    && forall k :: 0 <= k < |requests| ==>
         && places[k] < |cs| && cs[places[k]] == Command(now, requests[k].key, requests[k].operation)
         && (requests[k].operation.IncrBy? ==>
               replies(k) == Number(Value(ExecuteAll(cs[..places[k] + 1]), requests[k].key, now)))
  }

  lemma ServedAt(
    cs: seq<Command>, places: seq<nat>, requests: seq<Request>, now: nat, replies: nat -> Reply, k: nat)
    requires Served(cs, places, requests, now, replies) && k < |requests| && requests[k].operation.IncrBy?
    ensures |places| == |requests| && places[k] < |cs|
    ensures cs[places[k]] == Command(now, requests[k].key, requests[k].operation)
    ensures replies(k) == Number(Value(ExecuteAll(cs[..places[k] + 1]), requests[k].key, now))
  {
    hide Value, ExecuteAll;
  }

  /** The verdict on a descriptor is the judgement on the hits of its window up to and including this
      call, over all instances and whatever else Redis executed in between. */
  lemma VerdictOnWindowTotal(
    cs: seq<Command>, places: seq<nat>, keys: seq<string>, limits: seq<Option<Limit>>, addend: uint32,
    jitters: seq<nat>, now: nat, replies: nat -> Reply, i: nat, start: nat, divider: nat) returns (place: nat)
    requires |keys| == |limits| == |jitters| && i < |keys| && limits[i].Some?
    requires limits[i].value.near <= limits[i].value.requestsPerUnit
    requires forall k :: 0 <= k < |keys| ==> (keys[k] == "" <==> limits[k].None?)
    requires Served(cs, places, Pipeline(keys, limits, addend, jitters), now, replies)
    requires InClockOrder(cs) && KeepsWindow(cs, keys[i], start, divider)
    ensures 2 * Present(limits[..i]) < |places| && place == places[2 * Present(limits[..i])]
    ensures place < |cs| && cs[place].key == keys[i] && cs[place].operation == IncrBy(addend)
    ensures Addends(cs[..place + 1], keys[i]) == Addends(cs[..place], keys[i]) + [addend]
    ensures var l := limits[i].value;
            VerdictAt(limits, i, replies, addend)
            == Judge(Sum(Addends(cs[..place], keys[i])) + addend, addend, l.requestsPerUnit, l.near)
  {
    hide Judge, Pipeline, ExecuteAll, Value, Addends, Sum, InClockOrder, KeepsWindow, Present, Served;
    var k := 2 * Present(limits[..i]);
    PipelineAt(keys, limits, addend, jitters, i);
    ServedAt(cs, places, Pipeline(keys, limits, addend, jitters), now, replies, k);
    place := places[k];
    IncrementSeesWindow(cs, place, keys[i], start, divider);
  }

  /** The status that is returned for the descriptor, on the total of its window while that fits in 32 bits:
      OK exactly if the total is within the limit, with what is left of the limit. */
  lemma StatusOnWindowTotal(
    cs: seq<Command>, places: seq<nat>, keys: seq<string>, limits: seq<Option<Limit>>, addend: uint32,
    jitters: seq<nat>, now: nat, replies: nat -> Reply, stats: map<string, Stats>, i: nat, start: nat, divider: nat)
    requires |keys| == |limits| == |jitters| && i < |keys| && limits[i].Some? && WellFormed(limits)
    requires forall k :: 0 <= k < |keys| ==> (keys[k] == "" <==> limits[k].None?)
    requires Served(cs, places, Pipeline(keys, limits, addend, jitters), now, replies)
    requires InClockOrder(cs) && KeepsWindow(cs, keys[i], start, divider)
    requires !ReadAll(limits, replies, addend, stats).failed
    ensures 2 * Present(limits[..i]) < |places| && places[2 * Present(limits[..i])] < |cs|
    ensures var place := places[2 * Present(limits[..i])]; var total := Sum(Addends(cs[..place + 1], keys[i]));
            var statuses := ReadAll(limits, replies, addend, stats).statuses;
            var limit := limits[i].value.requestsPerUnit;
            |statuses| == |limits|
            && (total < UINT32 ==>
                  && statuses[i].limit == limits[i]
                  && (statuses[i].code == OK <==> total <= limit)
                  && statuses[i].remaining == if total <= limit then limit - total else 0)
  {
    hide ReadAll, Pipeline, ExecuteAll, Value, Addends, Sum, InClockOrder, KeepsWindow, Present, Served, Judge;
    assert limits[i] in limits;
    var place := VerdictOnWindowTotal(cs, places, keys, limits, addend, jitters, now, replies, i, start, divider);
    AnswersMatchReplies(limits, replies, addend, stats);
    assert AnswerIs(ReadAll(limits, replies, addend, stats).statuses[i], limits, i, replies, addend);
    SumAppend(Addends(cs[..place], keys[i]), addend);
    var before := Sum(Addends(cs[..place], keys[i]));
    if before + addend < UINT32 {
      JudgeIsTheDifference(before, addend, limits[i].value.requestsPerUnit, limits[i].value.near);
    }
  }

  lemma SumAppend(addends: seq<nat>, addend: nat)
    ensures Sum(addends + [addend]) == Sum(addends) + addend
  {
    assert (addends + [addend])[..|addends|] == addends;
  }

  /** A reply that ends the call: an error, or no number where the counter is expected. */
  predicate BadReply(replies: nat -> Reply, k: nat) {
    if k % 2 == 0 then !replies(k).Number? else replies(k).Failed?
  }

  /** The over-limit and near-limit hits that a call counts for one limit. */
  function ChargedTo(limits: seq<Option<Limit>>, replies: nat -> Reply, addend: uint32, id: string): (nat, nat)
    requires WellFormed(limits)
  {
    if limits == [] then (0, 0)
    else
      var n := |limits| - 1;
      var (over, near) := ChargedTo(limits[..n], replies, addend, id);
      if limits[n].None? || limits[n].value.id != id then (over, near)
      else
        var v := VerdictAt(limits, n, replies, addend);
        (over + v.overLimit, near + v.nearLimit)
  }

  /** How many descriptors meet the limit `id`. */
  function Meets(limits: seq<Option<Limit>>, id: string): nat {
    if limits == [] then 0
    else
      var n := |limits| - 1;
      Meets(limits[..n], id) + if limits[n].Some? && limits[n].value.id == id then 1 else 0
  }

  /** The statistics of a successful call: every limit gains the hits once for each descriptor that meets
      it, and the charges of exactly these descriptors, even where descriptors share a limit. */
  lemma {:induction false} StatisticsOfACall(
    limits: seq<Option<Limit>>, replies: nat -> Reply, addend: uint32, stats: map<string, Stats>, id: string)
    requires WellFormed(limits) && !ReadAll(limits, replies, addend, CountHits(limits, addend, stats)).failed
    ensures var before := StatsOf(stats, id);
            var after := StatsOf(ReadAll(limits, replies, addend, CountHits(limits, addend, stats)).stats, id);
            var (over, near) := ChargedTo(limits, replies, addend, id);
            after == Stats(before.totalHits + Meets(limits, id) * addend, before.overLimit + over,
                           before.nearLimit + near)
  {
    var counted := CountHits(limits, addend, stats);
    HitsCounted(limits, addend, stats, id);
    ChargesCounted(limits, replies, addend, counted, id);
  }

  lemma OneMore(m: nat, addend: nat)
    ensures (m + 1) * addend == m * addend + addend
  {
  }

  lemma {:induction false} HitsCounted(
    limits: seq<Option<Limit>>, addend: uint32, stats: map<string, Stats>, id: string)
    ensures var before := StatsOf(stats, id);
            StatsOf(CountHits(limits, addend, stats), id)
            == before.(totalHits := before.totalHits + Meets(limits, id) * addend)
  {
    if limits != [] {
      var n := |limits| - 1;
      HitsCounted(limits[..n], addend, stats, id);
      OneMore(Meets(limits[..n], id), addend);
    }
  }

  lemma {:induction false} ChargesCounted(
    limits: seq<Option<Limit>>, replies: nat -> Reply, addend: uint32, stats: map<string, Stats>, id: string)
    requires WellFormed(limits) && !ReadAll(limits, replies, addend, stats).failed
    ensures var before := StatsOf(stats, id);
            var (over, near) := ChargedTo(limits, replies, addend, id);
            StatsOf(ReadAll(limits, replies, addend, stats).stats, id)
            == before.(overLimit := before.overLimit + over, nearLimit := before.nearLimit + near)
  {
    if limits != [] {
      var n := |limits| - 1;
      ChargesCounted(limits[..n], replies, addend, stats, id);
      FailsOnFirstBadReply(limits[..n], replies, addend, stats);
    }
  }

  // ---------- connections ----------

  /** A connection of the pool. `replies` is what the server will send, one reply a command. */
  class Connection {
    const replies: nat -> Reply
    var appended: seq<Request>
    var pending: nat
    var read: nat

    ghost predicate Valid()
      reads this
    {
      pending + read == |appended|
    }

    constructor (replies: nat -> Reply)
      ensures Valid() && this.replies == replies && appended == [] && pending == 0 && read == 0
    {
      this.replies, appended, pending, read := replies, [], 0, 0;
    }

    method PipeAppend(request: Request)
      requires Valid()
      modifies this
      ensures Valid() && appended == old(appended) + [request] && pending == old(pending) + 1 && read == old(read)
    {
      appended := appended + [request];
      pending := pending + 1;
    }

    /** An error reply is raised only after the reply has been taken off the pipeline. */
    method PipeResponse() returns (r: Result<Reply>)
      requires Valid() && pending > 0
      modifies this
      ensures Valid() && pending == old(pending) - 1 && read == old(read) + 1 && appended == old(appended)
      ensures r == if replies(old(read)).Failed? then RedisError else Success(replies(old(read)))
    {
      var reply := replies(read);
      pending := pending - 1;
      read := read + 1;
      r := if reply.Failed? then RedisError else Success(reply);
    }
  }

  /** The pool's connections and gauges. */
  class Pool {
    var idle: nat
    var active: nat
    var total: nat
    var closed: nat

    method Get(replies: nat -> Reply) returns (c: Connection)
      modifies this
      ensures fresh(c) && c.Valid() && c.replies == replies && c.appended == [] && c.pending == 0 && c.read == 0
      ensures active == old(active) + 1 && total == old(total) + 1 && closed == old(closed)
      ensures idle == if old(idle) > 0 then old(idle) - 1 else 0
    {
      if idle > 0 {
        idle := idle - 1;
      }
      active := active + 1;
      total := total + 1;
      c := new Connection(replies);
    }

    /** A connection with replies outstanding is closed instead of being used again. */
    method Put(c: Connection)
      requires active > 0
      modifies this
      ensures active == old(active) - 1 && total == old(total)
      ensures idle == old(idle) + (if c.pending == 0 then 1 else 0)
      ensures closed == old(closed) + (if c.pending == 0 then 0 else 1)
    {
      active := active - 1;
      if c.pending == 0 {
        idle := idle + 1;
      } else {
        closed := closed + 1;
      }
    }
  }

  lemma MultipleOf(q: nat, d: nat)
    requires d > 0
    ensures q * d % d == 0
  {
    assert (q + 1) * d == q * d + d;
    QuotientIs(q * d, d, q);
    assert q * d % d == q * d - (q * d / d) * d;
  }

  lemma WholeTimes(d: nat)
    ensures d > 0 ==> forall n: nat {:trigger n % d} :: (n - n % d) % d == 0
  {
    if d > 0 {
      forall n: nat ensures (n - n % d) % d == 0 {
        assert n - n % d == (n / d) * d;
        MultipleOf(n / d, d);
      }
    }
  }

  class RateLimitCache {
    const pool: Pool
    const expirationJitterMaxSeconds: nat
    var stats: map<string, Stats>

    constructor (pool: Pool, expirationJitterMaxSeconds: nat)
      ensures this.pool == pool && this.expirationJitterMaxSeconds == expirationJitterMaxSeconds && stats == map[]
    {
      this.pool, this.expirationJitterMaxSeconds, stats := pool, expirationJitterMaxSeconds, map[];
    }

    /** The jitter that is added for descriptor `i`, out of the random numbers of the call. */
    function Jitters(random: seq<nat>): (js: seq<nat>)
      ensures |js| == |random|
      ensures forall i :: 0 <= i < |js| ==> js[i] < Max(1, expirationJitterMaxSeconds)
      ensures expirationJitterMaxSeconds > 0 ==>
                forall i :: 0 <= i < |js| ==> (random[i] - js[i]) % expirationJitterMaxSeconds == 0
    {
      WholeTimes(expirationJitterMaxSeconds);
      seq(|random|, i requires 0 <= i < |random| =>
        if expirationJitterMaxSeconds > 0 then random[i] % expirationJitterMaxSeconds else 0)
    }

    /** The first loop: the keys of the call, and the hits of every limit that is met. */
    method BuildKeys(domain: string, ds: seq<Descriptor>, limits: seq<Option<Limit>>, addend: uint32, now: nat)
      returns (keys: seq<string>)
      requires |ds| == |limits|
      modifies this
      ensures keys == Keys(domain, ds, limits, now) && stats == CountHits(limits, addend, old(stats))
    {
      hide KeyOf, StatsOf;
      keys := [];
      var i := 0;
      assert limits[..0] == [];
      while i < |ds|
        invariant i <= |ds| && |keys| == i
        invariant forall k :: 0 <= k < i ==> keys[k] == KeyOf(domain, ds[k], limits[k], now)
        invariant stats == CountHits(limits[..i], addend, old(stats))
      {
        keys := keys + [KeyOf(domain, ds[i], limits[i], now)];
        assert limits[..i + 1][..i] == limits[..i];
        if limits[i].Some? {
          var id := limits[i].value.id;
          var s := StatsOf(stats, id);
          stats := stats[id := s.(totalHits := s.totalHits + addend)];
        }
        i := i + 1;
      }
      assert limits[..i] == limits;
    }

    /** The second loop: two commands for every key that is not empty. */
    method SendPipeline(conn: Connection, keys: seq<string>, limits: seq<Option<Limit>>, addend: uint32,
                        random: seq<nat>)
      requires conn.Valid() && conn.appended == [] && conn.read == 0
      requires |keys| == |limits| == |random|
      requires forall i :: 0 <= i < |keys| ==> (keys[i] == "" <==> limits[i].None?)
      modifies conn
      ensures conn.Valid() && conn.read == 0
      ensures conn.appended == Pipeline(keys, limits, addend, Jitters(random))
    {
      var i := 0;
      ghost var js := Jitters(random);
      while i < |keys|
        invariant i <= |keys| && conn.Valid() && conn.read == 0
        invariant conn.appended == Pipeline(keys[..i], limits[..i], addend, js[..i])
      {
        assert keys[..i + 1][..i] == keys[..i] && limits[..i + 1][..i] == limits[..i] && js[..i + 1][..i] == js[..i];
        if keys[i] != "" {
          var expirationSeconds := UnitToDivider(limits[i].value.unit);
          if expirationJitterMaxSeconds > 0 {
            expirationSeconds := expirationSeconds + random[i] % expirationJitterMaxSeconds;
          }
          conn.PipeAppend(Request(keys[i], IncrBy(addend)));
          conn.PipeAppend(Request(keys[i], Expire(expirationSeconds)));
        }
        i := i + 1;
      }
      assert keys[..i] == keys && limits[..i] == limits && js[..i] == js;
    }

    /** The third loop: the replies, judged and counted; the first bad reply ends it. */
    method ReadReplies(conn: Connection, keys: seq<string>, limits: seq<Option<Limit>>, addend: uint32)
      returns (r: Result<seq<Status>>)
      requires |keys| == |limits| && WellFormed(limits)
      requires forall i :: 0 <= i < |keys| ==> (keys[i] == "" <==> limits[i].None?)
      requires conn.Valid() && conn.read == 0 && |conn.appended| == 2 * Present(limits)
      modifies this, conn
      ensures conn.Valid() && conn.appended == old(conn.appended)
      ensures var o := ReadAll(limits, conn.replies, addend, old(stats));
              && stats == o.stats && conn.read == o.read
              && r == if o.failed then RedisError else Success(o.statuses)
    {
      hide Judge, StatsOf, Charge, ReadAll, Present;
      var statuses := [];
      var i := 0;
      ReadNothing(limits, conn.replies, addend, stats);
      while i < |keys|
        invariant i <= |keys| && conn.Valid() && conn.appended == old(conn.appended)
        invariant Present(limits[..i]) <= Present(limits)
        invariant conn.read == 2 * Present(limits[..i])
        invariant ReadAll(limits[..i], conn.replies, addend, old(stats)) == Reading(statuses, stats, conn.read, false)
      {
        ReadTurn(limits, i, conn.replies, addend, old(stats));
        if keys[i] == "" {
          statuses := statuses + [Status(OK, None, 0)];
        } else {
          var response := conn.PipeResponse();
          if response.RedisError? || !response.value.Number? {
            return RedisError;
          }
          var expired := conn.PipeResponse();
          if expired.RedisError? {
            return RedisError;
          }
          var l := limits[i].value;
          var v := Judge(response.value.n, addend, l.requestsPerUnit, l.near);
          statuses := statuses + [Status(v.code, limits[i], v.remaining)];
          stats := stats[l.id := Charge(StatsOf(stats, l.id), v)];
        }
        i := i + 1;
      }
      assert limits[..i] == limits;
      r := Success(statuses);
    }

    /** One call. Without a connection it does nothing. Without a failure every descriptor is answered and
        the connection goes back to the pool; a failure gives the error and closes the connection if
        replies are left in the pipeline. */
    method DoLimit(domain: string, ds: seq<Descriptor>, limits: seq<Option<Limit>>, hitsAddend: uint32,
                   now: nat, random: seq<nat>, connected: bool, replies: nat -> Reply)
      returns (r: Result<seq<Status>>, ghost sent: seq<Request>)
      requires |ds| == |limits| == |random| && WellFormed(limits)
      modifies this, pool
      ensures !connected ==>
                && r == RedisError && sent == [] && stats == old(stats)
                && pool.total == old(pool.total) && pool.closed == old(pool.closed)
      ensures connected ==>
              var addend := HitsAddend(hitsAddend);
              var o := ReadAll(limits, replies, addend, CountHits(limits, addend, old(stats)));
              && sent == Pipeline(Keys(domain, ds, limits, now), limits, addend, Jitters(random))
              && stats == o.stats
              && r == (if o.failed then RedisError else Success(o.statuses))
              && pool.closed == old(pool.closed) + (if o.read < 2 * Present(limits) then 1 else 0)
              && pool.total == old(pool.total) + 1
      ensures pool.active == old(pool.active)
    {
      if !connected {
        return RedisError, [];
      }
      var conn := pool.Get(replies);
      var addend: uint32 := HitsAddend(hitsAddend);
      var keys := BuildKeys(domain, ds, limits, addend, now);
      SendPipeline(conn, keys, limits, addend, random);
      sent := conn.appended;
      PipelineLength(keys, limits, addend, Jitters(random));
      r := ReadReplies(conn, keys, limits, addend);
      pool.Put(conn);
    }
  }

  lemma {:induction false} PresentMonotone(limits: seq<Option<Limit>>, i: nat)
    requires i <= |limits|
    ensures Present(limits[..i]) <= Present(limits)
    decreases |limits|
  {
    if i < |limits| {
      var n := |limits| - 1;
      PresentMonotone(limits[..n], i);
      assert limits[..n][..i] == limits[..i];
    } else {
      assert limits[..i] == limits;
    }
  }

  /** A failed prefix decides the whole call. */
  lemma {:induction false} FailureStays(
    limits: seq<Option<Limit>>, i: nat, replies: nat -> Reply, addend: uint32, stats: map<string, Stats>)
    requires i <= |limits| && WellFormed(limits)
    ensures var r := ReadAll(limits[..i], replies, addend, stats);
            r.failed ==> ReadAll(limits, replies, addend, stats) == r
    decreases |limits|
  {
    if i < |limits| {
      var n := |limits| - 1;
      FailureStays(limits[..n], i, replies, addend, stats);
      assert limits[..n][..i] == limits[..i];
    } else {
      assert limits[..i] == limits;
    }
  }

  lemma ReadNothing(limits: seq<Option<Limit>>, replies: nat -> Reply, addend: uint32, stats: map<string, Stats>)
    requires WellFormed(limits)
    ensures limits[..0] == [] && WellFormed(limits[..0]) && Present(limits[..0]) == 0
    ensures ReadAll(limits[..0], replies, addend, stats) == Reading([], stats, 0, false)
  {
  }

  /** One turn of the reading loop. */
  lemma ReadTurn(limits: seq<Option<Limit>>, i: nat, replies: nat -> Reply, addend: uint32, stats: map<string, Stats>)
    requires i < |limits| && WellFormed(limits)
    ensures WellFormed(limits[..i]) && WellFormed(limits[..i + 1])
    ensures limits[i].Some? ==> limits[i].value.near <= limits[i].value.requestsPerUnit
    ensures Present(limits[..i + 1]) == Present(limits[..i]) + if limits[i].Some? then 1 else 0
    ensures Present(limits[..i + 1]) <= Present(limits)
    ensures var before := ReadAll(limits[..i], replies, addend, stats);
            var after := ReadAll(limits[..i + 1], replies, addend, stats);
            && after == (if before.failed then before else ReadOne(before, limits[i], replies, addend))
            && (after.failed ==> ReadAll(limits, replies, addend, stats) == after)
  {
    assert limits[..i + 1][..i] == limits[..i];
    PresentMonotone(limits, i + 1);
    FailureStays(limits, i + 1, replies, addend, stats);
  }
}
