/** The invariant of the listener life cycle and what it implies in every reachable state: no queued
    closure and no handler entry refers to a destroyed listener, a draining listener is destroyed
    only after the last reference to it is gone, and the bookkeeping of the main thread is exact. */
module ListenerSafety {
  import opened ListenerModel

  // ---------- projections of the queues onto one listener ----------

  /** What one queued closure does to the listener it concerns. */
  datatype Mark = Add | Stop | Remove | AddAck | RemoveAck

  function TaskMarks(t: Task, tag: nat): seq<Mark> {
    match t
    case AddTask(l) => if l.tag == tag then [Add] else []
    case StopTask(g) => if g == tag then [Stop] else []
    case RemoveTask(g) => if g == tag then [Remove] else []
    case StopAllTask => []
  }

  function CompletionMarks(c: Completion, w: nat, tag: nat): seq<Mark> {
    match c
    case AddDone(v, l, _) => if v == w && l.tag == tag then [AddAck] else []
    case RemoveDone(v, g) => if v == w && g == tag then [RemoveAck] else []
  }

  /** The tasks in a worker's queue that concern `tag`, oldest first. */
  function Queued(q: seq<Task>, tag: nat): seq<Mark> {
    if q == [] then [] else TaskMarks(q[0], tag) + Queued(q[1..], tag)
  }

  /** The completions in the main queue that worker `w` posted about `tag`, oldest first. */
  function Posted(q: seq<Completion>, w: nat, tag: nat): seq<Mark> {
    if q == [] then [] else CompletionMarks(q[0], w, tag) + Posted(q[1..], w, tag)
  }

  lemma {:induction false} QueuedConcat(a: seq<Task>, b: seq<Task>, tag: nat)
    ensures Queued(a + b, tag) == Queued(a, tag) + Queued(b, tag)
  {
    if a == [] {
      assert a + b == b;
    } else {
      assert (a + b)[1..] == a[1..] + b;
      QueuedConcat(a[1..], b, tag);
    }
  }

  lemma {:induction false} PostedConcat(a: seq<Completion>, b: seq<Completion>, w: nat, tag: nat)
    ensures Posted(a + b, w, tag) == Posted(a, w, tag) + Posted(b, w, tag)
  {
    if a == [] {
      assert a + b == b;
    } else {
      assert (a + b)[1..] == a[1..] + b;
      PostedConcat(a[1..], b, w, tag);
    }
  }

  lemma QueuedOne(t: Task, tag: nat)
    ensures Queued([t], tag) == TaskMarks(t, tag)
  {
    assert [t][1..] == [];
  }

  lemma PostedOne(c: Completion, w: nat, tag: nat)
    ensures Posted([c], w, tag) == CompletionMarks(c, w, tag)
  {
    assert [c][1..] == [];
  }

  lemma {:induction false} QueuedMember(q: seq<Task>, t: Task, tag: nat)
    requires t in q && TaskMarks(t, tag) != []
    ensures Queued(q, tag) != []
  {
    if q[0] != t {
      QueuedMember(q[1..], t, tag);
    }
  }

  lemma {:induction false} PostedMember(q: seq<Completion>, c: Completion, w: nat, tag: nat)
    requires c in q && CompletionMarks(c, w, tag) != []
    ensures Posted(q, w, tag) != []
  {
    if q[0] != c {
      PostedMember(q[1..], c, w, tag);
    }
  }

  // ---------- the invariant ----------

  function Tags(ls: seq<Listener>): set<nat> {
    set l | l in ls :: l.tag
  }

  function DrainingTags(ds: seq<Draining>): set<nat> {
    set d | d in ds :: d.l.tag
  }

  function HandlerTags(h: seq<Entry>): set<nat> {
    set e | e in h :: e.l.tag
  }

  /** Where the main thread holds a listener. */
  datatype Phase = IsActive | IsDraining(done: bool) | NotOnWorkers

  ghost function PhaseOf(s: System, tag: nat): Phase {
    if tag in Tags(s.active) then IsActive
    else
      var k := FindTag(s.draining, tag);
      if k < |s.draining| then IsDraining(s.draining[k].ticks >= s.drainTime) else NotOnWorkers
  }

  /** The order that FIFO queues impose on one worker's dealings with one listener: `q` are the tasks
      still queued, `m` the completions not yet handled, `h` whether the handler has an entry. */
  predicate Pipeline(p: Phase, q: seq<Mark>, m: seq<Mark>, h: bool) {
    match p
    case IsActive =>
      || (q == [Add] && m == [] && !h)
      || (q == [] && (m == [] || m == [AddAck]))
    case IsDraining(false) =>
      || (q == [Add, Stop] && m == [] && !h)
      || ((q == [Stop] || q == []) && (m == [] || m == [AddAck]))
    case IsDraining(true) =>
      || (q == [Add, Stop, Remove] && m == [] && !h)
      || ((q == [Stop, Remove] || q == [Remove]) && (m == [] || m == [AddAck]))
      || (q == [] && (m == [AddAck, RemoveAck] || m == [RemoveAck] || m == []) && !h)
    case NotOnWorkers => q == [] && m == [] && !h
  }

  ghost predicate InOrder(s: System, w: nat, tag: nat)
    requires w < |s.workers|
  {
    Pipeline(PhaseOf(s, tag), Queued(s.workers[w].queue, tag), Posted(s.completions, w, tag),
             tag in HandlerTags(s.workers[w].handler))
  }

  /** Worker `w` has been asked to remove the listener and main has not yet seen the confirmation. */
  predicate Outstanding(q: seq<Mark>, m: seq<Mark>) {
    Remove in q || RemoveAck in m
  }

  ghost function OutstandingWorkers(s: System, tag: nat): set<nat> {
    set w: nat | w < |s.workers|
                 && Outstanding(Queued(s.workers[w].queue, tag), Posted(s.completions, w, tag))
  }

  ghost predicate PendingExact(s: System, d: Draining) {
    && d.pending >= 1
    && 1 <= d.ticks <= s.drainTime
    && d.pending == if d.ticks < s.drainTime then |s.workers| else |OutstandingWorkers(s, d.l.tag)|
  }

  ghost predicate DistinctTags(ls: seq<Listener>) {
    forall i, j :: 0 <= i < j < |ls| ==> ls[i].tag != ls[j].tag
  }

  ghost predicate DistinctNames(ls: seq<Listener>) {
    forall i, j :: 0 <= i < j < |ls| ==> ls[i].name != ls[j].name
  }

  ghost predicate DistinctDraining(ds: seq<Draining>) {
    forall i, j :: 0 <= i < j < |ds| ==> ds[i].l.tag != ds[j].l.tag
  }

  /** Each object is in one list only and is older than the next tag. */
  ghost predicate Owned(active: seq<Listener>, warming: seq<Listener>, draining: seq<Draining>, next: nat) {
    && DistinctTags(active) && DistinctTags(warming) && DistinctDraining(draining)
    && Tags(active) !! Tags(warming)
    && Tags(active) !! DrainingTags(draining)
    && Tags(warming) !! DrainingTags(draining)
    && (forall t :: t in Tags(active) || t in Tags(warming) || t in DrainingTags(draining) ==> t < next)
  }

  ghost predicate Ownership(s: System) {
    Owned(s.active, WarmingListeners(s.warming), s.draining, s.nextTag)
  }

  /** Before the workers start nothing is warming, draining or queued. */
  ghost predicate QuietBeforeStart(s: System) {
    !s.started ==>
      && s.warming == [] && s.draining == [] && s.completions == []
      && (forall w :: 0 <= w < |s.workers| ==> s.workers[w] == Worker([], []))
  }

  function NamesOf(ls: seq<Listener>): set<string> {
    set l | l in ls :: l.name
  }

  /** The names that have a warming or an active version. */
  function Names(s: System): set<string> {
    NamesOf(s.active) + NamesOf(WarmingListeners(s.warming))
  }

  /** Names are unique in each list, and versions of one name share address and socket. */
  ghost predicate Named(active: seq<Listener>, warming: seq<Listener>) {
    && DistinctNames(active)
    && DistinctNames(warming)
    && (forall l, x :: l in active && x in warming && l.name == x.name ==>
          l.address == x.address && l.socket == x.socket)
  }

  ghost predicate Naming(s: System) {
    Named(s.active, WarmingListeners(s.warming))
  }

  ghost predicate StatsExact(s: System) {
    && s.stats.activeGauge == |s.active|
    && s.stats.warmingGauge == |s.warming|
    && s.stats.drainingGauge == |s.draining|
    && s.stats.added == s.stats.removed + |Names(s)|
  }

  /** Everything but the last clause of the invariant, which is broken for a moment while a listener
      without targets is being added. */
  ghost predicate Core(s: System) {
    && |s.workers| >= 1
    && s.drainTime >= 1
    && Ownership(s)
    && QuietBeforeStart(s)
    && (forall w, tag: nat :: 0 <= w < |s.workers| ==> InOrder(s, w, tag))
    && (forall d :: d in s.draining ==> PendingExact(s, d))
    && (forall c :: c in s.completions ==> c.worker < |s.workers|)
    && Naming(s)
    && StatsExact(s)
  }

  /** The facts about the lists that most proofs need. */
  lemma CoreFacts(s: System)
    requires Core(s)
    ensures s.drainTime >= 1 && Ownership(s) && Naming(s) && (!s.started ==> s.warming == [])
    ensures DistinctTags(s.active) && DistinctTags(WarmingListeners(s.warming))
    ensures s.nextTag !in Tags(s.active) && s.nextTag !in Tags(WarmingListeners(s.warming))
  {
  }

  ghost predicate Inv(s: System) {
    Core(s) && forall x :: x in s.warming ==> x.targets != {}
  }

  // ---------- how the pipeline of one listener on one worker moves ----------

  lemma PipelineAdd(q: seq<Mark>, m: seq<Mark>, h: bool)
    requires Pipeline(NotOnWorkers, q, m, h)
    ensures Pipeline(IsActive, q + [Add], m, h)
  {
    assert [] + [Add] == [Add];
  }

  lemma PipelineStop(q: seq<Mark>, m: seq<Mark>, h: bool)
    requires Pipeline(IsActive, q, m, h)
    ensures Pipeline(IsDraining(false), q + [Stop], m, h)
  {
    assert [] + [Stop] == [Stop];
    assert [Add] + [Stop] == [Add, Stop];
  }

  lemma PipelineRemove(q: seq<Mark>, m: seq<Mark>, h: bool)
    requires Pipeline(IsDraining(false), q, m, h)
    ensures Pipeline(IsDraining(true), q + [Remove], m, h)
    ensures Outstanding(q + [Remove], m)
  {
    assert [] + [Remove] == [Remove];
    assert [Stop] + [Remove] == [Stop, Remove];
    assert [Add, Stop] + [Remove] == [Add, Stop, Remove];
    assert (q + [Remove])[|q|] == Remove;
  }

  /** The worker runs the oldest task about the listener; `k` is its mark and `r` the reply's. */
  lemma PipelineWorker(p: Phase, k: Mark, q: seq<Mark>, m: seq<Mark>, r: seq<Mark>, h: bool, h': bool)
    requires Pipeline(p, [k] + q, m, h)
    requires k == Add ==> r == [AddAck]
    requires k == Stop ==> r == [] && h' == h
    requires k == Remove ==> r == [RemoveAck] && !h'
    ensures Pipeline(p, q, m + r, h')
    ensures Outstanding(q, m + r) == Outstanding([k] + q, m)
  {
    assert ([k] + q)[1..] == q;
    assert [Add][1..] == [] && [Add, Stop][1..] == [Stop] && [Stop][1..] == [];
    assert [Add, Stop, Remove][1..] == [Stop, Remove] && [Stop, Remove][1..] == [Remove];
    assert [Remove][1..] == [];
    assert ([k] + q)[0] == k;
    assert [AddAck] + [RemoveAck] == [AddAck, RemoveAck];
    assert [] + r == r;
    assert m + [] == m;
  }

  lemma PipelineAddAck(p: Phase, q: seq<Mark>, m: seq<Mark>, h: bool)
    requires Pipeline(p, q, [AddAck] + m, h)
    ensures p != NotOnWorkers
    ensures Pipeline(p, q, m, h)
    ensures Outstanding(q, m) == Outstanding(q, [AddAck] + m)
  {
    assert ([AddAck] + m)[1..] == m && ([AddAck] + m)[0] == AddAck;
    assert [AddAck][1..] == [] && [AddAck, RemoveAck][1..] == [RemoveAck];
  }

  lemma PipelineRemoveAck(p: Phase, q: seq<Mark>, m: seq<Mark>, h: bool)
    requires Pipeline(p, q, [RemoveAck] + m, h)
    ensures p == IsDraining(true)
    ensures Pipeline(p, q, m, h)
    ensures Outstanding(q, [RemoveAck] + m) && !Outstanding(q, m)
  {
    assert ([RemoveAck] + m)[1..] == m && ([RemoveAck] + m)[0] == RemoveAck;
    assert [RemoveAck][1..] == [];
  }

  lemma PipelineGone(q: seq<Mark>, m: seq<Mark>, h: bool)
    requires Pipeline(IsDraining(true), q, m, h) && !Outstanding(q, m)
    ensures Pipeline(NotOnWorkers, q, m, h)
  {
    assert [Remove][0] == Remove && [Stop, Remove][1] == Remove;
  }
}
