/** The listener life cycle of the proxy server as a transition system on values: the main thread's
    three listener lists, one FIFO task queue and one set of handler entries per worker thread, and
    the FIFO queue of completions that the workers post back to the main thread.

    Every function below is one operation of the main thread or one dispatch of a queued closure. */
module ListenerModel {
  import opened Common


  // ---------- data ----------

  /** A bound listen socket. Listener versions of one name share the socket object. */
  datatype Socket = Socket(id: nat, localAddress: string)

  /** The immutable part of a listener object. `tag` is unique for each object ever created, so it
      stands for the object's identity; a closure that captures the object holds this value. */
  datatype Listener = Listener(
    tag: nat, name: string, address: string, hash: nat, bindToPort: bool, socket: Socket)

  /** A listener that waits for its initialization targets. */
  datatype Warming = Warming(l: Listener, targets: set<nat>)

  /** A listener that is being drained: `ticks` of its drain manager have completed, and `pending`
      workers have yet to confirm the removal. */
  datatype Draining = Draining(l: Listener, pending: nat, ticks: nat)

  /** A closure in a worker's queue. Stop and remove capture the tag, not the object; the completion
      of a remove captures the draining list entry, which the tag identifies. */
  datatype Task =
    | AddTask(l: Listener)
    | StopTask(tag: nat)
    | RemoveTask(tag: nat)
    | StopAllTask

  /** A closure in the main thread's queue. `worker` records which worker posted it. */
  datatype Completion =
    | AddDone(worker: nat, l: Listener, success: bool)
    | RemoveDone(worker: nat, tag: nat)

  /** An entry of a worker's connection handler; a stopped listener no longer accepts. */
  datatype Entry = Entry(l: Listener, accepting: bool)

  datatype Worker = Worker(queue: seq<Task>, handler: seq<Entry>)

  datatype Stats = Stats(
    added: nat, modified: nat, removed: nat, createSuccess: nat, createFailure: nat,
    warmingGauge: nat, activeGauge: nat, drainingGauge: nat)

  datatype System = System(
    active: seq<Listener>,
    warming: seq<Warming>,
    draining: seq<Draining>,
    started: bool,
    workers: seq<Worker>,
    completions: seq<Completion>,
    failed: set<nat>,
    stats: Stats,
    nextTag: nat,
    nextSocket: nat,
    drainTime: nat)

  /** A listener configuration; `targets` are the init targets its filters register. */
  datatype Config = Config(
    name: string, address: string, hash: nat, bindToPort: bool, targets: set<nat>)

  /** What the outside world contributes to one add or update: a random name for an unnamed
      listener, the local address of a newly bound socket (None when binding throws), and the
      targets that complete inside their own initialize call. */
  datatype Env = Env(uuid: string, bound: Option<string>, inline: set<nat>)

  datatype AddResult = Skipped | Updated | Added | AddressMismatch | DuplicateAddress | BindFailed

  // ---------- searching ----------

  /** Position of the first listener called `name`, or the length of the list. */
  function FindName(ls: seq<Listener>, name: string): (i: nat)
    ensures i <= |ls|
    ensures i < |ls| ==> ls[i].name == name
    ensures forall k :: 0 <= k < i ==> ls[k].name != name
  {
    if ls == [] then 0 else if ls[0].name == name then 0 else 1 + FindName(ls[1..], name)
  }

  /** Position of the first draining entry for `tag`, or the length of the list. */
  function FindTag(ds: seq<Draining>, tag: nat): (i: nat)
    ensures i <= |ds|
    ensures i < |ds| ==> ds[i].l.tag == tag
    ensures forall k :: 0 <= k < i ==> ds[k].l.tag != tag
  {
    if ds == [] then 0 else if ds[0].l.tag == tag then 0 else 1 + FindTag(ds[1..], tag)
  }

  function WarmingTagIndex(ws: seq<Warming>, tag: nat): (i: nat)
    ensures i <= |ws|
    ensures i < |ws| ==> ws[i].l.tag == tag
    ensures forall k :: 0 <= k < i ==> ws[k].l.tag != tag
  {
    if ws == [] then 0 else if ws[0].l.tag == tag then 0 else 1 + WarmingTagIndex(ws[1..], tag)
  }

  /** Position of the first draining listener whose socket is bound to `address`. */
  function FindDrainingAddress(ds: seq<Draining>, address: string): (i: nat)
    ensures i <= |ds|
    ensures i < |ds| ==> ds[i].l.socket.localAddress == address
    ensures forall k :: 0 <= k < i ==> ds[k].l.socket.localAddress != address
  {
    if ds == [] then 0
    else if ds[0].l.socket.localAddress == address then 0
    else 1 + FindDrainingAddress(ds[1..], address)
  }

  function WarmingListeners(ws: seq<Warming>): (ls: seq<Listener>)
    ensures |ls| == |ws|
    ensures forall i :: 0 <= i < |ws| ==> ls[i] == ws[i].l
  {
    seq(|ws|, i requires 0 <= i < |ws| => ws[i].l)
  }

  predicate HasAddress(ls: seq<Listener>, address: string) {
    exists l :: l in ls && l.address == address
  }

  function Erase<T>(s: seq<T>, i: nat): (r: seq<T>)
    requires i < |s|
    ensures |r| == |s| - 1
    ensures forall k :: 0 <= k < i ==> r[k] == s[k]
    ensures forall k :: i <= k < |r| ==> r[k] == s[k + 1]
  {
    s[..i] + s[i + 1..]
  }

  // ---------- worker handlers ----------

  function StopEntries(h: seq<Entry>, tag: nat): (r: seq<Entry>)
    ensures |r| == |h|
    ensures forall i :: 0 <= i < |h| ==>
              r[i].l == h[i].l && (r[i].accepting <==> h[i].accepting && h[i].l.tag != tag)
  {
    seq(|h|, i requires 0 <= i < |h| => if h[i].l.tag == tag then h[i].(accepting := false) else h[i])
  }

  function StopAllEntries(h: seq<Entry>): (r: seq<Entry>)
    ensures |r| == |h| && forall i :: 0 <= i < |h| ==> r[i].l == h[i].l && !r[i].accepting
  {
    seq(|h|, i requires 0 <= i < |h| => h[i].(accepting := false))
  }

  function RemoveEntries(h: seq<Entry>, tag: nat): (r: seq<Entry>)
    ensures forall e :: e in r <==> e in h && e.l.tag != tag
  {
    if h == [] then []
    else if h[0].l.tag == tag then RemoveEntries(h[1..], tag)
    else [h[0]] + RemoveEntries(h[1..], tag)
  }

  /** The handler after running one task; `ok` says whether the listener could be created. */
  function RunTask(h: seq<Entry>, t: Task, ok: bool): seq<Entry> {
    match t
    case AddTask(l) => if ok then h + [Entry(l, true)] else h
    case StopTask(tag) => StopEntries(h, tag)
    case RemoveTask(tag) => RemoveEntries(h, tag)
    case StopAllTask => StopAllEntries(h)
  }

  /** The completions a worker posts to the main thread after running one task. */
  function Reply(w: nat, t: Task, ok: bool): seq<Completion> {
    match t
    case AddTask(l) => [AddDone(w, l, ok)]
    case RemoveTask(tag) => [RemoveDone(w, tag)]
    case _ => []
  }

  function PostAll(ws: seq<Worker>, t: Task): (r: seq<Worker>)
    ensures |r| == |ws|
    ensures forall w :: 0 <= w < |ws| ==> r[w] == ws[w].(queue := ws[w].queue + [t])
  {
    seq(|ws|, w requires 0 <= w < |ws| => ws[w].(queue := ws[w].queue + [t]))
  }

  // ---------- main-thread operations ----------

  function SyncGauges(s: System): System {
    s.(stats := s.stats.(warmingGauge := |s.warming|, activeGauge := |s.active|))
  }

  /** One tick of the drain manager of draining entry `k`; the last tick posts the removal. */
  function Tick(s: System, k: nat): System
    requires k < |s.draining|
  {
    var d := s.draining[k];
    var s1 := s.(draining := s.draining[k := d.(ticks := d.ticks + 1)]);
    if d.ticks + 1 == s.drainTime then s1.(workers := PostAll(s1.workers, RemoveTask(d.l.tag)))
    else s1
  }

  /** Puts `l` at the front of the draining list, stops it on every worker and starts its drain
      sequence, whose first tick runs at once. */
  function Drain(s: System, l: Listener): System {
    Tick(s.(draining := [Draining(l, |s.workers|, 0)] + s.draining,
            stats := s.stats.(drainingGauge := |s.draining| + 1),
            workers := PostAll(s.workers, StopTask(l.tag))), 0)
  }

  /** The warmed listener is posted to every worker before the version it replaces is drained. */
  function Warmed(s: System, l: Listener): System
    requires FindName(WarmingListeners(s.warming), l.name) < |s.warming|
  {
    var s1 := s.(workers := PostAll(s.workers, AddTask(l)));
    var i := FindName(s.active, l.name);
    var j := FindName(WarmingListeners(s.warming), l.name);
    var s2 := if i < |s.active| then Drain(s1, s.active[i]) else s1;
    var act := if i < |s.active| then s.active[i := s.warming[j].l] else s.active + [s.warming[j].l];
    SyncGauges(s2.(active := act, warming := Erase(s.warming, j)))
  }

  function RemoveListener(s: System, name: string): (r: (System, bool))
  {
    var i := FindName(s.active, name);
    var j := FindName(WarmingListeners(s.warming), name);
    if i == |s.active| && j == |s.warming| then (s, false)
    else
      var s1 := if j < |s.warming| then s.(warming := Erase(s.warming, j)) else s;
      var s2 := if i < |s.active| then Drain(s1, s.active[i]).(active := Erase(s.active, i)) else s1;
      (SyncGauges(s2.(stats := s2.stats.(removed := s2.stats.removed + 1))), true)
  }

  /** The effect of `initialize` on a listener created after the workers started: the targets that
      complete inline are gone; when none is left the listener is warmed at once. */
  function Initialize(s: System, tag: nat, inline: set<nat>): System {
    var j := WarmingTagIndex(s.warming, tag);
    if j == |s.warming| then s
    else
      var l := s.warming[j].l;
      var rest := s.warming[j].targets - inline;
      if rest != {} then s.(warming := s.warming[j := Warming(l, rest)])
      else if FindName(WarmingListeners(s.warming), l.name) < |s.warming| then Warmed(s, l) else s
  }

  function Resolve(c: Config, e: Env): string {
    if c.name != "" then c.name else e.uuid
  }

  predicate IsDuplicate(s: System, name: string, hash: nat) {
    var i := FindName(s.active, name);
    var j := FindName(WarmingListeners(s.warming), name);
    (j < |s.warming| && s.warming[j].l.hash == hash) || (i < |s.active| && s.active[i].hash == hash)
  }

  predicate Mismatched(s: System, name: string, address: string) {
    var i := FindName(s.active, name);
    var j := FindName(WarmingListeners(s.warming), name);
    (j < |s.warming| && s.warming[j].l.address != address)
    || (i < |s.active| && s.active[i].address != address)
  }

  /** The socket of the new version: the existing version's, a draining listener's that is bound to
      the same address, or a newly bound one. */
  function ChooseSocket(s: System, name: string, c: Config, e: Env): Option<Socket> {
    var i := FindName(s.active, name);
    var j := FindName(WarmingListeners(s.warming), name);
    var k := FindDrainingAddress(s.draining, c.address);
    if j < |s.warming| then Some(s.warming[j].l.socket)
    else if i < |s.active| then Some(s.active[i].socket)
    else if k < |s.draining| then Some(s.draining[k].l.socket)
    else match e.bound
      case None => None
      case Some(a) => Some(Socket(s.nextSocket, a))
  }

  predicate IsNew(s: System, name: string) {
    FindName(s.active, name) == |s.active|
    && FindName(WarmingListeners(s.warming), name) == |s.warming|
  }

  /** Places a new version in the lists: over a warming version of its name, else over an active one
      before the workers start, else at the end of the warming (or, before start, active) list. */
  function Place(s: System, l: Listener, targets: set<nat>): System {
    var i := FindName(s.active, l.name);
    var j := FindName(WarmingListeners(s.warming), l.name);
    if j < |s.warming| then s.(warming := s.warming[j := Warming(l, targets)])
    else if s.started then s.(warming := s.warming + [Warming(l, targets)])
    else if i < |s.active| then s.(active := s.active[i := l])
    else s.(active := s.active + [l])
  }

  function Count(s: System, added: bool): System {
    if added then s.(stats := s.stats.(added := s.stats.added + 1))
    else s.(stats := s.stats.(modified := s.stats.modified + 1))
  }

  function AddOrUpdate(s: System, c: Config, e: Env): (r: (System, AddResult)) {
    var name := Resolve(c, e);
    if IsDuplicate(s, name, c.hash) then (s, Skipped)
    else
      var s0 := s.(nextTag := s.nextTag + 1);  // the listener object has been constructed
      if Mismatched(s, name, c.address) then (s0, AddressMismatch)
      else if IsNew(s, name) && !c.bindToPort
              && (HasAddress(WarmingListeners(s.warming), c.address) || HasAddress(s.active, c.address))
      then (s0, DuplicateAddress)
      else
        match ChooseSocket(s, name, c, e)
        case None => (s0, BindFailed)
        case Some(socket) =>
          var l := Listener(s.nextTag, name, c.address, c.hash, c.bindToPort, socket);
          var s1 := s0.(nextSocket := if socket.id == s.nextSocket then s.nextSocket + 1 else s.nextSocket);
          var s2 := Count(SyncGauges(Place(s1, l, c.targets)), IsNew(s, name));
          (if s.started then Initialize(s2, l.tag, e.inline) else s2,
           if IsNew(s, name) then Added else Updated)
  }

  /** An init target of the listener with this tag completes. A destroyed listener's callback is
      gated by `initialize_canceled_`, so it has no effect. */
  function TargetDone(s: System, tag: nat, target: nat): System {
    var j := WarmingTagIndex(s.warming, tag);
    if j == |s.warming| || target !in s.warming[j].targets then s
    else
      var l := s.warming[j].l;
      var rest := s.warming[j].targets - {target};
      if rest != {} then s.(warming := s.warming[j := Warming(l, rest)])
      else if FindName(WarmingListeners(s.warming), l.name) < |s.warming| then Warmed(s, l) else s
  }

  function PostActive(ls: seq<Listener>): (q: seq<Task>)
    ensures |q| == |ls|
    ensures forall i :: 0 <= i < |ls| ==> q[i] == AddTask(ls[i])
  {
    seq(|ls|, i requires 0 <= i < |ls| => AddTask(ls[i]))
  }

  function StartWorkers(s: System): System {
    s.(started := true,
       workers := seq(|s.workers|, w requires 0 <= w < |s.workers| =>
                    s.workers[w].(queue := s.workers[w].queue + PostActive(s.active))))
  }

  function StopListeners(s: System): System {
    s.(workers := PostAll(s.workers, StopAllTask))
  }

  /** Worker `w` runs the closure at the head of its queue. */
  function WorkerRun(s: System, w: nat, ok: bool): System
    requires w < |s.workers| && s.workers[w].queue != []
  {
    var t := s.workers[w].queue[0];
    s.(workers := s.workers[w := Worker(s.workers[w].queue[1..], RunTask(s.workers[w].handler, t, ok))],
       completions := s.completions + Reply(w, t, ok))
  }

  /** The main thread runs the closure at the head of its queue. */
  function MainRun(s: System): System
    requires s.completions != []
  {
    var s1 := s.(completions := s.completions[1..]);
    match s.completions[0]
    case AddDone(_, l, success) =>
      if success then s1.(stats := s1.stats.(createSuccess := s1.stats.createSuccess + 1))
      else if l.tag in s.failed then s1
      else
        RemoveListener(s1.(failed := s.failed + {l.tag},
                           stats := s1.stats.(createFailure := s1.stats.createFailure + 1)), l.name).0
    case RemoveDone(_, tag) => ConfirmRemoval(s1, tag)
  }

  /** Decrement of a 64-bit unsigned counter. */
  function Decrement(n: nat): nat {
    if n == 0 then 0xFFFF_FFFF_FFFF_FFFF else n - 1
  }

  /** One worker has confirmed the removal of a draining listener; the last one destroys it. (With
      no such entry the source would follow a dangling iterator; see `NoDanglingReference`.) */
  function ConfirmRemoval(s: System, tag: nat): System {
    var k := FindTag(s.draining, tag);
    if k == |s.draining| then s
    else
      var d := s.draining[k].(pending := Decrement(s.draining[k].pending));
      if d.pending == 0 then
        s.(draining := Erase(s.draining, k), stats := s.stats.(drainingGauge := |s.draining| - 1))
      else s.(draining := s.draining[k := d])
  }

  // ---------- the transition system ----------

  datatype Step =
    | AddOrUpdateStep(c: Config, e: Env)
    | RemoveStep(name: string)
    | StartStep
    | StopAllStep
    | TargetStep(tag: nat, target: nat)
    | TickStep(k: nat)
    | WorkerStep(w: nat, ok: bool)
    | MainStep

  /** When a step can happen. Removing an active listener and stopping all listeners need the worker
      threads, as the assertions in the worker demand; workers run closures only once started. */
  ghost predicate Enabled(s: System, step: Step) {
    match step
    case AddOrUpdateStep(_, _) => true
    case RemoveStep(name) => s.started || FindName(s.active, name) == |s.active|
    case StartStep => !s.started
    case StopAllStep => s.started
    case TargetStep(_, _) => true
    case TickStep(k) => k < |s.draining| && s.draining[k].ticks < s.drainTime
    case WorkerStep(w, _) => s.started && w < |s.workers| && s.workers[w].queue != []
    case MainStep => s.completions != []
  }

  ghost function Apply(s: System, step: Step): System
    requires Enabled(s, step)
  {
    match step
    case AddOrUpdateStep(c, e) => AddOrUpdate(s, c, e).0
    case RemoveStep(name) => RemoveListener(s, name).0
    case StartStep => StartWorkers(s)
    case StopAllStep => StopListeners(s)
    case TargetStep(tag, target) => TargetDone(s, tag, target)
    case TickStep(k) => Tick(s, k)
    case WorkerStep(w, ok) => WorkerRun(s, w, ok)
    case MainStep => MainRun(s)
  }

  /** A freshly constructed manager: `concurrency` workers (at least one) and no listeners. */
  ghost predicate Init(s: System) {
    s.active == [] && s.warming == [] && s.draining == [] && !s.started
    && |s.workers| >= 1 && (forall w :: 0 <= w < |s.workers| ==> s.workers[w] == Worker([], []))
    && s.completions == [] && s.failed == {} && s.stats == Stats(0, 0, 0, 0, 0, 0, 0, 0)
    && s.drainTime >= 1
  }

  /** `states` is the run that takes `steps` from `states[0]`. */
  ghost predicate IsRun(states: seq<System>, steps: seq<Step>) {
    |states| == |steps| + 1
    && forall i :: 0 <= i < |steps| ==>
         Enabled(states[i], steps[i]) && states[i + 1] == Apply(states[i], steps[i])
  }
}
