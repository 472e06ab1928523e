/** A buffer with watermarks: one callback when it grows above the high mark, one when it shrinks below
    the low mark, and no more than that however its size changes. */
module WatermarkBuffers {
  import opened Common

  type Bytes = seq<bv8>

  datatype Callback = AboveHigh | BelowLow

  /** A buffer's contents, marks, state, and the callbacks it has made. A high mark of zero is off. */
  datatype Buffer = Buffer(bytes: Bytes, low: nat, high: nat, above: bool, calls: seq<Callback>)

  const EMPTY: Buffer := Buffer([], 0, 0, false, [])

  function CheckLow(b: Buffer): Buffer {
    if !b.above || (b.high != 0 && |b.bytes| >= b.low) then b
    else b.(above := false, calls := b.calls + [BelowLow])
  }

  function CheckHigh(b: Buffer): Buffer {
    if b.above || b.high == 0 || |b.bytes| <= b.high then b
    else b.(above := true, calls := b.calls + [AboveHigh])
  }

  /** Bytes come in: added, committed, read from a file or moved in. */
  function Grow(b: Buffer, data: Bytes): Buffer {
    CheckHigh(b.(bytes := b.bytes + data))
  }

  /** The first `n` bytes go out: drained, written to a file or moved away. */
  function Shrink(b: Buffer, n: nat): Buffer
    requires n <= |b.bytes|
  {
    CheckLow(b.(bytes := b.bytes[n..]))
  }

  /** The marks that setWatermarks accepts. */
  predicate MarksAllowed(low: nat, high: nat) {
    low < high || (low == 0 && high == 0)
  }

  function SetMarks(b: Buffer, low: nat, high: nat): Buffer {
    CheckLow(CheckHigh(b.(low := low, high := high)))
  }

  // ---------- what every operation keeps ----------

  /** The callbacks take turns, the first is for the high mark, and the state is the last one's. */
  predicate Alternating(b: Buffer) {
    && (forall i :: 0 <= i < |b.calls| ==> b.calls[i] == if i % 2 == 0 then AboveHigh else BelowLow)
    && (b.above <==> |b.calls| % 2 == 1)
  }

  /** The state fits the size: over an enabled high mark means above, and above means that the marks are
      on and the size is not under the low one. */
  predicate Settled(b: Buffer) {
    && (b.high != 0 && |b.bytes| > b.high ==> b.above)
    && (b.above ==> b.high != 0 && |b.bytes| >= b.low)
  }

  predicate Good(b: Buffer) {
    MarksAllowed(b.low, b.high) && Alternating(b) && Settled(b)
  }

  datatype Op =
    | GrowOp(buffer: nat, data: Bytes)
    | ShrinkOp(buffer: nat, count: nat)
    | MoveOp(into: nat, from: nat, count: nat)
    | ReserveOp(buffer: nat)
    | MarksOp(buffer: nat, low: nat, high: nat)

  predicate Allowed(bs: seq<Buffer>, op: Op) {
    match op
    case GrowOp(i, _) => i < |bs|
    case ShrinkOp(i, n) => i < |bs| && n <= |bs[i].bytes|
    case MoveOp(i, j, n) => i < |bs| && j < |bs| && i != j && n <= |bs[j].bytes|
    case ReserveOp(i) => i < |bs|
    case MarksOp(i, low, high) => i < |bs| && MarksAllowed(low, high)
  }

  function Perform(bs: seq<Buffer>, op: Op): (r: seq<Buffer>)
    requires Allowed(bs, op)
    ensures |r| == |bs|
  {
    match op
    case GrowOp(i, data) => bs[i := Grow(bs[i], data)]
    case ShrinkOp(i, n) => bs[i := Shrink(bs[i], n)]
    case MoveOp(i, j, n) => bs[j := Shrink(bs[j], n)][i := Grow(bs[i], bs[j].bytes[..n])]
    case ReserveOp(i) => bs[i := CheckHigh(bs[i])]
    case MarksOp(i, low, high) => bs[i := SetMarks(bs[i], low, high)]
  }

  /** A run over any number of buffers that exchange bytes. */
  predicate IsRun(states: seq<seq<Buffer>>, ops: seq<Op>) {
    && |states| == |ops| + 1
    && (forall b :: b in states[0] ==> b == EMPTY)
    && forall k :: 0 <= k < |ops| ==> Allowed(states[k], ops[k]) && states[k + 1] == Perform(states[k], ops[k])
  }

  lemma OperationsKeep(b: Buffer, data: Bytes, n: nat, low: nat, high: nat)
    requires Good(b)
    ensures Good(Grow(b, data)) && CheckHigh(b) == b
    ensures n <= |b.bytes| ==> Good(Shrink(b, n))
    ensures MarksAllowed(low, high) ==> Good(SetMarks(b, low, high))
  {
  }

  /** In every reachable state of every buffer the callbacks have alternated strictly and the state fits
      the size. */
  lemma {:induction false} AlwaysGood(states: seq<seq<Buffer>>, ops: seq<Op>, k: nat, i: nat)
    requires IsRun(states, ops) && k < |states| && i < |states[k]|
    ensures Good(states[k][i])
  {
    if k > 0 {
      var before := states[k - 1];
      AlwaysGood(states, ops, k - 1, i);
      match ops[k - 1]
      case GrowOp(x, data) => OperationsKeep(before[i], data, 0, 0, 0);
      case ShrinkOp(x, n) => OperationsKeep(before[i], [], n, 0, 0);
      case MoveOp(x, y, n) => OperationsKeep(before[i], before[y].bytes[..n], n, 0, 0);
      case ReserveOp(x) => OperationsKeep(before[i], [], 0, 0, 0);
      case MarksOp(x, low, high) => OperationsKeep(before[i], [], 0, low, high);
    } else {
      assert states[0][i] in states[0];
    }
  }

  // ---------- bytes ----------

  /** The marks are the given ones, and the bytes stay. */
  lemma MarksAreSet(b: Buffer, low: nat, high: nat)
    ensures var r := SetMarks(b, low, high); r.low == low && r.high == high && r.bytes == b.bytes
  {
  }

  /** What an operation puts into buffer `i`, and what it takes out. */
  function Gave(bs: seq<Buffer>, op: Op, i: nat): Bytes
    requires Allowed(bs, op)
  {
    match op
    case GrowOp(x, data) => if x == i then data else []
    case MoveOp(x, y, n) => if x == i then bs[y].bytes[..n] else []
    case _ => []
  }

  function Took(bs: seq<Buffer>, op: Op, i: nat): Bytes
    requires Allowed(bs, op) && i < |bs|
  {
    match op
    case ShrinkOp(x, n) => if x == i then bs[i].bytes[..n] else []
    case MoveOp(x, y, n) => if y == i then bs[i].bytes[..n] else []
    case _ => []
  }

  lemma OperationBytes(b: Buffer, data: Bytes, n: nat)
    ensures Grow(b, data).bytes == b.bytes + data && CheckHigh(b).bytes == b.bytes
    ensures n <= |b.bytes| ==> Shrink(b, n).bytes == b.bytes[n..]
    ensures forall low, high :: SetMarks(b, low, high).bytes == b.bytes
  {
  }

  lemma BytesStep(bs: seq<Buffer>, op: Op, i: nat)
    requires Allowed(bs, op) && i < |bs|
    ensures Took(bs, op, i) + Perform(bs, op)[i].bytes == bs[i].bytes + Gave(bs, op, i)
  {
    var b := bs[i].bytes;
    Nothing(b);
    OperationBytes(bs[i], Gave(bs, op, i), |Took(bs, op, i)|);
    hide Grow, Shrink, CheckHigh, SetMarks;
    match op
    case ShrinkOp(x, n) =>
      if x == i {
        SplitAt(b, n);
      }
    case MoveOp(x, y, n) =>
      if y == i {
        SplitAt(b, n);
      }
    case _ =>
  }

  lemma Nothing(b: Bytes)
    ensures b + [] == b && [] + b == b
  {
  }

  lemma SplitAt(b: Bytes, n: nat)
    requires n <= |b|
    ensures b[..n] + b[n..] == b && |b[..n]| == n
  {
  }

  /** What has come into buffer `i` by state `k` of a run, in order. */
  function Incoming(states: seq<seq<Buffer>>, ops: seq<Op>, i: nat, k: nat): Bytes
    requires IsRun(states, ops) && k < |states|
  {
    if k == 0 then [] else Incoming(states, ops, i, k - 1) + Gave(states[k - 1], ops[k - 1], i)
  }

  /** What has gone out of it: always the first bytes there are. */
  function Outgoing(states: seq<seq<Buffer>>, ops: seq<Op>, i: nat, k: nat): Bytes
    requires IsRun(states, ops) && k < |states| && i < |states[0]|
  {
    SameBuffers(states, ops, k);
    if k == 0 then []
    else
      SameBuffers(states, ops, k - 1);
      Outgoing(states, ops, i, k - 1) + Took(states[k - 1], ops[k - 1], i)
  }

  lemma {:induction false} SameBuffers(states: seq<seq<Buffer>>, ops: seq<Op>, k: nat)
    requires IsRun(states, ops) && k < |states|
    ensures |states[k]| == |states[0]|
  {
    if k > 0 {
      SameBuffers(states, ops, k - 1);
    }
  }

  /** Nothing is lost, added or reordered: over any run, what went out of a buffer followed by what is in it
      is what came in. */
  lemma {:induction false} BytesInOrder(states: seq<seq<Buffer>>, ops: seq<Op>, i: nat, k: nat)
    requires IsRun(states, ops) && k < |states| && i < |states[0]|
    ensures |states[k]| == |states[0]|
    ensures Outgoing(states, ops, i, k) + states[k][i].bytes == Incoming(states, ops, i, k)
  {
    SameBuffers(states, ops, k);
    if k > 0 {
      BytesInOrder(states, ops, i, k - 1);
      BytesStep(states[k - 1], ops[k - 1], i);
      hide Took, Gave, Perform, Allowed;
      var out, b := Outgoing(states, ops, i, k - 1), states[k - 1][i].bytes;
      Regroup(out, Took(states[k - 1], ops[k - 1], i), states[k][i].bytes);
      Regroup(out, b, Gave(states[k - 1], ops[k - 1], i));
    } else {
      assert states[0][i] in states[0];
    }
  }

  lemma Regroup(a: Bytes, b: Bytes, c: Bytes)
    ensures (a + b) + c == a + (b + c)
  {
  }

  // ---------- hysteresis ----------

  /** A change of size under fixed marks. */
  datatype Change = In(data: Bytes) | Out(count: nat)

  predicate Follows(b: Buffer, c: Change, r: Buffer) {
    match c
    case In(data) => r == Grow(b, data)
    case Out(n) => n <= |b.bytes| && r == Shrink(b, n)
  }

  predicate Changes(states: seq<Buffer>, cs: seq<Change>) {
    |states| == |cs| + 1 && forall k :: 0 <= k < |cs| ==> Follows(states[k], cs[k], states[k + 1])
  }

  /** The size was over the high mark once and has not been under the low mark since. */
  predicate CrossedSince(states: seq<Buffer>, k: nat)
    requires k < |states|
  {
    exists i {:trigger states[i]} :: 0 <= i <= k && |states[i].bytes| > states[i].high
      && forall j :: i <= j <= k ==> |states[j].bytes| >= states[j].low
  }

  /** The state is exactly that: a definition by the history of sizes alone. */
  lemma {:induction false} AboveMeansCrossed(states: seq<Buffer>, cs: seq<Change>, k: nat)
    requires Changes(states, cs) && k < |states|
    requires Good(states[0]) && !states[0].above && states[0].high != 0
    ensures Good(states[k]) && states[k].low == states[0].low && states[k].high == states[0].high
    ensures states[k].above <==> CrossedSince(states, k)
  {
    if k > 0 {
      AboveMeansCrossed(states, cs, k - 1);
      var b, c := states[k - 1], cs[k - 1];
      assert Follows(b, c, states[k]);
      OperationsKeep(b, if c.In? then c.data else [], if c.Out? then c.count else 0, 0, 0);
      CrossedStep(states, k);
    }
  }

  lemma CrossedStep(states: seq<Buffer>, k: nat)
    requires 0 < k < |states|
    ensures CrossedSince(states, k) <==>
            |states[k].bytes| >= states[k].low
            && (CrossedSince(states, k - 1) || |states[k].bytes| > states[k].high)
  {
    if |states[k].bytes| >= states[k].low {
      if CrossedSince(states, k - 1) {
        var i :| 0 <= i <= k - 1 && |states[i].bytes| > states[i].high
                 && forall j :: i <= j <= k - 1 ==> |states[j].bytes| >= states[j].low;
        assert forall j :: i <= j <= k ==> |states[j].bytes| >= states[j].low;
        assert CrossedSince(states, k);
      }
      if |states[k].bytes| > states[k].high {
        assert states[k] == states[k];
        assert CrossedSince(states, k);
      }
    }
    if CrossedSince(states, k) {
      var i :| 0 <= i <= k && |states[i].bytes| > states[i].high
               && forall j :: i <= j <= k ==> |states[j].bytes| >= states[j].low;
      if i < k {
        assert CrossedSince(states, k - 1);
      }
    }
  }

  /** A buffer above its high mark can be brought back by draining exactly if its low mark is not zero:
      with a low mark of zero no drain, not even of everything, makes the callback. */
  lemma DrainReachesLow(b: Buffer)
    requires Good(b) && b.above
    ensures (exists n: nat :: n <= |b.bytes| && !Shrink(b, n).above) <==> b.low > 0
  {
    if b.low > 0 {
      assert !Shrink(b, |b.bytes|).above;
    }
  }

  // ---------- in place ----------

  class WatermarkBuffer {
    var bytes: Bytes
    var lowWatermark: nat
    var highWatermark: nat
    var aboveHighWatermarkCalled: bool
    var calls: seq<Callback>

    function View(): Buffer
      reads this
    {
      Buffer(bytes, lowWatermark, highWatermark, aboveHighWatermarkCalled, calls)
    }

    constructor ()
      ensures View() == EMPTY && Good(View())
    {
      bytes, lowWatermark, highWatermark, aboveHighWatermarkCalled, calls := [], 0, 0, false, [];
    }

    method CheckLowWatermark()
      modifies this
      ensures View() == CheckLow(old(View()))
    {
      if !aboveHighWatermarkCalled || (highWatermark != 0 && |bytes| >= lowWatermark) {
        return;
      }
      aboveHighWatermarkCalled := false;
      calls := calls + [BelowLow];
    }

    method CheckHighWatermark()
      modifies this
      ensures View() == CheckHigh(old(View()))
    {
      if aboveHighWatermarkCalled || highWatermark == 0 || |bytes| <= highWatermark {
        return;
      }
      aboveHighWatermarkCalled := true;
      calls := calls + [AboveHigh];
    }

    method Add(data: Bytes)
      requires Good(View())
      modifies this
      ensures View() == Grow(old(View()), data) && Good(View())
    {
      OperationsKeep(View(), data, 0, 0, 0);
      bytes := bytes + data;
      CheckHighWatermark();
    }

    /** Another buffer's bytes are copied in, slice by slice, with a check after each slice. */
    method AddSlices(slices: seq<Bytes>)
      requires Good(View())
      modifies this
      ensures View() == Grow(old(View()), Flatten(slices)) && Good(View())
    {
      ghost var b := View();
      var i := 0;
      assert slices[..0] == [] && b.bytes + [] == b.bytes;
      OperationsKeep(b, [], 0, 0, 0);
      while i < |slices|
        invariant i <= |slices| && Good(View())
        invariant View() == Grow(b, Flatten(slices[..i]))
      {
        assert slices[..i + 1][..i] == slices[..i];
        GrowTwice(b, Flatten(slices[..i]), slices[i]);
        Add(slices[i]);
        i := i + 1;
      }
      assert slices[..i] == slices;
      CheckHighWatermark();
      OperationsKeep(old(View()), Flatten(slices), 0, 0, 0);
    }

    /** Bytes that were written into reserved space are committed. */
    method Commit(data: Bytes)
      requires Good(View())
      modifies this
      ensures View() == Grow(old(View()), data) && Good(View())
    {
      OperationsKeep(View(), data, 0, 0, 0);
      bytes := bytes + data;
      CheckHighWatermark();
    }

    method Drain(size: nat)
      requires Good(View()) && size <= |bytes|
      modifies this
      ensures View() == Shrink(old(View()), size) && Good(View())
    {
      OperationsKeep(View(), [], size, 0, 0);
      bytes := bytes[size..];
      CheckLowWatermark();
    }

    /** The first `length` bytes of `rhs` move here. The other buffer checks its low mark first. */
    method Move(rhs: WatermarkBuffer, length: nat)
      requires rhs != this && Good(View()) && Good(rhs.View()) && length <= |rhs.bytes|
      modifies this, rhs
      ensures View() == Grow(old(View()), old(rhs.bytes)[..length]) && Good(View())
      ensures rhs.View() == Shrink(old(rhs.View()), length) && Good(rhs.View())
    {
      OperationsKeep(View(), rhs.bytes[..length], 0, 0, 0);
      OperationsKeep(rhs.View(), [], length, 0, 0);
      bytes := bytes + rhs.bytes[..length];
      rhs.bytes := rhs.bytes[length..];
      rhs.CheckLowWatermark();
      CheckHighWatermark();
    }

    /** `data` is what the file has to give, at most `maxLength` bytes; a failed read gives nothing. */
    method Read(data: Bytes, failed: bool, maxLength: nat) returns (bytesRead: int)
      requires Good(View()) && |data| <= maxLength
      modifies this
      ensures bytesRead == (if failed then -1 else |data|)
      ensures View() == Grow(old(View()), if failed then [] else data) && Good(View())
    {
      var got := if failed then [] else data;
      OperationsKeep(View(), got, 0, 0, 0);
      bytesRead := if failed then -1 else |data|;
      bytes := bytes + got;
      CheckHighWatermark();
    }

    /** The file takes `taken` bytes; a failed write takes none. */
    method Write(taken: nat, failed: bool) returns (bytesWritten: int)
      requires Good(View()) && taken <= |bytes|
      modifies this
      ensures bytesWritten == (if failed then -1 else taken)
      ensures View() == Shrink(old(View()), if failed then 0 else taken) && Good(View())
    {
      var gone := if failed then 0 else taken;
      OperationsKeep(View(), [], gone, 0, 0);
      bytesWritten := if failed then -1 else taken;
      bytes := bytes[gone..];
      CheckLowWatermark();
    }

    /** Reserved space is not part of the size: nothing changes and nothing is called. */
    method Reserve(length: nat)
      requires Good(View())
      modifies this
      ensures View() == old(View())
    {
      OperationsKeep(View(), [], 0, 0, 0);
      CheckHighWatermark();
    }

    method SetWatermarks(low: nat, high: nat)
      requires Good(View()) && MarksAllowed(low, high)
      modifies this
      ensures View() == SetMarks(old(View()), low, high) && Good(View())
      ensures lowWatermark == low && highWatermark == high && bytes == old(bytes)
    {
      OperationsKeep(View(), [], 0, low, high);
      lowWatermark, highWatermark := low, high;
      CheckHighWatermark();
      CheckLowWatermark();
    }

    /** One mark: the low one is half of it. */
    method SetWatermark(watermark: nat)
      requires Good(View())
      modifies this
      ensures View() == SetMarks(old(View()), watermark / 2, watermark) && Good(View())
      ensures highWatermark == watermark && 2 * lowWatermark <= watermark <= 2 * lowWatermark + 1
      ensures bytes == old(bytes)
    {
      SetWatermarks(watermark / 2, watermark);
    }
  }

  /** Growing in two steps calls back no more and no less than growing at once. */
  lemma GrowTwice(b: Buffer, x: Bytes, y: Bytes)
    ensures Grow(Grow(b, x), y) == Grow(b, x + y)
  {
    assert b.bytes + (x + y) == (b.bytes + x) + y;
  }
}
