/** The shared table of reference-counted statistics slots. Every process of the restart chain works on
    it under `stat_lock_`, so that each operation is one step. */
module StatSlots {
  import opened Common

  /** A slot holds a C string and a 16-bit count. A slot with an empty name counts as free. */
  datatype Slot = Slot(name: string, refCount: nat)

  const ZEROED: Slot := Slot("", 0)
  const REF_COUNT_LIMIT: nat := 0x1_0000

  predicate Initialized(slot: Slot) {
    slot.name != ""
  }

  /** The characters before the first NUL. */
  function CString(s: string): (r: string)
    ensures r <= s && '\0' !in r
    ensures r == s || (|r| < |s| && s[|r|] == '\0')
  {
    if s == "" || s[0] == '\0' then "" else [s[0]] + CString(s[1..])
  }

  /** What a slot stores of a name: truncated, and cut at a NUL. */
  function Key(name: string, maxNameLength: nat): string {
    CString(if |name| <= maxNameLength then name else name[..maxNameLength])
  }

  /** The key is the longest beginning of the name with at most `maxNameLength` characters and no NUL. */
  lemma KeyIsLongest(name: string, maxNameLength: nat)
    ensures var k := Key(name, maxNameLength);
            && k <= name && |k| <= maxNameLength && '\0' !in k
            && (|k| == maxNameLength || k == name || (|k| < |name| && name[|k|] == '\0'))
  {
    var cut := if |name| <= maxNameLength then name else name[..maxNameLength];
    assert cut <= name;
    var k := CString(cut);
    assert k <= name;
    if |k| < |cut| {
      assert cut[|k|] == name[|k|];
    }
  }

  /** A name without a NUL is stored whole if it fits, else cut to exactly the maximum. */
  lemma KeyOfPlainName(name: string, maxNameLength: nat)
    requires '\0' !in name
    ensures |name| <= maxNameLength ==> Key(name, maxNameLength) == name
    ensures |name| > maxNameLength ==> Key(name, maxNameLength) == name[..maxNameLength]
  {
    KeyIsLongest(name, maxNameLength);
    var k := Key(name, maxNameLength);
    assert forall i :: 0 <= i < |name| ==> name[i] in name;
    assert k == name[..|k|];
  }

  /** The name ends after `k` characters as far as a slot is concerned. */
  predicate EndsAt(name: string, k: nat, maxNameLength: nat) {
    k <= |name| && k <= maxNameLength && '\0' !in name[..k]
    && (k == maxNameLength || k == |name| || name[k] == '\0')
  }

  /** Two names are the same to a slot: they agree up to where both end. */
  predicate Alike(a: string, b: string, maxNameLength: nat) {
    exists k :: 0 <= k <= |a| && EndsAt(a, k, maxNameLength) && EndsAt(b, k, maxNameLength) && a[..k] == b[..k]
  }

  lemma EndsOnce(name: string, j: nat, k: nat, maxNameLength: nat)
    requires j < k && EndsAt(name, k, maxNameLength)
    ensures !EndsAt(name, j, maxNameLength)
  {
    assert name[..k][j] == name[j];
  }

  lemma KeyEnds(name: string, k: nat, maxNameLength: nat)
    requires EndsAt(name, k, maxNameLength)
    ensures Key(name, maxNameLength) == name[..k]
  {
    KeyIsLongest(name, maxNameLength);
    var key := Key(name, maxNameLength);
    assert key == name[..|key|];
    assert EndsAt(name, |key|, maxNameLength);
    forall n: nat | n < k ensures !EndsAt(name, n, maxNameLength) {
      EndsOnce(name, n, k, maxNameLength);
    }
    forall n: nat | n < |key| ensures !EndsAt(name, n, maxNameLength) {
      EndsOnce(name, n, |key|, maxNameLength);
    }
  }

  /** Keys are equal exactly for names that are alike. */
  lemma KeysOfAlike(a: string, b: string, maxNameLength: nat)
    ensures Key(a, maxNameLength) == Key(b, maxNameLength) <==> Alike(a, b, maxNameLength)
  {
    KeyIsLongest(a, maxNameLength);
    KeyIsLongest(b, maxNameLength);
    var x, y := Key(a, maxNameLength), Key(b, maxNameLength);
    hide Key;
    assert x == a[..|x|] && y == b[..|y|];
    assert EndsAt(a, |x|, maxNameLength) && EndsAt(b, |y|, maxNameLength);
    if Alike(a, b, maxNameLength) {
      var k :| 0 <= k <= |a| && EndsAt(a, k, maxNameLength) && EndsAt(b, k, maxNameLength) && a[..k] == b[..k];
      KeyEnds(a, k, maxNameLength);
      KeyEnds(b, k, maxNameLength);
    }
  }

  /** Names without a NUL that fit are alike only if they are equal. */
  lemma PlainNamesAlike(a: string, b: string, maxNameLength: nat)
    requires '\0' !in a && '\0' !in b && |a| <= maxNameLength && |b| <= maxNameLength
    ensures Alike(a, b, maxNameLength) <==> a == b
  {
    KeysOfAlike(a, b, maxNameLength);
    KeyOfPlainName(a, maxNameLength);
    KeyOfPlainName(b, maxNameLength);
  }

  // ---------- operations on a table ----------

  /** The first slot in use under `key`. */
  function FindMatch(t: seq<Slot>, key: string): (r: Option<nat>)
    ensures r.Some? ==> r.value < |t| && Initialized(t[r.value]) && t[r.value].name == key
    ensures r.Some? ==> forall j :: 0 <= j < r.value ==> !(Initialized(t[j]) && t[j].name == key)
    ensures r.None? <==> forall j :: 0 <= j < |t| ==> !(Initialized(t[j]) && t[j].name == key)
  {
    if t == [] then None
    else if Initialized(t[0]) && t[0].name == key then Some(0)
    else
      assert forall j :: 0 < j < |t| ==> t[j] == t[1..][j - 1];
      match FindMatch(t[1..], key) case None => None case Some(i) => Some(i + 1)
  }

  /** The last free slot. */
  function FindFree(t: seq<Slot>): (r: Option<nat>)
    ensures r.Some? ==> r.value < |t| && !Initialized(t[r.value])
    ensures r.Some? ==> forall j :: r.value < j < |t| ==> Initialized(t[j])
    ensures r.None? <==> forall j :: 0 <= j < |t| ==> Initialized(t[j])
  {
    if t == [] then None
    else if !Initialized(t[|t| - 1]) then Some(|t| - 1)
    else
      assert forall j :: 0 <= j < |t| - 1 ==> t[j] == t[..|t| - 1][j];
      FindFree(t[..|t| - 1])
  }

  /** The two searches give the only slots that fit. */
  lemma SearchResults(t: seq<Slot>, key: string, i: nat)
    requires i < |t|
    ensures Initialized(t[i]) && t[i].name == key
            && (forall j :: 0 <= j < i ==> !(Initialized(t[j]) && t[j].name == key)) ==>
              FindMatch(t, key) == Some(i)
    ensures !Initialized(t[i]) && (forall j :: i < j < |t| ==> Initialized(t[j])) ==> FindFree(t) == Some(i)
  {
  }

  /** Allocation fails exactly when no slot matches and none is free, and then changes nothing; a
      success touches only the slot it returns, which is the matching one if there is one. */
  function Alloc(t: seq<Slot>, key: string): (r: (seq<Slot>, Option<nat>))
    ensures |r.0| == |t| && (r.1.Some? ==> r.1.value < |t|)
    ensures r.1.None? <==> forall j :: 0 <= j < |t| ==> Initialized(t[j]) && t[j].name != key
    ensures r.1.None? ==> r.0 == t
    ensures r.1.Some? ==> forall j :: 0 <= j < |t| && j != r.1.value ==> r.0[j] == t[j]
    ensures r.1.Some? && Initialized(t[r.1.value]) ==> t[r.1.value].name == key
    ensures r.1.Some? ==> r.0[r.1.value].name == key
  {
    match FindMatch(t, key)
    case Some(i) => (t[i := t[i].(refCount := (t[i].refCount + 1) % REF_COUNT_LIMIT)], Some(i))
    case None =>
      match FindFree(t)
      case Some(i) => (t[i := Slot(key, 1)], Some(i))
      case None => (t, None)
  }

  function Free(t: seq<Slot>, i: nat): (r: seq<Slot>)
    requires i < |t|
    ensures |r| == |t| && forall j :: 0 <= j < |t| && j != i ==> r[j] == t[j]
  {
    var count := (t[i].refCount + REF_COUNT_LIMIT - 1) % REF_COUNT_LIMIT;
    if count > 0 then t[i := t[i].(refCount := count)] else t[i := ZEROED]
  }

  // ---------- the table as an index ----------

  ghost predicate Unique(t: seq<Slot>) {
    forall i, j :: 0 <= i < j < |t| && Initialized(t[i]) && Initialized(t[j]) ==> t[i].name != t[j].name
  }

  ghost predicate Counted(slot: Slot, held: multiset<string>) {
    if Initialized(slot) then slot.refCount == held[slot.name] && slot.refCount > 0 else slot == ZEROED
  }

  ghost predicate Stored(t: seq<Slot>, key: string) {
    exists i :: 0 <= i < |t| && Initialized(t[i]) && t[i].name == key
  }

  /** `held` has each key as often as it was allocated and not freed yet. The table indexes it: one slot
      a key, whose count is the number of holders; all other slots are zeroed. */
  ghost predicate Index(t: seq<Slot>, held: multiset<string>) {
    && Unique(t)
    && (forall i :: 0 <= i < |t| ==> Counted(t[i], held))
    && (forall k :: k in held ==> Stored(t, k))
  }

  /** A table that changes in slot `i` only, where the slot has or gets `key`, still is an index when the
      slot is counted right; the other slots do not notice since no other slot has the key. */
  lemma SlotChange(t: seq<Slot>, held: multiset<string>, i: nat, slot: Slot, after: multiset<string>, key: string)
    requires Index(t, held) && i < |t| && key != ""
    requires Initialized(t[i]) ==> t[i].name == key
    requires forall j :: 0 <= j < |t| && j != i && Initialized(t[j]) ==> t[j].name != key
    requires Counted(slot, after) && (Initialized(slot) ==> slot.name == key)
    requires forall k :: k != key ==> after[k] == held[k]
    requires key in after ==> Initialized(slot)
    ensures Index(t[i := slot], after)
  {
    var r := t[i := slot];
    assert Unique(r);
    forall j | 0 <= j < |r| ensures Counted(r[j], after) {
      if j != i {
        assert r[j] == t[j] && Counted(t[j], held);
      }
    }
    forall k | k in after ensures Stored(r, k) {
      if k == key {
        assert r[i] == slot;
      } else {
        assert k in held && Stored(t, k);
        var j :| 0 <= j < |t| && Initialized(t[j]) && t[j].name == k;
        assert r[j] == t[j];
      }
    }
  }

  /** Allocation keeps the index exactly when the key is not empty and its count does not wrap. */
  lemma AllocKeepsIndex(t: seq<Slot>, held: multiset<string>, key: string)
    requires Index(t, held) && Alloc(t, key).1.Some?
    ensures Index(Alloc(t, key).0, held + multiset{key}) <==> key != "" && held[key] + 1 < REF_COUNT_LIMIT
  {
    var (r, found) := Alloc(t, key);
    var i := found.value;
    var after := held + multiset{key};
    assert Counted(t[i], held);
    if key == "" {
      assert !Counted(r[i], after);
    } else {
      if FindMatch(t, key).None? {
        assert !Stored(t, key);
        assert key !in held;
      } else {
        assert held[key] == t[i].refCount;
      }
      if held[key] + 1 < REF_COUNT_LIMIT {
        SlotChange(t, held, i, r[i], after, key);
      } else {
        assert r[i].refCount < REF_COUNT_LIMIT <= after[key];
        assert !Counted(r[i], after);
      }
    }
  }

  /** Freeing a slot in use takes one holder from its name, zeroes the slot with the last one, and
      leaves every other slot alone. */
  lemma FreeKeepsIndex(t: seq<Slot>, held: multiset<string>, i: nat)
    requires Index(t, held) && i < |t| && Initialized(t[i]) && t[i].refCount < REF_COUNT_LIMIT
    ensures Index(Free(t, i), held - multiset{t[i].name})
    ensures Free(t, i)[i] == ZEROED <==> held[t[i].name] == 1
    ensures forall j :: 0 <= j < |t| && j != i ==> Free(t, i)[j] == t[j]
  {
    var key := t[i].name;
    assert Counted(t[i], held);
    SlotChange(t, held, i, Free(t, i)[i], held - multiset{key}, key);
    assert t[i := Free(t, i)[i]] == Free(t, i);
  }

  /** A slot allocated under the empty name still looks free: the next new name gets the same slot. */
  lemma EmptyNameIsHandedOutAgain(t: seq<Slot>, key: string)
    requires key != "" && FindMatch(t, key).None? && FindFree(t).Some?
    ensures var (r, first) := Alloc(t, ""); Alloc(r, key).1 == first && first.Some?
  {
    var (r, first) := Alloc(t, "");
    assert forall j :: 0 <= j < |t| && j != first.value ==> r[j] == t[j];
    assert FindMatch(r, key).None?;
    assert !Initialized(r[first.value]);
    var next := FindFree(r);
    assert next.value == first.value;
  }

  // ---------- histories ----------

  datatype Op = AllocOp(key: string) | FreeOp(slot: nat)

  /** The table and its holders after a history. */
  datatype State = State(table: seq<Slot>, held: multiset<string>)

  /** Callers free only what they hold. */
  predicate Legal(s: State, op: Op) {
    op.FreeOp? ==> op.slot < |s.table| && Initialized(s.table[op.slot])
  }

  function Perform(s: State, op: Op): State
    requires Legal(s, op)
  {
    match op
    case AllocOp(key) =>
      var (t, found) := Alloc(s.table, key);
      State(t, if found.Some? then s.held + multiset{key} else s.held)
    case FreeOp(i) => State(Free(s.table, i), s.held - multiset{s.table[i].name})
  }

  /** A history in which no key is empty and none is held 65535 times when it is allocated again. */
  predicate History(states: seq<State>, ops: seq<Op>, size: nat) {
    && |states| == |ops| + 1
    && states[0] == State(seq(size, _ => ZEROED), multiset{})
    && forall n :: 0 <= n < |ops| ==>
         && Legal(states[n], ops[n]) && states[n + 1] == Perform(states[n], ops[n])
         && (ops[n].AllocOp? ==> ops[n].key != "" && states[n].held[ops[n].key] + 1 < REF_COUNT_LIMIT)
  }

  /** After every history the table is an index of what is held: no two slots in use share a name, each
      count is allocations minus frees, and every held key has its slot. */
  lemma {:induction false} HistoryKeepsIndex(states: seq<State>, ops: seq<Op>, size: nat, n: nat)
    requires History(states, ops, size) && n < |states|
    ensures Index(states[n].table, states[n].held)
    ensures forall k :: states[n].held[k] < REF_COUNT_LIMIT
  {
    if n > 0 {
      HistoryKeepsIndex(states, ops, size, n - 1);
      IndexStep(states[n - 1], ops[n - 1]);
    }
  }

  lemma IndexStep(s: State, op: Op)
    requires Index(s.table, s.held) && Legal(s, op) && forall k :: s.held[k] < REF_COUNT_LIMIT
    requires op.AllocOp? ==> op.key != "" && s.held[op.key] + 1 < REF_COUNT_LIMIT
    ensures var r := Perform(s, op); Index(r.table, r.held) && forall k :: r.held[k] < REF_COUNT_LIMIT
  {
    match op
    case AllocOp(key) =>
      if Alloc(s.table, key).1.Some? {
        AllocKeepsIndex(s.table, s.held, key);
      }
    case FreeOp(i) =>
      assert Counted(s.table[i], s.held);
      FreeKeepsIndex(s.table, s.held, i);
  }

  /** A slot keeps its name as long as somebody holds it. */
  lemma {:induction false} SlotKeepsName(
    states: seq<State>, ops: seq<Op>, size: nat, from: nat, to: nat, i: nat, key: string)
    requires History(states, ops, size) && from <= to < |states| && key != ""
    requires i < |states[from].table| && states[from].table[i].name == key
    requires forall n :: from <= n <= to ==> key in states[n].held
    ensures i < |states[to].table| && states[to].table[i].name == key
  {
    hide Index, Perform, Legal;
    if from < to {
      SlotKeepsName(states, ops, size, from, to - 1, i, key);
      HistoryKeepsIndex(states, ops, size, to - 1);
      HistoryKeepsIndex(states, ops, size, to);
      NameStays(states[to - 1], ops[to - 1], i, key);
    }
  }

  lemma NameStays(s: State, op: Op, i: nat, key: string)
    requires Index(s.table, s.held) && Legal(s, op) && (forall k :: s.held[k] < REF_COUNT_LIMIT)
    requires i < |s.table| && s.table[i].name == key && key != "" && key in Perform(s, op).held
    ensures i < |Perform(s, op).table| && Perform(s, op).table[i].name == key
  {
    assert Counted(s.table[i], s.held);
    match op
    case AllocOp(k) =>
    case FreeOp(j) =>
      assert Counted(s.table[j], s.held);
      if j == i {
        FreeKeepsIndex(s.table, s.held, j);
        assert s.held[key] != 1;
      }
  }

  /** Two allocations by name, the first still held at the second: they get one slot exactly if the names are
      alike. Names that differ within the maximum length never share a slot. */
  lemma SlotsApart(
    states: seq<State>, ops: seq<Op>, size: nat, from: nat, to: nat, a: string, b: string, maxNameLength: nat)
    requires History(states, ops, size) && from < to < |ops|
    requires ops[from] == AllocOp(Key(a, maxNameLength)) && ops[to] == AllocOp(Key(b, maxNameLength))
    requires Alloc(states[from].table, Key(a, maxNameLength)).1.Some?
    requires Alloc(states[to].table, Key(b, maxNameLength)).1.Some?
    requires forall n :: from < n <= to ==> Key(a, maxNameLength) in states[n].held
    ensures Alloc(states[to].table, Key(b, maxNameLength)).1 == Alloc(states[from].table, Key(a, maxNameLength)).1
            <==> Alike(a, b, maxNameLength)
  {
    KeysOfAlike(a, b, maxNameLength);
    var key := Key(a, maxNameLength);
    var i := Alloc(states[from].table, key).1.value;
    hide Key, Alike;
    assert states[from + 1] == Perform(states[from], ops[from]);
    SlotKeepsName(states, ops, size, from + 1, to, i, key);
    HistoryKeepsIndex(states, ops, size, to);
    SlotOfName(states[to].table, states[to].held, i, Key(b, maxNameLength));
  }

  /** Where a slot has a name, an allocation gets this slot exactly if it is for this name. */
  lemma SlotOfName(t: seq<Slot>, held: multiset<string>, i: nat, key: string)
    requires Index(t, held) && i < |t| && Initialized(t[i]) && key != "" && Alloc(t, key).1.Some?
    ensures Alloc(t, key).1 == Some(i) <==> t[i].name == key
  {
    if t[i].name == key {
      assert FindMatch(t, key).Some?;
      var m := FindMatch(t, key).value;
      assert t[m].name == t[i].name;
      assert m == i;
    }
  }

  // ---------- the table in place ----------

  class StatTable {
    const slots: array<Slot>
    const maxNameLength: nat

    constructor (size: nat, maxNameLength: nat)
      ensures fresh(slots) && slots[..] == seq(size, _ => ZEROED) && this.maxNameLength == maxNameLength
    {
      slots := new Slot[size](_ => ZEROED);
      this.maxNameLength := maxNameLength;
    }

    /** The matching slot with one holder more, or else the last free slot, or nothing. */
    method AllocSlot(name: string) returns (r: Option<nat>)
      modifies slots
      ensures (slots[..], r) == Alloc(old(slots[..]), Key(name, maxNameLength))
      ensures r.Some? ==> r.value < slots.Length && slots[r.value].name <= name
                          && EndsAt(name, |slots[r.value].name|, maxNameLength)
    {
      KeyIsLongest(name, maxNameLength);
      hide FindMatch, FindFree, Key;
      var key := Key(name, maxNameLength);
      ghost var t := slots[..];
      var unused: Option<nat> := None;
      var i := 0;
      while i < slots.Length
        invariant i <= slots.Length && slots[..] == t
        invariant forall j :: 0 <= j < i ==> !(Initialized(t[j]) && t[j].name == key)
        invariant unused.Some? ==> unused.value < i && !Initialized(t[unused.value])
        invariant forall j :: 0 <= j < i && (unused.None? || unused.value < j) ==> Initialized(t[j])
      {
        if !Initialized(slots[i]) {
          unused := Some(i);
        } else if slots[i].name == key {
          SearchResults(t, key, i);
          slots[i] := slots[i].(refCount := (slots[i].refCount + 1) % REF_COUNT_LIMIT);
          return Some(i);
        }
        i := i + 1;
      }
      assert FindMatch(t, key).None?;
      if unused.Some? {
        SearchResults(t, key, unused.value);
        slots[unused.value] := Slot(key, 1);
      }
      return unused;
    }

    /** One holder less; the last one zeroes the slot. */
    method FreeSlot(i: nat)
      requires i < slots.Length
      modifies slots
      ensures slots[..] == Free(old(slots[..]), i)
    {
      var count := (slots[i].refCount + REF_COUNT_LIMIT - 1) % REF_COUNT_LIMIT;
      slots[i] := slots[i].(refCount := count);
      if count > 0 {
        return;
      }
      slots[i] := ZEROED;
    }
  }
}
