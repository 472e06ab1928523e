/** The counters in Redis as all service instances share them: INCRBY and EXPIRE commands of pipelined
    calls, interleaved in any way, on keys that name a time window. */
module RateStore {
  import opened Common
  import opened RateAccounting

  datatype Unit = SECOND | MINUTE | HOUR | DAY

  function UnitToDivider(unit: Unit): (divider: nat)
    ensures divider > 0
  {
    match unit
    case SECOND => 1
    case MINUTE => 60
    case HOUR => 60 * 60
    case DAY => 60 * 60 * 24
  }

  /** The windows of a unit lie in those of every longer unit: a day is a whole number of hours, an hour of
      minutes, a minute of seconds. */
  lemma UnitsNest(now: nat)
    ensures UnitToDivider(DAY) == 24 * UnitToDivider(HOUR) && UnitToDivider(HOUR) == 60 * UnitToDivider(MINUTE)
    ensures UnitToDivider(MINUTE) == 60 * UnitToDivider(SECOND) && WindowStart(now, UnitToDivider(SECOND)) == now
    ensures WindowStart(WindowStart(now, UnitToDivider(MINUTE)), UnitToDivider(HOUR))
            == WindowStart(now, UnitToDivider(HOUR))
    ensures WindowStart(WindowStart(now, UnitToDivider(HOUR)), UnitToDivider(DAY))
            == WindowStart(now, UnitToDivider(DAY))
  {
    SameWindow(now, WindowStart(now, 60), 3600, now / 3600);
    SameWindow(now, WindowStart(now, 3600), 86400, now / 86400);
  }

  /** A time and an earlier one are in the same window if the earlier one is past the window's start. */
  lemma SameWindow(now: nat, earlier: nat, divider: nat, k: nat)
    requires divider > 0 && k * divider <= earlier <= now < (k + 1) * divider
    ensures WindowStart(now, divider) == WindowStart(earlier, divider) == k * divider
  {
    QuotientIs(now, divider, k);
    QuotientIs(earlier, divider, k);
  }

  lemma QuotientIs(n: nat, divider: nat, k: nat)
    requires divider > 0 && k * divider <= n < (k + 1) * divider
    ensures n / divider == k
  {
    var q := n / divider;
    TimesMonotone(q + 1, k, divider);
    TimesMonotone(k + 1, q, divider);
  }

  lemma TimesMonotone(a: nat, b: nat, d: nat)
    ensures a <= b ==> a * d <= b * d
  {
  }

  // ---------- cache keys ----------

  datatype DescriptorEntry = DescriptorEntry(key: string, value: string)

  function Digits(n: nat): (s: string)
    ensures s != "" && forall c :: c in s ==> '0' <= c <= '9'
  {
    if n < 10 then ['0' + n as char] else Digits(n / 10) + ['0' + (n % 10) as char]
  }

  function EntriesKey(entries: seq<DescriptorEntry>): string {
    if entries == [] then ""
    else EntriesKey(entries[..|entries| - 1]) + entries[|entries| - 1].key + "_" + entries[|entries| - 1].value + "_"
  }

  /** The first second of the window that `now` lies in. */
  function WindowStart(now: nat, divider: nat): (start: nat)
    requires divider > 0
    ensures start <= now < start + divider
  {
    now / divider * divider
  }

  function CacheKey(domain: string, entries: seq<DescriptorEntry>, unit: Unit, now: nat): string {
    domain + "_" + EntriesKey(entries) + Digits(WindowStart(now, UnitToDivider(unit)))
  }

  lemma {:induction false} DigitsInjective(m: nat, n: nat)
    requires Digits(m) == Digits(n)
    ensures m == n
    decreases m
  {
    if m < 10 || n < 10 {
      assert |Digits(m)| == 1 || |Digits(n)| == 1;
      assert Digits(m)[0] == Digits(n)[0];
    } else {
      var a, b := Digits(m), Digits(n);
      assert a[..|a| - 1] == Digits(m / 10) && b[..|b| - 1] == Digits(n / 10);
      assert a[|a| - 1] == b[|b| - 1];
      DigitsInjective(m / 10, n / 10);
    }
  }

  /** One descriptor's keys coincide exactly for times in one window. */
  lemma KeySeparatesWindows(domain: string, entries: seq<DescriptorEntry>, unit: Unit, a: nat, b: nat)
    ensures CacheKey(domain, entries, unit, a) == CacheKey(domain, entries, unit, b)
            <==> WindowStart(a, UnitToDivider(unit)) == WindowStart(b, UnitToDivider(unit))
  {
    var prefix := domain + "_" + EntriesKey(entries);
    var x, y := CacheKey(domain, entries, unit, a), CacheKey(domain, entries, unit, b);
    if x == y {
      assert x[|prefix|..] == Digits(WindowStart(a, UnitToDivider(unit)));
      assert y[|prefix|..] == Digits(WindowStart(b, UnitToDivider(unit)));
      DigitsInjective(WindowStart(a, UnitToDivider(unit)), WindowStart(b, UnitToDivider(unit)));
    }
  }

  /** Keys and values in which the separator does not occur. */
  predicate Plain(entries: seq<DescriptorEntry>) {
    forall i :: 0 <= i < |entries| ==> '_' !in entries[i].key && '_' !in entries[i].value
  }

  lemma {:induction false} EntriesKeyFirst(entries: seq<DescriptorEntry>)
    requires entries != []
    ensures EntriesKey(entries) == entries[0].key + "_" + (entries[0].value + "_" + EntriesKey(entries[1..]))
  {
    var n := |entries| - 1;
    if n == 0 {
      assert entries[..0] == [] && entries[1..] == [];
    } else {
      EntriesKeyFirst(entries[..n]);
      assert entries[..n][1..] == entries[1..][..n - 1];
      assert entries[1..][n - 1] == entries[n];
      var middle := EntriesKey(entries[1..][..n - 1]);
      assert EntriesKey(entries[1..]) == middle + entries[n].key + "_" + entries[n].value + "_";
      assert EntriesKey(entries) == EntriesKey(entries[..n]) + entries[n].key + "_" + entries[n].value + "_";
      hide EntriesKey;
      Regroup(entries[0].key, entries[0].value, middle, entries[n].key, entries[n].value);
    }
  }

  lemma Regroup(key: string, value: string, middle: string, k: string, v: string)
    ensures (key + "_" + (value + "_" + middle)) + k + "_" + v + "_"
            == key + "_" + (value + "_" + (middle + k + "_" + v + "_"))
  {
    var last := k + "_" + v + "_";
    assert middle + k + "_" + v + "_" == middle + last;
    assert (key + "_" + (value + "_" + middle)) + k + "_" + v + "_" == (key + "_" + (value + "_" + middle)) + last;
  }

  /** The part before the first separator. */
  lemma FirstPart(a: string, b: string, x: string, y: string)
    requires '_' !in a && '_' !in b && a + "_" + x == b + "_" + y
    ensures a == b && x == y
  {
    var s := a + "_" + x;
    assert s[|a|] == '_' && s[|b|] == '_';
    assert forall i :: 0 <= i < |a| ==> s[i] == a[i] && a[i] in a;
    assert forall i :: 0 <= i < |b| ==> s[i] == b[i] && b[i] in b;
    assert |a| == |b|;
    assert a == s[..|a|] && b == s[..|b|];
    assert x == s[|a| + 1..] && y == s[|b| + 1..];
  }

  lemma {:induction false} EntriesKeyInjective(
    a: seq<DescriptorEntry>, b: seq<DescriptorEntry>, x: string, y: string)
    requires Plain(a) && Plain(b) && '_' !in x && '_' !in y && EntriesKey(a) + x == EntriesKey(b) + y
    ensures a == b && x == y
    decreases |a| + |b|
  {
    hide EntriesKey;
    SeparatorShows(a, x);
    SeparatorShows(b, y);
    if a == [] {
      NoEntries();
      assert "" + x == x && "" + y == y;
    } else {
      EntriesKeyFirst(a);
      EntriesKeyFirst(b);
      var p, q := EntriesKey(a[1..]) + x, EntriesKey(b[1..]) + y;
      assert EntriesKey(a) + x == a[0].key + "_" + (a[0].value + "_" + p);
      assert EntriesKey(b) + y == b[0].key + "_" + (b[0].value + "_" + q);
      FirstPart(a[0].key, b[0].key, a[0].value + "_" + p, b[0].value + "_" + q);
      FirstPart(a[0].value, b[0].value, p, q);
      EntriesKeyInjective(a[1..], b[1..], x, y);
      assert a == [a[0]] + a[1..] && b == [b[0]] + b[1..];
    }
  }

  lemma SeparatorShows(c: seq<DescriptorEntry>, u: string)
    requires '_' !in u
    ensures '_' in EntriesKey(c) + u <==> c != []
  {
    if c == [] {
      assert "" + u == u;
    } else {
      EntriesKeyFirst(c);
      assert (EntriesKey(c) + u)[|c[0].key|] == '_';
    }
  }

  lemma NoEntries()
    ensures EntriesKey([]) == ""
  {
  }

  /** Different descriptors have different counters: where the separator does not occur in domains, keys and
      values, equal cache keys mean equal domains, equal entries and equal window starts. */
  lemma KeySeparatesDescriptors(
    d1: string, e1: seq<DescriptorEntry>, u1: Unit, t1: nat, d2: string, e2: seq<DescriptorEntry>, u2: Unit, t2: nat)
    requires '_' !in d1 && '_' !in d2 && Plain(e1) && Plain(e2)
    ensures CacheKey(d1, e1, u1, t1) == CacheKey(d2, e2, u2, t2)
            <==> d1 == d2 && e1 == e2
                 && WindowStart(t1, UnitToDivider(u1)) == WindowStart(t2, UnitToDivider(u2))
  {
    hide EntriesKey, WindowStart, UnitToDivider, Plain, Digits;
    var w1, w2 := WindowStart(t1, UnitToDivider(u1)), WindowStart(t2, UnitToDivider(u2));
    if CacheKey(d1, e1, u1, t1) == CacheKey(d2, e2, u2, t2) {
      var x, y := EntriesKey(e1) + Digits(w1), EntriesKey(e2) + Digits(w2);
      assert d1 + "_" + x == CacheKey(d1, e1, u1, t1) && d2 + "_" + y == CacheKey(d2, e2, u2, t2);
      FirstPart(d1, d2, x, y);
      EntriesKeyInjective(e1, e2, Digits(w1), Digits(w2));
      DigitsInjective(w1, w2);
    }
  }

  /** The separator is not escaped: these two descriptors share their counters. */
  lemma SeparatorCollides(unit: Unit, now: nat)
    ensures CacheKey("d", [DescriptorEntry("a", "b_c_d")], unit, now)
            == CacheKey("d", [DescriptorEntry("a", "b"), DescriptorEntry("c", "d")], unit, now)
  {
    var one, two := [DescriptorEntry("a", "b_c_d")], [DescriptorEntry("a", "b"), DescriptorEntry("c", "d")];
    assert one[..0] == [] && two[..1] == [DescriptorEntry("a", "b")] && two[..1][..0] == [];
    assert EntriesKey(one) == "a_b_c_d_";
    assert EntriesKey(two[..1]) == "a_b_";
    assert EntriesKey(two) == "a_b_c_d_";
  }

  predicate IsNumeral(s: string) {
    forall i :: 0 <= i < |s| ==> '0' <= s[i] <= '9'
  }

  /** The number that a decimal numeral stands for. */
  function Numeral(s: string): nat
    requires IsNumeral(s)
  {
    if s == "" then 0 else 10 * Numeral(s[..|s| - 1]) + (s[|s| - 1] - '0') as nat
  }

  /** The window start is written in decimal, without leading zeros. */
  lemma {:induction false} DigitsAreDecimal(n: nat)
    ensures IsNumeral(Digits(n)) && Numeral(Digits(n)) == n
    ensures |Digits(n)| > 1 ==> Digits(n)[0] != '0'
  {
    var s := Digits(n);
    assert forall i :: 0 <= i < |s| ==> s[i] in s;
    if n < 10 {
      assert s[..0] == [];
    } else {
      DigitsAreDecimal(n / 10);
      assert s[..|s| - 1] == Digits(n / 10);
      assert s[0] == Digits(n / 10)[0];
      if n / 10 < 10 {
        assert Digits(n / 10) == ['0' + (n / 10) as char];
      }
    }
  }

  // ---------- the store ----------

  /** A counter and the time from which on it is gone; a key without EXPIRE stays. */
  datatype Counter = Counter(value: nat, deadline: Option<nat>)

  type Store = map<string, Counter>

  datatype Operation = IncrBy(addend: uint32) | Expire(seconds: nat)

  datatype Command = Command(at: nat, key: string, operation: Operation)

  predicate Live(store: Store, key: string, at: nat) {
    key in store && (store[key].deadline.Some? ==> at < store[key].deadline.value)
  }

  /** What a reader at time `at` finds. */
  function Value(store: Store, key: string, at: nat): nat {
    if Live(store, key, at) then store[key].value else 0
  }

  function Execute(store: Store, c: Command): Store {
    match c.operation
    case IncrBy(addend) =>
      var deadline := if Live(store, c.key, c.at) then store[c.key].deadline else None;
      store[c.key := Counter(Value(store, c.key, c.at) + addend, deadline)]
    case Expire(seconds) =>
      if Live(store, c.key, c.at) then store[c.key := store[c.key].(deadline := Some(c.at + seconds))]
      else store
  }

  function ExecuteAll(cs: seq<Command>): Store {
    if cs == [] then map[] else Execute(ExecuteAll(cs[..|cs| - 1]), cs[|cs| - 1])
  }

  /** Commands execute in the order of the one clock that all instances share. */
  predicate InClockOrder(cs: seq<Command>) {
    forall i, j :: 0 <= i < j < |cs| ==> cs[i].at <= cs[j].at
  }

  /** Every command on `key` executes in the window [start, start + divider), and its expirations are
      those the cache asks for: the divider, or more with jitter. */
  predicate KeepsWindow(cs: seq<Command>, key: string, start: nat, divider: nat) {
    forall i :: 0 <= i < |cs| && cs[i].key == key ==>
      && start <= cs[i].at < start + divider
      && (cs[i].operation.Expire? ==> cs[i].operation.seconds >= divider)
  }

  /** The addends of the INCRBY commands on `key`, in order. */
  function Addends(cs: seq<Command>, key: string): seq<uint32> {
    if cs == [] then []
    else
      var c := cs[|cs| - 1];
      Addends(cs[..|cs| - 1], key) + if c.key == key && c.operation.IncrBy? then [c.operation.addend] else []
  }

  /** The counter values that Redis replies to the INCRBY commands on `key`, in order. */
  function Replies(cs: seq<Command>, key: string): seq<nat> {
    if cs == [] then []
    else
      var n := |cs| - 1;
      Replies(cs[..n], key)
      + if cs[n].key == key && cs[n].operation.IncrBy? then [Value(ExecuteAll(cs), key, cs[n].at)] else []
  }

  /** However the commands of all instances interleave: a window's counter never expires inside the
      window, and at every moment of it the counter is the sum of the hits sent so far. */
  lemma {:induction false} CounterIsSumOfHits(cs: seq<Command>, key: string, start: nat, divider: nat, at: nat)
    requires InClockOrder(cs) && KeepsWindow(cs, key, start, divider)
    requires start <= at < start + divider && (cs != [] ==> cs[|cs| - 1].at <= at)
    ensures Value(ExecuteAll(cs), key, at) == Sum(Addends(cs, key))
    ensures Addends(cs, key) != [] ==> Live(ExecuteAll(cs), key, at)
    ensures var store := ExecuteAll(cs);
            key in store && store[key].deadline.Some? ==> store[key].deadline.value >= start + divider
  {
    if cs != [] {
      var n := |cs| - 1;
      var c := cs[n];
      var before := ExecuteAll(cs[..n]);
      CounterIsSumOfHits(cs[..n], key, start, divider, if c.key == key then c.at else at);
      OneMoreAddend(cs, key);
      hide Addends, InClockOrder, KeepsWindow, Sum;
      assert c.key == key ==> start <= c.at < start + divider
                              && (c.operation.Expire? ==> c.operation.seconds >= divider);
    }
  }

  lemma OneMoreAddend(cs: seq<Command>, key: string)
    requires cs != []
    ensures var c := cs[|cs| - 1]; var before := Addends(cs[..|cs| - 1], key);
            if c.key == key && c.operation.IncrBy? then
              Addends(cs, key) == before + [c.operation.addend]
              && Sum(Addends(cs, key)) == Sum(before) + c.operation.addend
            else Addends(cs, key) == before
  {
    var before := Addends(cs[..|cs| - 1], key);
    var a := Addends(cs, key);
    assert a != before ==> a[..|a| - 1] == before;
  }

  lemma WindowPrefix(cs: seq<Command>, place: nat, key: string, start: nat, divider: nat)
    requires InClockOrder(cs) && KeepsWindow(cs, key, start, divider) && place < |cs| && cs[place].key == key
    ensures InClockOrder(cs[..place + 1]) && KeepsWindow(cs[..place + 1], key, start, divider)
    ensures start <= cs[place].at < start + divider
  {
  }

  /** An INCRBY anywhere in a history is answered with the window's hits before it and its own. */
  lemma IncrementSeesWindow(cs: seq<Command>, place: nat, key: string, start: nat, divider: nat)
    requires InClockOrder(cs) && KeepsWindow(cs, key, start, divider)
    requires place < |cs| && cs[place].key == key && cs[place].operation.IncrBy?
    ensures var c := cs[place];
            && Addends(cs[..place + 1], key) == Addends(cs[..place], key) + [c.operation.addend]
            && Value(ExecuteAll(cs[..place + 1]), key, c.at)
               == Sum(Addends(cs[..place], key)) + c.operation.addend
  {
    var upTo := cs[..place + 1];
    assert upTo[|upTo| - 1] == cs[place] && upTo[..|upTo| - 1] == cs[..place];
    hide Addends, ExecuteAll, Value, Sum, InClockOrder, KeepsWindow;
    WindowPrefix(cs, place, key, start, divider);
    OneMoreAddend(upTo, key);
    CounterIsSumOfHits(upTo, key, start, divider, cs[place].at);
  }

  function PrefixSums(addends: seq<uint32>): (r: seq<nat>)
    ensures |r| == |addends|
  {
    if addends == [] then [] else PrefixSums(addends[..|addends| - 1]) + [Sum(addends)]
  }

  /** The i-th INCRBY of a window is answered with the sum of the first i + 1 addends. */
  lemma {:induction false} RepliesArePrefixSums(cs: seq<Command>, key: string, start: nat, divider: nat)
    requires InClockOrder(cs) && KeepsWindow(cs, key, start, divider)
    ensures Replies(cs, key) == PrefixSums(Addends(cs, key))
  {
    if cs != [] {
      var n := |cs| - 1;
      var c := cs[n];
      RepliesArePrefixSums(cs[..n], key, start, divider);
      if c.key == key && c.operation.IncrBy? {
        CounterIsSumOfHits(cs, key, start, divider, c.at);
        var a := Addends(cs, key);
        assert a[..|a| - 1] == Addends(cs[..n], key);
      } else {
        assert Addends(cs, key) == Addends(cs[..n], key);
      }
    }
  }

  /** What each instance answers to its calls: the verdicts from the replies it got. */
  function Judged(addends: seq<uint32>, replies: seq<nat>, limit: uint32, near: uint32): (r: seq<Verdict>)
    requires |addends| == |replies| && near <= limit
    ensures |r| == |addends|
  {
    seq(|addends|, i requires 0 <= i < |addends| => Judge(replies[i], addends[i], limit, near))
  }

  lemma {:induction false} JudgedPrefixSums(addends: seq<uint32>, limit: uint32, near: uint32)
    requires near <= limit
    ensures Judged(addends, PrefixSums(addends), limit, near) == Verdicts(addends, limit, near)
  {
    if addends != [] {
      var n := |addends| - 1;
      JudgedPrefixSums(addends[..n], limit, near);
      assert PrefixSums(addends)[..n] == PrefixSums(addends[..n]);
      assert Judged(addends, PrefixSums(addends), limit, near)
             == Judged(addends[..n], PrefixSums(addends[..n]), limit, near)
                + [Judge(Sum(addends), addends[n], limit, near)];
    }
  }

  /** The limiter as a whole: for any interleaving of the commands of any number of instances in one
      window, the hits answered OK never exceed the limit and the statistics of all instances together
      are those of the window's total. */
  lemma WindowIsLimited(cs: seq<Command>, key: string, start: nat, divider: nat, limit: uint32, near: uint32)
    requires InClockOrder(cs) && KeepsWindow(cs, key, start, divider) && near <= limit
    requires Sum(Addends(cs, key)) < UINT32
    ensures |Replies(cs, key)| == |Addends(cs, key)|
    ensures var total := Sum(Addends(cs, key));
            var vs := Judged(Addends(cs, key), Replies(cs, key), limit, near);
            && Admitted(Addends(cs, key), vs) <= Min(total, limit)
            && (total <= limit ==> Admitted(Addends(cs, key), vs) == total)
            && TotalOver(vs) == OverHits(total, limit)
            && TotalNear(vs) == NearHits(total, limit, near)
  {
    hide Addends, Replies, PrefixSums, Judge, Judged, Verdicts, Admitted, Sum, InClockOrder, KeepsWindow;
    RepliesArePrefixSums(cs, key, start, divider);
    JudgedPrefixSums(Addends(cs, key), limit, near);
    StatisticsTelescope(Addends(cs, key), limit, near);
    AdmittedWithinLimit(Addends(cs, key), limit, near);
  }

  /** With single hits exactly the first min(n, limit) of a window's n calls are admitted. */
  lemma WindowOfSingleHits(cs: seq<Command>, key: string, start: nat, divider: nat, limit: uint32, near: uint32)
    requires InClockOrder(cs) && KeepsWindow(cs, key, start, divider) && near <= limit
    requires forall a :: a in Addends(cs, key) ==> a == 1
    requires |Addends(cs, key)| < UINT32
    ensures |Replies(cs, key)| == |Addends(cs, key)|
    ensures var vs := Judged(Addends(cs, key), Replies(cs, key), limit, near);
            && Admitted(Addends(cs, key), vs) == Min(|Addends(cs, key)|, limit)
            && forall i :: 0 <= i < |vs| ==> (vs[i].code == OK <==> i < limit)
  {
    hide Addends, Replies, PrefixSums, Judge, Judged, Verdicts, Admitted, Sum, InClockOrder, KeepsWindow;
    var addends := Addends(cs, key);
    assert forall i :: 0 <= i < |addends| ==> addends[i] in addends;
    RepliesArePrefixSums(cs, key, start, divider);
    JudgedPrefixSums(addends, limit, near);
    SingleHitsAdmitted(addends, limit, near);
  }

  /** The hits that a history loses: what a counter held when an INCRBY found it gone. */
  function Lost(cs: seq<Command>, key: string): nat {
    if cs == [] then 0
    else
      var c := cs[|cs| - 1];
      var before := ExecuteAll(cs[..|cs| - 1]);
      Lost(cs[..|cs| - 1], key)
      + if c.key == key && c.operation.IncrBy? && key in before && !Live(before, key, c.at)
        then before[key].value else 0
  }

  lemma {:induction false} LostAndHeld(cs: seq<Command>, key: string)
    ensures var store := ExecuteAll(cs);
            Sum(Addends(cs, key)) == Lost(cs, key) + if key in store then store[key].value else 0
  {
    if cs != [] {
      LostAndHeld(cs[..|cs| - 1], key);
      OneMoreAddend(cs, key);
    }
  }

  /** Over any history, late commands and all: a reader finds the sum of the hits exactly if no INCRBY lost
      any and the counter is not gone with hits in it. */
  lemma CountIsCompleteExactly(cs: seq<Command>, key: string, at: nat)
    ensures var store := ExecuteAll(cs);
            Value(store, key, at) == Sum(Addends(cs, key))
            <==> Lost(cs, key) == 0 && (key in store && store[key].value > 0 ==> Live(store, key, at))
  {
    LostAndHeld(cs, key);
  }

  /** A command that executes late, when the counter it belongs to may be gone: an INCRBY continues the
      count exactly when the counter is still alive or was empty. */
  lemma LateIncrement(store: Store, key: string, at: nat, addend: uint32)
    requires key in store
    ensures Value(Execute(store, Command(at, key, IncrBy(addend))), key, at) == store[key].value + addend
            <==> Live(store, key, at) || store[key].value == 0
  {
  }

  /** The smallest failing run: with the shortest expiration, a call that read the clock in the window
      but whose commands execute at the window's end starts a new count under the old key. */
  lemma LateCallRestartsTheCount(key: string, start: nat, divider: nat, addend: uint32)
    requires divider > 0 && addend > 0
    ensures var cs := [Command(start, key, IncrBy(addend)), Command(start, key, Expire(divider)),
                       Command(start + divider, key, IncrBy(addend))];
            InClockOrder(cs) && Replies(cs, key) == [addend, addend]
  {
    var a, b, c := Command(start, key, IncrBy(addend)), Command(start, key, Expire(divider)),
                   Command(start + divider, key, IncrBy(addend));
    var cs := [a, b, c];
    assert cs[..2] == [a, b] && [a, b][..1] == [a] && [a][..0] == [];
    assert ExecuteAll([a]) == map[key := Counter(addend, None)];
    assert ExecuteAll([a, b]) == map[key := Counter(addend, Some(start + divider))];
    assert Replies([a], key) == [addend];
    assert Replies([a, b], key) == [addend];
  }
}
