/** How one call of the rate limiter is judged and counted from the counter value that Redis returns,
    and what these judgements add up to over the calls of one window. */
module RateAccounting {
  const UINT32: nat := 0x1_0000_0000

  type uint32 = n: nat | n < UINT32

  datatype Code = OK | OVER_LIMIT

  /** The answer for one descriptor and what is added to its limit's statistics. */
  datatype Verdict = Verdict(code: Code, remaining: uint32, overLimit: nat, nearLimit: nat)

  function Max(a: int, b: int): int {
    if a > b then a else b
  }

  function Min(a: int, b: int): int {
    if a < b then a else b
  }

  /** The judgement in 32-bit arithmetic. `reply` is the counter as Redis has it. */
  function Judge(reply: int, addend: uint32, limit: uint32, near: uint32): Verdict
    requires near <= limit
  {
    var after := reply % UINT32;
    var before := (after - addend) % UINT32;
    if after > limit then
      if before >= limit then Verdict(OVER_LIMIT, 0, addend, 0)
      else Verdict(OVER_LIMIT, 0, after - limit, limit - Max(near, before))
    else
      Verdict(OK, limit - after, 0,
              if after <= near then 0 else if before >= near then addend else after - near)
  }

  /** The hits above the limit, and those between the near threshold and the limit, among the first `n`. */
  function OverHits(n: nat, limit: nat): nat {
    Max(0, n - limit)
  }

  function NearHits(n: nat, limit: nat, near: nat): nat {
    Max(0, Min(n, limit) - near)
  }

  /** Hits are numbered from one: those past the limit, and those past the near threshold but not past the
      limit. */
  predicate PastLimit(hit: nat, limit: nat) {
    hit > limit
  }

  predicate PastNear(hit: nat, limit: nat, near: nat) {
    near < hit <= limit
  }

  lemma {:induction false} HitsAreCounted(n: nat, limit: nat, near: nat)
    requires near <= limit
    ensures OverHits(n, limit) == |set h: nat | h <= n && PastLimit(h, limit)|
    ensures NearHits(n, limit, near) == |set h: nat | h <= n && PastNear(h, limit, near)|
  {
    if n == 0 {
      assert (set h: nat | h <= 0 && PastLimit(h, limit)) == {};
      assert (set h: nat | h <= 0 && PastNear(h, limit, near)) == {};
    } else {
      HitsAreCounted(n - 1, limit, near);
      OneMorePast(n, limit);
      OneMoreNear(n, limit, near);
    }
  }

  lemma OneMorePast(n: nat, limit: nat)
    requires n > 0
    ensures |set h: nat | h <= n && PastLimit(h, limit)|
            == |set h: nat | h <= n - 1 && PastLimit(h, limit)| + if n > limit then 1 else 0
  {
    var before, after := set h: nat | h <= n - 1 && PastLimit(h, limit), set h: nat | h <= n && PastLimit(h, limit);
    if n > limit {
      assert after == before + {n};
    } else {
      assert after == before;
    }
  }

  lemma OneMoreNear(n: nat, limit: nat, near: nat)
    requires n > 0
    ensures |set h: nat | h <= n && PastNear(h, limit, near)|
            == |set h: nat | h <= n - 1 && PastNear(h, limit, near)| + if near < n <= limit then 1 else 0
  {
    var before := set h: nat | h <= n - 1 && PastNear(h, limit, near);
    var after := set h: nat | h <= n && PastNear(h, limit, near);
    if near < n <= limit {
      assert after == before + {n};
    } else {
      assert after == before;
    }
  }

  /** A call sees only its own before/after pair; while the counter fits in 32 bits it counts exactly
      what the window's totals grew by. */
  lemma JudgeIsTheDifference(before: nat, addend: uint32, limit: uint32, near: uint32)
    requires near <= limit && before + addend < UINT32
    ensures var after := before + addend; var v := Judge(after, addend, limit, near);
            && (v.code == OK <==> after <= limit)
            && v.remaining == Max(0, limit - after)
            && v.overLimit == OverHits(after, limit) - OverHits(before, limit)
            && v.nearLimit == NearHits(after, limit, near) - NearHits(before, limit, near)
  {
    assert (before + addend) % UINT32 == before + addend;
    assert before % UINT32 == before;
  }

  /** The code is right exactly when the counter fits in 32 bits or its low half is over the limit too. */
  lemma TruncatedCode(reply: nat, addend: uint32, limit: uint32, near: uint32)
    requires near <= limit
    ensures (Judge(reply, addend, limit, near).code == OK <==> reply <= limit)
            <==> (reply < UINT32 || reply % UINT32 > limit)
  {
    if reply < UINT32 {
      assert reply % UINT32 == reply;
    }
  }

  /** The verdict without truncation: what a call brings the window's totals from and to. */
  function Exact(before: nat, addend: uint32, limit: uint32, near: uint32): Verdict
    requires near <= limit
  {
    var after := before + addend;
    Verdict(if after <= limit then OK else OVER_LIMIT, Max(0, limit - after),
            OverHits(after, limit) - OverHits(before, limit),
            NearHits(after, limit, near) - NearHits(before, limit, near))
  }

  /** The low half of a sum whose total has 33 bits. */
  lemma LowHalf(before: nat, addend: uint32)
    ensures var after := before + addend;
            && (after < UINT32 ==> after % UINT32 == after && (after - addend) % UINT32 == before)
            && (after >= UINT32 && before < UINT32 ==>
                  after % UINT32 == after - UINT32 < before && (after - addend) % UINT32 == before)
            && (after - addend) % UINT32 == before % UINT32
  {
  }

  /** The whole verdict, with the remaining count and both statistics, is right exactly if the counter
      fits in 32 bits or the low halves of the counter before and after the call are both at the limit,
      the one after it beyond. */
  lemma TruncatedVerdict(before: nat, addend: uint32, limit: uint32, near: uint32)
    requires near <= limit
    ensures var after := before + addend;
            Judge(after, addend, limit, near) == Exact(before, addend, limit, near)
            <==> after < UINT32 || (after % UINT32 > limit && before % UINT32 >= limit)
  {
    LowHalf(before, addend);
    if before + addend >= UINT32 && before >= UINT32 {
      HighTotals(before, addend, limit, near);
    }
  }

  /** Above 32 bits all hits are over the limit; the judgement may see them elsewhere. */
  lemma HighTotals(before: nat, addend: uint32, limit: uint32, near: uint32)
    requires near <= limit && before >= UINT32
    ensures Exact(before, addend, limit, near) == Verdict(OVER_LIMIT, 0, addend, 0)
    ensures Judge(before + addend, addend, limit, near) == Verdict(OVER_LIMIT, 0, addend, 0)
            <==> (before + addend) % UINT32 > limit && before % UINT32 >= limit
  {
    var low, high := before % UINT32, (before + addend) % UINT32;
    assert (before + addend - addend) % UINT32 == low;
    assert high == low + addend || high == low + addend - UINT32;
  }

  // ---------- one window ----------

  function Sum(addends: seq<nat>): nat {
    if addends == [] then 0 else Sum(addends[..|addends| - 1]) + addends[|addends| - 1]
  }

  /** The verdicts of a window's calls, in the order in which Redis executed them. */
  function Verdicts(addends: seq<uint32>, limit: uint32, near: uint32): (r: seq<Verdict>)
    requires near <= limit
    ensures |r| == |addends|
  {
    if addends == [] then []
    else
      Verdicts(addends[..|addends| - 1], limit, near)
      + [Judge(Sum(addends), addends[|addends| - 1], limit, near)]
  }

  function TotalOver(vs: seq<Verdict>): nat {
    if vs == [] then 0 else TotalOver(vs[..|vs| - 1]) + vs[|vs| - 1].overLimit
  }

  function TotalNear(vs: seq<Verdict>): nat {
    if vs == [] then 0 else TotalNear(vs[..|vs| - 1]) + vs[|vs| - 1].nearLimit
  }

  /** The hits of the calls that were answered OK. */
  function Admitted(addends: seq<uint32>, vs: seq<Verdict>): nat
    requires |addends| == |vs|
  {
    if vs == [] then 0
    else
      var n := |vs| - 1;
      Admitted(addends[..n], vs[..n]) + if vs[n].code == OK then addends[n] else 0
  }

  /** The statistics telescope over any run in one window, however the calls are spread over instances. */
  lemma {:induction false} StatisticsTelescope(addends: seq<uint32>, limit: uint32, near: uint32)
    requires near <= limit && Sum(addends) < UINT32
    ensures var vs := Verdicts(addends, limit, near);
            && TotalOver(vs) == OverHits(Sum(addends), limit)
            && TotalNear(vs) == NearHits(Sum(addends), limit, near)
  {
    if addends != [] {
      var n := |addends| - 1;
      StatisticsTelescope(addends[..n], limit, near);
      JudgeIsTheDifference(Sum(addends[..n]), addends[n], limit, near);
      assert Verdicts(addends, limit, near)[..n] == Verdicts(addends[..n], limit, near);
    }
  }

  /** Hits answered OK never exceed the limit, and they are all hits as long as these fit. */
  lemma {:induction false} AdmittedWithinLimit(addends: seq<uint32>, limit: uint32, near: uint32)
    requires near <= limit && Sum(addends) < UINT32
    ensures var admitted := Admitted(addends, Verdicts(addends, limit, near));
            && admitted <= Min(Sum(addends), limit)
            && (Sum(addends) <= limit ==> admitted == Sum(addends))
  {
    if addends != [] {
      var n := |addends| - 1;
      AdmittedWithinLimit(addends[..n], limit, near);
      JudgeIsTheDifference(Sum(addends[..n]), addends[n], limit, near);
      assert Verdicts(addends, limit, near)[..n] == Verdicts(addends[..n], limit, near);
    }
  }

  /** With single hits exactly the first min(n, limit) of n calls are admitted. */
  lemma {:induction false} SingleHitsAdmitted(addends: seq<uint32>, limit: uint32, near: uint32)
    requires near <= limit && |addends| < UINT32 && forall i :: 0 <= i < |addends| ==> addends[i] == 1
    ensures Sum(addends) == |addends|
    ensures var vs := Verdicts(addends, limit, near);
            && Admitted(addends, vs) == Min(|addends|, limit)
            && forall i :: 0 <= i < |vs| ==> (vs[i].code == OK <==> i < limit)
  {
    if addends != [] {
      var n := |addends| - 1;
      SingleHitsAdmitted(addends[..n], limit, near);
      JudgeIsTheDifference(Sum(addends[..n]), addends[n], limit, near);
      assert Verdicts(addends, limit, near)[..n] == Verdicts(addends[..n], limit, near);
    }
  }
}
