/** iperf's clock readings: seconds and microseconds in 32 bits each. */
module IperfTime {
  type uint32 = n: int | 0 <= n < 0x1_0000_0000
  type int64 = n: int | -0x8000_0000_0000_0000 <= n < 0x8000_0000_0000_0000

  const MILLION: nat := 1000000
  /** One more than the largest time, in microseconds. */
  const HORIZON: nat := 0x1_0000_0000 * MILLION

  datatype Time = Time(secs: uint32, usecs: uint32)

  predicate Normal(t: Time) {
    t.usecs < MILLION
  }

  /** iperf_time_in_usecs; 64 bits hold it. */
  function InUsecs(t: Time): nat {
    t.secs * MILLION + t.usecs
  }

  /** iperf_time_add_usecs: the sum is taken in 64 bits, where a negative number of microseconds
      is a large one, and the seconds are cut off to 32. */
  function AddUsecs(t: Time, usecs: int64): (r: Time)
    ensures Normal(r)
  {
    var total := (t.usecs + usecs) % 0x1_0000_0000_0000_0000;
    Time((t.secs + total / MILLION) % 0x1_0000_0000, total % MILLION)
  }

  /** A time and a wait whose sum is still a time. */
  predicate Fits(t: Time, usecs: int64) {
    usecs >= 0 && InUsecs(t) + usecs < HORIZON
  }

  /** Adding moves the time on by that many microseconds exactly when the seconds do not run over. */
  lemma {:induction false} AddUsecsIsAddition(t: Time, usecs: int64)
    requires usecs >= 0 && Normal(t)
    ensures InUsecs(AddUsecs(t, usecs)) == (InUsecs(t) + usecs) % HORIZON
    ensures InUsecs(AddUsecs(t, usecs)) == InUsecs(t) + usecs <==> Fits(t, usecs)
  {
    Added(t, usecs, t.usecs + usecs);
  }

  /** Taking microseconds away goes wrong exactly when a second has to be borrowed: then 2^64 of them are
      added. */
  lemma {:induction false} TakingAway(t: Time, usecs: int64)
    requires usecs < 0 && Normal(t)
    ensures InUsecs(AddUsecs(t, usecs))
         == (InUsecs(t) + usecs + if t.usecs + usecs < 0 then 0x1_0000_0000_0000_0000 else 0) % HORIZON
    ensures InUsecs(AddUsecs(t, usecs)) == InUsecs(t) + usecs <==> t.usecs + usecs >= 0
  {
    Added(t, usecs, t.usecs + usecs + if t.usecs + usecs < 0 then 0x1_0000_0000_0000_0000 else 0);
  }

  /** The sum of the microseconds in 64 bits is total. */
  lemma {:induction false} Added(t: Time, usecs: int64, total: nat)
    requires total == (t.usecs + usecs) % 0x1_0000_0000_0000_0000
    ensures InUsecs(AddUsecs(t, usecs)) == (t.secs * MILLION + total) % HORIZON
    ensures InUsecs(AddUsecs(t, usecs)) == t.secs * MILLION + total <==> t.secs * MILLION + total < HORIZON
    ensures AddUsecs(t, usecs).usecs == total % MILLION
  {
    var q, r := total / MILLION, total % MILLION;
    var w, low := (t.secs + q) / 0x1_0000_0000, (t.secs + q) % 0x1_0000_0000;
    assert total == q * MILLION + r && t.secs + q == w * 0x1_0000_0000 + low;
    hide InUsecs;
    assert AddUsecs(t, usecs) == Time(low, r);
    hide AddUsecs;
    assert InUsecs(Time(low, r)) == low * MILLION + r by {
      TimeIs(low, r);
    }
    Carry(w, low, r);
  }

  lemma TimeIs(secs: uint32, usecs: uint32)
    ensures InUsecs(Time(secs, usecs)) == secs * MILLION + usecs
  {
  }

  lemma Carry(w: nat, low: nat, r: nat)
    requires low < 0x1_0000_0000 && r < MILLION
    ensures ((w * 0x1_0000_0000 + low) * MILLION + r) % HORIZON == low * MILLION + r
    ensures w == 0 <==> (w * 0x1_0000_0000 + low) * MILLION + r < HORIZON
  {
    Remainder(w, low * MILLION + r);
  }

  lemma {:induction false} Remainder(w: nat, low: nat)
    requires low < HORIZON
    ensures (w * HORIZON + low) % HORIZON == low
  {
    if w > 0 {
      Remainder(w - 1, low);
      assert (w * HORIZON + low) - HORIZON == (w - 1) * HORIZON + low;
    }
  }

  /** iperf_time_compare. */
  function Compare(a: Time, b: Time): (r: int)
    ensures Normal(a) && Normal(b) ==>
      r == if InUsecs(a) < InUsecs(b) then -1 else if InUsecs(a) > InUsecs(b) then 1 else 0
  {
    if a.secs < b.secs then -1
    else if a.secs > b.secs then 1
    else if a.usecs < b.usecs then -1
    else if a.usecs > b.usecs then 1
    else 0
  }

  /** Sum and difference of unsigned 32-bit numbers. */
  function Plus(a: uint32, b: uint32): (r: uint32)
    ensures r == (a + b) % 0x1_0000_0000
  {
    if a + b < 0x1_0000_0000 then a + b else a + b - 0x1_0000_0000
  }

  function Minus(a: uint32, b: uint32): (r: uint32)
    ensures r == (a - b) % 0x1_0000_0000
  {
    if a >= b then a - b else a - b + 0x1_0000_0000
  }

  /** From the earlier time to the later one. */
  function Span(early: Time, late: Time): Time
    requires Compare(early, late) < 0
  {
    if late.usecs < early.usecs then
      Time(late.secs - early.secs - 1, Minus(Plus(late.usecs, MILLION), early.usecs))
    else Time(late.secs - early.secs, late.usecs - early.usecs)
  }

  /** What iperf_time_diff leaves in diff. */
  function Distance(a: Time, b: Time): (d: Time)
    ensures Normal(a) && Normal(b) ==>
      Normal(d) && InUsecs(d) == if InUsecs(a) <= InUsecs(b) then InUsecs(b) - InUsecs(a) else InUsecs(a) - InUsecs(b)
  {
    if Compare(a, b) == 0 then Time(0, 0) else if Compare(a, b) < 0 then Span(a, b) else Span(b, a)
  }

  /** iperf_time_diff: how far apart two times are, and whether a is no later than b. */
  method Diff(a: Time, b: Time) returns (past: bool, diff: Time)
    ensures past <==> Compare(a, b) <= 0
    ensures diff == Distance(a, b)
  {
    past := false;
    var cmp := Compare(a, b);
    var secs: uint32, usecs: uint32 := 0, 0;
    if cmp == 0 {
      past := true;
    } else if cmp == 1 {
      secs := a.secs - b.secs;
      usecs := a.usecs;
      if usecs < b.usecs {
        secs := secs - 1;
        usecs := Plus(usecs, MILLION);
      }
      usecs := Minus(usecs, b.usecs);
    } else {
      secs := b.secs - a.secs;
      usecs := b.usecs;
      if usecs < a.usecs {
        secs := secs - 1;
        usecs := Plus(usecs, MILLION);
      }
      usecs := Minus(usecs, a.usecs);
      past := true;
    }
    diff := Time(secs, usecs);
  }
}
