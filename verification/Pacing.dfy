/** Application pacing: when a sender may send, and how long it sleeps when it is ahead. */
module Pacing {
  const SEC_TO_NS: nat := 1000000000

  /** After a sleep of so many nanoseconds the bits sent are no less than the target rate allows by
      then, and over it by less than a bit and a nanosecond's worth. */
  predicate OnTarget(rate: nat, seconds: real, bits: nat, sleep: nat) {
    var later := seconds + sleep as real / SEC_TO_NS as real;
    && rate as real * later <= bits as real
    && bits as real < rate as real * later + 1.0 + rate as real / SEC_TO_NS as real
  }

  /** A sender and its target rate in bits per second; 0 is no limit. */
  class Pacer {
    const rate: nat
    var greenLight: bool

    constructor (rate: nat)
      ensures this.rate == rate
    {
      this.rate, greenLight := rate, true;
    }

    /** iperf_check_throttle, so many seconds after the start with so many bytes sent. It returns how
        long it sleeps, in nanoseconds; interrupted says that the sleep is cut short. Behind the
        target it may send at once; less than one bit per second ahead it may not, but does not
        sleep; further ahead it sleeps until the target is met. */
    method CheckThrottle(done: bool, seconds: real, bytesSent: nat, interrupted: bool) returns (sleep: nat)
      requires seconds > 0.0
      modifies this
      ensures done || rate == 0 ==> sleep == 0 && greenLight == old(greenLight)
      ensures !done && rate != 0 ==>
        var bits := 8 * bytesSent;
        if bits as real < rate as real * seconds then greenLight && sleep == 0
        else if bits as real < (rate + 1) as real * seconds then !greenLight && sleep == 0
        else greenLight == !interrupted && OnTarget(rate, seconds, bits, sleep)
    {
      hide OnTarget;
      if done || rate == 0 {
        return 0;
      }
      var bitsSent := bytesSent * 8;
      var bitsPerSecond := (bitsSent as real / seconds).Floor;
      var missingRate := rate - bitsPerSecond;
      RateBelow(bitsSent as real, seconds, rate);
      RateBelow(bitsSent as real, seconds, rate + 1);
      greenLight := missingRate > 0;
      sleep := 0;
      if missingRate < 0 {
        Ahead(bitsSent as real, seconds, rate);
        var deltaBits := (bitsSent as real - seconds * rate as real).Floor;
        sleep := SEC_TO_NS * deltaBits / rate;
        Reaches(rate, seconds, bitsSent, deltaBits, sleep);
        greenLight := !interrupted;
      }
    }
  }

  lemma RateBelow(bits: real, seconds: real, rate: int)
    requires seconds > 0.0
    ensures (bits / seconds).Floor < rate <==> bits < rate as real * seconds
  {
    var x := bits / seconds;
    assert x * seconds == bits;
    if x < rate as real {
      Scaled(x, rate as real, seconds);
    } else {
      assert (rate as real - x) * seconds <= 0.0;
    }
  }

  lemma Scaled(x: real, y: real, k: real)
    requires x < y && k > 0.0
    ensures x * k < y * k
  {
    assert (y - x) * k > 0.0;
  }

  lemma Ahead(bits: real, seconds: real, rate: nat)
    requires seconds > 0.0 && bits >= (rate + 1) as real * seconds
    ensures bits - seconds * rate as real >= 0.0
  {
    assert (rate + 1) as real * seconds == rate as real * seconds + seconds;
  }

  /** The two roundings, to whole bits and to whole nanoseconds, both go down. */
  lemma Reaches(rate: nat, seconds: real, bits: nat, delta: nat, sleep: nat)
    requires rate > 0 && sleep == SEC_TO_NS * delta / rate
    requires delta as real <= bits as real - seconds * rate as real < delta as real + 1.0
    ensures OnTarget(rate, seconds, bits, sleep)
  {
    assert sleep * rate <= SEC_TO_NS * delta < (sleep + 1) * rate by {
      Quotient(SEC_TO_NS * delta, rate);
    }
    var n, r, s := SEC_TO_NS as real, rate as real, sleep as real;
    assert (sleep * rate) as real == s * r && (SEC_TO_NS * delta) as real == n * delta as real;
    assert ((sleep + 1) * rate) as real == s * r + r;
    assert r * (s / n) * n == s * r;
    assert r * (seconds + s / n) == r * seconds + r * (s / n);
    assert (r / n) * n == r;
  }

  lemma Quotient(a: nat, b: nat)
    requires b > 0
    ensures a / b * b <= a < (a / b + 1) * b
  {
    assert a == a / b * b + a % b;
  }

  // ---------- the two ways to sleep ----------

  /** With clock_nanosleep: the end of the sleep as an absolute time. */
  method AbsoluteEnd(sec: nat, nsec: nat, sleep: nat) returns (endSec: nat, endNsec: nat)
    requires nsec < SEC_TO_NS
    ensures endNsec < SEC_TO_NS && endSec * SEC_TO_NS + endNsec == sec * SEC_TO_NS + nsec + sleep
  {
    var ns := nsec + sleep;
    endSec := sec;
    if ns < SEC_TO_NS {
      endNsec := ns;
    } else {
      endSec := endSec + ns / SEC_TO_NS;
      endNsec := ns % SEC_TO_NS;
    }
  }

  function Sum(s: seq<nat>): nat {
    if s == [] then 0 else Sum(s[..|s| - 1]) + s[|s| - 1]
  }

  /** With nanosleep: slices of less than a second that add up to the whole sleep, when none of them
      is interrupted. */
  method Slices(sleep: nat) returns (slices: seq<nat>)
    ensures slices != [] && Sum(slices) == sleep
    ensures forall i :: 0 <= i < |slices| ==> slices[i] < SEC_TO_NS
  {
    var left: nat := sleep;
    slices := [];
    var first := true;
    while first || left > 0
      invariant Sum(slices) + left == sleep && (first <==> slices == [])
      invariant forall i :: 0 <= i < |slices| ==> slices[i] < SEC_TO_NS
      decreases first, left
    {
      first := false;
      var nsec: nat := if left >= SEC_TO_NS then SEC_TO_NS - 1 else left;
      left := left - nsec;
      assert (slices + [nsec])[..|slices|] == slices;
      slices := slices + [nsec];
    }
  }
}
