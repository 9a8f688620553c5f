/** UDP sequence numbers: how the sender numbers its packets and what the receiver's counters say
    about the numbers it saw. */
module Udp {
  import opened Bytes
  import opened IperfTime
  import opened Sequences
  import Protocol

  // ---------- the receiver's counters as a function of the numbers received ----------

  datatype Counters = Counters(packetCount: nat, cntError: nat, outOfOrder: nat)

  /** What one packet's number does to the counters. */
  function Receive(c: Counters, n: nat): Counters {
    if n >= c.packetCount + 1 then c.(packetCount := n, cntError := c.cntError + (n - 1 - c.packetCount))
    else c.(outOfOrder := c.outOfOrder + 1, cntError := if c.cntError > 0 then c.cntError - 1 else 0)
  }

  function Account(ns: seq<nat>): Counters {
    if ns == [] then Counters(0, 0, 0) else Receive(Account(ns[..|ns| - 1]), ns[|ns| - 1])
  }

  lemma AccountAppend(ns: seq<nat>, n: nat)
    ensures Account(ns + [n]) == Receive(Account(ns), n)
  {
    assert (ns + [n])[..|ns|] == ns;
  }

  // ---------- what they mean ----------

  /** The numbers from 1 to k that were not received. */
  function Missing(ns: seq<nat>, k: nat): set<nat> {
    set m: nat | 1 <= m <= k && m !in ns
  }

  /** 1 to k. */
  function Numbers(k: nat): (r: set<nat>)
    ensures forall m :: m in r <==> 1 <= m <= k
    ensures |r| == k
  {
    if k == 0 then {} else Numbers(k - 1) + {k}
  }

  predicate Positive(ns: seq<nat>) {
    forall i :: 0 <= i < |ns| ==> ns[i] > 0
  }

  /** packet_count is the highest number received. */
  lemma {:induction false} HighestNumber(ns: seq<nat>)
    requires Positive(ns)
    ensures forall i :: 0 <= i < |ns| ==> ns[i] <= Account(ns).packetCount
    ensures Account(ns).packetCount == 0 || Account(ns).packetCount in ns
    ensures Account(ns).packetCount == 0 <==> ns == []
  {
    if ns != [] {
      var front := ns[..|ns| - 1];
      HighestNumber(front);
      assert forall i :: 0 <= i < |front| ==> ns[i] == front[i];
      assert ns[|ns| - 1] in ns;
      if front != [] {
        assert Account(front).packetCount in front;
      }
    }
  }

  /** A packet that opens a gap adds the numbers in it to the missing ones. */
  lemma MissingForward(ns: seq<nat>, n: nat, k: nat)
    requires n > k && forall m :: m in ns ==> m <= k
    ensures |Missing(ns + [n], n)| == |Missing(ns, k)| + (n - 1 - k)
  {
    var gap := Numbers(n - 1) - Numbers(k);
    assert Numbers(k) <= Numbers(n - 1);
    forall m: nat ensures m in Missing(ns + [n], n) <==> m in Missing(ns, k) + gap {
      assert m in ns + [n] <==> m in ns || m == n;
    }
    assert Missing(ns + [n], n) == Missing(ns, k) + gap;
    hide Missing, Numbers;
    assert |Numbers(n - 1) - Numbers(k)| == |Numbers(n - 1)| - |Numbers(k)|;
  }

  /** A late packet takes its own number away, if that was missing. */
  lemma MissingBackward(ns: seq<nat>, n: nat, k: nat)
    requires 0 < n <= k
    ensures |Missing(ns + [n], k)| == |Missing(ns, k)| - if n in ns then 0 else 1
    ensures n !in ns ==> |Missing(ns, k)| > 0
  {
    forall m: nat ensures m in Missing(ns + [n], k) <==> m in Missing(ns, k) - {n} {
      assert m in ns + [n] <==> m in ns || m == n;
    }
    assert Missing(ns + [n], k) == Missing(ns, k) - {n};
    assert n in Missing(ns, k) <==> n !in ns;
  }

  lemma NothingMissing()
    ensures Missing([], 0) == {}
  {
  }

  /** Whatever is lost, reordered or duplicated: the losses counted are at most the numbers missing
      up to the highest one, and at least what the number of packets received leaves open. */
  lemma {:induction false} LossesBounded(ns: seq<nat>)
    requires Positive(ns)
    ensures var c := Account(ns);
      && c.cntError <= |Missing(ns, c.packetCount)|
      && c.packetCount <= c.cntError + |ns|
  {
    hide Missing;
    if ns == [] {
      NothingMissing();
    } else {
      var front, n := ns[..|ns| - 1], ns[|ns| - 1];
      assert ns == front + [n];
      LossesBounded(front);
      HighestNumber(front);
      var k := Account(front).packetCount;
      if n > k {
        MissingForward(front, n, k);
      } else {
        MissingBackward(front, n, k);
      }
    }
  }

  /** Without duplicates the losses counted are exactly the missing numbers, and every number up to
      the highest is accounted for as received or lost. */
  lemma {:induction false} LossesExact(ns: seq<nat>)
    requires Positive(ns) && Distinct(ns)
    ensures var c := Account(ns);
      && c.cntError == |Missing(ns, c.packetCount)|
      && c.packetCount == c.cntError + |ns|
  {
    hide Distinct, Positive, Missing;
    if ns == [] {
      NothingMissing();
    } else {
      var front, n := ns[..|ns| - 1], ns[|ns| - 1];
      Fresh(ns);
      LossesExact(front);
      HighestNumber(front);
      assert front + [n] == ns;
      var k := Account(front).packetCount;
      if n > k {
        MissingForward(front, n, k);
      } else {
        MissingBackward(front, n, k);
      }
    }
  }

  lemma Fresh(ns: seq<nat>)
    requires Positive(ns) && Distinct(ns) && ns != []
    ensures var front := ns[..|ns| - 1];
      Positive(front) && Distinct(front) && ns[|ns| - 1] !in front && ns[|ns| - 1] > 0
  {
  }

  /** Every packet sent is received, counted as lost, or numbered above the highest one received. */
  lemma SentAccountedFor(sent: nat, ns: seq<nat>)
    requires Distinct(ns) && forall i :: 0 <= i < |ns| ==> 1 <= ns[i] <= sent
    ensures var c := Account(ns);
      c.packetCount <= sent && sent == |ns| + c.cntError + (sent - c.packetCount)
  {
    LossesExact(ns);
    HighestNumber(ns);
  }

  // ---------- duplicates ----------

  /** How many of the packets came again. */
  ghost function Duplicates(ns: seq<nat>): int {
    |ns| - |Members(ns)|
  }

  /** No number up to the highest one is missing. */
  predicate Complete(ns: seq<nat>) {
    Missing(ns, Account(ns).packetCount) == {}
  }

  /** How far the packets received were ever ahead of the highest number: late packets that found no
      loss to take back. */
  function Surplus(ns: seq<nat>): (r: nat)
    ensures |ns| - Account(ns).packetCount <= r
  {
    if ns == [] then 0
    else
      var before, here := Surplus(ns[..|ns| - 1]), |ns| - Account(ns).packetCount;
      if here > before then here else before
  }

  lemma {:induction false} ErrorsAndSurplus(ns: seq<nat>)
    ensures var c := Account(ns); c.cntError == c.packetCount - |ns| + Surplus(ns)
  {
    if ns != [] {
      ErrorsAndSurplus(ns[..|ns| - 1]);
    }
  }

  lemma {:induction false} MissingCount(ns: seq<nat>)
    requires Positive(ns)
    ensures var k := Account(ns).packetCount; |Missing(ns, k)| == k - |Members(ns)|
  {
    HighestNumber(ns);
    var k, received := Account(ns).packetCount, Members(ns);
    assert Missing(ns, k) == Numbers(k) - received;
    assert received <= Numbers(k);
    hide Missing, Numbers, Members;
    assert |Numbers(k) - received| == |Numbers(k)| - |received|;
  }

  lemma DuplicatesGrow(ns: seq<nat>)
    requires ns != []
    ensures var front, n := ns[..|ns| - 1], ns[|ns| - 1];
      Duplicates(ns) == Duplicates(front) + if n in front then 1 else 0
  {
    var front, n := ns[..|ns| - 1], ns[|ns| - 1];
    assert ns == front + [n];
    assert Members(ns) == Members(front) + {n};
    if n in front {
      assert Members(ns) == Members(front);
    } else {
      assert n !in Members(front);
    }
  }

  lemma {:induction false} DuplicatesOfPrefix(ns: seq<nat>, k: nat)
    requires k <= |ns|
    ensures Duplicates(ns[..k]) <= Duplicates(ns)
    decreases |ns|
  {
    if k == |ns| {
      assert ns[..k] == ns;
    } else {
      var front := ns[..|ns| - 1];
      DuplicatesGrow(ns);
      DuplicatesOfPrefix(front, k);
      assert front[..k] == ns[..k];
    }
  }

  /** A prefix is ahead by its duplicates less its missing numbers. */
  lemma Ahead(ns: seq<nat>)
    requires Positive(ns)
    ensures |ns| - Account(ns).packetCount <= Duplicates(ns)
    ensures |ns| - Account(ns).packetCount == Duplicates(ns) <==> Complete(ns)
  {
    MissingCount(ns);
  }

  /** Some prefix is ahead by the whole surplus. */
  lemma {:induction false} SurplusReached(ns: seq<nat>) returns (k: nat)
    requires Positive(ns)
    ensures k <= |ns| && Surplus(ns) == k - Account(ns[..k]).packetCount
  {
    if ns == [] {
      k := 0;
    } else {
      var front := ns[..|ns| - 1];
      if |ns| - Account(ns).packetCount > Surplus(front) {
        k := |ns|;
        assert ns[..k] == ns;
      } else {
        k := SurplusReached(front);
        assert front[..k] == ns[..k];
      }
    }
  }

  lemma {:induction false} SurplusBounds(ns: seq<nat>, k: nat)
    requires k <= |ns|
    ensures k - Account(ns[..k]).packetCount <= Surplus(ns)
    decreases |ns|
  {
    if k == |ns| {
      assert ns[..k] == ns;
    } else {
      var front := ns[..|ns| - 1];
      SurplusBounds(front, k);
      assert front[..k] == ns[..k];
    }
  }

  /** With duplicates, the losses counted are the numbers missing if and only if at some moment
      nothing was missing and every duplicate there is had come already. */
  lemma LossesExactlyWhen(ns: seq<nat>)
    requires Positive(ns)
    ensures var c := Account(ns);
      c.cntError == |Missing(ns, c.packetCount)|
      <==> exists k :: 0 <= k <= |ns| && Complete(ns[..k]) && Duplicates(ns[..k]) == Duplicates(ns)
  {
    hide Account, Missing, Complete, Surplus, Duplicates, Members;
    ErrorsAndSurplus(ns);
    MissingCount(ns);
    assert Duplicates(ns) == |ns| - |Members(ns)| by {
      DuplicatesIs(ns);
    }
    var k := SurplusReached(ns);
    Ahead(ns[..k]);
    DuplicatesOfPrefix(ns, k);
    forall i | 0 <= i <= |ns| && Complete(ns[..i]) && Duplicates(ns[..i]) == Duplicates(ns)
      ensures Surplus(ns) >= Duplicates(ns)
    {
      SurplusBounds(ns, i);
      Ahead(ns[..i]);
    }
  }

  lemma DuplicatesIs(ns: seq<nat>)
    ensures Duplicates(ns) == |ns| - |Members(ns)|
  {
  }

  /** Duplicates hide losses: 1, 3, 3 counts nothing lost although 2 is missing. */
  lemma DuplicateHidesLoss()
    ensures var ns: seq<nat> := [1, 3, 3]; Account(ns).cntError == 0 && |Missing(ns, Account(ns).packetCount)| == 1
  {
    var ns: seq<nat> := [1, 3, 3];
    hide Missing;
    assert ns[..2] == [1, 3] && [1, 3][..1] == [1];
    assert Account([1]) == Counters(1, 0, 0);
    assert Account([1, 3]) == Counters(3, 1, 0);
    assert Account(ns) == Counters(3, 0, 1);
    OnlyTwoMissing();
  }

  lemma OnlyTwoMissing()
    ensures |Missing([1, 3, 3], 3)| == 1
  {
    var ns: seq<nat> := [1, 3, 3];
    assert ns[0] == 1 && ns[1] == 3 && ns[2] == 3;
    assert Missing(ns, 3) == {2};
  }

  // ---------- packets out of order ----------

  /** The packet is above all before it. */
  predicate InOrder(ns: seq<nat>, i: nat)
    requires i < |ns|
  {
    ns[i] > 0 && forall j :: 0 <= j < i ==> ns[j] < ns[i]
  }

  function Late(ns: seq<nat>): set<nat> {
    set i: nat | i < |ns| && !InOrder(ns, i)
  }

  /** Every packet that is not above all before it counts as out of order, and no other. */
  lemma {:induction false} OutOfOrderCounts(ns: seq<nat>)
    ensures Account(ns).outOfOrder == |Late(ns)|
  {
    hide InOrder, Late, Account;
    if ns == [] {
      NoneLate();
    } else {
      var front, x := ns[..|ns| - 1], ns[|ns| - 1];
      assert ns == front + [x];
      OutOfOrderCounts(front);
      AccountAppend(front, x);
      HighestSoFar(front);
      OneMore(front, x, Account(front).packetCount);
    }
  }

  lemma NoneLate()
    ensures Late([]) == {} && Account([]) == Counters(0, 0, 0)
  {
  }

  lemma OneMore(ns: seq<nat>, x: nat, highest: nat)
    requires (forall i :: 0 <= i < |ns| ==> ns[i] <= highest) && (highest > 0 ==> highest in ns)
    ensures Late(ns + [x]) == Late(ns) + if x > highest then {} else {|ns|}
    ensures |Late(ns + [x])| == |Late(ns)| + if x > highest then 0 else 1
  {
    var more := ns + [x];
    forall i: nat | i < |ns| ensures InOrder(more, i) <==> InOrder(ns, i) {
      assert more[i] == ns[i] && forall j :: 0 <= j < i ==> more[j] == ns[j];
    }
    assert more[|ns|] == x && forall j :: 0 <= j < |ns| ==> more[j] == ns[j];
    assert InOrder(more, |ns|) <==> x > highest;
    assert |ns| !in Late(ns);
    hide InOrder;
    assert Late(more) == Late(ns) + if x > highest then {} else {|ns|};
  }

  lemma {:induction false} HighestSoFar(ns: seq<nat>)
    ensures forall i :: 0 <= i < |ns| ==> ns[i] <= Account(ns).packetCount
    ensures Account(ns).packetCount > 0 ==> Account(ns).packetCount in ns
  {
    if ns != [] {
      var front := ns[..|ns| - 1];
      HighestSoFar(front);
      assert ns == front + [ns[|ns| - 1]];
    }
  }

  // ---------- packets ----------

  /** The start of every packet: send time and number, in network byte order. */
  function Header(counters64: bool, time: Time, n: nat): (r: bytes)
    requires n < 0x1_0000_0000_0000_0000
    ensures |r| == if counters64 then 16 else 12
  {
    Protocol.BigEndian(time.secs) + Protocol.BigEndian(time.usecs)
    + (if counters64 then Protocol.BigEndian(n / 0x1_0000_0000) else []) + Protocol.BigEndian(n % 0x1_0000_0000)
  }

  function HeaderTime(s: bytes): Time
    requires |s| >= 8
  {
    Time(Protocol.FromBigEndian(s), Protocol.FromBigEndian(s[4..]))
  }

  function HeaderNumber(counters64: bool, s: bytes): nat
    requires |s| >= if counters64 then 16 else 12
  {
    if counters64 then Protocol.FromBigEndian(s[8..]) * 0x1_0000_0000 + Protocol.FromBigEndian(s[12..])
    else Protocol.FromBigEndian(s[8..])
  }

  /** The receiver reads the time and the number the sender wrote; 32-bit counters only keep the low
      bits of the number. */
  lemma HeaderRoundTrip(counters64: bool, time: Time, n: nat, payload: bytes)
    requires n < 0x1_0000_0000_0000_0000
    ensures var s := Header(counters64, time, n) + payload;
      && HeaderTime(s) == time
      && HeaderNumber(counters64, s) == if counters64 then n else n % 0x1_0000_0000
  {
    var s := Header(counters64, time, n) + payload;
    var high, low := Protocol.BigEndian(n / 0x1_0000_0000), Protocol.BigEndian(n % 0x1_0000_0000);
    var rest := (if counters64 then high else []) + low + payload;
    Protocol.LengthRoundTrip(time.secs, Protocol.BigEndian(time.usecs) + rest);
    Protocol.LengthRoundTrip(time.usecs, rest);
    Protocol.LengthRoundTrip(n % 0x1_0000_0000, payload);
    hide Protocol.BigEndian, Protocol.FromBigEndian;
    assert s == Protocol.BigEndian(time.secs) + (Protocol.BigEndian(time.usecs) + rest);
    assert s[4..] == Protocol.BigEndian(time.usecs) + rest;
    if counters64 {
      Protocol.LengthRoundTrip(n / 0x1_0000_0000, low + payload);
      assert s[8..] == high + (low + payload) && s[12..] == low + payload;
    } else {
      assert s[8..] == low + payload;
    }
  }

  /** A UDP stream: the fields both directions use, the numbers that went through, and how long the
      packets were on their way; since is where the jitter starts to count after the omit period. */
  class UdpStream {
    const counters64: bool
    const buffer: array<byte>
    var packetCount: nat
    var cntError: nat
    var outOfOrder: nat
    var jitter: real
    var prevTransit: real
    var bytesSent: nat
    var bytesSentThisInterval: nat
    var bytesReceived: nat
    var bytesReceivedThisInterval: nat
    ghost var numbers: seq<nat>
    ghost var transits: seq<real>
    ghost var since: nat

    constructor (counters64: bool, blksize: nat)
      requires blksize >= 16
      ensures this.counters64 == counters64 && buffer.Length == blksize && fresh(buffer)
      ensures packetCount == 0 && numbers == [] && transits == [] && since == 0 && Sending() && Receiving()
    {
      this.counters64 := counters64;
      buffer := new byte[blksize](_ => 0);
      packetCount, cntError, outOfOrder, jitter, prevTransit := 0, 0, 0, 0.0, 0.0;
      bytesSent, bytesSentThisInterval, bytesReceived, bytesReceivedThisInterval := 0, 0, 0, 0;
      numbers, transits, since := [], [], 0;
    }

    /** A sender's packets so far are numbered 1, 2, 3, ... once each. */
    ghost predicate Sending()
      reads this
    {
      && buffer.Length >= 16 && |numbers| == packetCount
      && forall i :: 0 <= i < |numbers| ==> numbers[i] == i + 1
    }

    /** A receiver's counters are those of the numbers it has seen. */
    ghost predicate Counted()
      reads this
    {
      Account(numbers) == Counters(packetCount, cntError, outOfOrder)
    }

    /** And its jitter is that of the times they were on their way since the omit period. */
    ghost predicate Timed()
      reads this
    {
      && since <= |transits| && jitter == Jitter(transits[since..])
      && (since < |transits| ==> prevTransit == transits[|transits| - 1])
    }

    ghost predicate Receiving()
      reads this
    {
      buffer.Length >= 16 && Counted() && Timed() && (since == |transits| <==> bytesReceived == 0)
    }

    method Put(off: nat, t: bytes)
      requires off + |t| <= buffer.Length
      modifies buffer
      ensures buffer[..] == old(buffer[..])[..off] + t + old(buffer[..])[off + |t|..]
    {
      for i := 0 to |t|
        invariant forall k :: 0 <= k < buffer.Length ==>
          buffer[k] == if off <= k < off + i then t[k - off] else old(buffer[k])
      {
        buffer[off + i] := t[i];
      }
    }

    /** iperf_udp_send; r is what the write returned: bytes, 0, or an error. A packet that was not
        sent does not use up its number. */
    method Send(before: Time, r: int) returns (result: int)
      requires Sending() && packetCount + 1 < 0x1_0000_0000_0000_0000
      modifies this`packetCount, this`numbers, this`bytesSent, this`bytesSentThisInterval, buffer
      ensures Sending() && result == r
      ensures numbers == if r > 0 then old(numbers) + [old(packetCount) + 1] else old(numbers)
      ensures var h := Header(counters64, before, old(packetCount) + 1); buffer[..|h|] == h
      ensures bytesSent == old(bytesSent) + (if r > 0 then r else 0)
      ensures bytesSentThisInterval == old(bytesSentThisInterval) + (if r > 0 then r else 0)
    {
      packetCount := packetCount + 1;
      ghost var h := Header(counters64, before, packetCount);
      Put(0, Header(counters64, before, packetCount));
      assert buffer[..|h|] == buffer[..][..|h|] == h;
      if r <= 0 {
        packetCount := packetCount - 1;
        if r < 0 {
          return r;
        }
      } else {
        numbers := numbers + [packetCount];
      }
      bytesSent := bytesSent + r;
      bytesSentThisInterval := bytesSentThisInterval + r;
      return r;
    }

    /** The sequence number of a packet against the highest seen. */
    method CountPacket(pcount: nat)
      requires Counted()
      modifies this`packetCount, this`cntError, this`outOfOrder, this`numbers
      ensures Counted() && numbers == old(numbers) + [pcount]
    {
      AccountAppend(numbers, pcount);
      numbers := numbers + [pcount];
      if pcount >= packetCount + 1 {
        if pcount > packetCount + 1 {
          cntError := cntError + (pcount - 1 - packetCount);
        }
        packetCount := pcount;
      } else {
        outOfOrder := outOfOrder + 1;
        if cntError > 0 {
          cntError := cntError - 1;
        }
      }
    }

    /** The jitter estimate of RFC 1889, section 6.3.1. */
    method MeasureJitter(firstPacket: bool, arrival: Time, sentTime: Time)
      requires Timed() && (firstPacket <==> since == |transits|)
      modifies this`jitter, this`prevTransit, this`transits
      ensures Timed() && transits == old(transits) + [Transit(arrival, sentTime)]
    {
      var _, diff := Diff(arrival, sentTime);
      var transit := InUsecs(diff) as real / 1000000.0;
      JitterAppend(transits[since..], transit);
      assert (transits + [transit])[since..] == transits[since..] + [transit];
      transits := transits + [transit];
      if firstPacket {
        prevTransit := transit;
      }
      var d := transit - prevTransit;
      if d < 0.0 {
        d := -d;
      }
      prevTransit := transit;
      jitter := jitter + (d - jitter) / 16.0;
    }

    /** iperf_udp_recv, for a packet of r bytes in the buffer; arrival is when it came. Packets that
        come after the test has ended are not counted. */
    method Recv(r: int, running: bool, arrival: Time) returns (result: int)
      requires Receiving()
      modifies this
      ensures Receiving() && result == r && since == old(since)
      ensures if r > 0 && running then
          && numbers == old(numbers) + [HeaderNumber(counters64, buffer[..])]
          && transits == old(transits) + [Transit(arrival, HeaderTime(buffer[..]))]
          && bytesReceived == old(bytesReceived) + r
          && bytesReceivedThisInterval == old(bytesReceivedThisInterval) + r
        else
          && numbers == old(numbers) && transits == old(transits) && bytesReceived == old(bytesReceived)
          && bytesReceivedThisInterval == old(bytesReceivedThisInterval)
    {
      hide Account, HeaderNumber, HeaderTime, Transit, Jitter;
      if r <= 0 || !running {
        return r;
      }
      var firstPacket := bytesReceived == 0;
      bytesReceived := bytesReceived + r;
      bytesReceivedThisInterval := bytesReceivedThisInterval + r;
      var sentTime := HeaderTime(buffer[..]);
      var pcount := HeaderNumber(counters64, buffer[..]);
      CountPacket(pcount);
      MeasureJitter(firstPacket, arrival, sentTime);
      return r;
    }

    /** A receiver's turn in iperf_reset_stats, when the omit period is over: the next packet counts as a
        first one, whose transit time is compared with nothing. The numbers seen stay. */
    method Reset()
      requires Receiving()
      modifies this`jitter, this`bytesReceived, this`bytesSentThisInterval, this`bytesReceivedThisInterval, this`since
      ensures Receiving() && since == |transits| && jitter == 0.0
      ensures bytesReceived == 0 && bytesSentThisInterval == 0 && bytesReceivedThisInterval == 0
    {
      hide Account;
      jitter := 0.0;
      bytesReceived, bytesSentThisInterval, bytesReceivedThisInterval := 0, 0, 0;
      since := |transits|;
    }
  }

  // ---------- jitter ----------

  /** How long a packet was on its way, up to the difference of the two clocks. */
  function Transit(arrival: Time, sent: Time): (r: real)
    ensures Normal(arrival) && Normal(sent) ==>
      var usecs := InUsecs(arrival) - InUsecs(sent);
      r * 1000000.0 == (if usecs < 0 then -usecs else usecs) as real
  {
    InUsecs(Distance(arrival, sent)) as real / 1000000.0
  }

  /** A sixteenth of what the transit time changed by, and the rest of what was estimated before. */
  function NextJitter(jitter: real, change: real): real {
    var d := if change < 0.0 then -change else change;
    jitter + (d - jitter) / 16.0
  }

  /** The change at position i; the first packet counts as no change. */
  function Change(transits: seq<real>, i: nat): real
    requires i < |transits|
  {
    if i == 0 then 0.0 else transits[i] - transits[i - 1]
  }

  function Jitter(transits: seq<real>): real {
    if transits == [] then 0.0
    else NextJitter(Jitter(transits[..|transits| - 1]), Change(transits, |transits| - 1))
  }

  lemma {:induction false} JitterAppend(transits: seq<real>, t: real)
    ensures Jitter(transits + [t]) ==
            NextJitter(Jitter(transits), if transits == [] then 0.0 else t - transits[|transits| - 1])
  {
    assert (transits + [t])[..|transits|] == transits;
  }

  function Fifteenths(k: nat): real {
    if k == 0 then 1.0 else 15.0 / 16.0 * Fifteenths(k - 1)
  }

  /** When the transit time changes by d from every packet to the next, up or down, the estimate comes
      closer to d by a sixteenth each time. */
  lemma JitterConverges(transits: seq<real>, d: real)
    requires transits != [] && d >= 0.0 && Steady(transits, d)
    ensures Jitter(transits) == d * (1.0 - Fifteenths(|transits| - 1))
  {
    hide Jitter, Steady, Fifteenths;
    JitterApproaches(transits, d);
  }

  predicate Steady(transits: seq<real>, d: real) {
    forall i :: 0 < i < |transits| ==> Change(transits, i) == d || Change(transits, i) == -d
  }

  function Approach(d: real, k: nat): real {
    d * (1.0 - Fifteenths(k))
  }

  lemma {:induction false} JitterApproaches(transits: seq<real>, d: real)
    requires transits != [] && d >= 0.0 && Steady(transits, d)
    ensures Jitter(transits) == Approach(d, |transits| - 1)
  {
    hide NextJitter, Approach, Steady;
    var n := |transits| - 1;
    var front := transits[..n];
    assert Jitter(transits) == NextJitter(Jitter(front), Change(transits, n));
    if n == 0 {
      FirstTransit(d);
    } else {
      StillSteady(transits, d);
      JitterApproaches(front, d);
      Closer(Jitter(front), d, Change(transits, n), n);
    }
  }

  lemma FirstTransit(d: real)
    ensures Approach(d, 0) == 0.0 == NextJitter(0.0, 0.0)
  {
  }

  lemma StillSteady(transits: seq<real>, d: real)
    requires |transits| > 1 && Steady(transits, d)
    ensures var n := |transits| - 1;
      Steady(transits[..n], d) && (Change(transits, n) == d || Change(transits, n) == -d)
  {
    var front := transits[..|transits| - 1];
    forall i | 0 < i < |front| ensures Change(front, i) == Change(transits, i) {
    }
  }

  lemma Closer(jitter: real, d: real, change: real, k: nat)
    requires k > 0 && d >= 0.0 && (change == d || change == -d) && jitter == Approach(d, k - 1)
    ensures NextJitter(jitter, change) == Approach(d, k)
  {
    var f := Fifteenths(k - 1);
    var rest := d * f;
    assert d * (1.0 - f) == d - rest;
    assert Fifteenths(k) == 15.0 / 16.0 * f;
    assert d * (15.0 / 16.0 * f) == 15.0 / 16.0 * rest;
    assert d * (1.0 - 15.0 / 16.0 * f) == d - 15.0 / 16.0 * rest;
  }

  /** Over any run of packets, jitter stays within what the transit time ever changed by. */
  lemma {:induction false} JitterBounded(transits: seq<real>, bound: real)
    requires bound >= 0.0 && forall i :: 0 <= i < |transits| ==> -bound <= Change(transits, i) <= bound
    ensures 0.0 <= Jitter(transits) <= bound
  {
    if transits != [] {
      var front := transits[..|transits| - 1];
      forall i | 0 <= i < |front| ensures Change(front, i) == Change(transits, i) {
      }
      JitterBounded(front, bound);
    }
  }
}
