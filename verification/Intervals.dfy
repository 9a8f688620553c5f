/** Interval reports through the omit period, and the server's limit on the average rate. */
module Intervals {
  import opened IperfTime
  import opened Sequences

  function Sum(s: seq<int>): int {
    if s == [] then 0 else s[0] + Sum(s[1..])
  }

  lemma {:induction false} SumConcat(a: seq<int>, b: seq<int>)
    ensures Sum(a + b) == Sum(a) + Sum(b)
  {
    if a == [] {
      assert a + b == b;
    } else {
      assert (a + b)[1..] == a[1..] + b;
      SumConcat(a[1..], b);
    }
  }

  // ---------- the average over a sliding window ----------

  const MAX_INTERVAL: nat := 60

  function Zeros(n: nat): (r: seq<int>)
    ensures |r| == n && forall i :: 0 <= i < n ==> r[i] == 0
  {
    if n == 0 then [] else [0] + Zeros(n - 1)
  }

  /** The last w of the given numbers, with zeros in front when there are fewer. */
  function Window(history: seq<int>, w: nat): (r: seq<int>)
    ensures |r| == w
  {
    if |history| >= w then history[|history| - w..] else Zeros(w - |history|) + history
  }

  lemma WindowSlides(history: seq<int>, w: nat, x: int)
    requires w > 0
    ensures Window(history + [x], w) == Window(history, w)[1..] + [x]
  {
    var k := |history|;
    if k >= w {
      assert history[k - w..][1..] == history[k + 1 - w..];
      assert (history + [x])[k + 1 - w..] == history[k + 1 - w..] + [x];
    } else {
      assert Zeros(w - k) == [0] + Zeros(w - k - 1);
      hide Zeros;
      assert (Zeros(w - k) + history)[1..] == Zeros(w - k - 1) + history;
      if k + 1 == w {
        assert (history + [x])[0..] == history + [x] && Zeros(w - k - 1) + history == history;
      } else {
        assert Zeros(w - k - 1) + (history + [x]) == Zeros(w - k - 1) + history + [x];
      }
    }
  }

  /** The first w of s, from the one behind place i round to place i. */
  function Turned(s: seq<int>, i: nat, w: nat): seq<int>
    requires i < w <= |s|
  {
    s[i + 1..w] + s[..i + 1]
  }

  lemma RingTurns(s: seq<int>, i: nat, w: nat, x: int)
    requires i < w <= |s|
    ensures var k := if i + 1 >= w then 0 else i + 1;
      Turned(s[k := x], k, w) == Turned(s, i, w)[1..] + [x]
  {
    var k := if i + 1 >= w then 0 else i + 1;
    var t := s[k := x];
    if k == 0 {
      assert s[i + 1..w] == [] && t[1..w] == s[1..w] && t[..1] == [x];
      assert Turned(s, i, w) == s[..w];
    } else {
      assert t[k + 1..w] == s[k + 1..w] && t[..k + 1] == s[..k] + [x];
      assert Turned(s, i, w)[1..] == s[k + 1..w] + s[..k];
    }
  }

  /** What a server keeps to check the total rate of its test. */
  class RateLimit {
    const limit: nat
    const statsInterval: real
    const statsPerInterval: nat
    const bytes: array<int>
    var statsCount: nat
    var lastIndex: nat
    var exceeded: bool
    ghost var history: seq<int>

    /** As iperf_reset_test leaves it. */
    constructor (limit: nat, statsInterval: real, statsPerInterval: nat)
      requires statsInterval > 0.0 && 1 <= statsPerInterval <= MAX_INTERVAL
      ensures Valid() && fresh(bytes) && history == [] && !exceeded
      ensures this.limit == limit && this.statsInterval == statsInterval && this.statsPerInterval == statsPerInterval
    {
      this.limit, this.statsInterval, this.statsPerInterval := limit, statsInterval, statsPerInterval;
      bytes := new int[MAX_INTERVAL](_ => 0);
      statsCount, lastIndex, exceeded, history := 0, 0, false, [];
      new;
      assert Ring() == Window([], statsPerInterval);
    }

    /** The ring's contents, oldest first. */
    ghost function Ring(): seq<int>
      requires lastIndex < statsPerInterval <= bytes.Length
      reads this, bytes
    {
      Turned(bytes[..], lastIndex, statsPerInterval)
    }

    /** The ring holds the last checks since the reset. */
    ghost predicate Valid()
      reads this, bytes
    {
      && bytes.Length == MAX_INTERVAL && statsPerInterval <= MAX_INTERVAL && statsInterval > 0.0
      && statsCount == |history| && lastIndex < statsPerInterval
      && Ring() == Window(history, statsPerInterval)
    }

    function Seconds(): (r: real)
      requires statsInterval > 0.0 && statsPerInterval > 0
      ensures r > 0.0
    {
      statsInterval * statsPerInterval as real
    }

    /** iperf_check_total_rate: the verdict is about the sum of the last intervals, and comes only when
        there are enough of them. */
    method Check(done: bool, last: int)
      requires Valid()
      modifies this`statsCount, this`lastIndex, this`exceeded, this`history, bytes
      ensures Valid()
      ensures history == if done || limit == 0 then old(history) else old(history) + [last]
      ensures var w := statsPerInterval;
        var over := !done && limit != 0 && |history| >= w && Over(history[|history| - w..], statsInterval, limit);
        exceeded == (old(exceeded) || over)
    {
      hide Over, Turned, Window, Sum, Rate;
      if done || limit == 0 {
        return;
      }
      Store(last);
      if statsCount < statsPerInterval {
        return;
      }
      var over := MoreThanLimit();
      if over {
        exceeded := true;
      }
    }

    method MoreThanLimit() returns (over: bool)
      requires Valid() && |history| >= statsPerInterval
      ensures over == Over(history[|history| - statsPerInterval..], statsInterval, limit)
    {
      hide Over, Turned, Sum, Rate;
      var totalBytes := Total();
      ghost var last := history[|history| - statsPerInterval..];
      assert last == Window(history, statsPerInterval);
      RateOver(last, statsInterval, limit, Seconds());
      over := Rate(totalBytes, Seconds()) > limit;
    }

    /** The sum of the ring, whatever its oldest place. */
    method Total() returns (totalBytes: int)
      requires Valid()
      ensures totalBytes == Sum(Window(history, statsPerInterval))
    {
      totalBytes := 0;
      for i := 0 to statsPerInterval
        invariant totalBytes == Sum(bytes[..i])
      {
        SumConcat(bytes[..i], [bytes[i]]);
        assert bytes[..i + 1] == bytes[..i] + [bytes[i]];
        totalBytes := totalBytes + bytes[i];
      }
      var late, early := bytes[lastIndex + 1..statsPerInterval], bytes[..lastIndex + 1];
      assert late == bytes[..][lastIndex + 1..statsPerInterval] && early == bytes[..][..lastIndex + 1];
      SumConcat(late, early);
      SumConcat(early, late);
      assert bytes[..statsPerInterval] == early + late;
    }

    /** Puts the last interval's bytes in the place of the oldest. */
    method Store(last: int)
      requires Valid()
      modifies this`lastIndex, this`statsCount, this`history, bytes
      ensures Valid() && history == old(history) + [last]
    {
      hide Window;
      ghost var w := statsPerInterval;
      RingTurns(bytes[..], lastIndex, w, last);
      lastIndex := lastIndex + 1;
      if lastIndex >= statsPerInterval {
        lastIndex := 0;
      }
      ghost var s := bytes[..];
      bytes[lastIndex] := last;
      assert bytes[..] == s[lastIndex := last];
      assert Ring() == Turned(bytes[..], lastIndex, w);
      statsCount := statsCount + 1;
      WindowSlides(history, w, last);
      history := history + [last];
    }
  }

  /** bits_per_second: the bits over the window's length, cut off to an integer. */
  function Rate(bytes: int, seconds: real): int
    requires seconds > 0.0
  {
    (bytes as real * 8.0 / seconds).Floor
  }

  /** The bytes of intervals of that length are at least one bit per second more than the limit. */
  predicate Over(last: seq<int>, interval: real, limit: nat) {
    (8 * Sum(last)) as real >= (limit + 1) as real * (interval * |last| as real)
  }

  lemma RateOver(last: seq<int>, interval: real, limit: nat, seconds: real)
    requires interval > 0.0 && last != [] && seconds == interval * |last| as real && seconds > 0.0
    ensures Rate(Sum(last), seconds) > limit <==> Over(last, interval, limit)
  {
    hide Sum;
    var bits, target := Sum(last) as real * 8.0, (limit + 1) as real;
    assert bits == (8 * Sum(last)) as real;
    assert bits / seconds >= target <==> bits >= target * seconds by {
      Quotient(bits, seconds, target);
    }
  }

  lemma Quotient(bits: real, seconds: real, target: real)
    requires seconds > 0.0
    ensures bits / seconds >= target <==> bits >= target * seconds
  {
    var r := bits / seconds;
    assert r * seconds == bits;
    assert (r - target) * seconds == bits - target * seconds;
  }

  // ---------- interval results ----------

  /** struct iperf_interval_results, as far as it counts bytes and packets. */
  datatype Interval = Interval(
    bytesTransferred: int, start: Time, end: Time, omitted: bool,
    intervalPackets: int, intervalOutOfOrder: int, intervalErrors: int,
    packets: int, outOfOrder: int, errors: int)

  function Bytes(s: seq<Interval>): int {
    if s == [] then 0 else Bytes(s[..|s| - 1]) + s[|s| - 1].bytesTransferred
  }

  function Packets(s: seq<Interval>): int {
    if s == [] then 0 else Packets(s[..|s| - 1]) + s[|s| - 1].intervalPackets
  }

  function OutOfOrder(s: seq<Interval>): int {
    if s == [] then 0 else OutOfOrder(s[..|s| - 1]) + s[|s| - 1].intervalOutOfOrder
  }

  function Errors(s: seq<Interval>): int {
    if s == [] then 0 else Errors(s[..|s| - 1]) + s[|s| - 1].intervalErrors
  }

  lemma Recorded(s: seq<Interval>, x: Interval)
    ensures Bytes(s + [x]) == Bytes(s) + x.bytesTransferred
    ensures Packets(s + [x]) == Packets(s) + x.intervalPackets
    ensures OutOfOrder(s + [x]) == OutOfOrder(s) + x.intervalOutOfOrder
    ensures Errors(s + [x]) == Errors(s) + x.intervalErrors
  {
    assert (s + [x])[..|s|] == s;
  }

  /** Each interval starts where the one before it ends, and the last ends at end. */
  predicate Joined(s: seq<Interval>, end: Time) {
    && (forall i :: 0 < i < |s| ==> s[i].start == s[i - 1].end)
    && (s != [] ==> s[|s| - 1].end == end)
  }

  /** x counts its packets from the running counts of p. */
  predicate CountsFrom(p: Interval, x: Interval) {
    && x.intervalPackets == x.packets - p.packets && x.intervalOutOfOrder == x.outOfOrder - p.outOfOrder
    && x.intervalErrors == x.errors - p.errors
  }

  /** The interval before the k-th, or one that counts nothing. */
  function Before(s: seq<Interval>, k: nat): Interval
    requires k <= |s|
  {
    if k > 0 then s[k - 1] else Interval(0, Time(0, 0), Time(0, 0), false, 0, 0, 0, 0, 0, 0)
  }

  /** Every interval counts its packets from the one before it. */
  predicate Differences(s: seq<Interval>) {
    forall k :: 0 <= k < |s| ==> CountsFrom(Before(s, k), s[k])
  }

  lemma JoinsOn(s: seq<Interval>, end: Time, x: Interval)
    requires Joined(s, end) && (s != [] ==> x.start == end)
    ensures Joined(s + [x], x.end)
  {
  }

  lemma DiffersOn(s: seq<Interval>, x: Interval)
    requires Differences(s) && CountsFrom(Before(s, |s|), x)
    ensures Differences(s + [x])
  {
    forall k | 0 <= k <= |s| ensures CountsFrom(Before(s + [x], k), (s + [x])[k]) {
      assert Before(s + [x], k) == Before(s, k);
    }
  }

  /** The counts of the intervals from any point on add up to what the running totals have grown by. */
  lemma {:induction false} PacketsTelescope(s: seq<Interval>, k: nat)
    requires Differences(s) && k <= |s|
    ensures var p, x := Before(s, k), Before(s, |s|);
      && Packets(s[k..]) == x.packets - p.packets
      && OutOfOrder(s[k..]) == x.outOfOrder - p.outOfOrder
      && Errors(s[k..]) == x.errors - p.errors
    decreases |s|
  {
    if k == |s| {
      assert s[k..] == [];
    } else {
      var n := |s| - 1;
      var front := s[..n];
      forall i | 0 <= i < n ensures CountsFrom(Before(front, i), front[i]) {
        assert CountsFrom(Before(s, i), s[i]);
      }
      PacketsTelescope(front, k);
      assert s[k..] == front[k..] + [s[n]] && CountsFrom(Before(s, n), s[n]);
      Recorded(front[k..], s[n]);
      assert Before(front, k) == Before(s, k) && Before(front, n) == Before(s, n);
    }
  }

  /** The intervals from since on and the current one, of that many bytes, make up all bytes that count;
      the intervals join up to end; and for UDP each counts its packets from the one before. */
  predicate Account(udp: bool, s: seq<Interval>, since: nat, end: Time, current: int, total: int) {
    && since <= |s| && Bytes(s[since..]) + current == total && Joined(s, end)
    && (udp ==> Differences(s))
  }

  lemma AccountOn(udp: bool, s: seq<Interval>, since: nat, end: Time, current: int, total: int, x: Interval)
    requires Account(udp, s, since, end, current, total) && x.bytesTransferred == current
    requires s != [] ==> x.start == end
    requires udp ==> CountsFrom(Before(s, |s|), x)
    ensures Account(udp, s + [x], since, x.end, 0, total)
  {
    hide Bytes, Joined, Differences;
    JoinsOn(s, end, x);
    if udp {
      DiffersOn(s, x);
    }
    assert (s + [x])[since..] == s[since..] + [x];
    Recorded(s[since..], x);
  }

  lemma AccountAnew(udp: bool, s: seq<Interval>, since: nat, end: Time, current: int, total: int)
    requires Account(udp, s, since, end, current, total)
    ensures Account(udp, s, |s|, end, 0, 0)
  {
    hide Joined, Differences;
    assert s[|s|..] == [];
  }

  /** The running packet counts of a stream. */
  datatype Counts = Counts(packets: int, outOfOrder: int, errors: int)

  /** x was recorded when the counts were n. */
  predicate RecordedAt(x: Interval, n: Counts) {
    x.packets == n.packets && x.outOfOrder == n.outOfOrder && x.errors == n.errors
  }

  /** All counts a stream ever had, and where among them are those of the last report, those at the end
      of the omit period, and those of the last report before that. */
  datatype History = History(counts: seq<Counts>, report: nat, reset: nat, late: nat) {
    function Count(n: Counts): History {
      this.(counts := counts + [n])
    }

    function Report(): History
      requires counts != []
    {
      this.(report := |counts| - 1)
    }

    function Reset(): History
      requires counts != []
    {
      this.(reset := |counts| - 1, late := report)
    }
  }

  /** h ends with the counts now, has the omitted ones where the omit period ended, and the intervals
      s, which counted anew from since on, were recorded as it says. */
  predicate Followed(udp: bool, h: History, s: seq<Interval>, since: nat, now: Counts, omitted: Counts) {
    && h.late <= h.reset < |h.counts| && h.report < |h.counts| && since <= |s|
    && h.counts[|h.counts| - 1] == now && h.counts[h.reset] == omitted
    && (udp ==> RecordedAt(Before(s, |s|), h.counts[h.report]) && RecordedAt(Before(s, since), h.counts[h.late]))
  }

  lemma FollowedCounting(udp: bool, h: History, s: seq<Interval>, since: nat, now: Counts, omitted: Counts, n: Counts)
    requires Followed(udp, h, s, since, now, omitted)
    ensures Followed(udp, h.Count(n), s, since, n, omitted)
  {
    hide RecordedAt, Before;
  }

  lemma FollowedReport(udp: bool, h: History, s: seq<Interval>, since: nat, now: Counts, omitted: Counts, x: Interval)
    requires Followed(udp, h, s, since, now, omitted) && (udp ==> RecordedAt(x, now))
    ensures h.counts != [] && Followed(udp, h.Report(), s + [x], since, now, omitted)
  {
    assert Before(s + [x], since) == Before(s, since) && Before(s + [x], |s| + 1) == x;
    hide RecordedAt, Before;
  }

  lemma FollowedReset(udp: bool, h: History, s: seq<Interval>, since: nat, now: Counts, omitted: Counts)
    requires Followed(udp, h, s, since, now, omitted)
    ensures h.counts != [] && Followed(udp, h.Reset(), s, |s|, now, now)
  {
    hide RecordedAt, Before;
  }

  /** A stream and its result. results is the list of interval results, of which only the last is
      kept; in the proof only, all are all there ever were, since is where they start to count anew
      after the omit period, and history has the packet counts. */
  class StreamStats {
    const sender: bool
    const udp: bool
    var bytesSent: int
    var bytesReceived: int
    var bytesSentThisInterval: int
    var bytesReceivedThisInterval: int
    var bytesSentOmit: int
    var packetCount: int
    var outOfOrder: int
    var cntError: int
    var omittedPacketCount: int
    var omittedOutOfOrder: int
    var omittedCntError: int
    var startTime: Time
    var endTime: Time
    var results: seq<Interval>
    ghost var all: seq<Interval>
    ghost var since: nat
    ghost var history: History

    constructor (sender: bool, udp: bool, now: Time)
      ensures Valid() && this.sender == sender && this.udp == udp && all == []
      ensures Now() == Counts(0, 0, 0) && history == History([Now()], 0, 0, 0)
    {
      this.sender, this.udp := sender, udp;
      bytesSent, bytesReceived, bytesSentThisInterval, bytesReceivedThisInterval, bytesSentOmit := 0, 0, 0, 0, 0;
      packetCount, outOfOrder, cntError, omittedPacketCount, omittedOutOfOrder, omittedCntError := 0, 0, 0, 0, 0, 0;
      startTime, endTime, results, all, since := now, now, [], [], 0;
      history := History([Counts(0, 0, 0)], 0, 0, 0);
    }

    ghost predicate Valid()
      reads this
    {
      && results == (if all == [] then [] else [all[|all| - 1]])
      && (if sender then Account(udp, all, since, endTime, bytesSentThisInterval, bytesSent - bytesSentOmit)
          else Account(udp, all, since, endTime, bytesReceivedThisInterval, bytesReceived))
      && Followed(udp, history, all, since, Counts(packetCount, outOfOrder, cntError),
                  Counts(omittedPacketCount, omittedOutOfOrder, omittedCntError))
    }

    function Now(): Counts
      reads this
    {
      Counts(packetCount, outOfOrder, cntError)
    }

    /** What the workers do between two callbacks. */
    method Transfer(sent: nat, received: nat)
      requires Valid()
      modifies this`bytesSent, this`bytesSentThisInterval, this`bytesReceived, this`bytesReceivedThisInterval
      ensures Valid()
      ensures bytesSent == old(bytesSent) + sent && bytesSentThisInterval == old(bytesSentThisInterval) + sent
      ensures bytesReceived == old(bytesReceived) + received
      ensures bytesReceivedThisInterval == old(bytesReceivedThisInterval) + received
    {
      hide Bytes, Joined, Differences, Followed;
      bytesSent := bytesSent + sent;
      bytesSentThisInterval := bytesSentThisInterval + sent;
      bytesReceived := bytesReceived + received;
      bytesReceivedThisInterval := bytesReceivedThisInterval + received;
    }

    method CountPackets(packets: int, outOfOrder: int, errors: int)
      requires Valid()
      modifies this`packetCount, this`outOfOrder, this`cntError, this`history
      ensures Valid() && Now() == Counts(packets, outOfOrder, errors)
      ensures history == old(history).Count(Now())
    {
      hide Account, Followed;
      FollowedCounting(udp, history, all, since, Now(),
                       Counts(omittedPacketCount, omittedOutOfOrder, omittedCntError),
                       Counts(packets, outOfOrder, errors));
      packetCount := packets;
      this.outOfOrder := outOfOrder;
      cntError := errors;
      history := history.Count(Now());
    }

    /** One stream's turn in iperf_stats_callback; now is when the interval ends. */
    method Record(now: Time, omitting: bool)
      requires Valid()
      modifies this`endTime, this`results, this`all, this`history
      modifies this`bytesSentThisInterval, this`bytesReceivedThisInterval
      ensures Valid() && |all| == |old(all)| + 1 && all[..|old(all)|] == old(all)
      ensures endTime == now && bytesSentThisInterval == 0 == bytesReceivedThisInterval
      ensures old(history).counts != [] && history == old(history).Report()
      ensures var x := all[|all| - 1];
        && x.bytesTransferred == old(if sender then bytesSentThisInterval else bytesReceivedThisInterval)
        && x.start == old(if all == [] then startTime else endTime) && x.end == now && x.omitted == omitting
        && (udp ==> RecordedAt(x, Now()))
    {
      hide Account, Followed, CountsFrom, RecordedAt, Before, Gathered;
      var x := Gathered(now, omitting);
      AccountOn(udp, all, since, endTime, x.bytesTransferred,
                if sender then bytesSent - bytesSentOmit else bytesReceived, x);
      FollowedReport(udp, history, all, since, Now(),
                     Counts(omittedPacketCount, omittedOutOfOrder, omittedCntError), x);
      endTime := now;
      AddToIntervalList(x);
      history := history.Report();
      bytesSentThisInterval, bytesReceivedThisInterval := 0, 0;
    }

    /** The interval that has just ended; its packet counts are against those of the one before it. */
    function Gathered(now: Time, omitting: bool): (x: Interval)
      requires results == (if all == [] then [] else [all[|all| - 1]])
      reads this
      ensures x.bytesTransferred == if sender then bytesSentThisInterval else bytesReceivedThisInterval
      ensures x.start == (if all == [] then startTime else endTime) && x.end == now && x.omitted == omitting
      ensures udp ==> CountsFrom(Before(all, |all|), x) && RecordedAt(x, Now())
      ensures !udp ==> x == Interval(x.bytesTransferred, x.start, x.end, x.omitted, 0, 0, 0, 0, 0, 0)
    {
      var x := Interval(if sender then bytesSentThisInterval else bytesReceivedThisInterval,
                        if results != [] then endTime else startTime, now, omitting, 0, 0, 0, 0, 0, 0);
      if !udp then x
      else
        var irp := if results == [] then x else results[|results| - 1];
        x.(intervalPackets := packetCount - irp.packets, packets := packetCount,
           intervalOutOfOrder := outOfOrder - irp.outOfOrder, outOfOrder := outOfOrder,
           intervalErrors := cntError - irp.errors, errors := cntError)
    }

    /** add_to_interval_list: the old last entry goes, so there is never more than one. */
    method AddToIntervalList(x: Interval)
      requires |results| <= 1
      modifies this`results, this`all
      ensures results == [x] && all == old(all) + [x]
    {
      if results != [] {
        results := results[..|results| - 1];
      }
      results := results + [x];
      all := all + [x];
    }

    /** The last report has the running counts. */
    ghost predicate Reported()
      reads this
    {
      RecordedAt(Before(all, |all|), Now())
    }

    /** After a report, the intervals since the omit period count the packets since then and those of the
        omit period that its last report had not: they are off by exactly the latter. */
    lemma PacketsSinceOmit()
      requires Valid() && udp && Reported()
      ensures var h := history;
        && h.late <= h.reset < |h.counts|
        && var late, reset := h.counts[h.late], h.counts[h.reset];
        && Packets(all[since..]) - (packetCount - omittedPacketCount) == reset.packets - late.packets
        && Errors(all[since..]) - (cntError - omittedCntError) == reset.errors - late.errors
        && OutOfOrder(all[since..]) - (outOfOrder - omittedOutOfOrder) == reset.outOfOrder - late.outOfOrder
    {
      PacketsTelescope(all, since);
    }

    /** One stream's turn in iperf_reset_stats: the counts of the stream, and its result. */
    method Reset(now: Time)
      requires Valid()
      modifies this
      ensures Valid() && all == old(all) && since == |all| && startTime == now && endTime == old(endTime)
      ensures bytesSentOmit == bytesSent == old(bytesSent) && bytesReceived == 0
      ensures bytesSentThisInterval == 0 == bytesReceivedThisInterval
      ensures Counts(omittedPacketCount, omittedOutOfOrder, omittedCntError) == Now() == old(Now())
      ensures old(history).counts != [] && history == old(history).Reset()
    {
      hide Account, Followed;
      OmitCounts();
      AccountAnew(udp, all, since, endTime, if sender then bytesSentThisInterval else bytesReceivedThisInterval,
                  if sender then bytesSent - bytesSentOmit else bytesReceived);
      bytesSentOmit := bytesSent;
      bytesReceived := 0;
      bytesSentThisInterval, bytesReceivedThisInterval := 0, 0;
      startTime := now;
      since := |all|;
    }

    method OmitCounts()
      requires Followed(udp, history, all, since, Now(), Counts(omittedPacketCount, omittedOutOfOrder, omittedCntError))
      modifies this`omittedPacketCount, this`omittedCntError, this`omittedOutOfOrder, this`history
      ensures Followed(udp, history, all, |all|, Now(), Now())
      ensures Counts(omittedPacketCount, omittedOutOfOrder, omittedCntError) == Now()
      ensures old(history).counts != [] && history == old(history).Reset()
    {
      hide Followed;
      FollowedReset(udp, history, all, since, Now(), Counts(omittedPacketCount, omittedOutOfOrder, omittedCntError));
      omittedPacketCount := packetCount;
      omittedCntError := cntError;
      omittedOutOfOrder := outOfOrder;
      history := history.Reset();
    }
  }

  /** Two packets arrive between the last report of the omit period and its end. */
  method OmitPeriod(now: Time) returns (s: StreamStats)
    ensures fresh(s) && s.Valid() && s.udp && s.omittedPacketCount == 7
    ensures s.history.counts == [Counts(0, 0, 0), Counts(5, 0, 0), Counts(7, 0, 0)]
    ensures s.history.late == 1 && s.history.reset == 2
  {
    hide Account, Followed, Before, RecordedAt;
    s := new StreamStats(false, true, now);
    s.CountPackets(5, 0, 0);
    s.Record(now, true);
    s.CountPackets(7, 0, 0);
    s.Reset(now);
  }

  /** They are omitted, and reported in the first interval behind it all the same: four packets where
      two have come. */
  method LateInOmit(now: Time) returns (s: StreamStats)
    ensures s.Valid() && s.udp && s.Reported()
    ensures s.packetCount - s.omittedPacketCount == 2 && Packets(s.all[s.since..]) == 4
  {
    hide Account, Followed, Packets, Errors, OutOfOrder, Before, RecordedAt;
    s := OmitPeriod(now);
    s.CountPackets(9, 0, 0);
    s.Record(now, false);
    LastBefore(s.all);
    s.PacketsSinceOmit();
  }

  lemma LastBefore(s: seq<Interval>)
    requires s != []
    ensures Before(s, |s|) == s[|s| - 1]
  {
  }

  // ---------- all streams of a test ----------

  /** One more interval, ending at end, with what the stream has moved since the one before it. */
  twostate predicate Grown(s: StreamStats, end: Time, omitting: bool)
    reads s
  {
    && |s.all| == |old(s.all)| + 1 && s.all[..|old(s.all)|] == old(s.all)
    && s.since == old(s.since) && s.endTime == end
    && s.bytesSentThisInterval == 0 == s.bytesReceivedThisInterval
    && var x := s.all[|old(s.all)|];
      && x.bytesTransferred == old(if s.sender then s.bytesSentThisInterval else s.bytesReceivedThisInterval)
      && x.start == old(if s.all == [] then s.startTime else s.endTime) && x.end == end && x.omitted == omitting
  }

  /** What the stream has moved counts anew from now on; its packets so far are omitted. */
  twostate predicate Restarted(s: StreamStats, now: Time)
    reads s
  {
    && s.since == |s.all| && s.all == old(s.all) && s.startTime == now
    && s.bytesSentOmit == s.bytesSent == old(s.bytesSent) && s.bytesReceived == 0
    && s.bytesSentThisInterval == 0 == s.bytesReceivedThisInterval
    && Counts(s.omittedPacketCount, s.omittedOutOfOrder, s.omittedCntError) == s.Now() == old(s.Now())
  }

  /** The streams, and on a server the limit on their total rate. */
  class StatsTest {
    const streams: seq<StreamStats>
    const server: bool
    const limit: RateLimit
    var omitting: bool
    var done: bool

    constructor (streams: seq<StreamStats>, server: bool, limit: RateLimit)
      ensures this.streams == streams && this.server == server && this.limit == limit && !done
    {
      this.streams, this.server, this.limit, omitting, done := streams, server, limit, false, false;
    }

    ghost predicate Valid()
      reads this, streams, limit, limit.bytes
    {
      && (forall i, k :: 0 <= i < k < |streams| ==> streams[i] != streams[k])
      && (forall i :: 0 <= i < |streams| ==> streams[i].Valid())
      && limit.Valid()
    }

    /** What the streams moved, both ways, in the current interval. */
    ghost function Moved(n: nat): int
      requires n <= |streams|
      reads streams`bytesSentThisInterval, streams`bytesReceivedThisInterval
    {
      if n == 0 then 0
      else Moved(n - 1) + streams[n - 1].bytesSentThisInterval + streams[n - 1].bytesReceivedThisInterval
    }

    /** iperf_stats_callback: one interval per stream, and the server's check of what they moved. */
    method StatsCallback(nows: seq<Time>)
      requires Valid() && |nows| == |streams|
      modifies Members(streams), limit`statsCount, limit`lastIndex, limit`exceeded, limit`history, limit.bytes
      ensures Valid()
      ensures forall i :: 0 <= i < |streams| ==> Grown(streams[i], nows[i], omitting)
      ensures limit.history ==
        if server && !done && limit.limit != 0 then old(limit.history) + [old(Moved(|streams|))] else old(limit.history)
    {
      hide StreamStats.Valid, RateLimit.Valid;
      var total := 0;
      for i := 0 to |streams|
        modifies Members(streams)
        invariant Valid() && total == old(Moved(i))
        invariant forall k :: 0 <= k < i ==> Grown(streams[k], nows[k], omitting)
        invariant forall k :: i <= k < |streams| ==> unchanged(streams[k])
      {
        total := total + streams[i].bytesSentThisInterval + streams[i].bytesReceivedThisInterval;
        streams[i].Record(nows[i], omitting);
      }
      if server {
        limit.Check(done, total);
      }
    }

    /** The end of the omit period: iperf_reset_stats. */
    method EndOmit(now: Time)
      requires Valid()
      modifies this`omitting, Members(streams)
      ensures Valid() && !omitting
      ensures forall i :: 0 <= i < |streams| ==> Restarted(streams[i], now)
    {
      hide StreamStats.Valid, RateLimit.Valid;
      omitting := false;
      for i := 0 to |streams|
        modifies Members(streams)
        invariant Valid()
        invariant forall k :: 0 <= k < i ==> Restarted(streams[k], now)
        invariant forall k :: i <= k < |streams| ==> unchanged(streams[k])
      {
        streams[i].Reset(now);
      }
    }
  }
}
