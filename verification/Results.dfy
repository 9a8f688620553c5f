/** The exchange of results: what each side sends of its streams, and where the other side puts it. */
module Results {
  import opened Bytes
  import opened JsonValue
  import opened IperfTime
  import opened Sequences
  import opened Streams
  import JsonText
  import JsonEquality

  // ---------- keys, and reading values by key ----------

  const CPU_UTIL_TOTAL: bytes := [99, 112, 117, 95, 117, 116, 105, 108, 95, 116, 111, 116, 97, 108]
  const CPU_UTIL_USER: bytes := [99, 112, 117, 95, 117, 116, 105, 108, 95, 117, 115, 101, 114]
  const CPU_UTIL_SYSTEM: bytes := [99, 112, 117, 95, 117, 116, 105, 108, 95, 115, 121, 115, 116, 101, 109]
  const SENDER_HAS_RETRANSMITS: bytes :=
    [115, 101, 110, 100, 101, 114, 95, 104, 97, 115, 95, 114, 101, 116, 114, 97, 110, 115, 109, 105, 116, 115]
  const STREAMS: bytes := [115, 116, 114, 101, 97, 109, 115]
  const ID: bytes := [105, 100]
  const BYTES: bytes := [98, 121, 116, 101, 115]
  const RETRANSMITS: bytes := [114, 101, 116, 114, 97, 110, 115, 109, 105, 116, 115]
  const JITTER: bytes := [106, 105, 116, 116, 101, 114]
  const ERRORS: bytes := [101, 114, 114, 111, 114, 115]
  const OMITTED_ERRORS: bytes := [111, 109, 105, 116, 116, 101, 100, 95, 101, 114, 114, 111, 114, 115]
  const PACKETS: bytes := [112, 97, 99, 107, 101, 116, 115]
  const OMITTED_PACKETS: bytes := [111, 109, 105, 116, 116, 101, 100, 95, 112, 97, 99, 107, 101, 116, 115]
  const START_TIME: bytes := [115, 116, 97, 114, 116, 95, 116, 105, 109, 101]
  const END_TIME: bytes := [101, 110, 100, 95, 116, 105, 109, 101]

  /** cJSON_GetObjectItem: by name, ignoring case. */
  function Item(j: Value, name: bytes): Option<Value> {
    if !j.Object? then None
    else
      match JsonEquality.Find(j.members, name, false)
      case None => None
      case Some(k) => Some(j.members[k].value)
  }

  /** iperf_cJSON_GetObjectItemType for a number. */
  function NumberItem(j: Value, name: bytes): Option<real> {
    match Item(j, name)
    case Some(Number(d)) => Some(d)
    case _ => None
  }

  /** A key is found where it stands when no key in front of it is the same but for case. */
  lemma FoundAt(ms: seq<Member>, k: nat, name: bytes)
    requires k < |ms| && ms[k].key == name
    requires forall i :: 0 <= i < k ==>
      |ms[i].key| != |name| || (name != [] && JsonEquality.Lower(ms[i].key[0]) != JsonEquality.Lower(name[0]))
    ensures Item(Object(ms), name) == Some(ms[k].value)
  {
    assert forall i :: 0 <= i < k ==> !JsonEquality.SameKey(name, ms[i].key, false);
    assert JsonEquality.SameKey(name, ms[k].key, false);
  }

  // ---------- one stream's report ----------

  /** What send_results says of one stream. */
  datatype Report = Report(id: int, bytes: int, retransmits: int, jitter: real, errors: int,
                           omitted: Option<(int, int)>, packets: int, times: Option<(real, real)>)

  function ReportMembers(r: Report): seq<Member>
    requires Whole(r)
  {
    [Member(ID, Number(r.id as real)), Member(BYTES, Number(r.bytes as real)),
     Member(RETRANSMITS, Number(r.retransmits as real)), Member(JITTER, Number(r.jitter)),
     Member(ERRORS, Number(r.errors as real)), Member(OMITTED_ERRORS, Number(r.omitted.value.0 as real)),
     Member(PACKETS, Number(r.packets as real)), Member(OMITTED_PACKETS, Number(r.omitted.value.1 as real)),
     Member(START_TIME, Number(r.times.value.0)), Member(END_TIME, Number(r.times.value.1))]
  }

  /** A report with nothing missing, as send_results makes it. */
  predicate Whole(r: Report) {
    r.omitted.Some? && r.times.Some?
  }

  /** Converting to a 32-bit int keeps the low bits. */
  function ToInt32(n: int): (r: int)
    ensures -0x8000_0000 <= r < 0x8000_0000 && (n - r) % 0x1_0000_0000 == 0
  {
    (n + 0x8000_0000) % 0x1_0000_0000 - 0x8000_0000
  }

  /** get_results on one element of the streams array: None is its IERECVRESULTS. Only the omitted
      counts, both or neither, and the times may be missing. */
  function ReadReport(j: Value): Option<Report> {
    var id, bytes, retransmits := NumberItem(j, ID), NumberItem(j, BYTES), NumberItem(j, RETRANSMITS);
    var jitter, errors, packets := NumberItem(j, JITTER), NumberItem(j, ERRORS), NumberItem(j, PACKETS);
    var omittedErrors, omittedPackets := NumberItem(j, OMITTED_ERRORS), NumberItem(j, OMITTED_PACKETS);
    var start, end := NumberItem(j, START_TIME), NumberItem(j, END_TIME);
    if id == None || bytes == None || retransmits == None || jitter == None || errors == None || packets == None
    then None
    else if omittedErrors.Some? != omittedPackets.Some? then None
    else
      Some(Report(
        ToInt32(JsonText.ToInt64(id.value)), JsonText.ToInt64(bytes.value),
        ToInt32(JsonText.ToInt64(retransmits.value)),
        jitter.value, JsonText.ToInt64(errors.value),
        if omittedErrors.Some?
        then Some((JsonText.ToInt64(omittedErrors.value), JsonText.ToInt64(omittedPackets.value))) else None,
        JsonText.ToInt64(packets.value),
        if start.Some? && end.Some? then Some((start.value, end.value)) else None))
  }

  /** A report that is read has its omitted counts and its times exactly when both of their members are
      there; it is not read when one omitted count is missing, or any other count. */
  lemma WhatMayBeMissing(j: Value)
    ensures ReadReport(j).Some? <==>
      && (forall key :: key in [ID, BYTES, RETRANSMITS, JITTER, ERRORS, PACKETS] ==> NumberItem(j, key).Some?)
      && NumberItem(j, OMITTED_ERRORS).Some? == NumberItem(j, OMITTED_PACKETS).Some?
    ensures ReadReport(j).Some? ==>
      && (ReadReport(j).value.omitted.Some? <==> NumberItem(j, OMITTED_ERRORS).Some?)
      && (ReadReport(j).value.times.Some? <==> NumberItem(j, START_TIME).Some? && NumberItem(j, END_TIME).Some?)
  {
    hide NumberItem;
    var keys := [ID, BYTES, RETRANSMITS, JITTER, ERRORS, PACKETS];
    assert keys[0] == ID && keys[1] == BYTES && keys[2] == RETRANSMITS && keys[3] == JITTER && keys[4] == ERRORS
      && keys[5] == PACKETS;
  }

  /** Integers a double holds exactly. */
  predicate Exact(n: int) {
    -0x20_0000_0000_0000 <= n <= 0x20_0000_0000_0000
  }

  predicate ExactReport(r: Report) {
    && -0x8000_0000 <= r.id < 0x8000_0000 && -0x8000_0000 <= r.retransmits < 0x8000_0000
    && Exact(r.bytes) && Exact(r.errors) && Exact(r.packets)
    && (r.omitted.Some? ==> Exact(r.omitted.value.0) && Exact(r.omitted.value.1))
  }

  lemma ReportItems(r: Report)
    requires Whole(r)
    ensures var j := Object(ReportMembers(r));
      && NumberItem(j, ID) == Some(r.id as real) && NumberItem(j, BYTES) == Some(r.bytes as real)
      && NumberItem(j, RETRANSMITS) == Some(r.retransmits as real) && NumberItem(j, JITTER) == Some(r.jitter)
      && NumberItem(j, ERRORS) == Some(r.errors as real)
  {
    hide Item;
    var ms := ReportMembers(r);
    FoundAt(ms, 0, ID);
    FoundAt(ms, 1, BYTES);
    FoundAt(ms, 2, RETRANSMITS);
    FoundAt(ms, 3, JITTER);
    FoundAt(ms, 4, ERRORS);
  }

  lemma MoreReportItems(r: Report)
    requires Whole(r)
    ensures var j := Object(ReportMembers(r));
      && NumberItem(j, PACKETS) == Some(r.packets as real)
      && NumberItem(j, OMITTED_ERRORS) == Some(r.omitted.value.0 as real)
      && NumberItem(j, OMITTED_PACKETS) == Some(r.omitted.value.1 as real)
      && NumberItem(j, START_TIME) == Some(r.times.value.0) && NumberItem(j, END_TIME) == Some(r.times.value.1)
  {
    hide Item;
    var ms := ReportMembers(r);
    FoundAt(ms, 5, OMITTED_ERRORS);
    FoundAt(ms, 6, PACKETS);
    FoundAt(ms, 7, OMITTED_PACKETS);
    FoundAt(ms, 8, START_TIME);
    FoundAt(ms, 9, END_TIME);
  }

  /** What one side says of a stream is what the other side reads, for counts a double holds exactly. */
  lemma ReportReadsBack(r: Report)
    requires ExactReport(r) && Whole(r)
    ensures ReadReport(Object(ReportMembers(r))) == Some(r)
  {
    hide NumberItem, ReportMembers, JsonText.ToInt64, ToInt32;
    ReportItems(r);
    MoreReportItems(r);
    IntegerReadsBack(r.bytes);
    IntegerReadsBack(r.errors);
    IntegerReadsBack(r.packets);
    IntegerReadsBack(r.omitted.value.0);
    IntegerReadsBack(r.omitted.value.1);
    IntReadsBack(r.id);
    IntReadsBack(r.retransmits);
  }

  lemma IntegerReadsBack(n: int)
    requires Exact(n)
    ensures JsonText.ToInt64(n as real) == n
  {
  }

  lemma IntReadsBack(n: int)
    requires -0x8000_0000 <= n < 0x8000_0000
    ensures ToInt32(JsonText.ToInt64(n as real)) == n
  {
    IntegerReadsBack(n);
  }

  // ---------- one stream's fields ----------

  /** A stream's fields as a value. */
  datatype Stats = Stats(id: int, sender: bool, bytesSent: int, bytesSentOmit: int, bytesReceived: int,
                         retransmits: int, jitter: real, cntError: int, omittedCntError: int,
                         packetCount: int, omittedPacketCount: int,
                         peerPacketCount: int, peerOmittedPacketCount: int, startTime: Time, endTime: Time,
                         senderTime: real, receiverTime: real)

  function Snapshot(sp: Stream): Stats
    reads sp
  {
    Stats(sp.id, sp.sender, sp.bytesSent, sp.bytesSentOmit, sp.bytesReceived, sp.retransmits, sp.jitter, sp.cntError,
          sp.omittedCntError, sp.packetCount, sp.omittedPacketCount, sp.peerPacketCount, sp.peerOmittedPacketCount,
          sp.startTime, sp.endTime, sp.senderTime, sp.receiverTime)
  }

  /** The time between start and end, in seconds. */
  function Elapsed(st: Stats): real {
    var a, b := InUsecs(st.startTime), InUsecs(st.endTime);
    (if a > b then a - b else b - a) as real / 1000000.0
  }

  /** So many seconds lie between the start and the end of the stream. */
  predicate Lasted(st: Stats, seconds: real) {
    var usecs := InUsecs(st.endTime) - InUsecs(st.startTime);
    seconds >= 0.0 && (seconds * 1000000.0 == usecs as real || seconds * 1000000.0 == -usecs as real)
  }

  lemma ElapsedLasts(st: Stats)
    ensures Lasted(st, Elapsed(st))
  {
  }

  /** What a side sends of a stream: a sender's bytes without the omitted ones, a receiver's bytes. */
  function ReportOf(st: Stats, hasRetransmits: bool): (r: Report)
    ensures Whole(r) && (!st.sender ==> r.retransmits == -1)
  {
    Report(st.id, if st.sender then st.bytesSent - st.bytesSentOmit else st.bytesReceived,
           if st.sender && hasRetransmits then st.retransmits else -1, st.jitter, st.cntError,
           Some((st.omittedCntError, st.omittedPacketCount)), st.packetCount, Some((0.0, Elapsed(st))))
  }

  /** Where the other side's report goes. */
  function Apply(st: Stats, r: Report): Stats {
    var span := if r.times.Some? then r.times.value.1 - r.times.value.0 else 0.0;
    if st.sender then
      var known := st.(jitter := r.jitter, cntError := r.errors, peerPacketCount := r.packets, bytesReceived := r.bytes,
                       receiverTime := span);
      if r.omitted.Some? then known.(omittedCntError := r.omitted.value.0, peerOmittedPacketCount := r.omitted.value.1)
      else
        known.(peerOmittedPacketCount := st.omittedPacketCount,
               omittedCntError := if st.omittedPacketCount <= 0 then r.errors else if r.errors > 0 then -1 else 0)
    else
      st.(peerPacketCount := r.packets, bytesSent := r.bytes, retransmits := r.retransmits, senderTime := span,
          peerOmittedPacketCount := if r.omitted.Some? then r.omitted.value.1 else r.packets)
  }

  method StoreAtSender(sp: Stream, r: Report)
    requires sp.sender
    modifies sp`jitter, sp`cntError, sp`peerPacketCount, sp`bytesReceived, sp`omittedCntError
    modifies sp`peerOmittedPacketCount, sp`receiverTime
    ensures Snapshot(sp) == Apply(old(Snapshot(sp)), r)
  {
    sp.jitter := r.jitter;
    sp.cntError := r.errors;
    sp.peerPacketCount := r.packets;
    sp.bytesReceived := r.bytes;
    if r.omitted.Some? {
      sp.omittedCntError := r.omitted.value.0;
      sp.peerOmittedPacketCount := r.omitted.value.1;
    } else {
      sp.peerOmittedPacketCount := sp.omittedPacketCount;
      if sp.peerOmittedPacketCount > 0 {
        sp.omittedCntError := if sp.cntError > 0 then -1 else 0;
      } else {
        sp.omittedCntError := sp.cntError;
      }
    }
    sp.receiverTime := if r.times.Some? then r.times.value.1 - r.times.value.0 else 0.0;
  }

  method StoreAtReceiver(sp: Stream, r: Report)
    requires !sp.sender
    modifies sp`peerPacketCount, sp`bytesSent, sp`retransmits, sp`peerOmittedPacketCount, sp`senderTime
    ensures Snapshot(sp) == Apply(old(Snapshot(sp)), r)
  {
    sp.peerPacketCount := r.packets;
    sp.bytesSent := r.bytes;
    sp.retransmits := r.retransmits;
    if r.omitted.Some? {
      sp.peerOmittedPacketCount := r.omitted.value.1;
    } else {
      sp.peerOmittedPacketCount := sp.peerPacketCount;
    }
    sp.senderTime := if r.times.Some? then r.times.value.1 - r.times.value.0 else 0.0;
  }

  method Store(sp: Stream, r: Report)
    modifies sp
    ensures Snapshot(sp) == Apply(old(Snapshot(sp)), r) && sp.next == old(sp.next) && sp.id == old(sp.id)
  {
    hide Snapshot, Apply;
    if sp.sender {
      StoreAtSender(sp, r);
    } else {
      StoreAtReceiver(sp, r);
    }
  }

  // ---------- all streams ----------

  ghost function Snapshots(list: seq<Stream>): (r: seq<Stats>)
    reads list
    ensures |r| == |list| && forall i :: 0 <= i < |list| ==> r[i] == Snapshot(list[i])
  {
    if list == [] then [] else [Snapshot(list[0])] + Snapshots(list[1..])
  }

  /** The stream with that id. */
  function WithId(sts: seq<Stats>, id: int): (r: Option<nat>)
    ensures r.Some? ==> r.value < |sts| && sts[r.value].id == id
    ensures r == None ==> forall i :: 0 <= i < |sts| ==> sts[i].id != id
  {
    if sts == [] then None
    else if sts[0].id == id then Some(0)
    else
      match WithId(sts[1..], id)
      case None => None
      case Some(k) => Some(k + 1)
  }

  /** get_results on one element, and on the whole array: it goes on after an error. */
  function ApplyOne(sts: seq<Stats>, j: Value): (seq<Stats>, bool) {
    match ReadReport(j)
    case None => (sts, false)
    case Some(r) =>
      match WithId(sts, r.id)
      case None => (sts, false)
      case Some(k) => (sts[k := Apply(sts[k], r)], true)
  }

  function ApplyAll(sts: seq<Stats>, js: seq<Value>): (seq<Stats>, bool)
    decreases |js|
  {
    if js == [] then (sts, true)
    else
      var one := ApplyOne(sts, js[0]);
      var rest := ApplyAll(one.0, js[1..]);
      (rest.0, one.1 && rest.1)
  }

  function Reports(sts: seq<Stats>, hasRetransmits: bool): (r: seq<Value>)
    ensures |r| == |sts|
    ensures forall i :: 0 <= i < |sts| ==> r[i] == Object(ReportMembers(ReportOf(sts[i], hasRetransmits)))
  {
    if sts == [] then []
    else [Object(ReportMembers(ReportOf(sts[0], hasRetransmits)))] + Reports(sts[1..], hasRetransmits)
  }

  // ---------- the exchange ----------

  /** Two sides whose i-th streams carry the same id and opposite roles, with counts a double holds. */
  predicate Matched(cs: seq<Stats>, ss: seq<Stats>) {
    && |cs| == |ss|
    && (forall i :: 0 <= i < |cs| ==> cs[i].id == ss[i].id == StreamId(i) && cs[i].sender != ss[i].sender)
  }

  predicate ExactStats(st: Stats) {
    && -0x8000_0000 <= st.id < 0x8000_0000 && -0x8000_0000 <= st.retransmits < 0x8000_0000
    && Exact(if st.sender then st.bytesSent - st.bytesSentOmit else st.bytesReceived)
    && Exact(st.cntError) && Exact(st.packetCount) && Exact(st.omittedCntError) && Exact(st.omittedPacketCount)
  }

  /** A reader whose streams are numbered by position files the i-th report under the i-th stream. */
  ghost predicate FiledFrom(sts: seq<Stats>, done: seq<Stats>, peers: seq<Stats>, hasRetransmits: bool, k: nat) {
    && |done| == |sts| == |peers|
    && (forall i :: 0 <= i < |sts| ==>
          done[i] == if i < k then sts[i] else Apply(sts[i], ReportOf(peers[i], hasRetransmits)))
  }

  lemma {:induction false} ReportsFiled(sts: seq<Stats>, peers: seq<Stats>, hasRetransmits: bool, js: seq<Value>,
                                        k: nat)
    requires |sts| == |peers| && k <= |sts| && |js| == |sts| - k
    requires forall i :: 0 <= i < |js| ==> js[i] == Object(ReportMembers(ReportOf(peers[k + i], hasRetransmits)))
    requires forall i :: 0 <= i < |sts| ==> sts[i].id == peers[i].id == StreamId(i) && ExactStats(peers[i])
    ensures ApplyAll(sts, js).1 && FiledFrom(sts, ApplyAll(sts, js).0, peers, hasRetransmits, k)
    decreases |js|
  {
    hide ReadReport, ReportOf, ReportMembers, WithId;
    if js != [] {
      var r := ReportOf(peers[k], hasRetransmits);
      OneFiled(sts, peers[k], hasRetransmits, k);
      assert js[0] == Object(ReportMembers(r));
      var next := sts[k := Apply(sts[k], r)];
      KeepsId(sts[k], r);
      hide Apply;
      assert forall i :: 0 <= i < |js[1..]| ==> js[1..][i] == js[i + 1];
      ReportsFiled(next, peers, hasRetransmits, js[1..], k + 1);
    }
  }

  lemma KeepsId(st: Stats, r: Report)
    ensures Apply(st, r).id == st.id && Apply(st, r).sender == st.sender
  {
  }

  lemma ExactReports(st: Stats, hasRetransmits: bool)
    requires ExactStats(st)
    ensures ExactReport(ReportOf(st, hasRetransmits)) && ReportOf(st, hasRetransmits).id == st.id
  {
  }

  lemma OneFiled(sts: seq<Stats>, peer: Stats, hasRetransmits: bool, k: nat)
    requires k < |sts| && peer.id == StreamId(k) && ExactStats(peer)
    requires forall i :: 0 <= i < |sts| ==> sts[i].id == StreamId(i)
    ensures var r := ReportOf(peer, hasRetransmits);
      ApplyOne(sts, Object(ReportMembers(r))) == (sts[k := Apply(sts[k], r)], true)
  {
    var r := ReportOf(peer, hasRetransmits);
    ExactReports(peer, hasRetransmits);
    hide ReportOf, ReportMembers, ReadReport, Apply, ExactStats, ExactReport;
    ReportReadsBack(r);
    assert WithId(sts, r.id) == Some(k);
  }

  /** What one side knows of a stream after the exchange, given both sides before it. */
  predicate Learned(before: Stats, after: Stats, peer: Stats, hasRetransmits: bool) {
    && after.peerPacketCount == peer.packetCount && after.peerOmittedPacketCount == peer.omittedPacketCount
    && (if before.sender then
          && after.bytesReceived == peer.bytesReceived && after.bytesSent == before.bytesSent
          && after.jitter == peer.jitter && after.cntError == peer.cntError
          && after.omittedCntError == peer.omittedCntError
          && Lasted(peer, after.receiverTime)
        else
          && after.bytesSent == peer.bytesSent - peer.bytesSentOmit && after.bytesReceived == before.bytesReceived
          && after.retransmits == (if hasRetransmits then peer.retransmits else -1)
          && after.cntError == before.cntError && Lasted(peer, after.senderTime))
  }

  /** after is before with each report filed at its place. */
  ghost predicate Filed(before: seq<Stats>, after: seq<Stats>, peers: seq<Stats>, hasRetransmits: bool) {
    && |before| == |after| == |peers|
    && forall i :: 0 <= i < |before| ==> after[i] == Apply(before[i], ReportOf(peers[i], hasRetransmits))
  }

  lemma AllFiled(before: seq<Stats>, peers: seq<Stats>, hasRetransmits: bool)
    requires |before| == |peers|
    requires forall i :: 0 <= i < |before| ==> before[i].id == peers[i].id == StreamId(i) && ExactStats(peers[i])
    ensures var r := ApplyAll(before, Reports(peers, hasRetransmits)); r.1 && Filed(before, r.0, peers, hasRetransmits)
  {
    hide ReportOf, Apply, ApplyAll, ReportMembers, ExactStats, StreamId;
    ReportsFiled(before, peers, hasRetransmits, Reports(peers, hasRetransmits), 0);
  }

  /** The same of all streams. */
  predicate LearnedAll(before: seq<Stats>, after: seq<Stats>, peers: seq<Stats>, hasRetransmits: bool) {
    && |before| == |after| == |peers|
    && forall i :: 0 <= i < |before| ==> Learned(before[i], after[i], peers[i], hasRetransmits)
  }

  /** The client sends its results; the server files them and only then sends its own, which the
      client files. Each side ends up with what the other held before the exchange, although the
      server has overwritten fields of its streams in between. */
  lemma ResultsLand(cs: seq<Stats>, ss: seq<Stats>, clientHas: bool, serverHas: bool)
    requires Matched(cs, ss) && (forall st :: st in cs ==> ExactStats(st)) && (forall st :: st in ss ==> ExactStats(st))
    ensures var s := ApplyAll(ss, Reports(cs, clientHas));
      var c := ApplyAll(cs, Reports(s.0, serverHas));
      s.1 && c.1 && LearnedAll(ss, s.0, cs, clientHas) && LearnedAll(cs, c.0, ss, serverHas)
  {
    hide ReportOf, Apply, ApplyAll, ReportMembers, Learned, ExactStats, Reports, Filed;
    AllFiled(ss, cs, clientHas);
    var s := ApplyAll(ss, Reports(cs, clientHas)).0;
    ServerHalf(cs, ss, s, clientHas);
    AllFiled(cs, s, serverHas);
    ClientHalf(cs, ss, s, ApplyAll(cs, Reports(s, serverHas)).0, clientHas, serverHas);
  }

  /** What the server has learned, and that it can still say all of it exactly. */
  lemma ServerHalf(cs: seq<Stats>, ss: seq<Stats>, s: seq<Stats>, has: bool)
    requires Matched(cs, ss) && (forall st :: st in cs ==> ExactStats(st)) && (forall st :: st in ss ==> ExactStats(st))
    requires Filed(ss, s, cs, has)
    ensures LearnedAll(ss, s, cs, has) && forall i :: 0 <= i < |s| ==> s[i].id == ss[i].id && ExactStats(s[i])
  {
    hide ReportOf, Apply, Learned, ExactStats, StreamId;
    forall i | 0 <= i < |s| ensures s[i].id == ss[i].id && ExactStats(s[i]) && Learned(ss[i], s[i], cs[i], has) {
      assert cs[i] in cs && ss[i] in ss;
      ServerLearns(ss[i], cs[i], has);
    }
  }

  /** And what the client then learns from the server's streams. */
  lemma ClientHalf(cs: seq<Stats>, ss: seq<Stats>, s: seq<Stats>, c: seq<Stats>, clientHas: bool, serverHas: bool)
    requires Matched(cs, ss) && (forall st :: st in cs ==> ExactStats(st)) && (forall st :: st in ss ==> ExactStats(st))
    requires Filed(ss, s, cs, clientHas) && Filed(cs, c, s, serverHas)
    ensures LearnedAll(cs, c, ss, serverHas)
  {
    hide ReportOf, Apply, Learned, ExactStats, StreamId;
    forall i | 0 <= i < |c| ensures Learned(cs[i], c[i], ss[i], serverHas) {
      assert cs[i] in cs && ss[i] in ss;
      ClientLearns(cs[i], ss[i], clientHas, serverHas);
    }
  }

  lemma ServerLearns(s: Stats, c: Stats, has: bool)
    requires s.sender != c.sender && s.id == c.id && ExactStats(s) && ExactStats(c)
    ensures var t := Apply(s, ReportOf(c, has));
      t.id == s.id && ExactStats(t) && Learned(s, t, c, has)
  {
    ElapsedLasts(c);
    hide Elapsed, Lasted;
  }

  lemma ClientLearns(c: Stats, s: Stats, clientHas: bool, serverHas: bool)
    requires s.sender != c.sender && s.id == c.id && ExactStats(s) && ExactStats(c)
    ensures var t := Apply(s, ReportOf(c, clientHas)); Learned(c, Apply(c, ReportOf(t, serverHas)), s, serverHas)
  {
    var t := Apply(c, ReportOf(Apply(s, ReportOf(c, clientHas)), serverHas));
    ElapsedLasts(s);
    hide ExactStats, Lasted;
  }

  // ---------- send_results and get_results ----------

  /** The fields of iperf_test the exchange uses. */
  class Side {
    const mode: Protocol.Mode
    const test: StreamList
    var senderHasRetransmits: int
    var otherSideHasRetransmits: int
    var cpuUtil: (real, real, real)
    var remoteCpuUtil: (real, real, real)

    constructor (mode: Protocol.Mode, test: StreamList)
      ensures this.mode == mode && this.test == test
    {
      this.mode, this.test := mode, test;
      senderHasRetransmits, otherSideHasRetransmits := 0, 0;
      cpuUtil, remoteCpuUtil := (0.0, 0.0, 0.0), (0.0, 0.0, 0.0);
    }
  }

  /** What a side says of its sender's retransmits, and what the server then takes for its own. */
  function Told(side: Side): int
    reads side`senderHasRetransmits
  {
    if side.mode == Protocol.Receiver then -1 else side.senderHasRetransmits
  }

  function Adopted(server: Side, told: int): int
    reads server`senderHasRetransmits
  {
    if server.mode == Protocol.Receiver then told else server.senderHasRetransmits
  }

  function ResultsMembers(cpu: (real, real, real), has: int, reports: seq<Value>): seq<Member> {
    [Member(CPU_UTIL_TOTAL, Number(cpu.0)), Member(CPU_UTIL_USER, Number(cpu.1)),
     Member(CPU_UTIL_SYSTEM, Number(cpu.2)), Member(SENDER_HAS_RETRANSMITS, Number(has as real)),
     Member(STREAMS, Array(reports))]
  }

  datatype Received = Received(cpu: (real, real, real), has: int, streams: Option<seq<Value>>)

  /** What get_results finds at the top: None is IERECVRESULTS before any stream is touched. */
  function ReadResults(j: Value): Option<Received> {
    var total, user := NumberItem(j, CPU_UTIL_TOTAL), NumberItem(j, CPU_UTIL_USER);
    var system := NumberItem(j, CPU_UTIL_SYSTEM);
    var has := NumberItem(j, SENDER_HAS_RETRANSMITS);
    if total == None || user == None || system == None || has == None then None
    else
      var streams := match Item(j, STREAMS)
        case Some(Array(js)) => Some(js)
        case _ => None;
      Some(Received((total.value, user.value, system.value), ToInt32(JsonText.ToInt64(has.value)), streams))
  }

  function ReadIfAny(j: Option<Value>): Option<Received> {
    if j == None then None else ReadResults(j.value)
  }

  /** Results are read exactly when their four numbers are there, and give streams exactly when an array of
      them is. */
  lemma WhatMustBeThere(j: Value)
    ensures ReadResults(j).Some? <==>
      && NumberItem(j, CPU_UTIL_TOTAL).Some? && NumberItem(j, CPU_UTIL_USER).Some?
      && NumberItem(j, CPU_UTIL_SYSTEM).Some? && NumberItem(j, SENDER_HAS_RETRANSMITS).Some?
    ensures ReadResults(j).Some? ==>
      (ReadResults(j).value.streams.Some? <==> Item(j, STREAMS).Some? && Item(j, STREAMS).value.Array?)
  {
    hide NumberItem, Item;
  }

  lemma ResultsReadBack(cpu: (real, real, real), has: int, reports: seq<Value>)
    requires -0x8000_0000 <= has < 0x8000_0000
    ensures ReadResults(Object(ResultsMembers(cpu, has, reports))) == Some(Received(cpu, has, Some(reports)))
  {
    hide Item;
    var ms := ResultsMembers(cpu, has, reports);
    FoundAt(ms, 0, CPU_UTIL_TOTAL);
    FoundAt(ms, 1, CPU_UTIL_USER);
    FoundAt(ms, 2, CPU_UTIL_SYSTEM);
    FoundAt(ms, 3, SENDER_HAS_RETRANSMITS);
    FoundAt(ms, 4, STREAMS);
    IntReadsBack(has);
    hide JsonText.ToInt64, ToInt32;
  }

  method SendResults(side: Side) returns (j: Value)
    requires side.test.Valid()
    ensures j == Object(ResultsMembers(side.cpuUtil, Told(side),
                                       Reports(Snapshots(side.test.list), side.senderHasRetransmits != 0)))
  {
    hide ReportMembers, ReportOf, Snapshot, Snapshots, Reports, ResultsMembers, StreamList.Valid;
    side.test.StreamLinks(0);
    var has := if side.mode == Protocol.Receiver then -1 else side.senderHasRetransmits;
    var streams: seq<Value> := [];
    var sp := side.test.streams;
    ghost var list, i := side.test.list, 0;
    ghost var all := Reports(Snapshots(list), side.senderHasRetransmits != 0);
    while sp != null
      invariant i <= |list| == |all| && sp == if i < |list| then list[i] else null
      invariant streams == all[..i]
      decreases |list| - i
    {
      side.test.StreamLinks(i);
      ReportAt(list, side.senderHasRetransmits != 0, i);
      var r := ReportOf(Snapshot(sp), side.senderHasRetransmits != 0);
      streams := streams + [Object(ReportMembers(r))];
      sp := sp.next;
      i := i + 1;
    }
    assert all[..i] == all;
    j := Object(ResultsMembers(side.cpuUtil, has, streams));
  }

  lemma ReportAt(list: seq<Stream>, hasRetransmits: bool, i: nat)
    requires i < |list|
    ensures var all := Reports(Snapshots(list), hasRetransmits);
      |all| == |list| && all[i] == Object(ReportMembers(ReportOf(Snapshot(list[i]), hasRetransmits)))
  {
  }

  /** The search for a stream by id. */
  method FindStream(test: StreamList, id: int) returns (sp: Stream?, ghost i: nat)
    requires test.Valid()
    ensures if sp == null then WithId(Snapshots(test.list), id) == None
            else i < |test.list| && sp == test.list[i] && WithId(Snapshots(test.list), id) == Some(i)
  {
    hide Snapshot, WithId;
    ghost var list, sts := test.list, Snapshots(test.list);
    IdsKept(list);
    sp, i := test.streams, 0;
    while sp != null && sp.id != id
      invariant i <= |list| && sp == if i < |list| then list[i] else null
      invariant forall k :: 0 <= k < i ==> sts[k].id != id
      decreases |list| - i
    {
      sp := sp.next;
      i := i + 1;
    }
    if sp != null {
      FirstWithId(sts, id, i);
    } else {
      NoneWithId(sts, id);
    }
  }

  lemma {:induction false} FirstWithId(sts: seq<Stats>, id: int, i: nat)
    requires i < |sts| && sts[i].id == id && forall k :: 0 <= k < i ==> sts[k].id != id
    ensures WithId(sts, id) == Some(i)
  {
    if i > 0 {
      FirstWithId(sts[1..], id, i - 1);
    }
  }

  lemma NoneWithId(sts: seq<Stats>, id: int)
    requires forall k :: 0 <= k < |sts| ==> sts[k].id != id
    ensures WithId(sts, id) == None
  {
  }

  /** Files a report under one stream; links and ids stay. */
  method StoreReport(test: StreamList, sp: Stream, ghost i: nat, r: Report)
    requires test.Valid() && i < |test.list| && test.list[i] == sp
    modifies sp
    ensures test.Valid()
    ensures Snapshots(test.list) == old(Snapshots(test.list))[i := Apply(old(Snapshots(test.list))[i], r)]
  {
    hide Snapshot, Apply, StreamList.Valid, Snapshots;
    ghost var list, sts := test.list, Snapshots(test.list);
    assert allocated(list);
    OnlyAt(test, i);
    EachSnapshot(list);
    Store(sp, r);
    Replaced(list, sts, i);
  }

  lemma EachSnapshot(list: seq<Stream>)
    ensures |Snapshots(list)| == |list| && forall k :: 0 <= k < |list| ==> Snapshots(list)[k] == Snapshot(list[k])
  {
  }

  /** When only one stream has changed. */
  lemma Replaced(list: seq<Stream>, sts: seq<Stats>, i: nat)
    requires |sts| == |list| && i < |list| && forall k :: 0 <= k < |list| && k != i ==> Snapshot(list[k]) == sts[k]
    ensures Snapshots(list) == sts[i := Snapshot(list[i])]
  {
    hide Snapshot;
  }

  lemma OnlyAt(test: StreamList, i: nat)
    requires test.Valid() && i < |test.list|
    ensures forall k :: 0 <= k < |test.list| && k != i ==> test.list[k] != test.list[i]
  {
  }

  /** Files one element of the streams array. */
  method StoreStream(test: StreamList, j: Value) returns (ok: bool)
    requires test.Valid()
    modifies Members(test.list)
    ensures test.Valid()
    ensures (Snapshots(test.list), ok) == ApplyOne(old(Snapshots(test.list)), j)
  {
    hide ReadReport, Apply, Snapshot, Snapshots, WithId, StreamList.Valid;
    var r := ReadReport(j);
    if r == None {
      return false;
    }
    var sp, i := FindStream(test, r.value.id);
    if sp == null {
      return false;
    }
    StoreReport(test, sp, i, r.value);
    ok := true;
  }

  lemma IdsKept(list: seq<Stream>)
    ensures forall i :: 0 <= i < |list| ==> Snapshots(list)[i].id == list[i].id
  {
  }

  /** The loop of get_results over the streams array. */
  method StoreStreams(test: StreamList, js: seq<Value>) returns (r: int)
    requires test.Valid()
    modifies Members(test.list)
    ensures test.Valid() && (r == 0 || r == -1)
    ensures (Snapshots(test.list), r == 0) == ApplyAll(old(Snapshots(test.list)), js)
  {
    hide ApplyOne, Snapshots, StreamList.Valid;
    r := 0;
    ghost var sts := Snapshots(test.list);
    for i := 0 to |js|
      invariant test.Valid() && (r == 0 || r == -1)
      invariant ApplyAll(sts, js).0 == ApplyAll(Snapshots(test.list), js[i..]).0
      invariant ApplyAll(sts, js).1 <==> r == 0 && ApplyAll(Snapshots(test.list), js[i..]).1
    {
      assert js[i..][0] == js[i] && js[i..][1..] == js[i + 1..];
      var ok := StoreStream(test, js[i]);
      if !ok {
        r := -1;
      }
    }
  }

  /** get_results; -1 for an error, after which streams may have been filed all the same. */
  method GetResults(side: Side, j: Option<Value>) returns (r: int)
    requires side.test.Valid()
    modifies side`senderHasRetransmits, side`otherSideHasRetransmits, side`remoteCpuUtil, Members(side.test.list)
    ensures side.test.Valid()
    ensures var got := ReadIfAny(j);
      if got == None then r == -1 && Snapshots(side.test.list) == old(Snapshots(side.test.list))
      else
        && side.remoteCpuUtil == got.value.cpu
        && side.senderHasRetransmits == old(Adopted(side, got.value.has))
        && side.otherSideHasRetransmits == (if side.mode == Protocol.Receiver then 0
              else if side.mode == Protocol.Bidirectional then got.value.has else old(side.otherSideHasRetransmits))
        && if got.value.streams == None then r == -1 && Snapshots(side.test.list) == old(Snapshots(side.test.list))
           else (Snapshots(side.test.list), r == 0) == ApplyAll(old(Snapshots(side.test.list)), got.value.streams.value)
  {
    hide ReadResults, ApplyAll, Snapshots, StreamList.Valid;
    var test := side.test;
    if j == None || ReadResults(j.value) == None {
      return -1;
    }
    var found := ReadResults(j.value).value;
    side.remoteCpuUtil := found.cpu;
    if side.mode == Protocol.Receiver {
      side.senderHasRetransmits := found.has;
      side.otherSideHasRetransmits := 0;
    } else if side.mode == Protocol.Bidirectional {
      side.otherSideHasRetransmits := found.has;
    }
    if found.streams == None {
      return -1;
    }
    r := StoreStreams(test, found.streams.value);
  }

  // ---------- both sides ----------

  predicate Int32(n: int) {
    -0x8000_0000 <= n < 0x8000_0000
  }

  /** One direction of the exchange: what one side sends, the other reads. */
  method Pass(from: Side, to: Side) returns (r: int)
    requires from != to && from.test != to.test && from.test.Valid() && to.test.Valid()
    requires Members(from.test.list) !! Members(to.test.list) && Int32(from.senderHasRetransmits)
    modifies to`senderHasRetransmits, to`otherSideHasRetransmits, to`remoteCpuUtil, Members(to.test.list)
    ensures from.test.Valid() && to.test.Valid() && Snapshots(from.test.list) == old(Snapshots(from.test.list))
    ensures (Snapshots(to.test.list), r == 0) ==
            old(ApplyAll(Snapshots(to.test.list), Reports(Snapshots(from.test.list), from.senderHasRetransmits != 0)))
    ensures to.senderHasRetransmits == old(Adopted(to, Told(from))) && to.remoteCpuUtil == from.cpuUtil
  {
    hide Snapshots, ApplyAll, Reports, ResultsMembers, ReadResults, StreamList.Valid;
    ghost var list := from.test.list;
    assert allocated(list);
    ResultsReadBack(from.cpuUtil, Told(from), Reports(Snapshots(list), from.senderHasRetransmits != 0));
    var j := SendResults(from);
    r := GetResults(to, Some(j));
  }

  /** iperf_exchange_results on both sides: the client sends and then reads, the server reads and then
      sends. The JSON values pass between them as JsonWire.ValueCrosses has it. */
  method ExchangeResults(client: Side, server: Side) returns (clientResult: int, serverResult: int)
    requires client != server && client.test != server.test && client.test.Valid() && server.test.Valid()
    requires Members(client.test.list) !! Members(server.test.list)
    requires Matched(Snapshots(client.test.list), Snapshots(server.test.list))
    requires forall st :: st in Snapshots(client.test.list) ==> ExactStats(st)
    requires forall st :: st in Snapshots(server.test.list) ==> ExactStats(st)
    requires Int32(client.senderHasRetransmits) && Int32(server.senderHasRetransmits)
    modifies client`senderHasRetransmits, client`otherSideHasRetransmits, client`remoteCpuUtil
    modifies server`senderHasRetransmits, server`otherSideHasRetransmits, server`remoteCpuUtil
    modifies Members(client.test.list), Members(server.test.list)
    ensures clientResult == 0 == serverResult
    ensures LearnedAll(old(Snapshots(server.test.list)), Snapshots(server.test.list), old(Snapshots(client.test.list)),
                       old(client.senderHasRetransmits) != 0)
    ensures LearnedAll(old(Snapshots(client.test.list)), Snapshots(client.test.list), old(Snapshots(server.test.list)),
                       old(Adopted(server, Told(client))) != 0)
    ensures server.remoteCpuUtil == client.cpuUtil && client.remoteCpuUtil == server.cpuUtil
  {
    hide Snapshots, Matched, LearnedAll, ExactStats, ApplyAll, Reports, StreamList.Valid;
    ghost var cs, ss := Snapshots(client.test.list), Snapshots(server.test.list);
    ResultsLand(cs, ss, client.senderHasRetransmits != 0, Adopted(server, Told(client)) != 0);
    serverResult := Pass(client, server);
    clientResult := Pass(server, client);
  }
}
