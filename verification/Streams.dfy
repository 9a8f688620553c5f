/** The streams of a test: how the two sides create, number and assign them. */
module Streams {
  import opened IperfTime
  import opened Sequences
  import Protocol

  class Stream {
    var id: int
    var sender: bool
    var next: Stream?
    var bytesSent: int
    var bytesSentOmit: int
    var bytesReceived: int
    var retransmits: int
    var jitter: real
    var cntError: int
    var omittedCntError: int
    var packetCount: int
    var omittedPacketCount: int
    var peerPacketCount: int
    var peerOmittedPacketCount: int
    var startTime: Time
    var endTime: Time
    var senderTime: real
    var receiverTime: real

    /** The fields iperf_new_stream sets; the counters start at zero. */
    constructor (sender: bool)
      ensures this.sender == sender && next == null && retransmits == 0 && jitter == 0.0
      ensures bytesSent == 0 == bytesSentOmit && bytesReceived == 0 && cntError == 0 == omittedCntError
      ensures packetCount == 0 == omittedPacketCount && peerPacketCount == 0 == peerOmittedPacketCount
    {
      this.sender := sender;
      id, next := 0, null;
      bytesSent, bytesSentOmit, bytesReceived, retransmits, jitter := 0, 0, 0, 0, 0.0;
      cntError, omittedCntError, packetCount, omittedPacketCount := 0, 0, 0, 0;
      peerPacketCount, peerOmittedPacketCount := 0, 0;
      startTime, endTime, senderTime, receiverTime := Time(0, 0), Time(0, 0), 0.0, 0.0;
    }
  }

  /** The id of the stream at a position: 1, then 3, 4, 5, ... */
  function StreamId(i: nat): int {
    if i == 0 then 1 else i + 2
  }

  lemma StreamIdsDistinct(i: nat, k: nat)
    ensures StreamId(i) == StreamId(k) <==> i == k
  {
  }

  class StreamList {
    var streams: Stream?
    ghost var list: seq<Stream>

    /** The streams are linked in order, each once, and numbered by position. */
    ghost predicate Valid()
      reads this, list`next, list`id
    {
      && (if list == [] then streams == null else streams == list[0] && list[|list| - 1].next == null)
      && (forall i {:trigger list[i].next} :: 0 <= i < |list| - 1 ==> list[i].next == list[i + 1])
      && (forall i, k :: 0 <= i < k < |list| ==> list[i] != list[k])
      && (forall i :: 0 <= i < |list| ==> list[i].id == StreamId(i))
    }

    lemma StreamLinks(i: nat)
      requires Valid() && i <= |list|
      ensures streams == if list == [] then null else list[0]
      ensures i < |list| ==> list[i].next == if i + 1 < |list| then list[i + 1] else null
    {
    }

    constructor ()
      ensures Valid() && list == []
    {
      streams, list := null, [];
    }

    /** iperf_add_stream: to the end, with an id found by counting. */
    method AddStream(sp: Stream)
      requires Valid() && sp !in list && sp.next == null
      modifies this, Members(list)`next, sp`next, sp`id
      ensures Valid() && list == old(list) + [sp]
    {
      if streams == null {
        streams := sp;
        sp.id := 1;
      } else {
        var i, prev, n := 2, null, streams;
        while n != null
          invariant 2 <= i <= 2 + |list|
          invariant prev == if i == 2 then null else list[i - 3]
          invariant n == if i - 2 < |list| then list[i - 2] else null
          decreases |list| + 2 - i
        {
          prev, n := n, n.next;
          i := i + 1;
        }
        if prev != null {
          prev.next := sp;
          sp.id := i;
        }
      }
      list := list + [sp];
    }

    /** iperf_create_streams: num new streams with the same role. */
    method CreateStreams(num: nat, sender: bool)
      requires Valid()
      modifies this, Members(list)`next
      ensures Valid() && |list| == |old(list)| + num && list[..|old(list)|] == old(list)
      ensures forall s :: s in Members(list) ==> s in old(Members(list)) || fresh(s)
      ensures forall i :: |old(list)| <= i < |list| ==> list[i].sender == sender
    {
      for i := 0 to num
        invariant Valid() && |list| == |old(list)| + i && list[..|old(list)|] == old(list)
        invariant forall s :: s in Members(list) ==> s in old(Members(list)) || fresh(s)
        invariant forall k :: |old(list)| <= k < |list| ==> list[k].sender == sender
      {
        var sp := new Stream(sender);
        AddStream(sp);
      }
    }
  }

  /** The client's answer to CREATE_STREAMS: its streams have the protocol's roles, in order. */
  method CreateClientStreams(c: Protocol.Config) returns (test: StreamList)
    ensures fresh(test) && test.Valid() && |test.list| == Protocol.Total(c)
    ensures forall i :: 0 <= i < |test.list| ==> test.list[i].sender == Protocol.ClientSends(c, i)
  {
    test := new StreamList();
    if c.mode == Protocol.Bidirectional {
      test.CreateStreams(c.num, true);
      ghost var first := test.list;
      test.CreateStreams(c.num, false);
      assert forall i :: 0 <= i < c.num ==> test.list[i] == first[i];
    } else {
      test.CreateStreams(c.num, c.mode == Protocol.Sender);
    }
  }

  /** The server's part of the same: each connection takes the first role that is not full, receiving
      before sending, and gets the opposite of the client's role at that position. */
  method AcceptServerStreams(c: Protocol.Config) returns (test: StreamList)
    ensures fresh(test) && test.Valid() && |test.list| == Protocol.Total(c)
    ensures forall i :: 0 <= i < |test.list| ==> test.list[i].sender == !Protocol.ClientSends(c, i)
  {
    test := new StreamList();
    var toReceive, toSend := Protocol.ToReceive(c), Protocol.ToSend(c);
    var received, sent := 0, 0;
    while received != toReceive || sent != toSend
      invariant test.Valid() && fresh(test) && forall s :: s in test.list ==> fresh(s)
      invariant received <= toReceive && sent <= toSend && |test.list| == received + sent
      invariant sent > 0 ==> received == toReceive
      invariant forall i :: 0 <= i < |test.list| ==> test.list[i].sender == !Protocol.ClientSends(c, i)
      decreases toReceive + toSend - received - sent
    {
      var flag;
      if received != toReceive {
        flag := false;
        received := received + 1;
      } else {
        flag := true;
        sent := sent + 1;
      }
      var sp := new Stream(flag);
      ghost var before := test.list;
      test.AddStream(sp);
      assert forall s :: s in test.list ==> s in before || s == sp;
    }
  }

  /** The i-th streams of the two sides have the same id and opposite roles, and no other has that id. */
  lemma StreamsPairUp(c: Protocol.Config, client: StreamList, server: StreamList, i: nat, k: nat)
    requires client.Valid() && server.Valid() && |client.list| == |server.list|
    requires forall n :: 0 <= n < |client.list| ==> client.list[n].sender == Protocol.ClientSends(c, n)
    requires forall n :: 0 <= n < |server.list| ==> server.list[n].sender == !Protocol.ClientSends(c, n)
    requires i < |client.list| && k < |client.list|
    ensures client.list[i].sender != server.list[i].sender
    ensures client.list[i].id == server.list[k].id <==> i == k
  {
    StreamIdsDistinct(i, k);
  }
}
