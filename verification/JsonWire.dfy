/** JSON_write and JSON_read: values as length-prefixed text on a byte stream. */
module JsonWire {
  import opened Bytes
  import opened JsonValue
  import opened JsonText
  import opened JsonNode
  import opened JsonTree
  import JsonRead
  import JsonParser
  import JsonPrinter
  import JsonRoundTrip
  import Protocol

  /** A count of bytes as Nread and Nwrite return it: cut to an int of 32 bits. */
  function AsInt(n: nat): int {
    var m := n % 0x1_0000_0000;
    if m < Protocol.INT_RANGE then m else m - 0x1_0000_0000
  }

  lemma AsIntCuts(n: nat)
    ensures -0x8000_0000 <= AsInt(n) < 0x8000_0000 && (n - AsInt(n)) % 0x1_0000_0000 == 0
  {
  }

  /** One direction of a connection: what is written and not yet read. The other side may have
      closed it. */
  class Socket {
    var data: bytes

    constructor ()
      ensures data == []
    {
      data := [];
    }

    method Nwrite(t: bytes) returns (rc: int)
      modifies this
      ensures data == old(data) + t && rc == AsInt(|t|)
    {
      data := data + t;
      rc := AsInt(|t|);
    }

    /** Nread of n bytes, or of all there are when the other side closes before that many. */
    method Nread(n: nat) returns (t: bytes, rc: int)
      modifies this
      ensures var k := if n <= |old(data)| then n else |old(data)|;
        t == old(data)[..k] && data == old(data)[k..] && rc == AsInt(k)
    {
      var k := if n <= |data| then n else |data|;
      t := data[..k];
      data := data[k..];
      rc := AsInt(k);
    }
  }

  /** What is sent of a text: its length is cut off to 32 bits. */
  function Cut(text: bytes): bytes {
    text[..|text| % 0x1_0000_0000]
  }

  /** A text behind its length. */
  function Frame(text: bytes): bytes {
    Protocol.BigEndian(|Cut(text)|) + Cut(text)
  }

  /** What JSON_read takes off a stream, with 0 for no maximum: the text if it gets one, and what
      stays behind. A length of 2^32 - 1 has no room for the NUL behind it in 32 bits, and the count
      of 2^31 bytes read, or more, is negative. */
  function ReadFrame(data: bytes, max: nat): (Option<bytes>, bytes) {
    if |data| < 4 then (None, [])
    else
      var n := Protocol.FromBigEndian(data);
      var rest := data[4..];
      if n == 0 || (max != 0 && n > max) || n == Protocol.LONGEST then (None, rest)
      else if |rest| < n then (None, [])
      else (if n < Protocol.INT_RANGE then Some(rest[..n]) else None, rest[n..])
  }

  /** JSON_write. It writes the whole frame, and takes the count of a long one for an error. */
  method WriteJson(c: Libc, fd: Socket, json: Node, ghost t: Tree, ghost v: Value) returns (r: int)
    requires t.root == json && Reps(t, v) && JsonPrinter.Renderable(c, v)
    modifies fd
    ensures fd.data == old(fd.data) + Frame(Text(c, v, false, 0))
    ensures r == if |Cut(Text(c, v, false, 0))| < Protocol.INT_RANGE then 0 else -1
  {
    hide Reps, Text, Protocol.BigEndian, Cut, Frame, AsInt, JsonPrinter.HoldsString;
    assert allocated(fd);
    var str := JsonPrinter.Print(c, json, false, t, v);
    ghost var text := Text(c, v, false, 0);
    var length := Strlen(str, text);
    var hsize := length % 0x1_0000_0000;
    CutStored(str, text, hsize);
    var rc := fd.Nwrite(Protocol.BigEndian(hsize));
    IntSign(4);
    if rc < 0 {
      return -1;
    }
    rc := fd.Nwrite(str[..hsize]);
    IntSign(hsize);
    FrameIs(old(fd.data), text);
    r := if rc < 0 then -1 else 0;
  }

  lemma CutStored(str: array<byte>, text: bytes, hsize: nat)
    requires JsonPrinter.HoldsString(str, text) && hsize == |text| % 0x1_0000_0000
    ensures hsize <= str.Length && str[..hsize] == Cut(text) && |Cut(text)| == hsize
  {
    assert str[..hsize] == str[..|text|][..hsize];
  }

  lemma IntSign(n: nat)
    requires n < 0x1_0000_0000
    ensures AsInt(n) < 0 <==> n >= Protocol.INT_RANGE
  {
  }

  lemma FrameIs(data: bytes, text: bytes)
    requires |Cut(text)| < 0x1_0000_0000
    ensures data + Protocol.BigEndian(|Cut(text)|) + Cut(text) == data + Frame(text)
  {
    hide Protocol.BigEndian, Cut;
  }

  method Strlen(str: array<byte>, ghost text: bytes) returns (n: nat)
    requires JsonPrinter.HoldsString(str, text)
    ensures n == |text|
  {
    n := 0;
    while str[n] != NUL
      invariant n <= |text|
      decreases |text| - n
    {
      assert str[n] == str[..|text|][n];
      n := n + 1;
    }
  }

  /** JSON_read. */
  method ReadJson(c: Libc, fd: Socket, maxSize: nat) returns (json: Node?, ghost t: Tree)
    modifies fd
    ensures fd.data == ReadFrame(old(fd.data), maxSize).1
    ensures match ReadFrame(old(fd.data), maxSize).0
            case None => json == null
            case Some(body) =>
              match JsonRead.Parse(c, CString(body))
              case None => json == null
              case Some((v, _)) => json == t.root && Reps(t, v) && Separate(t) && fresh(Nodes(t))
  {
    hide Reps, Separate, Nodes, JsonRead.Parse, CString;
    ghost var stream := fd.data;
    var none := new Node();
    t := Leaf(none);
    var nsize, rc := fd.Nread(4);
    if rc != 4 {
      return null, t;
    }
    var hsize := Protocol.FromBigEndian(nsize);
    assert hsize == Protocol.FromBigEndian(stream);
    hide Protocol.FromBigEndian;
    if !(hsize > 0 && (maxSize == 0 || hsize <= maxSize)) {
      return null, t;
    }
    var strsize := (hsize + 1) % 0x1_0000_0000;
    if strsize == 0 {
      return null, t;
    }
    var str;
    str, rc := fd.Nread(hsize);
    if rc < 0 || rc != hsize {
      return null, t;
    }
    json, t := JsonParser.Parse(c, CString(str));
  }

  /** A frame behind which anything may follow is read back exactly, unless its length is 0, over the
      maximum or too large for an int. */
  lemma FrameReadsBack(text: bytes, rest: bytes, max: nat)
    ensures var t := Cut(text);
      ReadFrame(Frame(text) + rest, max)
      == if t == [] || (max != 0 && |t| > max) || |t| == Protocol.LONGEST then (None, t + rest)
         else if |t| < Protocol.INT_RANGE then (Some(t), rest) else (None, rest)
  {
    hide Protocol.BigEndian, Protocol.FromBigEndian, Cut;
    var t, data := Cut(text), Frame(text) + rest;
    CutFits(text);
    assert data == Protocol.BigEndian(|t|) + (t + rest);
    Protocol.LengthRoundTrip(|t|, t + rest);
    assert data[4..] == t + rest;
  }

  lemma CutFits(text: bytes)
    ensures |Cut(text)| < 0x1_0000_0000
    ensures |text| < 0x1_0000_0000 ==> Cut(text) == text
    ensures |text| >= 0x1_0000_0000 ==> Cut(text) != text
  {
  }

  /** So a text crosses the connection exactly when its length is one for an int and within the maximum,
      and its value exactly when that is not nested too deeply. */
  lemma ValueCrosses(c: Libc, v: Value, rest: bytes, max: nat)
    requires Printable(c, v)
    ensures var text := Text(c, v, false, 0);
      && (ReadFrame(Frame(text) + rest, max).0 == Some(text)
          <==> |text| < Protocol.INT_RANGE && (max == 0 || |text| <= max))
      && (ReadFrame(Frame(text) + rest, max).0 == Some(text) ==> ReadFrame(Frame(text) + rest, max).1 == rest)
      && JsonRead.Parse(c, CString(text)) == (if Depth(v) <= NESTING_LIMIT then Some((v, |text|)) else None)
  {
    hide Text, Frame, ReadFrame, Cut, JsonRead.Parse, CString, Printable;
    var text := Text(c, v, false, 0);
    JsonRoundTrip.TextStart(c, v, false, 0);
    FrameReadsBack(text, rest, max);
    CutFits(text);
    JsonPrinter.PrintableIsRenderable(c, v);
    JsonPrinter.TextNoNul(c, v, false, 0);
    CStringWhole(text, []);
    JsonRoundTrip.ParseUndoesPrint(c, v, false);
  }
}
