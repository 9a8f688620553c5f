/** String literals: the sizing pass, the decoding pass, why the first bounds the second,
    and that decoding undoes the printer's escaping. */
module JsonString {
  import opened Bytes
  import opened Utf
  import T = JsonText

  // ---------- the two passes as functions ----------

  /** The sizing pass: from i, the position of the closing quote. A backslash hides the next byte. */
  function ScanEnd(s: bytes, i: nat): (r: Option<nat>)
    ensures r.Some? ==> i <= r.value < |s| && s[r.value] == QUOTE
    decreases |s| - i
  {
    if i >= |s| then None
    else if s[i] == QUOTE then Some(i)
    else if s[i] != BACKSLASH then ScanEnd(s, i + 1)
    else if i + 1 >= |s| then None
    else ScanEnd(s, i + 2)
  }

  /** How many units, single bytes or backslash pairs, the sizing pass steps over from i to e. */
  function Units(s: bytes, i: nat, e: nat): (n: nat)
    requires e <= |s|
    ensures i >= e ==> n == 0
    decreases e - i
  {
    if i >= e then 0
    else 1 + Units(s, if s[i] == BACKSLASH then i + 2 else i + 1, e)
  }

  datatype Step = Step(written: bytes, read: nat)

  /** One turn of the decoding loop at p; e is the closing quote. */
  function DecodeStep(s: bytes, p: nat, e: nat): (r: Option<Step>)
    requires p < e < |s|
    ensures r.Some? ==> r.value.read > 0
  {
    if s[p] != BACKSLASH then Some(Step([s[p]], 1))
    else
      var x := s[p + 1];
      if x == 98 then Some(Step([BACKSPACE], 2))
      else if x == 102 then Some(Step([FORM_FEED], 2))
      else if x == 110 then Some(Step([NEWLINE], 2))
      else if x == 114 then Some(Step([RETURN], 2))
      else if x == 116 then Some(Step([TAB], 2))
      else if x == QUOTE || x == BACKSLASH || x == SLASH then Some(Step([x], 2))
      else if x == LOWER_U then
        match ReadLiteral(s, p, e)
        case None => None
        case Some(l) => Some(Step(Utf8(l.codepoint), l.length))
      else None
  }

  /** The decoding pass: all bytes written from p on, or None for a bad escape. */
  function Decode(s: bytes, p: nat, e: nat): Option<bytes>
    requires e < |s|
    decreases e - p
  {
    if p >= e then Some([])
    else
      match DecodeStep(s, p, e)
      case None => None
      case Some(d) => Behind(d.written, Decode(s, p + d.read, e))
  }

  /** What is still to be decoded, behind what is written already. */
  function Behind(done: bytes, rest: Option<bytes>): Option<bytes> {
    match rest
    case None => None
    case Some(r) => Some(done + r)
  }

  /** parse_string at off: the C string read and the offset behind the closing quote. */
  function ReadString(s: bytes, off: nat): (r: Option<(bytes, nat)>)
    ensures r.Some? ==> off + 2 <= r.value.1 <= |s|
    ensures r.Some? ==> NUL !in r.value.0
  {
    if off >= |s| || s[off] != QUOTE then None
    else
      match ScanEnd(s, off + 1)
      case None => None
      case Some(e) =>
        match Decode(s, off + 1, e)
        case None => None
        case Some(out) => Some((CString(out), e + 1))
  }

  // ---------- the allocation is large enough ----------

  /** The decoder may fall out of step with the scanner: a \u with bad digits still swallows six
      bytes. So the room left is counted from the next unit boundary b, which is p or p + 1. */
  predicate InStep(s: bytes, p: nat, b: nat, e: nat)
    requires e < |s|
  {
    p <= b <= p + 1 && ScanEnd(s, b) == Some(e)
  }

  function Room(s: bytes, p: nat, b: nat, e: nat): nat
    requires e < |s| && (p <= e ==> p <= b)
  {
    if p > e then 0 else Units(s, b, e) + (b - p)
  }

  /** The first boundary at or behind t, and that at least half the bytes skipped were units. */
  lemma {:induction false} NextBoundary(s: bytes, b: nat, t: nat, e: nat) returns (b': nat)
    requires e < |s| && ScanEnd(s, b) == Some(e) && b <= t <= e
    ensures t <= b' <= t + 1 && ScanEnd(s, b') == Some(e)
    ensures 2 * (Units(s, b, e) - Units(s, b', e)) >= b' - b
    decreases e - b
  {
    if b >= t {
      b' := b;
    } else if s[b] == BACKSLASH && b + 1 == t {
      b' := b + 2;
    } else {
      b' := NextBoundary(s, if s[b] == BACKSLASH then b + 2 else b + 1, t, e);
    }
  }

  /** Bytes without a backslash are one unit each. */
  lemma {:induction false} PlainUnits(s: bytes, b: nat, t: nat, e: nat)
    requires e < |s| && ScanEnd(s, b) == Some(e) && b <= t <= e
    requires forall k :: b <= k < t ==> s[k] != BACKSLASH
    ensures ScanEnd(s, t) == Some(e)
    ensures Units(s, b, e) == Units(s, t, e) + (t - b)
    decreases t - b
  {
    if b < t {
      PlainUnits(s, b + 1, t, e);
    }
  }

  lemma HexIsPlain(s: bytes, p: nat)
    requires IsHex4(s, p)
    ensures forall k :: p <= k < p + 4 ==> s[k] != BACKSLASH
  {
  }

  /** A literal with good digits keeps the decoder in step and spans five units per sequence. */
  lemma GoodSequence(s: bytes, p: nat, b: nat, e: nat)
    requires p + 6 <= e < |s| && InStep(s, p, b, e)
    requires s[p] == BACKSLASH && s[p + 1] == LOWER_U && IsHex4(s, p + 2)
    ensures InStep(s, p + 6, p + 6, e)
    ensures Units(s, b, e) == Units(s, p + 6, e) + 5
  {
    HexIsPlain(s, p + 2);
    if b == p {
      assert ScanEnd(s, p) == ScanEnd(s, p + 2);
      PlainUnits(s, p + 2, p + 6, e);
    } else {
      PlainUnits(s, p + 1, p + 6, e);
    }
  }

  /** One decoding step never writes more than it gives up in room. */
  lemma StepFits(s: bytes, p: nat, b: nat, e: nat) returns (b': nat)
    requires p < e < |s| && InStep(s, p, b, e)
    requires DecodeStep(s, p, e).Some?
    ensures var d := DecodeStep(s, p, e).value;
            && (p + d.read <= e ==> InStep(s, p + d.read, b', e))
            && |d.written| + Room(s, p + d.read, b', e) <= Room(s, p, b, e)
  {
    var d := DecodeStep(s, p, e).value;
    b' := b;
    if s[p] != BACKSLASH {
      if b == p {
        b' := p + 1;
      }
    } else if s[p + 1] != LOWER_U {
      if p + 2 <= e {
        b' := NextBoundary(s, b, p + 2, e);
      } else {
        assert Units(s, b, e) + (b - p) >= 1;
      }
    } else {
      b' := LiteralFits(s, p, b, e);
    }
  }

  lemma LiteralFits(s: bytes, p: nat, b: nat, e: nat) returns (b': nat)
    requires p < e < |s| && InStep(s, p, b, e)
    requires s[p] == BACKSLASH && s[p + 1] == LOWER_U
    requires ReadLiteral(s, p, e).Some?
    ensures var l := ReadLiteral(s, p, e).value;
            && InStep(s, p + l.length, b', e)
            && |Utf8(l.codepoint)| + Room(s, p + l.length, b', e) <= Room(s, p, b, e)
  {
    var l := ReadLiteral(s, p, e).value;
    if !IsHex4(s, p + 2) {
      assert l == Literal(0, 6);
      b' := NextBoundary(s, b, p + 6, e);
    } else {
      GoodSequence(s, p, b, e);
      b' := p + 6;
      if l.length == 12 {
        assert IsHex4(s, p + 8);
        GoodSequence(s, p + 6, p + 6, e);
        b' := p + 12;
      }
    }
  }

  // ---------- the two loops ----------

  /** The sizing loop; skipped counts the backslashes that do not reach the output. */
  method ScanString(s: bytes, start: nat) returns (end: Option<nat>, skipped: nat)
    requires start <= |s|
    ensures end == ScanEnd(s, start)
    ensures end.Some? ==> skipped + Units(s, start, end.value) == end.value - start
  {
    var i := start;
    skipped := 0;
    end := None;
    while i < |s| && s[i] != QUOTE
      invariant start <= i <= |s|
      invariant ScanEnd(s, start) == ScanEnd(s, i)
      invariant ScanEnd(s, i).Some? ==>
        var e := ScanEnd(s, i).value;
        skipped + Units(s, start, e) == i - start + Units(s, i, e)
    {
      if s[i] == BACKSLASH {
        if i + 1 >= |s| {
          return;
        }
        skipped := skipped + 1;
        i := i + 1;
      }
      i := i + 1;
    }
    if i < |s| {
      end := Some(i);
    }
  }

  /** The decoding loop, into a buffer of the size the first pass computed: start - 1 is the
      opening quote, one spare byte is left for it and one for the NUL. Every store is in bounds,
      for any input. */
  method DecodeString(s: bytes, start: nat, e: nat, skipped: nat)
    returns (ok: bool, output: array<byte>, length: nat)
    requires start > 0 && ScanEnd(s, start) == Some(e)
    requires skipped + Units(s, start, e) == e - start
    ensures fresh(output) && output.Length == (e - (start - 1)) - skipped + 1
    ensures ok <==> Decode(s, start, e).Some?
    ensures length <= Units(s, start, e) <= output.Length - 2
    ensures ok ==> output[..length] == Decode(s, start, e).value && output[length] == NUL
  {
    hide Decode, DecodeStep, Behind, Units, Room, ScanEnd;
    output := new byte[(e - (start - 1)) - skipped + 1](_ => 0);
    length := 0;
    var p := start;
    ghost var b := start;
    ok := true;
    BehindTwice([], [], Decode(s, p, e));
    BothAtStart(s, start, e);
    assert output[..length] == [];
    while p < e
      invariant start <= p
      invariant p <= e ==> InStep(s, p, b, e)
      invariant length + Room(s, p, b, e) <= Units(s, start, e)
      invariant length <= output.Length - 2
      invariant fresh(output) && output.Length == (e - (start - 1)) - skipped + 1
      invariant Decode(s, start, e) == Behind(output[..length], Decode(s, p, e))
      decreases e - p
    {
      ghost var before := output[..length];
      ghost var step := DecodeStep(s, p, e);
      DecodeNext(before, s, p, e);
      if step.Some? {
        b := StepFits(s, p, b, e);
      }
      var read, written := DecodeOne(s, p, e, output, length);
      if read == 0 {
        ok := false;
        return;
      }
      assert output[..length + written] == before + step.value.written;
      length := length + written;
      p := p + read;
    }
    NothingLeft(output[..length], s, p, e);
    output[length] := NUL;
  }

  lemma BehindTwice(done: bytes, more: bytes, rest: Option<bytes>)
    ensures Behind(done, Behind(more, rest)) == Behind(done + more, rest)
    ensures Behind([], rest) == rest
  {
    if rest.Some? {
      assert done + (more + rest.value) == done + more + rest.value;
      assert [] + rest.value == rest.value;
    }
  }

  lemma BothAtStart(s: bytes, start: nat, e: nat)
    requires ScanEnd(s, start) == Some(e)
    ensures InStep(s, start, start, e) && Room(s, start, start, e) == Units(s, start, e)
  {
  }

  lemma NothingLeft(done: bytes, s: bytes, p: nat, e: nat)
    requires e <= p && e < |s|
    ensures Behind(done, Decode(s, p, e)) == Some(done)
  {
    assert done + [] == done;
  }

  lemma DecodeNext(done: bytes, s: bytes, p: nat, e: nat)
    requires p < e < |s|
    ensures Behind(done, Decode(s, p, e)) ==
      match DecodeStep(s, p, e)
      case None => None
      case Some(d) => Behind(done + d.written, Decode(s, p + d.read, e))
  {
    hide DecodeStep;
    if DecodeStep(s, p, e).Some? {
      var d := DecodeStep(s, p, e).value;
      BehindTwice(done, d.written, Decode(s, p + d.read, e));
    }
  }

  /** The body of the decoding loop. */
  method DecodeOne(s: bytes, p: nat, e: nat, output: array<byte>, q: nat) returns (read: nat, written: nat)
    requires p < e < |s| && q < output.Length
    requires DecodeStep(s, p, e).Some? ==> q + |DecodeStep(s, p, e).value.written| <= output.Length
    modifies output
    ensures output[..q] == old(output[..q])
    ensures match DecodeStep(s, p, e)
            case None => read == 0 && written == 0
            case Some(d) =>
              && read == d.read && written == |d.written|
              && output[q..q + written] == d.written
  {
    if s[p] != BACKSLASH {
      output[q] := s[p];
      return 1, 1;
    }
    var x := s[p + 1];
    if x == LOWER_U {
      read, written := LiteralToUtf8(s, p, e, output, q);
      return;
    }
    read, written := 2, 1;
    if x == 98 {
      output[q] := BACKSPACE;
    } else if x == 102 {
      output[q] := FORM_FEED;
    } else if x == 110 {
      output[q] := NEWLINE;
    } else if x == 114 {
      output[q] := RETURN;
    } else if x == 116 {
      output[q] := TAB;
    } else if x == QUOTE || x == BACKSLASH || x == SLASH {
      output[q] := x;
    } else {
      read, written := 0, 0;
    }
  }

  // ---------- decoding undoes escaping ----------

  /** The six bytes of a byte escaped as a literal. */
  predicate Literal6(x: byte, s: bytes, p: nat) {
    x < 32 && p + 6 <= |s| && s[p] == BACKSLASH && s[p + 1] == LOWER_U && s[p + 2] == ZERO && s[p + 3] == ZERO
    && s[p + 4] == T.HexDigit(x / 16) && s[p + 5] == T.HexDigit(x % 16)
  }

  lemma EscapeBytes(x: byte, s: bytes, p: nat)
    requires At(s, p, T.EscapeByte(x))
    ensures p + |T.EscapeByte(x)| <= |s| && |T.EscapeByte(x)| in {1, 2, 6}
    ensures |T.EscapeByte(x)| == 1 ==> s[p] == x && x != BACKSLASH && x != QUOTE
    ensures |T.EscapeByte(x)| == 2 ==> s[p] == BACKSLASH && s[p + 1] == T.EscapeByte(x)[1]
    ensures |T.EscapeByte(x)| == 6 ==> Literal6(x, s, p)
  {
    hide At, T.HexDigit;
    var t := T.EscapeByte(x);
    AtByte(s, p, t, 0);
    if |t| == 2 {
      AtByte(s, p, t, 1);
    } else if |t| == 6 {
      AtByte(s, p, t, 1);
      AtByte(s, p, t, 2);
      AtByte(s, p, t, 3);
      AtByte(s, p, t, 4);
      AtByte(s, p, t, 5);
    }
  }

  lemma LiteralDecodes(x: byte, s: bytes, p: nat, e: nat)
    requires Literal6(x, s, p) && p + 6 <= e < |s|
    ensures DecodeStep(s, p, e) == Some(Step([x], 6))
  {
    hide ScanEnd;
    assert HexValue(T.HexDigit(x / 16)) == x / 16 && HexValue(T.HexDigit(x % 16)) == x % 16;
    assert IsHex4(s, p + 2);
    assert Hex4(s, p + 2) == x;
  }

  lemma LiteralSkipped(x: byte, s: bytes, p: nat)
    requires Literal6(x, s, p)
    ensures ScanEnd(s, p) == ScanEnd(s, p + 6)
  {
    assert ScanEnd(s, p) == ScanEnd(s, p + 2);
    assert ScanEnd(s, p + 2) == ScanEnd(s, p + 3);
    assert ScanEnd(s, p + 3) == ScanEnd(s, p + 4);
    assert ScanEnd(s, p + 4) == ScanEnd(s, p + 5);
  }

  /** The decoder reads one escaped byte back in one step, and the sizing pass skips it. */
  lemma EscapeDecodes(x: byte, s: bytes, p: nat, e: nat)
    requires x != NUL && At(s, p, T.EscapeByte(x)) && p + |T.EscapeByte(x)| <= e < |s|
    ensures Decode(s, p, e) == Behind([x], Decode(s, p + |T.EscapeByte(x)|, e))
    ensures ScanEnd(s, p) == ScanEnd(s, p + |T.EscapeByte(x)|)
  {
    hide At, Literal6, ReadLiteral, Behind;
    EscapeBytes(x, s, p);
    if |T.EscapeByte(x)| == 6 {
      LiteralDecodes(x, s, p, e);
      LiteralSkipped(x, s, p);
    }
    assert DecodeStep(s, p, e) == Some(Step([x], |T.EscapeByte(x)|));
  }

  lemma EscapeParts(str: bytes, s: bytes, p: nat)
    requires str != [] && At(s, p, T.Escape(str))
    ensures At(s, p, T.EscapeByte(str[0]))
    ensures At(s, p + |T.EscapeByte(str[0])|, T.Escape(str[1..]))
    ensures |T.Escape(str)| == |T.EscapeByte(str[0])| + |T.Escape(str[1..])|
  {
    hide At, T.EscapeByte;
    var x, rest := T.EscapeByte(str[0]), T.Escape(str[1..]);
    assert T.Escape(str) == x + rest;
    AtAppend(s, p, x, rest);
  }

  lemma {:induction false} EscapedDecodes(str: bytes, s: bytes, p: nat, e: nat)
    requires NUL !in str && At(s, p, T.Escape(str)) && e == p + |T.Escape(str)| < |s| && s[e] == QUOTE
    ensures ScanEnd(s, p) == Some(e)
    ensures Decode(s, p, e) == Some(str)
    decreases str
  {
    hide At, T.EscapeByte, DecodeStep;
    if str != [] {
      EscapeParts(str, s, p);
      hide T.Escape, ScanEnd, Decode;
      var q := p + |T.EscapeByte(str[0])|;
      EscapedDecodes(str[1..], s, q, e);
      EscapeDecodes(str[0], s, p, e);
      assert [str[0]] + str[1..] == str;
    }
  }

  lemma QuotedParts(str: bytes, s: bytes, off: nat)
    requires At(s, off, T.Quoted(str))
    ensures var e := off + 1 + |T.Escape(str)|;
            && off < e < |s| && s[off] == QUOTE && s[e] == QUOTE
            && At(s, off + 1, T.Escape(str))
            && e + 1 == off + |T.Quoted(str)|
  {
    var body := T.Escape(str);
    AtAppend(s, off, [QUOTE] + body, [QUOTE]);
    AtAppend(s, off, [QUOTE], body);
    assert s[off] == s[off..off + 1][0];
    assert s[off + 1 + |body|] == s[off + 1 + |body|..off + 1 + |body| + 1][0];
  }

  /** parse_string reads back what print_string_ptr wrote, up to and including the closing quote. */
  lemma QuotedReadsBack(str: bytes, s: bytes, off: nat)
    requires NUL !in str && At(s, off, T.Quoted(str))
    ensures ReadString(s, off) == Some((str, off + |T.Quoted(str)|))
  {
    hide At, T.Escape, T.Quoted, ScanEnd, Decode, CString;
    QuotedParts(str, s, off);
    var e := off + 1 + |T.Escape(str)|;
    EscapedDecodes(str, s, off + 1, e);
    CStringWhole(str, []);
  }
}
