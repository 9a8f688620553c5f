/** \u escapes: hexadecimal digits, UTF-16 literals and their UTF-8 bytes. */
module Utf {
  import opened Bytes

  const LOWER_U: byte := 117

  // ---------- reference definitions ----------

  /** A Unicode scalar value: any code point except the surrogates. */
  predicate Scalar(c: int) {
    0 <= c < 0xD800 || 0xE000 <= c <= 0x10FFFF
  }

  /** The octet table of RFC 3629, section 3: x bits taken from the right, six to a tail octet. */
  function Utf8(c: nat): (r: bytes)
    requires c <= 0x10FFFF
    ensures 1 <= |r| <= 4
  {
    if c < 0x80 then [c]
    else if c < 0x800 then [0xC0 + c / 64, 0x80 + c % 64]
    else if c < 0x10000 then [0xE0 + c / 4096, 0x80 + c / 64 % 64, 0x80 + c % 64]
    else [0xF0 + c / 262144, 0x80 + c / 4096 % 64, 0x80 + c / 64 % 64, 0x80 + c % 64]
  }

  /** The decoding procedure of RFC 3629, section 3, for one character's octets. */
  function Utf8Value(r: bytes): int {
    if |r| == 1 then r[0]
    else if |r| == 2 then Bits(r[0], 0xC0) * 64 + Bits(r[1], 0x80)
    else if |r| == 3 then Bits(r[0], 0xE0) * 4096 + Bits(r[1], 0x80) * 64 + Bits(r[2], 0x80)
    else if |r| == 4 then
      Bits(r[0], 0xF0) * 262144 + Bits(r[1], 0x80) * 4096 + Bits(r[2], 0x80) * 64 + Bits(r[3], 0x80)
    else -1
  }

  function Bits(octet: int, mark: int): int {
    octet - mark
  }

  lemma Utf8RoundTrip(c: nat)
    requires c <= 0x10FFFF
    ensures Utf8Value(Utf8(c)) == c
  {
    assert c == c / 64 * 64 + c % 64;
    assert c / 64 == c / 4096 * 64 + c / 64 % 64;
    assert c / 4096 == c / 262144 * 64 + c / 4096 % 64;
  }

  /** Distinct code points have distinct bytes. */
  lemma Utf8Injective(c: nat, d: nat)
    requires c <= 0x10FFFF && d <= 0x10FFFF
    ensures Utf8(c) == Utf8(d) <==> c == d
  {
    Utf8RoundTrip(c);
    Utf8RoundTrip(d);
  }

  /** RFC 2781, section 2.1: the surrogate pair of a code point past the first plane. */
  function HighSurrogate(c: nat): nat
    requires 0x10000 <= c <= 0x10FFFF
  {
    0xD800 + (c - 0x10000) / 0x400
  }

  function LowSurrogate(c: nat): nat
    requires 0x10000 <= c <= 0x10FFFF
  {
    0xDC00 + (c - 0x10000) % 0x400
  }

  // ---------- what the code does ----------

  /** A hexadecimal digit's value, or -1. */
  function HexValue(b: byte): (v: int)
    ensures -1 <= v < 16
  {
    if ZERO <= b <= NINE then b - 48
    else if 65 <= b <= 70 then b - 55
    else if 97 <= b <= 102 then b - 87
    else -1
  }

  predicate IsHex4(s: bytes, p: nat) {
    p + 4 <= |s| && forall i :: p <= i < p + 4 ==> HexValue(s[i]) >= 0
  }

  /** parse_hex4 gives 0 for anything that is not four hexadecimal digits. */
  function Hex4(s: bytes, p: nat): (h: nat)
    requires p + 4 <= |s|
    ensures h < 0x10000
  {
    if IsHex4(s, p)
    then HexValue(s[p]) * 4096 + HexValue(s[p + 1]) * 256 + HexValue(s[p + 2]) * 16 + HexValue(s[p + 3])
    else 0
  }

  method ParseHex4(s: bytes, p: nat) returns (h: nat)
    requires p + 4 <= |s|
    ensures h == Hex4(s, p)
  {
    h := 0;
    for i := 0 to 4
      invariant forall k :: p <= k < p + i ==> HexValue(s[k]) >= 0
      invariant i == 0 ==> h == 0
      invariant i == 1 ==> h == HexValue(s[p]) * 16
      invariant i == 2 ==> h == HexValue(s[p]) * 256 + HexValue(s[p + 1]) * 16
      invariant i == 3 ==> h == HexValue(s[p]) * 4096 + HexValue(s[p + 1]) * 256 + HexValue(s[p + 2]) * 16
      invariant i == 4 ==> h == Hex4(s, p)
    {
      var v := HexValue(s[p + i]);
      if v < 0 {
        return 0;
      }
      h := h + v;
      if i < 3 {
        h := h * 16;
      }
    }
  }

  datatype Literal = Literal(codepoint: nat, length: nat)

  /** Reading one or two \uXXXX sequences that start at p and must end by e. The caller has
      seen the backslash and the u of the first one. */
  function ReadLiteral(s: bytes, p: nat, e: nat): (r: Option<Literal>)
    requires e <= |s|
    ensures r.Some? ==> r.value.codepoint <= 0x10FFFF
    ensures r.Some? ==> r.value.length in {6, 12} && p + r.value.length <= e
  {
    if e - p < 6 then None
    else
      var first := Hex4(s, p + 2);
      if 0xDC00 <= first <= 0xDFFF then None
      else if 0xD800 <= first <= 0xDBFF then
        if e - (p + 6) < 6 then None
        else if s[p + 6] != BACKSLASH || s[p + 7] != LOWER_U then None
        else
          var second := Hex4(s, p + 8);
          if second < 0xDC00 || second > 0xDFFF then None
          else Some(Literal(0x10000 + (first % 0x400 * 0x400 + second % 0x400), 12))
      else Some(Literal(first, 6))
  }

  /** utf16_literal_to_utf8: writes the UTF-8 bytes at out[q..] and gives the length it read, or 0. */
  method LiteralToUtf8(s: bytes, p: nat, e: nat, out: array<byte>, q: nat)
    returns (read: nat, written: nat)
    requires e <= |s|
    requires q <= out.Length
    requires ReadLiteral(s, p, e).Some? ==> q + |Utf8(ReadLiteral(s, p, e).value.codepoint)| <= out.Length
    modifies out
    ensures out[..q] == old(out[..q])
    ensures match ReadLiteral(s, p, e)
            case None => read == 0 && written == 0 && out[..] == old(out[..])
            case Some(l) =>
              && read == l.length
              && written == |Utf8(l.codepoint)|
              && out[q..q + written] == Utf8(l.codepoint)
  {
    read, written := 0, 0;
    if e - p < 6 {
      return;
    }
    var first := ParseHex4(s, p + 2);
    if 0xDC00 <= first <= 0xDFFF {
      return;
    }
    var codepoint := first;
    var length := 6;
    if 0xD800 <= first <= 0xDBFF {
      if e - (p + 6) < 6 || s[p + 6] != BACKSLASH || s[p + 7] != LOWER_U {
        return;
      }
      var second := ParseHex4(s, p + 8);
      if second < 0xDC00 || second > 0xDFFF {
        return;
      }
      length := 12;
      codepoint := 0x10000 + (first % 0x400 * 0x400 + second % 0x400);
    }
    assert ReadLiteral(s, p, e) == Some(Literal(codepoint, length));
    read := length;
    written := EncodeUtf8(codepoint, out, q);
  }

  /** The tail octets are written last to first, six bits each, then the marked first octet. */
  method EncodeUtf8(c: nat, out: array<byte>, q: nat) returns (n: nat)
    requires c <= 0x10FFFF
    requires q + |Utf8(c)| <= out.Length
    modifies out
    ensures n == |Utf8(c)| && out[q..q + n] == Utf8(c)
    ensures out[..q] == old(out[..q])
  {
    var mark := 0;
    if c < 0x80 {
      n := 1;
    } else if c < 0x800 {
      n, mark := 2, 0xC0;
    } else if c < 0x10000 {
      n, mark := 3, 0xE0;
    } else {
      n, mark := 4, 0xF0;
    }
    var rest := c;
    var i := n - 1;
    while i > 0
      invariant 0 <= i < n == |Utf8(c)|
      invariant rest == if n - 1 - i == 0 then c else if n - 1 - i == 1 then c / 64
                        else if n - 1 - i == 2 then c / 4096 else c / 262144
      invariant forall k :: i < k < n ==> out[q + k] == Utf8(c)[k]
      invariant out[..q] == old(out[..q])
    {
      out[q + i] := 0x80 + rest % 64;
      rest := rest / 64;
      i := i - 1;
    }
    out[q] := if n > 1 then mark + rest else rest;
    assert out[q] == Utf8(c)[0];
    assert out[q..q + n] == Utf8(c);
  }

  // ---------- correctness of \u decoding ----------

  /** p starts a \u sequence whose four digits spell v, in either letter case. */
  predicate Spells(s: bytes, p: nat, v: nat) {
    && p + 6 <= |s| && s[p] == BACKSLASH && s[p + 1] == LOWER_U
    && IsHex4(s, p + 2) && Hex4(s, p + 2) == v
  }

  lemma SurrogateBits(c: nat)
    requires 0x10000 <= c <= 0x10FFFF
    ensures 0xD800 <= HighSurrogate(c) <= 0xDBFF && 0xDC00 <= LowSurrogate(c) <= 0xDFFF
    ensures 0x10000 + (HighSurrogate(c) % 0x400 * 0x400 + LowSurrogate(c) % 0x400) == c
  {
    var u := c - 0x10000;
    var q, r := u / 0x400, u % 0x400;
    assert u == q * 0x400 + r && q < 0x400;
    assert (0xD800 + q) % 0x400 == q;
    assert (0xDC00 + r) % 0x400 == r;
  }

  /** A scalar value below 2^16 written as one literal, or a higher one written as its surrogate
      pair, is read back as itself. */
  lemma LiteralDecodesScalar(s: bytes, p: nat, e: nat, c: nat)
    requires Scalar(c) && e <= |s|
    requires if c < 0x10000 then p + 6 <= e && Spells(s, p, c)
             else p + 12 <= e && Spells(s, p, HighSurrogate(c)) && Spells(s, p + 6, LowSurrogate(c))
    ensures ReadLiteral(s, p, e) == Some(Literal(c, if c < 0x10000 then 6 else 12))
  {
    if c >= 0x10000 {
      SurrogateBits(c);
    }
  }

  /** Conversely, a successful read of a literal with valid digits always gives a scalar value:
      a surrogate is accepted exactly when it is a high one followed by a low one. */
  lemma SurrogatesMustPair(s: bytes, p: nat, e: nat)
    requires e <= |s| && p + 6 <= e && Spells(s, p, Hex4(s, p + 2))
    ensures ReadLiteral(s, p, e).Some? ==> Scalar(ReadLiteral(s, p, e).value.codepoint)
    ensures 0xD800 <= Hex4(s, p + 2) <= 0xDFFF ==>
      (ReadLiteral(s, p, e).Some? <==>
       && Hex4(s, p + 2) <= 0xDBFF
       && p + 12 <= e
       && Spells(s, p + 6, Hex4(s, p + 8))
       && 0xDC00 <= Hex4(s, p + 8) <= 0xDFFF)
  {
    if p + 12 <= e && Hex4(s, p + 8) != 0 {
      assert IsHex4(s, p + 8);
    }
  }
}
