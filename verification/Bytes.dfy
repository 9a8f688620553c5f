/** Bytes, the ASCII codes the library names, and C strings inside longer buffers. */
module Bytes {
  type byte = b: int | 0 <= b < 256
  type bytes = seq<byte>

  const NUL: byte := 0
  const BACKSPACE: byte := 8
  const TAB: byte := 9
  const NEWLINE: byte := 10
  const FORM_FEED: byte := 12
  const RETURN: byte := 13
  const SPACE: byte := 32
  const QUOTE: byte := 34
  const STAR: byte := 42
  const PLUS: byte := 43
  const COMMA: byte := 44
  const MINUS: byte := 45
  const DOT: byte := 46
  const SLASH: byte := 47
  const ZERO: byte := 48
  const NINE: byte := 57
  const COLON: byte := 58
  const LBRACKET: byte := 91
  const BACKSLASH: byte := 92
  const RBRACKET: byte := 93
  const LBRACE: byte := 123
  const RBRACE: byte := 125

  datatype Option<+T> = None | Some(value: T)

  /** The text t stands in s at offset off. */
  predicate At(s: bytes, off: nat, t: bytes)
    decreases t
  {
    if t == [] then off <= |s| else off < |s| && s[off] == t[0] && At(s, off + 1, t[1..])
  }

  lemma {:induction false} AtSlice(s: bytes, off: nat, t: bytes)
    ensures At(s, off, t) <==> off + |t| <= |s| && s[off..off + |t|] == t
    decreases t
  {
    if t != [] {
      AtSlice(s, off + 1, t[1..]);
      if off + |t| <= |s| {
        var w := s[off..off + |t|];
        assert w[1..] == s[off + 1..off + 1 + |t[1..]|];
        assert w == [w[0]] + w[1..];
        assert t == [t[0]] + t[1..];
      }
    }
  }

  lemma {:induction false} AtAppend(s: bytes, off: nat, a: bytes, b: bytes)
    ensures At(s, off, a + b) <==> At(s, off, a) && At(s, off + |a|, b)
    decreases a
  {
    if a == [] {
      assert a + b == b;
      AtSlice(s, off, b);
    } else {
      assert (a + b)[1..] == a[1..] + b;
      AtAppend(s, off + 1, a[1..], b);
    }
  }

  lemma AtConcat3(s: bytes, off: nat, a: bytes, b: bytes, d: bytes)
    ensures At(s, off, a + b + d) <==> At(s, off, a) && At(s, off + |a|, b) && At(s, off + |a| + |b|, d)
  {
    AtAppend(s, off, a + b, d);
    AtAppend(s, off, a, b);
  }

  lemma AtByte(s: bytes, off: nat, t: bytes, i: nat)
    requires At(s, off, t) && i < |t|
    ensures off + |t| <= |s| && s[off + i] == t[i]
  {
    AtSlice(s, off, t);
    assert s[off..off + |t|][i] == t[i];
  }

  lemma AtEmpty(s: bytes, off: nat)
    requires off <= |s|
    ensures At(s, off, [])
  {
  }

  /** What a C reader sees of a byte buffer: everything before the first NUL. */
  function CString(s: bytes): (r: bytes)
    ensures |r| <= |s| && r == s[..|r|]
    ensures NUL !in r
    ensures |r| < |s| ==> s[|r|] == NUL
  {
    if s == [] || s[0] == NUL then [] else [s[0]] + CString(s[1..])
  }

  lemma {:induction false} CStringWhole(s: bytes, rest: bytes)
    requires NUL !in s
    ensures CString(s + [NUL] + rest) == s
    ensures CString(s) == s
  {
    if s != [] {
      CStringWhole(s[1..], rest);
      assert (s + [NUL] + rest)[1..] == s[1..] + [NUL] + rest;
    }
  }
}
