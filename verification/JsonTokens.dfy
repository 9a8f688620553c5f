/** cJSON_Minify by tokens: white space and comments between the tokens of any text go, and the rest stays. */
module JsonTokens {
  import opened Bytes
  import opened JsonMinify

  /** A byte of a token that is no string, a string, or what may stand between tokens: white space, a
      comment up to the end of the line, a comment in stars. */
  datatype Piece = Byte(b: byte) | Str(body: bytes) | Space(b: byte) | Line(body: bytes) | Block(body: bytes) {
    /** In a string a quote stands behind a backslash, and the string does not end in one. */
    predicate Valid() {
      match this
      case Byte(b) => b !in [SPACE, TAB, NEWLINE, RETURN, SLASH, QUOTE]
      case Str(body) => Hides(body)
      case Space(b) => b in [SPACE, TAB, NEWLINE, RETURN]
      case Line(body) => NEWLINE !in body
      case Block(body) => forall i :: 0 <= i < |body| - 1 ==> !(body[i] == STAR && body[i + 1] == SLASH)
    }

    function Text(): bytes {
      match this
      case Byte(b) => [b]
      case Str(body) => [QUOTE] + body + [QUOTE]
      case Space(b) => [b]
      case Line(body) => [SLASH, SLASH] + body + [NEWLINE]
      case Block(body) => [SLASH, STAR] + body + [STAR, SLASH]
    }

    /** What stays of it. */
    function Kept(): bytes {
      if Byte? || Str? then Text() else []
    }
  }

  predicate Hides(body: bytes) {
    && (forall i :: 0 <= i < |body| && body[i] == QUOTE ==> i > 0 && body[i - 1] == BACKSLASH)
    && (body != [] ==> body[|body| - 1] != BACKSLASH)
  }

  function Texts(ps: seq<Piece>): bytes {
    if ps == [] then [] else ps[0].Text() + Texts(ps[1..])
  }

  function KeptOf(ps: seq<Piece>): bytes {
    if ps == [] then [] else ps[0].Kept() + KeptOf(ps[1..])
  }

  lemma HidesBehind(body: bytes, k: nat)
    requires Hides(body) && body != [] && k == if |body| > 1 && body[1] == QUOTE then 2 else 1
    ensures body[0] != QUOTE && (body[0] == BACKSLASH ==> |body| > 1)
    ensures k <= |body| && Hides(body[k..]) && (k == 2 ==> body[0] == BACKSLASH)
  {
    var rest := body[k..];
    forall i | 0 <= i < |rest| && rest[i] == QUOTE ensures i > 0 && rest[i - 1] == BACKSLASH {
      assert body[i + k] == QUOTE && body[i + k - 1] == BACKSLASH;
    }
  }

  /** A string is copied up to its closing quote. */
  lemma {:induction false} StringStays(s: bytes, i: nat, body: bytes)
    requires Hides(body) && At(s, i, body + [QUOTE])
    ensures i + |body| < |s| && Inside(s, i) == body + ([QUOTE] + Outside(s, i + |body| + 1))
    decreases |body|
  {
    hide At, Outside, Inside, Hides;
    AtAppend(s, i, body, [QUOTE]);
    AtByte(s, i + |body|, [QUOTE], 0);
    if body == [] {
      StringCloses(s, i);
      assert [] + ([QUOTE] + Outside(s, i + 1)) == [QUOTE] + Outside(s, i + 1);
    } else {
      var k := if |body| > 1 && body[1] == QUOTE then 2 else 1;
      HidesBehind(body, k);
      assert body + [QUOTE] == body[..k] + (body[k..] + [QUOTE]);
      AtAppend(s, i, body[..k], body[k..] + [QUOTE]);
      AtByte(s, i, body + [QUOTE], 0);
      AtByte(s, i, body + [QUOTE], 1);
      StringStays(s, i + k, body[k..]);
      BytesStay(s, i, k);
      assert s[i..i + k] == body[..k];
      var rest := [QUOTE] + Outside(s, i + |body| + 1);
      assert body[..k] + (body[k..] + rest) == body + rest;
    }
  }

  lemma StringCloses(s: bytes, i: nat)
    requires i < |s| && s[i] == QUOTE
    ensures Inside(s, i) == [QUOTE] + Outside(s, i + 1)
  {
    hide Outside;
  }

  /** One byte of a string, or a backslash with the quote it hides. */
  lemma BytesStay(s: bytes, i: nat, k: nat)
    requires i + 1 < |s| && s[i] != QUOTE && k == (if s[i] == BACKSLASH && s[i + 1] == QUOTE then 2 else 1)
    ensures i + k <= |s| && Inside(s, i) == s[i..i + k] + Inside(s, i + k)
  {
    hide Outside;
  }

  lemma {:induction false} LineIsSkipped(s: bytes, i: nat, body: bytes)
    requires NEWLINE !in body && At(s, i, body + [NEWLINE])
    ensures i + |body| < |s| && LineEnd(s, i) == i + |body| + 1
    decreases |body|
  {
    hide At;
    AtByte(s, i, body + [NEWLINE], 0);
    if body != [] {
      assert body + [NEWLINE] == [body[0]] + (body[1..] + [NEWLINE]);
      AtAppend(s, i, [body[0]], body[1..] + [NEWLINE]);
      LineIsSkipped(s, i + 1, body[1..]);
    }
  }

  lemma {:induction false} BlockIsSkipped(s: bytes, i: nat, body: bytes)
    requires Block(body).Valid() && At(s, i, body + [STAR, SLASH])
    ensures i + |body| + 1 < |s| && BlockEnd(s, i) == i + |body| + 2
    decreases |body|
  {
    hide At;
    var t := body + [STAR, SLASH];
    AtByte(s, i, t, 0);
    AtByte(s, i, t, 1);
    if body != [] {
      var rest := body[1..];
      assert t == [body[0]] + (rest + [STAR, SLASH]);
      AtAppend(s, i, [body[0]], rest + [STAR, SLASH]);
      BlockIsSkipped(s, i + 1, rest);
    }
  }

  lemma PieceMinified(p: Piece, s: bytes, i: nat)
    requires p.Valid() && At(s, i, p.Text())
    ensures i + |p.Text()| <= |s| && Outside(s, i) == p.Kept() + Outside(s, i + |p.Text()|)
  {
    hide At, Inside, Hides, LineEnd, BlockEnd;
    AtByte(s, i, p.Text(), 0);
    if p.Str? {
      assert p.Text() == [QUOTE] + (p.body + [QUOTE]);
      AtAppend(s, i, [QUOTE], p.body + [QUOTE]);
      StringStays(s, i + 1, p.body);
    } else if p.Line? {
      assert p.Text() == [SLASH, SLASH] + (p.body + [NEWLINE]);
      AtByte(s, i, p.Text(), 1);
      AtAppend(s, i, [SLASH, SLASH], p.body + [NEWLINE]);
      LineIsSkipped(s, i + 2, p.body);
    } else if p.Block? {
      assert p.Text() == [SLASH, STAR] + (p.body + [STAR, SLASH]);
      AtByte(s, i, p.Text(), 1);
      AtAppend(s, i, [SLASH, STAR], p.body + [STAR, SLASH]);
      BlockIsSkipped(s, i + 2, p.body);
    }
  }

  lemma {:induction false} PiecesMinified(ps: seq<Piece>, s: bytes, i: nat)
    requires (forall k :: 0 <= k < |ps| ==> ps[k].Valid()) && At(s, i, Texts(ps)) && i + |Texts(ps)| == |s|
    ensures Outside(s, i) == KeptOf(ps)
    decreases ps
  {
    hide At, Piece.Valid, Piece.Text, Piece.Kept;
    if ps != [] {
      AtAppend(s, i, ps[0].Text(), Texts(ps[1..]));
      PieceMinified(ps[0], s, i);
      PiecesMinified(ps[1..], s, i + |ps[0].Text()|);
    }
  }

  /** Minifying a text leaves its tokens, whatever stands between them. */
  lemma MinifyKeepsTokens(ps: seq<Piece>)
    requires forall k :: 0 <= k < |ps| ==> ps[k].Valid()
    ensures Minify(Texts(ps)) == KeptOf(ps)
  {
    AtSlice(Texts(ps), 0, Texts(ps));
    PiecesMinified(ps, Texts(ps), 0);
  }
}
