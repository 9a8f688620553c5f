/** cJSON_Minify: what it makes of any C string, that it works in place, and on which values it
    turns the formatted text into the unformatted one. */
module JsonMinify {
  import opened Bytes
  import opened JsonValue
  import opened JsonText
  import JsonNode
  import JsonPrinter
  import JsonRoundTrip
  import JsonTree

  // ---------- the function computed ----------

  predicate IsBlank(b: byte) {
    b == SPACE || b == TAB || b == RETURN || b == NEWLINE
  }

  /** skip_oneline_comment, behind the two slashes. */
  function LineEnd(s: bytes, i: nat): (r: nat)
    requires i <= |s|
    ensures i <= r <= |s|
    decreases |s| - i
  {
    if i == |s| then i else if s[i] == NEWLINE then i + 1 else LineEnd(s, i + 1)
  }

  /** skip_multiline_comment, behind the slash and the star. */
  function BlockEnd(s: bytes, i: nat): (r: nat)
    requires i <= |s|
    ensures i <= r <= |s|
    decreases |s| - i
  {
    if i == |s| then i
    else if s[i] == STAR && i + 1 < |s| && s[i + 1] == SLASH then i + 2
    else BlockEnd(s, i + 1)
  }

  /** What is written from position i on, outside strings. */
  function Outside(s: bytes, i: nat): (r: bytes)
    requires i <= |s|
    ensures |r| <= |s| - i
    decreases |s| - i
  {
    if i == |s| then []
    else if IsBlank(s[i]) then Outside(s, i + 1)
    else if s[i] == SLASH then
      if i + 1 < |s| && s[i + 1] == SLASH then Outside(s, LineEnd(s, i + 2))
      else if i + 1 < |s| && s[i + 1] == STAR then Outside(s, BlockEnd(s, i + 2))
      else Outside(s, i + 1)
    else if s[i] == QUOTE then [QUOTE] + Inside(s, i + 1)
    else [s[i]] + Outside(s, i + 1)
  }

  /** What is written from position i on, inside a string: a backslash hides only a quote, not
      another backslash. */
  function Inside(s: bytes, i: nat): (r: bytes)
    requires i <= |s|
    ensures |r| <= |s| - i
    decreases |s| - i
  {
    if i == |s| then []
    else if s[i] == QUOTE then [QUOTE] + Outside(s, i + 1)
    else if s[i] == BACKSLASH && i + 1 < |s| && s[i + 1] == QUOTE then [BACKSLASH, QUOTE] + Inside(s, i + 2)
    else [s[i]] + Inside(s, i + 1)
  }

  function Run(s: bytes, i: nat, inside: bool): bytes
    requires i <= |s|
  {
    if inside then Inside(s, i) else Outside(s, i)
  }

  function Minify(s: bytes): bytes {
    Outside(s, 0)
  }

  // ---------- in place ----------

  /** The read cursor is at i: what is left to read of the C string is still there. */
  ghost predicate Ahead(json: array<byte>, s: bytes, i: nat)
    reads json
  {
    i <= |s| < json.Length && (forall k :: i <= k < |s| ==> json[k] == s[k]) && json[|s|] == NUL
  }

  /** The write cursor is at into: what is written so far is Minify(s) up to rest. */
  ghost predicate Written(json: array<byte>, s: bytes, into: nat, rest: bytes)
    reads json
  {
    into <= json.Length && Minify(s) == json[..into] + rest
  }

  /** Copies one byte. The write cursor never passes the read cursor, so no byte is overwritten
      before it is read. */
  method Put(json: array<byte>, ghost s: bytes, i: nat, into: nat, ghost rest: bytes)
    requires into <= i < |s| && Ahead(json, s, i) && Written(json, s, into, [s[i]] + rest)
    modifies json
    ensures Ahead(json, s, i + 1) && Written(json, s, into + 1, rest)
  {
    hide Outside;
    ghost var done := json[..into];
    json[into] := json[i];
    assert json[..into + 1] == done + [s[i]];
    assert done + ([s[i]] + rest) == done + [s[i]] + rest;
  }

  lemma OpeningQuote(s: bytes, p: nat)
    requires p < |s| && s[p] == QUOTE
    ensures Outside(s, p) == [QUOTE] + Inside(s, p + 1)
  {
    hide Inside;
  }

  lemma InsideStep(s: bytes, i: nat, hidden: bool)
    requires i < |s| && (hidden <==> s[i] == BACKSLASH && i + 1 < |s| && s[i + 1] == QUOTE)
    ensures Inside(s, i) ==
      if s[i] == QUOTE then [QUOTE] + Outside(s, i + 1)
      else if hidden then [BACKSLASH] + ([QUOTE] + Inside(s, i + 2))
      else [s[i]] + Inside(s, i + 1)
  {
    hide Outside;
    if hidden {
      assert [BACKSLASH] + ([QUOTE] + Inside(s, i + 2)) == [BACKSLASH, QUOTE] + Inside(s, i + 2);
    }
  }

  lemma NothingLeft(s: bytes)
    ensures Inside(s, |s|) == Outside(s, |s|) == []
  {
  }

  /** minify_string; json[i0] is the opening quote. */
  method MinifyString(json: array<byte>, ghost s: bytes, i0: nat, into0: nat) returns (i: nat, into: nat)
    requires into0 <= i0 < |s| && s[i0] == QUOTE && NUL !in s
    requires Ahead(json, s, i0) && Written(json, s, into0, Outside(s, i0))
    modifies json
    ensures into <= i && i0 < i && Ahead(json, s, i) && Written(json, s, into, Outside(s, i))
  {
    hide Written, Outside, Inside;
    OpeningQuote(s, i0);
    Put(json, s, i0, into0, Inside(s, i0 + 1));
    i, into := i0 + 1, into0 + 1;
    while json[i] != NUL
      invariant into <= i && i0 < i && Ahead(json, s, i) && Written(json, s, into, Inside(s, i))
      decreases |s| - i
    {
      var quote, hidden := json[i] == QUOTE, json[i] == BACKSLASH && json[i + 1] == QUOTE;
      InsideStep(s, i, hidden);
      if quote {
        Put(json, s, i, into, Outside(s, i + 1));
        i, into := i + 1, into + 1;
        return;
      } else if hidden {
        Put(json, s, i, into, [QUOTE] + Inside(s, i + 2));
        i, into := i + 1, into + 1;
        Put(json, s, i, into, Inside(s, i + 1));
      } else {
        Put(json, s, i, into, Inside(s, i + 1));
      }
      i, into := i + 1, into + 1;
    }
    NothingLeft(s);
  }

  method SkipLine(json: array<byte>, ghost s: bytes, i0: nat) returns (i: nat)
    requires i0 <= |s| < json.Length && (forall k :: i0 <= k < |s| ==> json[k] == s[k]) && json[|s|] == NUL
    requires NUL !in s
    ensures i == LineEnd(s, i0)
  {
    i := i0;
    while json[i] != NUL
      invariant i0 <= i <= |s| && LineEnd(s, i) == LineEnd(s, i0)
      decreases |s| - i
    {
      if json[i] == NEWLINE {
        return i + 1;
      }
      i := i + 1;
    }
  }

  method SkipBlock(json: array<byte>, ghost s: bytes, i0: nat) returns (i: nat)
    requires i0 <= |s| < json.Length && (forall k :: i0 <= k < |s| ==> json[k] == s[k]) && json[|s|] == NUL
    requires NUL !in s
    ensures i == BlockEnd(s, i0)
  {
    i := i0;
    while json[i] != NUL
      invariant i0 <= i <= |s| && BlockEnd(s, i) == BlockEnd(s, i0)
      decreases |s| - i
    {
      if json[i] == STAR && json[i + 1] == SLASH {
        return i + 2;
      }
      i := i + 1;
    }
  }

  lemma OutsideStep(s: bytes, i: nat)
    requires i < |s|
    ensures Outside(s, i) ==
      if IsBlank(s[i]) then Outside(s, i + 1)
      else if s[i] == SLASH then
        Outside(s, if i + 1 < |s| && s[i + 1] == SLASH then LineEnd(s, i + 2)
                   else if i + 1 < |s| && s[i + 1] == STAR then BlockEnd(s, i + 2)
                   else i + 1)
      else if s[i] == QUOTE then [QUOTE] + Inside(s, i + 1)
      else [s[i]] + Outside(s, i + 1)
  {
    hide Inside, LineEnd, BlockEnd;
  }

  /** A C string, when nothing is read or written yet. */
  lemma Unread(json: array<byte>, s: bytes)
    requires |s| < json.Length && json[..|s|] == s && json[|s|] == NUL
    ensures Ahead(json, s, 0) && Written(json, s, 0, Outside(s, 0))
  {
    hide Outside;
    assert json[..0] + Minify(s) == Minify(s);
    assert forall k :: 0 <= k < |s| ==> json[k] == json[..|s|][k];
  }

  lemma AllRead(json: array<byte>, s: bytes, into: nat)
    requires Written(json, s, into, Outside(s, |s|)) && into <= |s|
    ensures json[..into] == Minify(s)
  {
    hide Inside;
    assert json[..into] + [] == json[..into];
  }

  /** cJSON_Minify. */
  method MinifyInPlace(json: array?<byte>, ghost s: bytes)
    requires json != null ==> |s| < json.Length && json[..|s|] == s && json[|s|] == NUL && NUL !in s
    modifies if json == null then {} else {json}
    ensures json != null ==>
      |Minify(s)| <= |s| && json[..|Minify(s)|] == Minify(s) && json[|Minify(s)|] == NUL
  {
    hide Written, Outside, Inside, LineEnd, BlockEnd, Minify;
    if json == null {
      return;
    }
    Unread(json, s);
    var i: nat, into: nat := 0, 0;
    while json[i] != NUL
      invariant into <= i && Ahead(json, s, i) && Written(json, s, into, Outside(s, i))
      decreases |s| - i
    {
      OutsideStep(s, i);
      if IsBlank(json[i]) {
        i := i + 1;
      } else if json[i] == SLASH {
        if json[i + 1] == SLASH {
          i := SkipLine(json, s, i + 2);
        } else if json[i + 1] == STAR {
          i := SkipBlock(json, s, i + 2);
        } else {
          i := i + 1;
        }
      } else if json[i] == QUOTE {
        i, into := MinifyString(json, s, i, into);
      } else {
        Put(json, s, i, into, Outside(s, i + 1));
        i, into := i + 1, into + 1;
      }
    }
    AllRead(json, s, into);
    json[into] := NUL;
    assert json[..into] == Minify(s);
  }

  // ---------- formatted text, minified ----------

  /** After such a string the library still believes itself inside it: it takes the escaped
      backslash and the closing quote for an escaped quote. */
  predicate EndsInBackslash(str: bytes) {
    str != [] && str[|str| - 1] == BACKSLASH
  }

  /** No string and no key ends in a backslash. */
  predicate Closes(v: Value) {
    match v
    case String(str) => !EndsInBackslash(str)
    case Array(vs) => forall i :: 0 <= i < |vs| ==> Closes(vs[i])
    case Object(ms) => forall i :: 0 <= i < |ms| ==> !EndsInBackslash(ms[i].key) && Closes(ms[i].value)
    case _ => true
  }

  /** Nothing but closing brackets follows a string that ends in a backslash. */
  predicate MinifiesBack(v: Value) {
    match v
    case String(_) => true
    case Array(vs) => ItemsMinifyBack(vs)
    case _ => Closes(v)
  }

  predicate ItemsMinifyBack(vs: seq<Value>) {
    vs == [] || (if |vs| == 1 then MinifiesBack(vs[0]) else Closes(vs[0]) && ItemsMinifyBack(vs[1..]))
  }

  /** Numbers print as at least one byte, all of them number bytes. */
  predicate PlainNumbers(c: Libc, v: Value) {
    match v
    case Number(d) =>
      |NumberText(c, d)| > 0 && (forall i :: 0 <= i < |NumberText(c, d)| ==> NumberByte(NumberText(c, d)[i]))
    case Array(vs) => forall i :: 0 <= i < |vs| ==> PlainNumbers(c, vs[i])
    case Object(ms) => forall i :: 0 <= i < |ms| ==> PlainNumbers(c, ms[i].value)
    case _ => true
  }

  /** The two texts differ at a position both have. */
  ghost predicate Departs(a: bytes, b: bytes) {
    exists k :: 0 <= k < |a| && k < |b| && a[k] != b[k]
  }

  lemma DepartsBehind(front: bytes, a: bytes, b: bytes, c: bytes)
    requires Departs(a, b)
    ensures Departs(front + a, front + b + c)
  {
    var k :| 0 <= k < |a| && k < |b| && a[k] != b[k];
    assert (front + a)[|front| + k] == a[k] && (front + b + c)[|front| + k] == b[k];
  }

  lemma CopiedByte(s: bytes, p: nat)
    requires p < |s| && s[p] != QUOTE && (s[p] == BACKSLASH ==> p + 1 < |s| && s[p + 1] != QUOTE)
    ensures Inside(s, p) == [s[p]] + Inside(s, p + 1)
  {
    hide Outside;
  }

  lemma {:induction false} CopiedInside(s: bytes, p: nat, t: bytes)
    requires At(s, p, t) && QUOTE !in t && p + |t| < |s|
    requires t != [] ==> t[|t| - 1] != BACKSLASH || s[p + |t|] != QUOTE
    ensures Inside(s, p) == t + Inside(s, p + |t|)
    decreases t
  {
    hide Inside;
    if t == [] {
      assert t + Inside(s, p) == Inside(s, p);
    } else {
      var u := t[1..];
      assert t == [t[0]] + u;
      assert s[p] == t[0] && t[0] in t && (u != [] ==> s[p + 1] == u[0] && u[0] in t && u[|u| - 1] == t[|t| - 1]);
      hide At;
      CopiedInside(s, p + 1, u);
      CopiedByte(s, p);
      assert [t[0]] + (u + Inside(s, p + |t|)) == t + Inside(s, p + |t|);
    }
  }

  lemma EscapeByteShape(b: byte)
    ensures b != QUOTE ==> QUOTE !in EscapeByte(b)
    ensures b != QUOTE && b != BACKSLASH ==> EscapeByte(b)[|EscapeByte(b)| - 1] != BACKSLASH
    ensures EscapeByte(b)[0] != QUOTE
  {
  }

  lemma EscapeStarts(str: bytes)
    ensures Escape(str) + [QUOTE] != [] && ((Escape(str) + [QUOTE])[0] == QUOTE <==> str == [])
  {
    if str != [] {
      EscapeByteShape(str[0]);
    }
  }

  lemma EscapeByteInside(str: bytes, s: bytes, p: nat)
    requires str != [] && str != [BACKSLASH]
    requires At(s, p, EscapeByte(str[0])) && At(s, p + |EscapeByte(str[0])|, Escape(str[1..]) + [QUOTE])
    ensures Inside(s, p) == EscapeByte(str[0]) + Inside(s, p + |EscapeByte(str[0])|)
  {
    hide Outside, Escape;
    var x := EscapeByte(str[0]);
    EscapeStarts(str[1..]);
    assert s[p + |x|] == QUOTE <==> str[1..] == [];
    if str[0] == QUOTE {
      assert x == [BACKSLASH, QUOTE] && s[p] == x[0] && s[p + 1] == x[1..][0];
    } else {
      EscapeByteShape(str[0]);
      hide EscapeByte, Inside;
      CopiedInside(s, p, x);
    }
  }

  lemma LastBackslashInside(s: bytes, p: nat)
    requires At(s, p, Escape([BACKSLASH]) + [QUOTE])
    ensures |Escape([BACKSLASH])| == 2 && p + 2 < |s|
    ensures Inside(s, p) == Escape([BACKSLASH]) + [QUOTE] + Inside(s, p + 3)
  {
    hide Outside;
    var t := Escape([BACKSLASH]) + [QUOTE];
    assert Escape([]) == [] && t == [BACKSLASH, BACKSLASH, QUOTE];
    AtByte(s, p, t, 0);
    AtByte(s, p, t, 1);
    AtByte(s, p, t, 2);
    hide At, Escape, EscapeByte;
    assert Inside(s, p + 1) == [BACKSLASH, QUOTE] + Inside(s, p + 3);
    assert [BACKSLASH] + ([BACKSLASH, QUOTE] + Inside(s, p + 3)) == t + Inside(s, p + 3);
  }

  lemma EmptyInside(s: bytes, p: nat)
    requires At(s, p, Escape([]) + [QUOTE])
    ensures |Escape([])| == 0 && p < |s| && Inside(s, p) == Escape([]) + [QUOTE] + Outside(s, p + 1)
  {
    hide Outside;
    assert Escape([]) + [QUOTE] == [QUOTE];
  }

  lemma {:induction false} EscapedInside(str: bytes, s: bytes, p: nat)
    requires At(s, p, Escape(str) + [QUOTE])
    ensures p + |Escape(str)| < |s|
    ensures Inside(s, p) == Escape(str) + [QUOTE] + Run(s, p + |Escape(str)| + 1, EndsInBackslash(str))
    decreases str
  {
    hide Outside, Inside, EscapeByte, At;
    if str == [] {
      EmptyInside(s, p);
    } else if str == [BACKSLASH] {
      LastBackslashInside(s, p);
    } else {
      var x, rest := EscapeByte(str[0]), Escape(str[1..]) + [QUOTE];
      assert Escape(str) + [QUOTE] == x + rest;
      hide Escape, Run;
      AtAppend(s, p, x, rest);
      EscapedInside(str[1..], s, p + |x|);
      EscapeByteInside(str, s, p);
      var tail := Run(s, p + |Escape(str)| + 1, EndsInBackslash(str));
      assert x + (rest + tail) == x + rest + tail;
    }
  }

  lemma QuotedOutside(str: bytes, s: bytes, off: nat)
    requires At(s, off, Quoted(str))
    ensures off + |Quoted(str)| <= |s|
    ensures Outside(s, off) == Quoted(str) + Run(s, off + |Quoted(str)|, EndsInBackslash(str))
  {
    hide At, Escape, Outside, Inside, Run;
    var inner := Escape(str) + [QUOTE];
    assert Quoted(str) == [QUOTE] + inner;
    AtAppend(s, off, [QUOTE], inner);
    EscapedInside(str, s, off + 1);
    AtByte(s, off, [QUOTE], 0);
    OpeningQuote(s, off);
    var tail := Run(s, off + |Quoted(str)|, EndsInBackslash(str));
    assert [QUOTE] + (inner + tail) == Quoted(str) + tail;
  }

  /** Bytes copied on both sides of a quote. */
  predicate Visible(b: byte) {
    !IsBlank(b) && b != SLASH && b != QUOTE && b != BACKSLASH
  }

  lemma VisibleByte(s: bytes, p: nat, inside: bool)
    requires p < |s| && Visible(s[p])
    ensures Run(s, p, inside) == [s[p]] + Run(s, p + 1, inside)
  {
  }

  lemma BlankByte(s: bytes, p: nat)
    requires p < |s| && IsBlank(s[p])
    ensures Outside(s, p) == Outside(s, p + 1)
  {
  }

  lemma {:induction false} PlainOutside(s: bytes, p: nat, t: bytes)
    requires At(s, p, t) && forall i :: 0 <= i < |t| ==> Visible(t[i])
    ensures p + |t| <= |s| && Outside(s, p) == t + Outside(s, p + |t|)
    decreases t
  {
    hide Outside, Visible;
    if t == [] {
      assert t + Outside(s, p) == Outside(s, p);
    } else {
      PlainOutside(s, p + 1, t[1..]);
      VisibleByte(s, p, false);
      assert t == [t[0]] + t[1..];
      assert [t[0]] + (t[1..] + Outside(s, p + |t|)) == t + Outside(s, p + |t|);
    }
  }

  lemma {:induction false} TabsOutside(s: bytes, p: nat, n: nat)
    requires At(s, p, Tabs(n))
    ensures p + n <= |s| && Outside(s, p) == Outside(s, p + n)
    decreases n
  {
    if n > 0 {
      assert Tabs(n)[1..] == Tabs(n - 1);
      TabsOutside(s, p + 1, n - 1);
    }
  }

  /** The text at off..e minifies to u, leaving the library inside a string if not closed; or it
      minifies to something else. */
  ghost predicate Minified(s: bytes, off: nat, e: nat, u: bytes, back: bool, closed: bool) {
    && off <= e <= |s|
    && (back ==> Outside(s, off) == u + Run(s, e, !closed))
    && (!back ==> Departs(Outside(s, off), u))
  }

  lemma MinifiedBehind(s: bytes, off: nat, front: bytes, p: nat, e: nat, u: bytes, back: bool, closed: bool)
    requires off <= p <= |s| && Outside(s, off) == front + Outside(s, p)
    requires Minified(s, p, e, u, back, closed)
    ensures Minified(s, off, e, front + u, back, closed)
  {
    hide Outside, Run, Departs;
    if back {
      assert front + (u + Run(s, e, !closed)) == front + u + Run(s, e, !closed);
    } else {
      DepartsBehind(front, Outside(s, p), u, []);
      assert front + u + [] == front + u;
    }
  }

  lemma MinifiedThen(s: bytes, off: nat, m: nat, u: bytes, back: bool, closed: bool, e: nat, u': bytes, back': bool,
                     closed': bool)
    requires Minified(s, off, m, u, back, closed) && m <= e
    requires back && closed ==> Minified(s, m, e, u', back', closed')
    requires back && !closed ==> Departs(Inside(s, m), u') && e <= |s|
    requires !back ==> e <= |s|
    ensures Minified(s, off, e, u + u', back && closed && back', closed')
  {
    hide Outside, Inside, Departs;
    if !back {
      DepartsBehind([], Outside(s, off), u, u');
      assert [] + Outside(s, off) == Outside(s, off) && [] + u + u' == u + u';
    } else if closed {
      MinifiedBehind(s, off, u, m, e, u', back', closed');
    } else {
      DepartsBehind(u, Inside(s, m), u', []);
      assert u + u' + [] == u + u';
    }
  }

  lemma SameEnd(s: bytes, off: nat, e: nat, u: bytes, back: bool, closed: bool, closed': bool)
    requires Minified(s, off, e, u, back, closed) && (back ==> closed == closed')
    ensures Minified(s, off, e, u, back, closed')
  {
    hide Departs, Outside, Run;
  }

  /** A separator and its blank at m: outside strings the blank is dropped, inside a string it
      is kept where the unformatted text goes on with something visible. */
  lemma Gap(s: bytes, m: nat, x: byte, y: byte, e: nat, u: bytes, open: bool, back: bool, closed: bool)
    requires At(s, m, [x, y]) && Visible(x) && IsBlank(y) && u != [] && !IsBlank(u[0])
    requires !open ==> Minified(s, m + 2, e, u, back, closed)
    ensures m + 2 <= |s|
    ensures !open ==> Minified(s, m, e, [x] + u, back, closed)
    ensures open ==> Departs(Inside(s, m), [x] + u)
  {
    AtByte(s, m, [x, y], 0);
    AtByte(s, m, [x, y], 1);
    VisibleByte(s, m, open);
    if open {
      CopiedByte(s, m + 1);
      assert Inside(s, m)[1] == y && ([x] + u)[1] == u[0];
    } else {
      assert Outside(s, m + 1) == Outside(s, m + 2);
      hide Outside, Inside, Minified;
      MinifiedBehind(s, m, [x], m + 2, e, u, back, closed);
    }
  }

  lemma MinifiedBracket(s: bytes, off: nat, e: nat, u: bytes, back: bool, closed: bool)
    requires Minified(s, off, e, u, back, closed) && e < |s| && s[e] == RBRACKET
    ensures Minified(s, off, e + 1, u + [RBRACKET], back, closed)
  {
    VisibleByte(s, e, !closed);
    hide Outside, Run, Departs;
    if back {
      assert u + ([RBRACKET] + Run(s, e + 1, !closed)) == u + [RBRACKET] + Run(s, e + 1, !closed);
    } else {
      DepartsBehind([], Outside(s, off), u, [RBRACKET]);
      assert [] + Outside(s, off) == Outside(s, off) && [] + u == u;
    }
  }

  // ---------- values ----------

  lemma {:induction false} ClosesMinifies(v: Value)
    requires Closes(v)
    ensures MinifiesBack(v)
  {
    if v.Array? {
      ClosesItemsMinify(v.items);
    }
  }

  lemma {:induction false} ClosesItemsMinify(vs: seq<Value>)
    requires forall i :: 0 <= i < |vs| ==> Closes(vs[i])
    ensures ItemsMinifyBack(vs)
  {
    if vs != [] {
      ClosesMinifies(vs[0]);
      ClosesItemsMinify(vs[1..]);
    }
  }

  lemma PlainNumberText(c: Libc, d: real)
    requires PlainNumbers(c, Number(d))
    ensures NumberText(c, d) != [] && forall i :: 0 <= i < |NumberText(c, d)| ==> Visible(NumberText(c, d)[i])
  {
    hide NumberText;
  }

  /** A value's unformatted text starts with a byte that is no blank. */
  lemma StartsVisible(c: Libc, v: Value, d: nat)
    requires PlainNumbers(c, v)
    ensures Text(c, v, false, d) != [] && !IsBlank(Text(c, v, false, d)[0])
  {
    hide NumberText, ItemsText, MembersText, Escape;
    if v.Number? {
      PlainNumberText(c, v.d);
    }
  }

  lemma {:induction false} ValueMinifies(c: Libc, v: Value, d: nat, s: bytes, off: nat)
    requires PlainNumbers(c, v) && At(s, off, Text(c, v, true, d))
    ensures Minified(s, off, off + |Text(c, v, true, d)|, Text(c, v, false, d), MinifiesBack(v), Closes(v))
    decreases v, 0
  {
    hide At, Minified;
    if v.Array? {
      ArrayMinifies(c, v.items, d, s, off);
    } else if v.Object? {
      ObjectMinifies(c, v.members, d, s, off);
    } else {
      ScalarMinifies(c, v, d, s, off);
    }
  }

  lemma ScalarMinifies(c: Libc, v: Value, d: nat, s: bytes, off: nat)
    requires PlainNumbers(c, v) && At(s, off, Text(c, v, true, d)) && !v.Array? && !v.Object?
    ensures Minified(s, off, off + |Text(c, v, true, d)|, Text(c, v, false, d), MinifiesBack(v), Closes(v))
  {
    hide At, Outside, Inside, NumberText, Quoted;
    if v.String? {
      QuotedOutside(v.s, s, off);
    } else {
      if v.Number? {
        PlainNumberText(c, v.d);
      }
      PlainOutside(s, off, Text(c, v, true, d));
    }
  }

  lemma {:induction false} ArrayMinifies(c: Libc, vs: seq<Value>, d: nat, s: bytes, off: nat)
    requires PlainNumbers(c, Array(vs)) && At(s, off, Text(c, Array(vs), true, d))
    ensures Minified(s, off, off + |Text(c, Array(vs), true, d)|, Text(c, Array(vs), false, d),
                     MinifiesBack(Array(vs)), Closes(Array(vs)))
    decreases vs, 1
  {
    hide At, Outside, Inside, ItemsText;
    var items := ItemsText(c, vs, true, d + 1);
    var e := off + 1 + |items|;
    AtConcat3(s, off, [LBRACKET], items, [RBRACKET]);
    ItemsMinify(c, vs, d + 1, s, off + 1);
    AtByte(s, off, [LBRACKET], 0);
    AtByte(s, e, [RBRACKET], 0);
    VisibleByte(s, off, false);
    var u := ItemsText(c, vs, false, d + 1);
    hide Minified;
    MinifiedBracket(s, off + 1, e, u, ItemsMinifyBack(vs), Closes(Array(vs)));
    MinifiedBehind(s, off, [LBRACKET], off + 1, e + 1, u + [RBRACKET], ItemsMinifyBack(vs), Closes(Array(vs)));
    assert [LBRACKET] + (u + [RBRACKET]) == Text(c, Array(vs), false, d);
  }

  lemma AtEnd(s: bytes, off: nat, t: bytes)
    requires At(s, off, t)
    ensures off + |t| <= |s|
  {
    AtSlice(s, off, t);
  }

  lemma {:induction false} ItemsMinify(c: Libc, vs: seq<Value>, d: nat, s: bytes, off: nat)
    requires PlainNumbers(c, Array(vs)) && At(s, off, ItemsText(c, vs, true, d))
    ensures Minified(s, off, off + |ItemsText(c, vs, true, d)|, ItemsText(c, vs, false, d),
                     ItemsMinifyBack(vs), Closes(Array(vs)))
    decreases vs, 0
  {
    hide At, Outside, Inside, Text, Minified;
    AtEnd(s, off, ItemsText(c, vs, true, d));
    if vs == [] {
      NoItemsMinify(c, d, s, off);
    } else {
      var t, rest := Text(c, vs[0], true, d), vs[1..];
      var m, e := off + |t|, off + |ItemsText(c, vs, true, d)|;
      var u := Text(c, vs[0], false, d);
      AtConcat3(s, off, t, if |vs| > 1 then ItemSeparator(true) else [], ItemsText(c, rest, true, d));
      ValueMinifies(c, vs[0], d, s, off);
      assert Closes(Array(vs)) <==> Closes(vs[0]) && Closes(Array(rest));
      if rest == [] {
        assert t + [] + [] == t && u + [] + [] == u;
      } else {
        ItemsMinify(c, rest, d, s, m + 2);
        MoreItems(c, vs, d, s, off, m, e);
      }
    }
  }

  lemma {:induction false} MoreItems(c: Libc, vs: seq<Value>, d: nat, s: bytes, off: nat, m: nat, e: nat)
    requires |vs| > 1 && PlainNumbers(c, vs[1]) && At(s, m, ItemSeparator(true)) && e <= |s|
    requires Minified(s, off, m, Text(c, vs[0], false, d), MinifiesBack(vs[0]), Closes(vs[0]))
    requires Minified(s, m + 2, e, ItemsText(c, vs[1..], false, d), ItemsMinifyBack(vs[1..]), Closes(Array(vs[1..])))
    ensures Minified(s, off, e, ItemsText(c, vs, false, d), ItemsMinifyBack(vs), Closes(Array(vs)))
  {
    hide At, Outside, Inside, Text, Departs;
    var rest, u, u' := vs[1..], Text(c, vs[0], false, d), ItemsText(c, vs[1..], false, d);
    StartsVisible(c, rest[0], d);
    assert u' != [] && u'[0] == Text(c, rest[0], false, d)[0];
    assert ItemsText(c, vs, false, d) == u + [COMMA] + u' == u + ([COMMA] + u');
    assert Closes(Array(vs)) <==> Closes(vs[0]) && Closes(Array(rest));
    if Closes(vs[0]) {
      ClosesMinifies(vs[0]);
    }
    assert ItemsMinifyBack(vs) <==> Closes(vs[0]) && ItemsMinifyBack(rest);
    var back, closed := ItemsMinifyBack(rest), Closes(Array(rest));
    assert m + 2 <= e;
    hide ItemsText, ItemsMinifyBack, MinifiesBack, Closes, Minified;
    Gap(s, m, COMMA, SPACE, e, u', !Closes(vs[0]), back, closed);
    MinifiedThen(s, off, m, u, MinifiesBack(vs[0]), Closes(vs[0]), e, [COMMA] + u', back, closed);
    SameEnd(s, off, e, u + ([COMMA] + u'), ItemsMinifyBack(vs), closed, Closes(Array(vs)));
  }

  lemma NoItemsMinify(c: Libc, d: nat, s: bytes, off: nat)
    requires off <= |s|
    ensures Minified(s, off, off + |ItemsText(c, [], true, d)|, ItemsText(c, [], false, d), ItemsMinifyBack([]),
      Closes(Array([])))
  {
    hide Outside, Inside;
    assert [] + Outside(s, off) == Outside(s, off);
  }

  lemma {:induction false} ObjectMinifies(c: Libc, ms: seq<Member>, d: nat, s: bytes, off: nat)
    requires PlainNumbers(c, Object(ms)) && At(s, off, Text(c, Object(ms), true, d))
    ensures Minified(s, off, off + |Text(c, Object(ms), true, d)|, Text(c, Object(ms), false, d),
                     Closes(Object(ms)), Closes(Object(ms)))
    decreases ms, 2
  {
    hide At, Outside, Inside, MembersText, ObjectClose;
    var body, close := MembersText(c, ms, true, d + 1), ObjectClose(true, d);
    var e := off + 2 + |body| + |close|;
    AtConcat3(s, off, [LBRACE, NEWLINE], body, close);
    MembersMinify(c, ms, d, s, off + 2);
    AtByte(s, off, [LBRACE, NEWLINE], 0);
    AtByte(s, off, [LBRACE, NEWLINE], 1);
    VisibleByte(s, off, false);
    BlankByte(s, off + 1);
    var u := MembersText(c, ms, false, d + 1) + [RBRACE];
    hide Minified;
    MinifiedBehind(s, off, [LBRACE], off + 2, e, u, Closes(Object(ms)), true);
    SameEnd(s, off, e, [LBRACE] + u, Closes(Object(ms)), true, Closes(Object(ms)));
    BareClose(d);
    assert [LBRACE] + u == Text(c, Object(ms), false, d);
  }

  /** The members from off on, and the closing brace behind them. */
  lemma {:induction false} MembersMinify(c: Libc, ms: seq<Member>, d: nat, s: bytes, off: nat)
    requires PlainNumbers(c, Object(ms)) && At(s, off, MembersText(c, ms, true, d + 1))
    requires At(s, off + |MembersText(c, ms, true, d + 1)|, ObjectClose(true, d))
    ensures Minified(s, off, off + |MembersText(c, ms, true, d + 1)| + |ObjectClose(true, d)|,
                     MembersText(c, ms, false, d + 1) + [RBRACE], Closes(Object(ms)), true)
    decreases ms, 1
  {
    hide At, Minified, ObjectClose, Text, Quoted, Closes;
    if ms == [] {
      NoMembersMinify(c, s, off, d);
    } else {
      var k, x, y, z, r := JsonRoundTrip.KeyParts(c, ms, true, d + 1, s, off);
      hide MembersText;
      MembersMinify(c, ms[1..], d, s, r);
      ValueMinifies(c, ms[0].value, d + 1, s, y);
      AtEnd(s, off + |MembersText(c, ms, true, d + 1)|, ObjectClose(true, d));
      MoreMembers(c, ms, d, s, off, k, x, y, z, r, off + |MembersText(c, ms, true, d + 1)| + |ObjectClose(true, d)|);
    }
  }

  lemma NoMembersMinify(c: Libc, s: bytes, off: nat, d: nat)
    requires At(s, off, ObjectClose(true, d))
    ensures Minified(s, off, off + |MembersText(c, [], true, d + 1)| + |ObjectClose(true, d)|,
                     MembersText(c, [], false, d + 1) + [RBRACE], Closes(Object([])), true)
  {
    hide At, Minified, ObjectClose;
    ClosingMinifies(s, off, d);
    assert [] + [RBRACE] == [RBRACE];
  }

  lemma MoreMembers(c: Libc, ms: seq<Member>, d: nat, s: bytes, off: nat, k: nat, x: nat, y: nat, z: nat, r: nat,
                    e: nat)
    requires ms != [] && PlainNumbers(c, ms[0].value)
    requires At(s, off, Tabs(d + 1)) && k == off + d + 1 && At(s, k, Quoted(ms[0].key))
    requires x == k + |Quoted(ms[0].key)| && At(s, x, [COLON, TAB]) && y == x + 2
    requires At(s, z, MemberEnd(|ms| == 1, true)) && r == z + |MemberEnd(|ms| == 1, true)| && y <= z && r <= e <= |s|
    requires Minified(s, y, z, Text(c, ms[0].value, false, d + 1), MinifiesBack(ms[0].value), Closes(ms[0].value))
    requires Minified(s, r, e, MembersText(c, ms[1..], false, d + 1) + [RBRACE], Closes(Object(ms[1..])), true)
    ensures Minified(s, off, e, MembersText(c, ms, false, d + 1) + [RBRACE], Closes(Object(ms)), true)
  {
    hide At, Minified, Text, Quoted, MembersText, Inside, Departs;
    var key, v, rest := ms[0].key, ms[0].value, ms[1..];
    var u := MembersText(c, rest, false, d + 1) + [RBRACE];
    assert Closes(Object(ms)) <==> !EndsInBackslash(key) && Closes(v) && Closes(Object(rest));
    if Closes(v) {
      ClosesMinifies(v);
    }
    hide Closes, MinifiesBack;
    MembersStart(c, rest, d, u);
    StartsVisible(c, v, d + 1);
    BareMember(c, ms, d + 1);
    MemberGap(s, z, rest == [], e, u, !Closes(v), Closes(Object(rest)));
    MemberMinifies(s, off, d + 1, key, k, x, y, z, e, Text(c, v, false, d + 1), MinifiesBack(v), Closes(v),
                   (if rest == [] then [] else [COMMA]) + u, Closes(Object(rest)));
  }

  lemma BareClose(d: nat)
    ensures ObjectClose(false, d) == [RBRACE]
  {
  }

  /** The unformatted text of an object from its first member on. */
  lemma {:induction false} BareMember(c: Libc, ms: seq<Member>, d: nat)
    requires ms != []
    ensures MembersText(c, ms, false, d) + [RBRACE]
         == Quoted(ms[0].key) + ([COLON] + (Text(c, ms[0].value, false, d)
            + ((if |ms| == 1 then [] else [COMMA]) + (MembersText(c, ms[1..], false, d) + [RBRACE]))))
  {
    hide Text, Quoted;
    var q, v, rest := Quoted(ms[0].key), Text(c, ms[0].value, false, d), MembersText(c, ms[1..], false, d);
    var comma := if |ms| == 1 then [] else [COMMA];
    assert KeyText(ms[0].key, false, d) == q + [COLON] && MemberEnd(|ms| == 1, false) == comma;
    assert MembersText(c, ms, false, d) == q + [COLON] + v + comma + rest;
    hide MembersText;
    assert q + [COLON] + v + comma + rest + [RBRACE] == q + ([COLON] + (v + (comma + (rest + [RBRACE]))));
  }

  lemma KeyMinifies(s: bytes, k: nat, key: bytes)
    requires At(s, k, Quoted(key))
    ensures Minified(s, k, k + |Quoted(key)|, Quoted(key), true, !EndsInBackslash(key))
  {
    QuotedOutside(key, s, k);
    hide At, Outside, Run, Quoted, EndsInBackslash;
  }

  /** A member's tabs, key, colon and value, given what follows the value at z. */
  lemma MemberMinifies(s: bytes, off: nat, n: nat, key: bytes, k: nat, x: nat, y: nat, z: nat, e: nat, u: bytes,
                       back: bool, closed: bool, u': bytes, back': bool)
    requires At(s, off, Tabs(n)) && k == off + n && At(s, k, Quoted(key)) && x == k + |Quoted(key)|
    requires At(s, x, [COLON, TAB]) && y == x + 2 && u != [] && !IsBlank(u[0])
    requires Minified(s, y, z, u, back, closed) && (closed ==> back) && y <= z <= e <= |s|
    requires closed ==> Minified(s, z, e, u', back', true)
    requires !closed ==> Departs(Inside(s, z), u')
    ensures Minified(s, off, e, Quoted(key) + ([COLON] + (u + u')), !EndsInBackslash(key) && closed && back', true)
  {
    hide At, Outside, Inside, Quoted, EndsInBackslash, Minified, Departs, Tabs;
    TabsOutside(s, off, n);
    KeyMinifies(s, k, key);
    var shut := !EndsInBackslash(key);
    MinifiedThen(s, y, z, u, back, closed, e, u', back', true);
    Gap(s, x, COLON, TAB, e, u + u', !shut, closed && back', true);
    MinifiedThen(s, k, x, Quoted(key), true, shut, e, [COLON] + (u + u'), closed && back', true);
    var v := Quoted(key) + ([COLON] + (u + u'));
    assert [] + v == v && [] + Outside(s, k) == Outside(s, k);
    MinifiedBehind(s, off, [], k, e, v, shut && closed && back', true);
  }

  lemma MembersStart(c: Libc, ms: seq<Member>, d: nat, u: bytes)
    requires u == MembersText(c, ms, false, d + 1) + [RBRACE]
    ensures u != [] && !IsBlank(u[0]) && (ms == [] ==> u == [RBRACE])
  {
    hide Text, Escape;
  }

  lemma ClosingMinifies(s: bytes, off: nat, d: nat)
    requires At(s, off, ObjectClose(true, d))
    ensures Minified(s, off, off + |ObjectClose(true, d)|, [RBRACE], true, true)
  {
    hide At, Outside;
    AtAppend(s, off, Tabs(d), [RBRACE]);
    TabsOutside(s, off, d);
    AtByte(s, off + d, [RBRACE], 0);
    VisibleByte(s, off + d, false);
  }

  lemma {:induction false} MemberGap(s: bytes, z: nat, last: bool, e: nat, u: bytes, open: bool, back: bool)
    requires At(s, z, MemberEnd(last, true)) && u != [] && !IsBlank(u[0])
    requires Minified(s, z + |MemberEnd(last, true)|, e, u, back, true)
    ensures !open ==> Minified(s, z, e, (if last then [] else [COMMA]) + u, back, true)
    ensures open ==> Departs(Inside(s, z), (if last then [] else [COMMA]) + u)
  {
    if last {
      assert [] + u == u && MemberEnd(true, true) == [NEWLINE];
      AtByte(s, z, [NEWLINE], 0);
      if open {
        CopiedByte(s, z);
        assert Inside(s, z)[0] == NEWLINE;
      } else {
        assert Outside(s, z) == Outside(s, z + 1);
      }
    } else {
      assert MemberEnd(false, true) == [COMMA, NEWLINE];
      hide Minified, Outside, Inside, Departs;
      Gap(s, z, COMMA, NEWLINE, e, u, open, back, true);
    }
  }

  // ---------- the whole text ----------

  /** Minifying the formatted text gives the unformatted text exactly when only closing brackets
      follow a string that ends in a backslash. */
  lemma MinifyUndoesFormatting(c: Libc, v: Value)
    requires PlainNumbers(c, v)
    ensures Minify(Text(c, v, true, 0)) == Text(c, v, false, 0) <==> MinifiesBack(v)
  {
    hide Text, Closes, MinifiesBack;
    var s, u := Text(c, v, true, 0), Text(c, v, false, 0);
    AtSlice(s, 0, s);
    assert s[0..|s|] == s;
    ValueMinifies(c, v, 0, s, 0);
    assert u + [] == u;
  }

  /** In particular when no string and no key ends in a backslash at all. */
  lemma MinifyUndoesFormattingOfClosed(c: Libc, v: Value)
    requires PlainNumbers(c, v) && Closes(v)
    ensures Minify(Text(c, v, true, 0)) == Text(c, v, false, 0)
  {
    MinifyUndoesFormatting(c, v);
    ClosesMinifies(v);
  }

  lemma {:induction false} BackslashAndNull(c: Libc, format: bool)
    ensures Text(c, Array([String([BACKSLASH]), Null]), format, 0)
         == [LBRACKET, QUOTE, BACKSLASH, BACKSLASH, QUOTE] + ItemSeparator(format) + NULL_TEXT + [RBRACKET]
  {
    var str := String([BACKSLASH]);
    assert Escape([]) == [] && Escape([BACKSLASH]) == [BACKSLASH, BACKSLASH];
    assert [str, Null][1..] == [Null] && [Null][1..] == [];
    assert Text(c, str, format, 1) == [QUOTE, BACKSLASH, BACKSLASH, QUOTE];
    assert ItemsText(c, [Null], format, 1) == NULL_TEXT;
    assert ItemsText(c, [str, Null], format, 1) == Text(c, str, format, 1) + ItemSeparator(format) + NULL_TEXT;
  }

  /** The array of the string backslash and null: its blank survives minification. */
  lemma BlankSurvives(c: Libc)
    ensures var v, q := Array([String([BACKSLASH]), Null]), [LBRACKET, QUOTE, BACKSLASH, BACKSLASH, QUOTE];
            && Text(c, v, true, 0) == q + [COMMA, SPACE] + NULL_TEXT + [RBRACKET]
            && Text(c, v, false, 0) == q + [COMMA] + NULL_TEXT + [RBRACKET]
            && Minify(Text(c, v, true, 0)) != Text(c, v, false, 0)
  {
    var str := String([BACKSLASH]);
    var v := Array([str, Null]);
    BackslashAndNull(c, true);
    BackslashAndNull(c, false);
    assert !Closes(str) && !ItemsMinifyBack([str, Null]);
    hide Text, ItemsText, Minify;
    MinifyUndoesFormatting(c, v);
  }

  lemma {:induction false} PrintableIsPlain(c: Libc, v: Value)
    requires Printable(c, v)
    ensures PlainNumbers(c, v)
  {
    hide NumberText;
    if v.Array? {
      forall i | 0 <= i < |v.items| ensures PlainNumbers(c, v.items[i]) {
        PrintableIsPlain(c, v.items[i]);
      }
    } else if v.Object? {
      forall i | 0 <= i < |v.members| ensures PlainNumbers(c, v.members[i].value) {
        PrintableIsPlain(c, v.members[i].value);
      }
    }
  }

  /** cJSON_Print and then cJSON_Minify, on a tree: the array holds the unformatted text exactly when
      only closing brackets follow a string that ends in a backslash. */
  method PrintAndMinify(c: Libc, item: JsonNode.Node, ghost t: JsonTree.Tree, ghost v: Value)
    returns (json: array<byte>)
    requires t.root == item && JsonTree.Reps(t, v) && Printable(c, v)
    ensures fresh(json)
    ensures var s := Minify(Text(c, v, true, 0));
      |s| < json.Length && json[..|s|] == s && json[|s|] == NUL
      && (s == Text(c, v, false, 0) <==> MinifiesBack(v))
  {
    hide JsonTree.Reps, Minify, Text, Printable, MinifiesBack, PlainNumbers;
    JsonPrinter.PrintableIsRenderable(c, v);
    PrintableIsPlain(c, v);
    MinifyUndoesFormatting(c, v);
    json := JsonPrinter.Print(c, item, true, t, v);
    MinifyInPlace(json, Text(c, v, true, 0));
  }
}
