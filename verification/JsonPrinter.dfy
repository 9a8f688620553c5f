/** The printer: it walks the tree and writes into a buffer that is fixed or grows. Some steps
    advance the offset themselves; after the others update_offset finds the end with strlen. */
module JsonPrinter {
  import opened Bytes
  import opened JsonValue
  import opened JsonText
  import opened JsonNode
  import opened JsonTree

  class PrintBuffer {
    var buffer: array<byte>
    var length: nat
    var offset: nat
    var depth: nat
    const noalloc: bool
    const format: bool

    constructor (buffer: array<byte>, length: nat, noalloc: bool, format: bool)
      ensures this.buffer == buffer && this.length == length && this.noalloc == noalloc && this.format == format
      ensures offset == 0 && depth == 0
    {
      this.buffer, this.length, this.noalloc, this.format := buffer, length, noalloc, format;
      offset, depth := 0, 0;
    }

    /** The text so far ends at the offset. */
    ghost predicate Ready(text: bytes)
      reads this`buffer, this`length, this`offset, buffer
    {
      && offset == |text| && NUL !in text
      && length <= buffer.Length && (offset < length || offset == length == 0)
      && buffer[..offset] == text
    }

    /** The text so far ends at a NUL somewhere at or behind the offset. */
    ghost predicate Shows(text: bytes)
      reads this`buffer, this`length, this`offset, buffer
    {
      && offset <= |text| < length <= buffer.Length && NUL !in text
      && buffer[..|text|] == text && buffer[|text|] == NUL
    }

    /** Whether a request for room up to a total size is met: always, if the buffer may grow. */
    ghost predicate Room(size: nat)
      reads this`length
    {
      noalloc ==> size <= length
    }

    /** A fixed buffer stays the same one. */
    ghost predicate SameOrGrown(b: array<byte>, n: nat)
      reads this`buffer, this`length
    {
      noalloc ==> buffer == b && length == n
    }

    /** ensure: room for needed bytes behind the offset and one more. */
    method Ensure(needed: nat, ghost text: bytes) returns (ok: bool)
      requires Ready(text)
      modifies this`buffer, this`length
      ensures ok == old(Room(|text| + needed + 1))
      ensures ok ==> Ready(text) && |text| + needed + 1 <= length
      ensures SameOrGrown(old(buffer), old(length)) && (buffer == old(buffer) || fresh(buffer))
    {
      if length > 0 && offset >= length {
        return false;
      }
      var total := needed + offset + 1;
      if total <= length {
        return true;
      }
      if noalloc {
        return false;
      }
      var bigger := new byte[total * 2](_ => 0);
      forall i | 0 <= i < length {
        bigger[i] := buffer[i];
      }
      buffer, length := bigger, total * 2;
      return true;
    }

    /** update_offset. */
    method UpdateOffset(ghost text: bytes)
      requires Shows(text)
      modifies this`offset
      ensures Ready(text)
    {
      assert forall i :: 0 <= i < |text| ==> buffer[i] == buffer[..|text|][i];
      while buffer[offset] != NUL
        invariant old(offset) <= offset <= |text| && Shows(text)
        invariant forall i :: 0 <= i < |text| ==> buffer[i] == text[i]
        decreases |text| - offset
      {
        offset := offset + 1;
      }
    }

    /** Ensures room for needed bytes, stores piece and advances the offset. */
    method Emit(piece: bytes, needed: nat, ghost text: bytes) returns (ok: bool)
      requires Ready(text) && |piece| <= needed && NUL !in piece
      modifies this`buffer, this`length, this`offset, buffer
      ensures ok == old(Room(|text| + needed + 1))
      ensures ok ==> Ready(text + piece)
      ensures SameOrGrown(old(buffer), old(length)) && (buffer == old(buffer) || fresh(buffer))
    {
      ok := Ensure(needed, text);
      if ok {
        Store(piece, text);
        offset := offset + |piece|;
      }
    }

    /** Ensures room for piece and a NUL and stores both; the offset stays. */
    method EmitString(piece: bytes, ghost text: bytes) returns (ok: bool)
      requires Ready(text) && NUL !in piece
      modifies this`buffer, this`length, buffer
      ensures ok == old(Room(|text + piece| + 2))
      ensures ok ==> Shows(text + piece)
      ensures SameOrGrown(old(buffer), old(length)) && (buffer == old(buffer) || fresh(buffer))
    {
      ok := Ensure(|piece| + 1, text);
      if ok {
        Store(piece, text);
        buffer[offset + |piece|] := NUL;
        assert buffer[..|text + piece|] == text + piece;
      }
    }

    /** Stores through a pointer that starts at the offset. */
    method Store(piece: bytes, ghost text: bytes)
      requires offset == |text| && offset + |piece| < buffer.Length && buffer[..offset] == text
      modifies buffer
      ensures buffer[..offset + |piece|] == text + piece
    {
      for i := 0 to |piece|
        invariant buffer[..offset + i] == text + piece[..i]
      {
        buffer[offset + i] := piece[i];
        assert buffer[..offset + i + 1] == buffer[..offset + i] + [piece[i]];
        assert piece[..i + 1] == piece[..i] + [piece[i]];
      }
      assert piece[..|piece|] == piece;
    }
  }

  /** C strings hold no NUL, and sprintf's numbers fit print_number's 26-byte buffer. */
  predicate Renderable(c: Libc, v: Value) {
    match v
    case Null => true
    case Bool(_) => true
    case Number(d) => |NumberText(c, d)| <= 25 && NUL !in NumberText(c, d)
    case String(s) => NUL !in s
    case Array(vs) => forall i :: 0 <= i < |vs| ==> Renderable(c, vs[i])
    case Object(ms) => forall i :: 0 <= i < |ms| ==> NUL !in ms[i].key && Renderable(c, ms[i].value)
  }

  lemma {:induction false} PrintableIsRenderable(c: Libc, v: Value)
    requires Printable(c, v)
    ensures Renderable(c, v)
    decreases v
  {
    if v.Array? {
      forall i | 0 <= i < |v.items| ensures Renderable(c, v.items[i]) {
        PrintableIsRenderable(c, v.items[i]);
      }
    } else if v.Object? {
      forall i | 0 <= i < |v.members| ensures Renderable(c, v.members[i].value) {
        PrintableIsRenderable(c, v.members[i].value);
      }
    }
  }

  // ---------- no text contains a NUL ----------

  lemma {:induction false} EscapeNoNul(s: bytes)
    requires NUL !in s
    ensures NUL !in Escape(s)
    decreases s
  {
    if s != [] {
      EscapeNoNul(s[1..]);
      assert NUL !in EscapeByte(s[0]);
    }
  }

  lemma {:induction false} TextNoNul(c: Libc, v: Value, format: bool, depth: nat)
    requires Renderable(c, v)
    ensures NUL !in Text(c, v, format, depth)
    decreases v, 1
  {
    if v.String? {
      EscapeNoNul(v.s);
    } else if v.Array? {
      ItemsNoNul(c, v.items, format, depth + 1);
    } else if v.Object? {
      MembersNoNul(c, v.members, format, depth + 1);
    }
  }

  lemma {:induction false} ItemsNoNul(c: Libc, vs: seq<Value>, format: bool, depth: nat)
    requires forall i :: 0 <= i < |vs| ==> Renderable(c, vs[i])
    ensures NUL !in ItemsText(c, vs, format, depth)
    decreases vs, 0
  {
    if vs != [] {
      TextNoNul(c, vs[0], format, depth);
      ItemsNoNul(c, vs[1..], format, depth);
    }
  }

  lemma {:induction false} MembersNoNul(c: Libc, ms: seq<Member>, format: bool, depth: nat)
    requires forall i :: 0 <= i < |ms| ==> NUL !in ms[i].key && Renderable(c, ms[i].value)
    ensures NUL !in MembersText(c, ms, format, depth)
    decreases ms, 0
  {
    if ms != [] {
      EscapeNoNul(ms[0].key);
      TextNoNul(c, ms[0].value, format, depth);
      MembersNoNul(c, ms[1..], format, depth);
    }
  }

  // ---------- scalars ----------

  method PrintNumber(c: Libc, item: Node, p: PrintBuffer, ghost d: real, ghost text: bytes) returns (ok: bool)
    requires p.Ready(text) && Payload(item, Number(d)) && Renderable(c, Number(d))
    modifies p, p.buffer
    ensures p.SameOrGrown(old(p.buffer), old(p.length)) && (p.buffer == old(p.buffer) || fresh(p.buffer))
    ensures p.depth == old(p.depth)
    ensures ok == old(p.Room(|text + NumberText(c, d)| + 2))
    ensures ok ==> p.Shows(text + NumberText(c, d))
  {
    var number := if item.valueDouble == FromInt64(item.valueInt)
                  then IntegerText(item.valueInt) else FormatReal(c, item.valueDouble);
    if |number| > 25 {
      return false;
    }
    ok := p.EmitString(number, text);
    if ok {
      p.offset := p.offset + |number|;
    }
  }

  /** How many bytes escaping adds to one byte. */
  function Extra(b: byte): nat {
    if b == QUOTE || b == BACKSLASH || b == BACKSPACE || b == FORM_FEED || b == NEWLINE || b == RETURN || b == TAB
    then 1
    else if b < 32 then 5 else 0
  }

  lemma EscapeGrows(b: byte)
    ensures |EscapeByte(b)| == 1 + Extra(b) && (Extra(b) == 0 ==> EscapeByte(b) == [b])
  {
  }

  lemma {:induction false} EscapeLast(s: bytes, b: byte)
    ensures Escape(s + [b]) == Escape(s) + EscapeByte(b)
    decreases s
  {
    hide EscapeByte;
    if s == [] {
      assert s + [b] == [b];
      assert Escape([]) == [];
    } else {
      assert (s + [b])[1..] == s[1..] + [b];
      EscapeLast(s[1..], b);
    }
  }

  /** The counting loop of print_string_ptr. */
  method CountEscapes(input: bytes) returns (extra: nat)
    ensures |Escape(input)| == |input| + extra
    ensures extra == 0 ==> Escape(input) == input
  {
    extra := 0;
    for i := 0 to |input|
      invariant |Escape(input[..i])| == i + extra
      invariant extra == 0 ==> Escape(input[..i]) == input[..i]
    {
      assert input[..i + 1] == input[..i] + [input[i]];
      EscapeLast(input[..i], input[i]);
      EscapeGrows(input[i]);
      extra := extra + Extra(input[i]);
    }
    assert input[..|input|] == input;
  }

  /** memcpy. */
  method CopyPlain(input: bytes, out: array<byte>, start: nat, ghost pre: bytes)
    requires start + |input| < out.Length && out[..start] == pre
    modifies out
    ensures out[..start + |input|] == pre + input
  {
    for i := 0 to |input|
      invariant out[..start + i] == pre + input[..i]
    {
      out[start + i] := input[i];
      assert out[..start + i + 1] == out[..start + i] + [input[i]];
      assert input[..i + 1] == input[..i] + [input[i]];
    }
    assert input[..|input|] == input;
  }

  /** The escaping loop of print_string_ptr, behind the opening quote. */
  method CopyEscaped(input: bytes, out: array<byte>, start: nat, ghost pre: bytes)
    requires start + |Escape(input)| < out.Length && out[..start] == pre
    modifies out
    ensures out[..start + |Escape(input)|] == pre + Escape(input)
  {
    hide Escape, EscapeByte, Extra;
    EscapeNone();
    assert input[..0] == [] && input[0..] == input;
    var q := start;
    for i := 0 to |input|
      invariant q == start + |Escape(input[..i])|
      invariant q + |Escape(input[i..])| == start + |Escape(input)|
      invariant out[..q] == pre + Escape(input[..i])
    {
      assert input[i..][1..] == input[i + 1..];
      assert input[..i + 1] == input[..i] + [input[i]];
      EscapeFirst(input[i..]);
      EscapeLast(input[..i], input[i]);
      EscapeGrows(input[i]);
      var n := PutEscaped(input[i], out, q);
      assert out[..q + n] == out[..q] + EscapeByte(input[i]);
      q := q + n;
    }
    assert input[..|input|] == input && input[|input|..] == [];
  }

  lemma EscapeNone()
    ensures Escape([]) == []
  {
  }

  lemma EscapeFirst(s: bytes)
    requires s != []
    ensures Escape(s) == EscapeByte(s[0]) + Escape(s[1..])
  {
  }

  /** One turn of that loop: the byte itself, a two-byte escape, or sprintf's u%04x. */
  method PutEscaped(b: byte, out: array<byte>, q: nat) returns (n: nat)
    requires q + |EscapeByte(b)| < out.Length
    modifies out
    ensures out[..q] == old(out[..q])
    ensures n == |EscapeByte(b)| && out[q..q + n] == EscapeByte(b)
  {
    if b > 31 && b != QUOTE && b != BACKSLASH {
      out[q] := b;
      return 1;
    }
    out[q] := BACKSLASH;
    n := 2;
    if b == BACKSLASH {
      out[q + 1] := BACKSLASH;
    } else if b == QUOTE {
      out[q + 1] := QUOTE;
    } else if b == BACKSPACE {
      out[q + 1] := 98;
    } else if b == FORM_FEED {
      out[q + 1] := 102;
    } else if b == NEWLINE {
      out[q + 1] := 110;
    } else if b == RETURN {
      out[q + 1] := 114;
    } else if b == TAB {
      out[q + 1] := 116;
    } else {
      out[q + 1], out[q + 2], out[q + 3] := 117, ZERO, ZERO;
      out[q + 4], out[q + 5], out[q + 6] := HexDigit(b / 16), HexDigit(b % 16), NUL;
      n := 6;
    }
  }

  /** The quoted string and its NUL, from start on. */
  method StoreQuoted(s: bytes, extra: nat, out: array<byte>, start: nat, ghost pre: bytes)
    requires |Escape(s)| == |s| + extra && (extra == 0 ==> Escape(s) == s)
    requires start + |Quoted(s)| < out.Length && out[..start] == pre
    modifies out
    ensures out[..start + |Quoted(s)|] == pre + Quoted(s) && out[start + |Quoted(s)|] == NUL
  {
    hide Escape;
    out[start] := QUOTE;
    assert out[..start + 1] == pre + [QUOTE];
    if extra == 0 {
      CopyPlain(s, out, start + 1, pre + [QUOTE]);
    } else {
      CopyEscaped(s, out, start + 1, pre + [QUOTE]);
    }
    var n := start + |s| + extra + 1;
    out[n] := QUOTE;
    out[n + 1] := NUL;
    assert out[..n + 1] == out[..n] + [QUOTE];
    assert pre + [QUOTE] + Escape(s) + [QUOTE] == pre + Quoted(s);
  }

  /** print_string_ptr; a key or string that is not there prints as an empty one. */
  method PrintStringPtr(input: Option<bytes>, p: PrintBuffer, ghost text: bytes) returns (ok: bool)
    requires p.Ready(text) && (input.Some? ==> NUL !in input.value)
    modifies p`buffer, p`length, p.buffer
    ensures p.SameOrGrown(old(p.buffer), old(p.length)) && (p.buffer == old(p.buffer) || fresh(p.buffer))
    ensures var s := if input.Some? then input.value else [];
            && ok == old(p.Room(|text + Quoted(s)| + 2))
            && (ok ==> p.Shows(text + Quoted(s)))
  {
    if input == None {
      assert Quoted([]) == [QUOTE, QUOTE];
      ok := p.EmitString([QUOTE, QUOTE], text);
      return;
    }
    var s := input.value;
    var extra := CountEscapes(s);
    ok := p.Ensure(|s| + extra + 3, text);
    if ok {
      EscapeNoNul(s);
      StoreQuoted(s, extra, p.buffer, p.offset, text);
    }
  }

  // ---------- values ----------

  /** print_value: it fails only in a fixed buffer, and there exactly when the value's text, its
      NUL and one more byte do not fit. */
  method PrintValue(c: Libc, item: Node, p: PrintBuffer, ghost t: Tree, ghost v: Value, ghost text: bytes)
    returns (ok: bool)
    requires t.root == item && Reps(t, v) && Renderable(c, v) && p.Ready(text)
    modifies p, p.buffer
    ensures p.SameOrGrown(old(p.buffer), old(p.length)) && (p.buffer == old(p.buffer) || fresh(p.buffer))
    ensures p.depth == old(p.depth) || !ok
    ensures ok == old(p.Room(|text + Text(c, v, p.format, p.depth)| + 2))
    ensures ok ==> p.Shows(text + Text(c, v, p.format, old(p.depth)))
    decreases t, 1, 1
  {
    hide PrintBuffer.Ready, PrintBuffer.Shows;
    if item.kind == KNull {
      ok := p.EmitString(NULL_TEXT, text);
    } else if item.kind == KFalse {
      ok := p.EmitString(FALSE_TEXT, text);
    } else if item.kind == KTrue {
      ok := p.EmitString(TRUE_TEXT, text);
    } else if item.kind == KNumber {
      ok := PrintNumber(c, item, p, v.d, text);
    } else if item.kind == KString {
      ok := PrintStringPtr(item.valueString, p, text);
    } else if item.kind == KArray {
      ok := PrintArray(c, item, p, t, v, text);
    } else {
      ok := PrintObject(c, item, p, t, v, text);
    }
  }

  // ---------- arrays ----------

  method PrintArray(c: Libc, item: Node, p: PrintBuffer, ghost t: Tree, ghost v: Value, ghost text: bytes)
    returns (ok: bool)
    requires t.root == item && Reps(t, v) && v.Array? && Renderable(c, v) && p.Ready(text)
    modifies p, p.buffer
    ensures p.SameOrGrown(old(p.buffer), old(p.length)) && (p.buffer == old(p.buffer) || fresh(p.buffer))
    ensures p.depth == old(p.depth) || !ok
    ensures ok == old(p.Room(|text + Text(c, v, p.format, p.depth)| + 2))
    ensures ok ==> p.Shows(text + Text(c, v, p.format, old(p.depth)))
    decreases t, 1, 0
  {
    hide Reps, Renderable, Text, ItemsText, ItemPart, PrintBuffer.Ready, PrintBuffer.Shows;
    assert allocated(Nodes(t)) && allocated(AllNodes(t.kids));
    ghost var vs, d, start := v.items, p.depth + 1, text + [LBRACKET];
    ghost var whole := text + Text(c, v, p.format, p.depth);
    ok := p.Emit([LBRACKET], 1, text);
    if !ok {
      return;
    }
    p.depth := p.depth + 1;
    NoKids(t, v);
    var current := item.child;
    ghost var k, w := 0, start;
    ArrayStart(c, vs, p.format, old(p.depth), text);
    while current != null
      invariant k <= |vs| == |t.kids| && p.depth == d && Reps(t, v)
      invariant current == if k < |vs| then t.kids[k].root else null
      invariant p.SameOrGrown(old(p.buffer), old(p.length)) && (p.buffer == old(p.buffer) || fresh(p.buffer))
      invariant p.Ready(w) && w + ItemsText(c, vs[k..], p.format, d) + [RBRACKET] == whole
      decreases |vs| - k
    {
      ItemsStep(c, vs, k, p.format, d, w);
      ok := PrintItem(c, current, p, t, v, k, w);
      if !ok {
        return;
      }
      KidLinks(t, v, k);
      k, w := k + 1, w + ItemPart(c, vs, k, p.format, d);
      current := current.next;
    }
    ArrayEnd(c, vs, k, p.format, d, w);
    ok := p.EmitString([RBRACKET], w);
    if ok {
      p.depth := p.depth - 1;
    }
  }

  /** What one element adds to the text: itself and the comma, if another one follows. */
  function ItemPart(c: Libc, vs: seq<Value>, k: nat, format: bool, depth: nat): bytes
    requires k < |vs|
  {
    Text(c, vs[k], format, depth) + if k + 1 < |vs| then ItemSeparator(format) else []
  }

  lemma ArrayStart(c: Libc, vs: seq<Value>, format: bool, depth: nat, text: bytes)
    ensures text + Text(c, Array(vs), format, depth)
         == text + [LBRACKET] + ItemsText(c, vs[0..], format, depth + 1) + [RBRACKET]
  {
    assert vs[0..] == vs;
    var body := ItemsText(c, vs, format, depth + 1);
    assert text + ([LBRACKET] + body + [RBRACKET]) == text + [LBRACKET] + body + [RBRACKET];
  }

  lemma ItemsStep(c: Libc, vs: seq<Value>, k: nat, format: bool, depth: nat, w: bytes)
    requires k < |vs|
    ensures w + ItemsText(c, vs[k..], format, depth) + [RBRACKET]
         == w + ItemPart(c, vs, k, format, depth) + ItemsText(c, vs[k + 1..], format, depth) + [RBRACKET]
  {
    hide Text;
    assert vs[k..][1..] == vs[k + 1..];
    var part, rest := ItemPart(c, vs, k, format, depth), ItemsText(c, vs[k + 1..], format, depth);
    assert w + (part + rest) == w + part + rest;
  }

  lemma ArrayEnd(c: Libc, vs: seq<Value>, k: nat, format: bool, depth: nat, w: bytes)
    requires k == |vs|
    ensures w + ItemsText(c, vs[k..], format, depth) + [RBRACKET] == w + [RBRACKET]
  {
    assert vs[k..] == [];
    assert w + [] == w;
  }

  /** One turn of print_array's loop. */
  method PrintItem(c: Libc, current: Node, p: PrintBuffer, ghost t: Tree, ghost v: Value, ghost k: nat,
                   ghost text: bytes)
    returns (ok: bool)
    requires v.Array? && Reps(t, v) && k < |t.kids| == |v.items| && current == t.kids[k].root
    requires Renderable(c, v) && p.Ready(text)
    modifies p, p.buffer
    ensures p.SameOrGrown(old(p.buffer), old(p.length)) && (p.buffer == old(p.buffer) || fresh(p.buffer))
    ensures p.depth == old(p.depth) || !ok
    ensures Reps(t, v)
    ensures ok ==> p.Ready(text + ItemPart(c, v.items, k, p.format, old(p.depth)))
    ensures !ok ==> !old(p.Room(|text + ItemPart(c, v.items, k, p.format, p.depth)| + 2))
    decreases t, 0
  {
    hide Reps, Text, PrintBuffer.Ready, PrintBuffer.Shows;
    assert allocated(Nodes(t)) && allocated(AllNodes(t.kids));
    ghost var body := Text(c, v.items[k], p.format, p.depth);
    ghost var part := ItemPart(c, v.items, k, p.format, p.depth);
    KidLinks(t, v, k);
    ok := PrintValue(c, current, p, t.kids[k], v.items[k], text);
    if !ok {
      return;
    }
    p.UpdateOffset(text + body);
    KidLinks(t, v, k);
    if current.next != null {
      var sep: bytes := if p.format then [COMMA, SPACE] else [COMMA];
      ok := p.Emit(sep, |sep| + 1, text + body);
      assert text + body + sep == text + part;
    } else {
      assert text + body == text + part;
    }
  }

  // ---------- objects ----------

  method PrintObject(c: Libc, item: Node, p: PrintBuffer, ghost t: Tree, ghost v: Value, ghost text: bytes)
    returns (ok: bool)
    requires t.root == item && Reps(t, v) && v.Object? && Renderable(c, v) && p.Ready(text)
    modifies p, p.buffer
    ensures p.SameOrGrown(old(p.buffer), old(p.length)) && (p.buffer == old(p.buffer) || fresh(p.buffer))
    ensures p.depth == old(p.depth) || !ok
    ensures ok == old(p.Room(|text + Text(c, v, p.format, p.depth)| + 2))
    ensures ok ==> p.Shows(text + Text(c, v, p.format, old(p.depth)))
    decreases t, 1, 0
  {
    hide Reps, Renderable, Text, MembersText, MemberPart, ObjectClose, Nodes, AllNodes, PrintBuffer.Ready,
      PrintBuffer.Shows;
    assert allocated(Nodes(t)) && allocated(AllNodes(t.kids));
    ghost var ms, d, close := v.members, p.depth + 1, ObjectClose(p.format, p.depth);
    ghost var whole := text + Text(c, v, p.format, p.depth);
    ObjectParts(c, ms, p.format, p.depth, text);
    var open: bytes := if p.format then [LBRACE, NEWLINE] else [LBRACE];
    ok := p.Emit(open, |open| + 1, text);
    if !ok {
      return;
    }
    p.depth := p.depth + 1;
    NoKids(t, v);
    var current := item.child;
    ghost var k, w := 0, text + open;
    while current != null
      invariant k <= |ms| == |t.kids| && p.depth == d && Reps(t, v)
      invariant current == if k < |ms| then t.kids[k].root else null
      invariant p.SameOrGrown(old(p.buffer), old(p.length)) && (p.buffer == old(p.buffer) || fresh(p.buffer))
      invariant p.Ready(w) && w + MembersText(c, ms[k..], p.format, d) + close == whole
      decreases |ms| - k
    {
      MembersStep(c, ms, k, p.format, d, w, close);
      ok := PrintMember(c, current, p, t, v, k, w);
      if !ok {
        return;
      }
      KidLinks(t, v, k);
      k, w := k + 1, w + MemberPart(c, ms, k, p.format, d);
      current := current.next;
    }
    MembersEnd(c, ms, k, p.format, d, w, close);
    ok := PrintClose(p, w);
    if ok {
      p.depth := p.depth - 1;
    }
  }

  /** The closing brace, on a formatted line of its own with one tab less. */
  method PrintClose(p: PrintBuffer, ghost text: bytes) returns (ok: bool)
    requires p.Ready(text) && p.depth > 0
    modifies p`buffer, p`length, p.buffer
    ensures p.SameOrGrown(old(p.buffer), old(p.length)) && (p.buffer == old(p.buffer) || fresh(p.buffer))
    ensures ok == old(p.Room(|text + ObjectClose(p.format, p.depth - 1)| + 2))
    ensures ok ==> p.Shows(text + ObjectClose(p.format, p.depth - 1))
  {
    var tabs := [];
    if p.format {
      tabs := MakeTabs(p.depth - 1);
    }
    ok := p.EmitString(tabs + [RBRACE], text);
  }

  /** The loop that writes one tab per open container. */
  method MakeTabs(n: nat) returns (tabs: bytes)
    ensures tabs == Tabs(n) && NUL !in tabs
  {
    tabs := [];
    for i := 0 to n
      invariant tabs == Tabs(i)
    {
      TabsLast(i);
      tabs := tabs + [TAB];
    }
  }

  lemma TabsLast(n: nat)
    ensures Tabs(n + 1) == Tabs(n) + [TAB]
  {
  }

  /** What one member adds to the text. */
  function MemberPart(c: Libc, ms: seq<Member>, k: nat, format: bool, depth: nat): bytes
    requires k < |ms|
  {
    KeyText(ms[k].key, format, depth) + Text(c, ms[k].value, format, depth) + MemberEnd(k + 1 == |ms|, format)
  }

  lemma MemberJoin(c: Libc, ms: seq<Member>, k: nat, format: bool, depth: nat, text: bytes)
    requires k < |ms|
    ensures text + MemberPart(c, ms, k, format, depth)
         == text + KeyText(ms[k].key, format, depth) + Text(c, ms[k].value, format, depth) +
           MemberEnd(k + 1 == |ms|, format)
  {
    hide Text, KeyText, MemberEnd;
    var key, body, end := KeyText(ms[k].key, format, depth), Text(c, ms[k].value, format, depth),
      MemberEnd(k + 1 == |ms|, format);
    assert text + (key + body + end) == text + key + body + end;
  }

  lemma ObjectParts(c: Libc, ms: seq<Member>, format: bool, depth: nat, text: bytes)
    ensures text + Text(c, Object(ms), format, depth)
         == text + ObjectOpen(format) + MembersText(c, ms[0..], format, depth + 1) + ObjectClose(format, depth)
  {
    assert ms[0..] == ms;
    var open, body, close := ObjectOpen(format), MembersText(c, ms, format, depth + 1), ObjectClose(format, depth);
    assert text + (open + body + close) == text + open + body + close;
  }

  lemma MembersStep(c: Libc, ms: seq<Member>, k: nat, format: bool, depth: nat, w: bytes, close: bytes)
    requires k < |ms|
    ensures w + MembersText(c, ms[k..], format, depth) + close
         == w + MemberPart(c, ms, k, format, depth) + MembersText(c, ms[k + 1..], format, depth) + close
  {
    hide Text, KeyText, MemberEnd;
    assert ms[k..][1..] == ms[k + 1..];
    var part, rest := MemberPart(c, ms, k, format, depth), MembersText(c, ms[k + 1..], format, depth);
    assert w + (part + rest) == w + part + rest;
  }

  lemma MembersEnd(c: Libc, ms: seq<Member>, k: nat, format: bool, depth: nat, w: bytes, close: bytes)
    requires k == |ms|
    ensures w + MembersText(c, ms[k..], format, depth) + close == w + close
  {
    assert ms[k..] == [];
    assert w + [] == w;
  }

  /** One turn of print_object's loop: tabs, key, colon, value, and what ends the member. */
  method PrintMember(c: Libc, current: Node, p: PrintBuffer, ghost t: Tree, ghost v: Value, ghost k: nat,
                     ghost text: bytes)
    returns (ok: bool)
    requires v.Object? && Reps(t, v) && k < |t.kids| == |v.members| && current == t.kids[k].root
    requires Renderable(c, v) && p.Ready(text)
    modifies p, p.buffer
    ensures p.SameOrGrown(old(p.buffer), old(p.length)) && (p.buffer == old(p.buffer) || fresh(p.buffer))
    ensures p.depth == old(p.depth) || !ok
    ensures Reps(t, v)
    ensures ok ==> p.Ready(text + MemberPart(c, v.members, k, p.format, old(p.depth)))
    ensures !ok ==> !old(p.Room(|text + MemberPart(c, v.members, k, p.format, p.depth)| + 2))
    decreases t, 0
  {
    hide Reps, Text, KeyText, MemberPart, Nodes, AllNodes, Arity, PrintBuffer.Ready, PrintBuffer.Shows;
    assert allocated(Nodes(t)) && allocated(AllNodes(t.kids));
    ghost var m, d := v.members[k], p.depth;
    ghost var key := KeyText(m.key, p.format, d);
    ghost var body := Text(c, m.value, p.format, d);
    MemberJoin(c, v.members, k, p.format, d, text);
    KidLinks(t, v, k);
    ok := PrintKey(current, p, m.key, text);
    if !ok {
      return;
    }
    KidLinks(t, v, k);
    ok := PrintValue(c, current, p, t.kids[k], m.value, text + key);
    if !ok {
      return;
    }
    p.UpdateOffset(text + key + body);
    KidLinks(t, v, k);
    var end: bytes := (if current.next != null then [COMMA] else []) + (if p.format then [NEWLINE] else []);
    ok := p.Emit(end, |end| + 1, text + key + body);
  }

  /** What print_object stores for a key: tabs, the quoted key and a colon. */
  lemma KeyPieces(key: bytes, format: bool, depth: nat, text: bytes, tabs: bytes, w: bytes, colon: bytes)
    requires tabs == (if format then Tabs(depth) else []) && w == (if format then text + tabs else text)
    requires colon == if format then [COLON, TAB] else [COLON]
    ensures w + Quoted(key) + colon == text + KeyText(key, format, depth)
  {
    hide Quoted, Tabs;
    assert w == text + tabs;
    assert text + (tabs + Quoted(key) + colon) == w + Quoted(key) + colon;
  }

  method PrintKey(current: Node, p: PrintBuffer, ghost key: bytes, ghost text: bytes) returns (ok: bool)
    requires current.key == Some(key) && NUL !in key && p.Ready(text)
    modifies p`buffer, p`length, p`offset, p.buffer
    ensures p.SameOrGrown(old(p.buffer), old(p.length)) && (p.buffer == old(p.buffer) || fresh(p.buffer))
    ensures ok ==> p.Ready(text + KeyText(key, p.format, p.depth))
    ensures !ok ==> !old(p.Room(|text + KeyText(key, p.format, p.depth)| + 2))
  {
    hide PrintBuffer.Ready, PrintBuffer.Shows, Quoted, KeyText, Tabs;
    ghost var tabs := if p.format then Tabs(p.depth) else [];
    ghost var w := if p.format then text + tabs else text;
    var colon: bytes := if p.format then [COLON, TAB] else [COLON];
    KeyPieces(key, p.format, p.depth, text, tabs, w, colon);
    if p.format {
      var indent := MakeTabs(p.depth);
      ok := p.Emit(indent, p.depth, text);
      if !ok {
        return;
      }
    }
    ok := PrintStringPtr(current.key, p, w);
    if !ok {
      return;
    }
    p.UpdateOffset(w + Quoted(key));
    ok := p.Emit(colon, |colon|, w + Quoted(key));
  }

  // ---------- entries ----------

  /** The array holds exactly or first of all a C string. */
  ghost predicate HoldsString(a: array<byte>, text: bytes)
    reads a
  {
    |text| < a.Length && a[..|text|] == text && a[|text|] == NUL && NUL !in text
  }

  /** The end of print: the text and its NUL are copied into an array of that very size. */
  method Trim(buffer: array<byte>, offset: nat, ghost text: bytes) returns (printed: array<byte>)
    requires offset == |text| && HoldsString(buffer, text)
    ensures fresh(printed) && printed[..] == text + [NUL] && HoldsString(printed, text)
  {
    printed := new byte[offset + 1](_ => 0);
    forall i | 0 <= i < offset {
      printed[i] := buffer[i];
    }
    assert printed[..offset] == buffer[..offset];
    assert printed[..] == printed[..offset] + [printed[offset]];
  }

  /** cJSON_Print and cJSON_PrintUnformatted: the text and its NUL in an array of that very size. */
  method Print(c: Libc, item: Node, format: bool, ghost t: Tree, ghost v: Value) returns (printed: array<byte>)
    requires t.root == item && Reps(t, v) && Renderable(c, v)
    ensures fresh(printed) && printed[..] == Text(c, v, format, 0) + [NUL]
    ensures HoldsString(printed, Text(c, v, format, 0))
  {
    hide Reps, Text, Nodes, AllNodes, Renderable;
    assert allocated(Nodes(t)) && allocated(AllNodes(t.kids));
    var buffer := new byte[256](_ => 0);
    var p := new PrintBuffer(buffer, 256, false, format);
    var ok := PrintValue(c, item, p, t, v, []);
    ghost var text := Text(c, v, format, 0);
    assert [] + text == text;
    p.UpdateOffset(text);
    printed := Trim(p.buffer, p.offset, text);
  }

  /** cJSON_PrintBuffered: the same text for every starting size that is not negative. */
  method PrintBuffered(c: Libc, item: Node, prebuffer: int, format: bool, ghost t: Tree, ghost v: Value)
    returns (printed: array?<byte>)
    requires t.root == item && Reps(t, v) && Renderable(c, v)
    ensures printed == null <==> prebuffer < 0
    ensures printed != null ==> fresh(printed) && HoldsString(printed, Text(c, v, format, 0))
  {
    hide Reps, Text;
    assert allocated(Nodes(t)) && allocated(AllNodes(t.kids));
    if prebuffer < 0 {
      return null;
    }
    var buffer := new byte[prebuffer](_ => 0);
    var p := new PrintBuffer(buffer, prebuffer, false, format);
    var ok := PrintValue(c, item, p, t, v, []);
    assert [] + Text(c, v, format, 0) == Text(c, v, format, 0);
    printed := p.buffer;
  }

  /** cJSON_PrintPreallocated: it succeeds exactly when length is at least two more than the text,
      and then the caller's buffer starts with the text and a NUL. */
  method PrintPreallocated(c: Libc, item: Node, buffer: array?<byte>, length: int, format: bool, ghost t: Tree,
                           ghost v: Value)
    returns (ok: bool)
    requires t.root == item && Reps(t, v) && Renderable(c, v)
    requires buffer != null ==> length <= buffer.Length
    modifies if buffer == null then {} else {buffer}
    ensures ok <==> buffer != null && length >= |Text(c, v, format, 0)| + 2
    ensures ok ==> HoldsString(buffer, Text(c, v, format, 0))
  {
    hide Reps, Text;
    assert allocated(Nodes(t)) && allocated(AllNodes(t.kids));
    if length < 0 || buffer == null {
      return false;
    }
    var p := new PrintBuffer(buffer, length, true, format);
    ok := PrintValue(c, item, p, t, v, []);
    assert [] + Text(c, v, format, 0) == Text(c, v, format, 0);
  }
}
