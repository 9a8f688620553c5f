/** The parser proper: it walks a cursor over the input and builds the tree in the heap. */
module JsonParser {
  import opened Bytes
  import opened JsonValue
  import opened JsonNode
  import opened JsonTree
  import opened JsonRead
  import JsonString
  import T = JsonText

  /** parse_buffer. The content includes the terminating NUL, as cJSON_Parse passes it. */
  class ParseBuffer {
    const content: bytes
    var offset: nat
    var depth: nat

    constructor (text: bytes)
      ensures content == text + [NUL] && offset == 0 && depth == 0
    {
      content, offset, depth := text + [NUL], 0, 0;
    }

    ghost predicate Valid()
      reads this`offset
    {
      offset <= |content| && content != [] && content[|content| - 1] == NUL
    }

    method SkipWhitespace()
      requires Valid()
      modifies this`offset
      ensures Valid() && offset == Skip(content, old(offset))
    {
      if offset >= |content| {
        return;
      }
      while offset < |content| && content[offset] <= 32
        invariant old(offset) <= offset <= |content|
        invariant SkipRun(content, old(offset)) == SkipRun(content, offset)
      {
        offset := offset + 1;
      }
      if offset == |content| {
        offset := offset - 1;
      }
    }

    /** strncmp against a word, when enough input is left. */
    predicate LookingAt(word: bytes)
      reads this`offset
    {
      offset + |word| <= |content| && content[offset..offset + |word|] == word
    }

    predicate Peek(b: byte)
      reads this`offset
    {
      IsAt(content, offset, b)
    }
  }

  /** parse_string: the decoded C string goes into valuestring. */
  method ParseString(item: Node, input: ParseBuffer) returns (ok: bool)
    requires input.Valid() && input.offset < |input.content|
    modifies item`kind, item`valueString, input`offset
    ensures match JsonString.ReadString(input.content, old(input.offset))
            case None => !ok
            case Some((str, e)) =>
              ok && input.Valid() && input.offset == e && item.kind == KString && item.valueString == Some(str)
  {
    var start := input.offset + 1;
    if input.content[input.offset] != QUOTE {
      input.offset := start;
      return false;
    }
    var end, skipped := JsonString.ScanString(input.content, start);
    if end == None {
      input.offset := start;
      return false;
    }
    var good, output, length := JsonString.DecodeString(input.content, start, end.value, skipped);
    if !good {
      return false;
    }
    item.kind := KString;
    item.valueString := Some(CString(output[..length]));
    input.offset := end.value + 1;
    return true;
  }

  /** The copy loop of parse_number. */
  method CopyNumber(input: ParseBuffer) returns (run: bytes)
    requires input.Valid()
    ensures run == NumberRun(input.content, input.offset, 63)
  {
    hide T.NumberByte, NumberRun;
    run := [];
    while |run| < 63 && input.offset + |run| < |input.content| && T.NumberByte(input.content[input.offset + |run|])
      invariant |run| <= 63 && input.offset + |run| <= |input.content|
      invariant NumberRun(input.content, input.offset, 63)
             == run + NumberRun(input.content, input.offset + |run|, 63 - |run|)
      decreases 63 - |run|
    {
      ghost var rest := NumberRun(input.content, input.offset + |run| + 1, 62 - |run|);
      RunStep(input.content, input.offset + |run|, 63 - |run|);
      var b := input.content[input.offset + |run|];
      Regroup(run, [b], rest);
      run := run + [b];
    }
    RunStep(input.content, input.offset + |run|, 63 - |run|);
    assert run + [] == run;
  }

  lemma Regroup(a: bytes, b: bytes, c: bytes)
    ensures a + (b + c) == a + b + c
  {
  }

  lemma RunStep(s: bytes, off: nat, limit: nat)
    requires off <= |s|
    ensures NumberRun(s, off, limit) ==
      if limit > 0 && off < |s| && T.NumberByte(s[off]) then [s[off]] + NumberRun(s, off + 1, limit - 1) else []
  {
  }

  method ParseNumber(c: Libc, item: Node, input: ParseBuffer) returns (ok: bool)
    requires input.Valid()
    modifies item`kind, item`valueInt, item`valueDouble, input`offset
    ensures match ReadNumber(c, input.content, old(input.offset))
            case None => !ok
            case Some((d, e)) =>
              ok && input.Valid() && input.offset == e && item.kind == KNumber
              && item.valueDouble == d && item.valueInt == T.ToInt64(d)
  {
    hide NumberRun;
    var run := CopyNumber(input);
    var (n, d) := Strtod(c, run);
    if n == 0 {
      return false;
    }
    item.valueDouble := d;
    item.valueInt := T.ToInt64(d);
    item.kind := KNumber;
    input.offset := input.offset + n;
    return true;
  }

  // ---------- building a sibling list ----------

  /** "attach next item to list": that changes no more than links between roots, so the finished
      elements stay. */
  method Attach(head: Node?, last: Node?, ghost ts: seq<Tree>, ghost v: Value)
    returns (first: Node, item: Node)
    requires Open(Roots(ts), head, last) && SeparateAll(ts) && Holds(ts, v)
    modifies RootSet(ts)`next
    ensures fresh(item) && item.child == null
    ensures Open(Roots(ts) + [item], first, item)
    ensures Holds(ts, v)
  {
    hide Holds, Open, SeparateAll, Below, Roots, RootSet, AllNodes;
    assert allocated(AllNodes(ts)) && allocated(Below(ts));
    RootsNotBelow(ts);
    item := new Node();
    first := Link(head, last, item, Roots(ts));
  }

  // ---------- values ----------

  /** What a successful parse leaves behind: item is the root of a tree of v, and the cursor is at
      e, at the nesting depth it started from. */
  ghost predicate Parsed(item: Node, input: ParseBuffer, t: Tree, v: Value, e: nat, depth: nat)
    reads Nodes(t), input
  {
    && input.Valid() && input.offset == e && input.depth == depth
    && t.root == item && Reps(t, v) && Separate(t)
  }

  /** parse_value: fills the blank item; everything below it is new. */
  method ParseValue(c: Libc, item: Node, input: ParseBuffer) returns (ok: bool, ghost t: Tree)
    requires input.Valid() && item.child == null
    modifies item`kind, item`valueString, item`valueInt, item`valueDouble, item`child, input
    ensures match ReadValue(c, input.content, old(input.offset), old(input.depth))
            case None => !ok
            case Some((v, e)) =>
              && ok && Parsed(item, input, t, v, e, old(input.depth))
              && (forall n :: n in Nodes(t) ==> n == item || fresh(n))
    decreases |input.content| - input.offset, 5
  {
    hide At, Reps, Separate, Nodes, ReadArray, ReadObject, ReadNumber, JsonString.ReadString;
    ghost var s, off := input.content, input.offset;
    AtSlice(s, off, T.NULL_TEXT);
    AtSlice(s, off, T.FALSE_TEXT);
    AtSlice(s, off, T.TRUE_TEXT);
    ok, t := false, Leaf(item);
    if input.LookingAt(T.NULL_TEXT) {
      item.kind := KNull;
      input.offset := input.offset + 4;
      ok := true;
      LeafReps(item, Null);
    } else if input.LookingAt(T.FALSE_TEXT) {
      item.kind := KFalse;
      input.offset := input.offset + 5;
      ok := true;
      LeafReps(item, Bool(false));
    } else if input.LookingAt(T.TRUE_TEXT) {
      item.kind := KTrue;
      item.valueInt := 1;
      input.offset := input.offset + 4;
      ok := true;
      LeafReps(item, Bool(true));
    } else if input.Peek(QUOTE) {
      ok := ParseString(item, input);
      if ok {
        LeafReps(item, String(item.valueString.value));
      }
    } else if input.offset < |input.content|
              && (input.content[input.offset] == MINUS || ZERO <= input.content[input.offset] <= NINE) {
      ok := ParseNumber(c, item, input);
      if ok {
        LeafReps(item, Number(item.valueDouble));
      }
    } else if input.Peek(LBRACKET) {
      ok, t := ParseArray(c, item, input);
    } else if input.Peek(LBRACE) {
      ok, t := ParseObject(c, item, input);
    }
  }

  // ---------- arrays ----------

  method ParseArray(c: Libc, item: Node, input: ParseBuffer) returns (ok: bool, ghost t: Tree)
    requires input.Valid() && item.child == null && IsAt(input.content, input.offset, LBRACKET)
    modifies item`kind, item`valueString, item`valueInt, item`valueDouble, item`child, input
    ensures match ReadArray(c, input.content, old(input.offset), old(input.depth))
            case None => !ok
            case Some((v, e)) =>
              && ok && Parsed(item, input, t, v, e, old(input.depth))
              && (forall n :: n in Nodes(t) ==> n == item || fresh(n))
    decreases |input.content| - input.offset, 4
  {
    hide Reps, Separate, SeparateAll, Holds, Open, Nodes, AllNodes, ReadItems, Skip;
    ok, t := false, Leaf(item);
    if input.depth >= NESTING_LIMIT {
      return;
    }
    input.depth := input.depth + 1;
    input.offset := input.offset + 1;
    input.SkipWhitespace();
    var head, last: Node? := null, null;
    ghost var ts, vs := [], [];
    NoTrees();
    if !input.Peek(RBRACKET) {
      if input.offset >= |input.content| {
        input.offset := input.offset - 1;
        return;
      }
      input.offset := input.offset - 1;
      var good;
      good, head, last, ts, vs := ParseItems(c, input);
      if !good {
        return;
      }
    }
    input.depth := input.depth - 1;
    input.offset := input.offset + 1;
    Finish(item, KArray, head, last, ts, Array(vs));
    ok, t := true, Tree(item, ts);
  }

  /** "success": the list is closed and hung under the item. */
  method Finish(item: Node, kind: Kind, head: Node?, last: Node?, ghost ts: seq<Tree>, ghost v: Value)
    requires Open(Roots(ts), head, last) && SeparateAll(ts) && Holds(ts, v) && item !in AllNodes(ts)
    requires (v.Array? && kind == KArray) || (v.Object? && kind == KObject)
    modifies item`kind, item`child, RootSet(ts)`prev
    ensures Reps(Tree(item, ts), v) && Separate(Tree(item, ts))
    ensures Nodes(Tree(item, ts)) == {item} + AllNodes(ts)
  {
    hide Open, SeparateAll, Holds, Below, AllNodes, Roots, RootSet;
    assert allocated(AllNodes(ts)) && allocated(Below(ts));
    RootsNotBelow(ts);
    Close(item, head, last, Roots(ts));
    item.kind := kind;
    RepsFromHolds(Tree(item, ts), v);
  }

  method ParseItems(c: Libc, input: ParseBuffer)
    returns (ok: bool, head: Node?, last: Node?, ghost ts: seq<Tree>, ghost vs: seq<Value>)
    requires input.Valid() && input.offset < |input.content|
    modifies input
    ensures match ReadItems(c, input.content, old(input.offset), old(input.depth))
            case None => !ok
            case Some((ws, e)) =>
              && ok && ws == vs && input.Valid() && input.offset == e && input.depth == old(input.depth)
              && Open(Roots(ts), head, last) && SeparateAll(ts) && Holds(ts, Array(vs)) && fresh(AllNodes(ts))
    decreases |input.content| - input.offset, 3
  {
    hide Open, SeparateAll, Holds, AllNodes, ReadValue;
    ok, head, last, ts, vs := false, null, null, [], [];
    ghost var s, start, depth := input.content, input.offset, input.depth;
    ghost var r := ReadItems(c, s, start, depth);
    NoTrees();
    BehindTwice([], [], r);
    var more := true;
    while more
      invariant input.Valid() && start <= input.offset && input.depth == depth
      invariant Open(Roots(ts), head, last) && SeparateAll(ts) && Holds(ts, Array(vs)) && fresh(AllNodes(ts))
      invariant more ==> input.offset < |s| && r == ItemsBehind(vs, ReadItems(c, s, input.offset, depth))
      invariant !more ==> r == if input.Peek(RBRACKET) then Some((vs, input.offset)) else None
      decreases |s| - input.offset, more
    {
      var good;
      ghost var t, v;
      good, head, last, t, v := NextItem(c, input, head, last, ts, vs);
      if !good {
        return;
      }
      BehindTwice(vs, [v], if input.Peek(COMMA) then ReadItems(c, s, input.offset, depth) else None);
      AllNodesAppend(ts, t);
      ts, vs := ts + [t], vs + [v];
      more := input.Peek(COMMA);
    }
    ok := input.Peek(RBRACKET);
  }

  /** One turn of parse_array's loop: a new last element, parsed from behind the bracket or comma. */
  method NextItem(c: Libc, input: ParseBuffer, head: Node?, last: Node?, ghost ts: seq<Tree>, ghost vs: seq<Value>)
    returns (ok: bool, first: Node?, item: Node?, ghost t: Tree, ghost v: Value)
    requires input.Valid() && input.offset < |input.content|
    requires Open(Roots(ts), head, last) && SeparateAll(ts) && Holds(ts, Array(vs))
    modifies input, RootSet(ts)`next
    ensures match ReadValue(c, input.content, Skip(input.content, old(input.offset) + 1), old(input.depth))
            case None => !ok
            case Some((w, e)) =>
              && ok && w == v && input.Valid() && input.depth == old(input.depth)
              && input.offset == Skip(input.content, e)
              && Open(Roots(ts + [t]), first, item) && SeparateAll(ts + [t]) && Holds(ts + [t], Array(vs + [v]))
              && fresh(Nodes(t))
    decreases |input.content| - input.offset, 2
  {
    hide Open, SeparateAll, Holds, Reps, Nodes, AllNodes, Below, Roots, ReadValue;
    assert allocated(AllNodes(ts)) && allocated(Below(ts));
    first, item := Attach(head, last, ts, Array(vs));
    assert item !in AllNodes(ts);
    input.offset := input.offset + 1;
    input.SkipWhitespace();
    ok, t, v := ParseInto(c, item, input, first, ts, Array(vs));
    if ok {
      HoldsItem(ts, vs, t, v);
    }
  }

  /** parse_value into the list's new last node, and the space behind it. */
  method ParseInto(c: Libc, item: Node, input: ParseBuffer, first: Node, ghost ts: seq<Tree>, ghost w: Value)
    returns (ok: bool, ghost t: Tree, ghost v: Value)
    requires input.Valid() && item.child == null && item !in AllNodes(ts)
    requires Open(Roots(ts) + [item], first, item) && SeparateAll(ts) && Holds(ts, w)
    modifies item`kind, item`valueString, item`valueInt, item`valueDouble, item`child, input
    ensures match ReadValue(c, input.content, old(input.offset), old(input.depth))
            case None => !ok
            case Some((u, e)) =>
              && ok && u == v && input.Valid() && input.depth == old(input.depth)
              && input.offset == Skip(input.content, e)
              && t.root == item && Reps(t, v) && (forall n :: n in Nodes(t) ==> n == item || fresh(n))
              && Open(Roots(ts + [t]), first, item) && SeparateAll(ts + [t]) && Holds(ts, w)
    decreases |input.content| - input.offset, 6
  {
    hide Open, SeparateAll, Separate, Holds, Reps, Nodes, AllNodes, Below, Roots, ReadValue;
    assert allocated(AllNodes(ts)) && allocated(Below(ts));
    ghost var r := ReadValue(c, input.content, input.offset, input.depth);
    ok, t := ParseValue(c, item, input);
    v := if r.Some? then r.value.0 else Null;
    if !ok {
      return;
    }
    assert allocated(Nodes(t)) && allocated(AllNodes(t.kids));
    input.SkipWhitespace();
    SeparateAppend(ts, t);
  }

  // ---------- objects ----------

  method ParseObject(c: Libc, item: Node, input: ParseBuffer) returns (ok: bool, ghost t: Tree)
    requires input.Valid() && item.child == null && IsAt(input.content, input.offset, LBRACE)
    modifies item`kind, item`valueString, item`valueInt, item`valueDouble, item`child, input
    ensures match ReadObject(c, input.content, old(input.offset), old(input.depth))
            case None => !ok
            case Some((v, e)) =>
              && ok && Parsed(item, input, t, v, e, old(input.depth))
              && (forall n :: n in Nodes(t) ==> n == item || fresh(n))
    decreases |input.content| - input.offset, 4
  {
    hide Reps, Separate, SeparateAll, Holds, Open, Nodes, AllNodes, ReadMembers, Skip;
    ok, t := false, Leaf(item);
    if input.depth >= NESTING_LIMIT {
      return;
    }
    input.depth := input.depth + 1;
    input.offset := input.offset + 1;
    input.SkipWhitespace();
    var head, last: Node? := null, null;
    ghost var ts, ms := [], [];
    NoTrees();
    if !input.Peek(RBRACE) {
      if input.offset >= |input.content| {
        input.offset := input.offset - 1;
        return;
      }
      input.offset := input.offset - 1;
      var good;
      good, head, last, ts, ms := ParseMembers(c, input);
      if !good {
        return;
      }
    }
    input.depth := input.depth - 1;
    input.offset := input.offset + 1;
    Finish(item, KObject, head, last, ts, Object(ms));
    ok, t := true, Tree(item, ts);
  }

  method ParseMembers(c: Libc, input: ParseBuffer)
    returns (ok: bool, head: Node?, last: Node?, ghost ts: seq<Tree>, ghost ms: seq<Member>)
    requires input.Valid() && input.offset + 1 < |input.content|
    modifies input
    ensures match ReadMembers(c, input.content, old(input.offset), old(input.depth))
            case None => !ok
            case Some((ns, e)) =>
              && ok && ns == ms && input.Valid() && input.offset == e && input.depth == old(input.depth)
              && Open(Roots(ts), head, last) && SeparateAll(ts) && Holds(ts, Object(ms)) && fresh(AllNodes(ts))
    decreases |input.content| - input.offset, 3
  {
    hide Open, SeparateAll, Holds, AllNodes, ReadMember;
    ok, head, last, ts, ms := false, null, null, [], [];
    ghost var s, start, depth := input.content, input.offset, input.depth;
    ghost var r := ReadMembers(c, s, start, depth);
    NoTrees();
    BehindTwice([], [], r);
    var more := true;
    while more
      invariant input.Valid() && start <= input.offset && input.depth == depth
      invariant Open(Roots(ts), head, last) && SeparateAll(ts) && Holds(ts, Object(ms)) && fresh(AllNodes(ts))
      invariant more ==> input.offset + 1 < |s| && r == ItemsBehind(ms, ReadMembers(c, s, input.offset, depth))
      invariant !more ==> r == if input.Peek(RBRACE) then Some((ms, input.offset)) else None
      decreases |s| - input.offset, more
    {
      var good;
      ghost var t, m;
      good, head, last, t, m := NextMember(c, input, head, last, ts, ms);
      if !good {
        return;
      }
      BehindTwice(ms, [m], if input.Peek(COMMA) then ReadMembers(c, s, input.offset, depth) else None);
      AllNodesAppend(ts, t);
      ts, ms := ts + [t], ms + [m];
      more := input.Peek(COMMA);
    }
    ok := input.Peek(RBRACE);
  }

  /** One turn of parse_object's loop. The key is parsed as the new item's own string and then
      moved aside, before its value is parsed into the same item. */
  method NextMember(c: Libc, input: ParseBuffer, head: Node?, last: Node?, ghost ts: seq<Tree>, ghost ms: seq<Member>)
    returns (ok: bool, first: Node?, item: Node?, ghost t: Tree, ghost m: Member)
    requires input.Valid() && input.offset + 1 < |input.content|
    requires Open(Roots(ts), head, last) && SeparateAll(ts) && Holds(ts, Object(ms))
    modifies input, RootSet(ts)`next
    ensures match ReadMember(c, input.content, old(input.offset), old(input.depth))
            case None => !ok
            case Some((n, f)) =>
              && ok && n == m && input.Valid() && input.depth == old(input.depth) && input.offset == f
              && Open(Roots(ts + [t]), first, item) && SeparateAll(ts + [t]) && Holds(ts + [t], Object(ms + [m]))
              && fresh(Nodes(t))
    decreases |input.content| - input.offset, 2
  {
    hide Open, SeparateAll, Holds, Reps, Nodes, AllNodes, Below, Roots, ReadValue, JsonString.ReadString;
    m := Member([], Null);
    assert allocated(AllNodes(ts)) && allocated(Below(ts));
    first, item := Attach(head, last, ts, Object(ms));
    assert item !in AllNodes(ts);
    t := Leaf(item);
    ok := ParseKey(item, input);
    if !ok {
      return;
    }
    ghost var v;
    ok, t, v := ParseInto(c, item, input, first, ts, Object(ms));
    if !ok {
      return;
    }
    m := Member(item.key.value, v);
    HoldsMember(ts, ms, t, m);
  }

  /** The name of the child and the colon, up to the first byte of the value. */
  method ParseKey(item: Node, input: ParseBuffer) returns (ok: bool)
    requires input.Valid() && input.offset + 1 < |input.content|
    modifies item`kind, item`valueString, item`key, input`offset
    ensures match JsonString.ReadString(input.content, Skip(input.content, old(input.offset) + 1))
            case None => !ok
            case Some((key, k)) =>
              var colon := Skip(input.content, k);
              && ok == IsAt(input.content, colon, COLON)
              && (ok ==> input.Valid() && input.offset == Skip(input.content, colon + 1)
                         && old(input.offset) < input.offset && item.key == Some(key))
  {
    hide JsonString.ReadString;
    input.offset := input.offset + 1;
    input.SkipWhitespace();
    ok := ParseString(item, input);
    if !ok {
      return;
    }
    input.SkipWhitespace();
    item.key := item.valueString;
    item.valueString := None;
    if !input.Peek(COLON) {
      return false;
    }
    input.offset := input.offset + 1;
    input.SkipWhitespace();
  }

  // ---------- the entry ----------

  /** cJSON_Parse of a C string: a new tree of the value read, or null. */
  method Parse(c: Libc, text: bytes) returns (item: Node?, ghost t: Tree)
    ensures match JsonRead.Parse(c, text)
            case None => item == null
            case Some((v, _)) =>
              && item == t.root && Reps(t, v) && Separate(t)
              && fresh(Nodes(t)) && Detached(t.root)
  {
    hide Reps, Separate, Nodes, ReadValue;
    var input := new ParseBuffer(text);
    AtSlice(input.content, 0, BOM);
    var root := new Node();
    if 4 < |input.content| && input.LookingAt(BOM) {
      input.offset := input.offset + 3;
    }
    input.SkipWhitespace();
    var ok;
    ok, t := ParseValue(c, root, input);
    item := if ok then root else null;
  }
}
