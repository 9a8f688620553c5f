/** Parsing undoes printing, formatted or not, up to the nesting limit, beyond which the parser
    rejects the text. */
module JsonRoundTrip {
  import opened Bytes
  import opened JsonValue
  import opened JsonText
  import opened JsonRead
  import JsonString

  /** The text at off ends at a byte that cannot continue a number. */
  predicate Ends(s: bytes, e: nat) {
    e < |s| && !NumberByte(s[e])
  }

  // ---------- scalars ----------

  lemma {:induction false} RunIsText(s: bytes, off: nat, t: bytes, n: nat)
    requires At(s, off, t) && |t| <= n && Ends(s, off + |t|)
    requires forall i :: 0 <= i < |t| ==> NumberByte(t[i])
    ensures NumberRun(s, off, n) == t
    decreases n
  {
    if t != [] {
      assert t == [t[0]] + t[1..];
      AtAppend(s, off, [t[0]], t[1..]);
      AtByte(s, off, t, 0);
      RunIsText(s, off + 1, t[1..], n - 1);
    }
  }

  lemma NumberReadsBack(c: Libc, d: real, s: bytes, off: nat, depth: nat)
    requires ReadsBack(c, d) && At(s, off, NumberText(c, d)) && Ends(s, off + |NumberText(c, d)|)
    ensures ReadValue(c, s, off, depth) == Some((Number(d), off + |NumberText(c, d)|))
  {
    var t := NumberText(c, d);
    RunIsText(s, off, t, 63);
    AtByte(s, off, t, 0);
    NotWord(s, off);
  }

  /** A byte other than n, f and t rules out the three words. */
  lemma NotWord(s: bytes, off: nat)
    requires off < |s| && s[off] != 110 && s[off] != 102 && s[off] != 116
    ensures !At(s, off, NULL_TEXT) && !At(s, off, FALSE_TEXT) && !At(s, off, TRUE_TEXT)
  {
  }

  lemma BoolReadsBack(c: Libc, b: bool, s: bytes, off: nat, depth: nat)
    requires off <= |s| && At(s, off, if b then TRUE_TEXT else FALSE_TEXT)
    ensures ReadValue(c, s, off, depth) == Some((Bool(b), off + if b then 4 else 5))
  {
    AtByte(s, off, if b then TRUE_TEXT else FALSE_TEXT, 0);
  }

  lemma StringReadsBack(c: Libc, str: bytes, s: bytes, off: nat, depth: nat)
    requires NUL !in str && At(s, off, Quoted(str))
    ensures ReadValue(c, s, off, depth) == Some((String(str), off + |Quoted(str)|))
  {
    AtByte(s, off, Quoted(str), 0);
    NotWord(s, off);
    JsonString.QuotedReadsBack(str, s, off);
  }

  lemma {:induction false} ScalarReadsBack(c: Libc, v: Value, format: bool, d: nat, s: bytes, off: nat, depth: nat)
    requires !v.Array? && !v.Object? && Printable(c, v) && depth <= NESTING_LIMIT
    requires At(s, off, Text(c, v, format, d)) && Ends(s, off + |Text(c, v, format, d)|)
    ensures ReadValue(c, s, off, depth) == IfShallow(depth, Depth(v), v, off + |Text(c, v, format, d)|)
  {
    hide At, ReadArray, ReadObject, ReadNumber;
    if v.Bool? {
      BoolReadsBack(c, v.b, s, off, depth);
    } else if v.Number? {
      NumberReadsBack(c, v.d, s, off, depth);
    } else if v.String? {
      StringReadsBack(c, v.s, s, off, depth);
    } else {
      assert v == Null;
    }
  }

  // ---------- white space ----------

  lemma SkipNone(s: bytes, off: nat)
    requires off < |s| && s[off] > 32
    ensures Skip(s, off) == off
  {
  }

  lemma {:induction false} SkipRunThrough(s: bytes, off: nat, n: nat)
    requires off + n < |s| && s[off + n] > 32
    requires forall i :: off <= i < off + n ==> s[i] <= 32
    ensures Skip(s, off) == off + n
    ensures SkipRun(s, off) == off + n
    decreases n
  {
    if n > 0 {
      SkipRunThrough(s, off + 1, n - 1);
    }
  }

  /** White space text t is skipped. */
  lemma SkipText(s: bytes, off: nat, t: bytes)
    requires At(s, off, t) && off + |t| < |s| && s[off + |t|] > 32
    requires forall i :: 0 <= i < |t| ==> t[i] <= 32
    ensures Skip(s, off) == off + |t|
  {
    forall i | off <= i < off + |t| ensures s[i] <= 32 {
      AtByte(s, off, t, i - off);
    }
    SkipRunThrough(s, off, |t|);
  }

  /** Every value's text starts with a visible byte that is not a closing bracket or brace. */
  lemma TextStart(c: Libc, v: Value, format: bool, depth: nat)
    requires Printable(c, v)
    ensures |Text(c, v, format, depth)| > 0
    ensures Text(c, v, format, depth)[0] > 32
    ensures Text(c, v, format, depth)[0] !in {RBRACKET, RBRACE}
  {
  }

  // ---------- arrays ----------

  /** What a value with this much nesting reads back as when depth containers are open. */
  function IfShallow<T>(depth: nat, nesting: nat, v: T, e: nat): Read<T> {
    if depth + nesting <= NESTING_LIMIT then Some((v, e)) else None
  }

  lemma {:induction false} ArrayReadsBack(c: Libc, v: Value, format: bool, d: nat, s: bytes, off: nat, depth: nat)
    requires v.Array? && Printable(c, v) && depth <= NESTING_LIMIT
    requires At(s, off, Text(c, v, format, d)) && Ends(s, off + |Text(c, v, format, d)|)
    ensures ReadValue(c, s, off, depth) == IfShallow(depth, Depth(v), v, off + |Text(c, v, format, d)|)
    decreases v, 0
  {
    hide At, ReadValue, ReadItems, Skip, Ends, ItemsText, ItemsDepth, Printable;
    var vs := v.items;
    var body := ItemsText(c, vs, format, d + 1);
    assert Text(c, v, format, d) == [LBRACKET] + body + [RBRACKET];
    hide Text;
    AtAppend(s, off, [LBRACKET] + body, [RBRACKET]);
    AtAppend(s, off, [LBRACKET], body);
    AtByte(s, off, [LBRACKET], 0);
    AtByte(s, off + 1 + |body|, [RBRACKET], 0);
    if vs == [] {
      NoItemsText(c, format, d + 1);
      SkipNone(s, off + 1);
    } else {
      AllPrintable(c, vs);
      ItemsStart(c, vs, format, d + 1, s, off + 1);
      SkipNone(s, off + 1);
      if depth < NESTING_LIMIT {
        ItemsReadBack(c, vs, format, d + 1, s, off, depth + 1);
      }
    }
    ArrayShape(c, vs, s, off, off + 1, off + 1 + |body|, depth);
  }

  lemma NoItemsText(c: Libc, format: bool, d: nat)
    ensures ItemsText(c, [], format, d) == []
  {
  }

  lemma AllPrintable(c: Libc, vs: seq<Value>)
    requires Printable(c, Array(vs))
    ensures forall i :: 0 <= i < |vs| ==> Printable(c, vs[i])
  {
  }

  lemma {:induction false} ArrayShape(c: Libc, vs: seq<Value>, s: bytes, off: nat, first: nat, e: nat, depth: nat)
    requires IsAt(s, off, LBRACKET) && depth <= NESTING_LIMIT && Skip(s, off + 1) == first < |s|
    requires if vs == [] then s[first] == RBRACKET && e == first
             else s[first] != RBRACKET && (depth < NESTING_LIMIT ==>
               ReadItems(c, s, first - 1, depth + 1) == IfShallow(depth + 1, ItemsDepth(vs), vs, e))
    ensures ReadValue(c, s, off, depth) == IfShallow(depth, Depth(Array(vs)), Array(vs), e + 1)
  {
    hide ReadItems, Skip;
    NotWord(s, off);
  }

  lemma {:induction false} ItemsReadBack(c: Libc, vs: seq<Value>, format: bool, d: nat, s: bytes, p: nat, depth: nat)
    requires vs != [] && depth <= NESTING_LIMIT && p < |s|
    requires forall i :: 0 <= i < |vs| ==> Printable(c, vs[i])
    requires At(s, Skip(s, p + 1), ItemsText(c, vs, format, d))
    requires IsAt(s, Skip(s, p + 1) + |ItemsText(c, vs, format, d)|, RBRACKET)
    ensures ReadItems(c, s, p, depth)
         == IfShallow(depth, ItemsDepth(vs), vs, Skip(s, p + 1) + |ItemsText(c, vs, format, d)|)
    decreases vs, 1
  {
    hide At, ReadValue, Text, Skip, Printable, ReadItems, ItemsDepth;
    var q := Skip(s, p + 1);
    var t := Text(c, vs[0], format, d);
    if |vs| == 1 {
      assert ItemsText(c, vs, format, d) == t + [] + [] == t;
      ValueReadsBack(c, vs[0], format, d, s, q, depth);
      SkipNone(s, q + |t|);
      OneItem(c, vs[0], s, p, q + |t|, q + |t|, depth);
      assert vs == [vs[0]];
    } else {
      var sep, rest := ItemSeparator(format), ItemsText(c, vs[1..], format, d);
      AtConcat3(s, q, t, sep, rest);
      ItemsGap(c, vs[1..], format, d, s, q + |t|);
      ValueReadsBack(c, vs[0], format, d, s, q, depth);
      ItemsReadBack(c, vs[1..], format, d, s, q + |t|, depth);
      MoreItems(c, vs, s, p, q + |t|, q + |t|, q + |ItemsText(c, vs, format, d)|, depth);
    }
  }

  /** The last value of an array ends at e, and the bracket behind it is at f. */
  lemma {:induction false} OneItem(c: Libc, v: Value, s: bytes, p: nat, e: nat, f: nat, depth: nat)
    requires p < |s| && e <= |s| && Skip(s, e) == f && IsAt(s, f, RBRACKET)
    requires ReadValue(c, s, Skip(s, p + 1), depth) == IfShallow(depth, Depth(v), v, e)
    ensures ReadItems(c, s, p, depth) == IfShallow(depth, ItemsDepth([v]), [v], f)
  {
    hide ReadValue, Skip, Depth;
    var vs := [v];
    assert vs[1..] == [] && ItemsDepth(vs[1..]) == 0 && ItemsDepth(vs) == Depth(v);
  }

  /** The first of several values ends at e, the comma behind it is at f, and the last bracket at end. */
  lemma {:induction false} MoreItems(c: Libc, vs: seq<Value>, s: bytes, p: nat, e: nat, f: nat, end: nat, depth: nat)
    requires |vs| > 1 && p < f < |s| && e <= |s| && Skip(s, e) == f && IsAt(s, f, COMMA)
    requires ReadValue(c, s, Skip(s, p + 1), depth) == IfShallow(depth, Depth(vs[0]), vs[0], e)
    requires ReadItems(c, s, f, depth) == IfShallow(depth, ItemsDepth(vs[1..]), vs[1..], end)
    ensures ReadItems(c, s, p, depth) == IfShallow(depth, ItemsDepth(vs), vs, end)
  {
    hide ReadValue, Skip, Depth;
    assert [vs[0]] + vs[1..] == vs;
  }

  /** Behind a comma the next element's text is found. */
  lemma ItemsGap(c: Libc, vs: seq<Value>, format: bool, d: nat, s: bytes, e: nat)
    requires vs != [] && Printable(c, vs[0])
    requires At(s, e, ItemSeparator(format)) && At(s, e + |ItemSeparator(format)|, ItemsText(c, vs, format, d))
    ensures Ends(s, e) && IsAt(s, e, COMMA) && Skip(s, e) == e
    ensures Skip(s, e + 1) == e + |ItemSeparator(format)|
  {
    hide At, Printable, ItemsText;
    var sep := ItemSeparator(format);
    ItemsStart(c, vs, format, d, s, e + |sep|);
    AtByte(s, e, sep, 0);
    SkipNone(s, e);
    AtEmpty(s, e + |sep|);
    SkipGap(s, e, sep, []);
  }

  lemma ItemsStart(c: Libc, vs: seq<Value>, format: bool, d: nat, s: bytes, q: nat)
    requires vs != [] && Printable(c, vs[0])
    requires At(s, q, ItemsText(c, vs, format, d))
    ensures q < |s| && s[q] > 32 && s[q] != RBRACKET
  {
    hide At, Printable, Text;
    TextStart(c, vs[0], format, d);
    AtByte(s, q, ItemsText(c, vs, format, d), 0);
  }

  // ---------- objects ----------

  lemma {:induction false} ObjectReadsBack(c: Libc, v: Value, format: bool, d: nat, s: bytes, off: nat, depth: nat)
    requires v.Object? && Printable(c, v) && depth <= NESTING_LIMIT
    requires At(s, off, Text(c, v, format, d)) && Ends(s, off + |Text(c, v, format, d)|)
    ensures ReadValue(c, s, off, depth) == IfShallow(depth, Depth(v), v, off + |Text(c, v, format, d)|)
    decreases v, 0
  {
    hide At, ReadValue, ReadMembers, MembersText, MembersDepth, Skip, ObjectClose;
    var ms := v.members;
    var open, body, close := ObjectOpen(format), MembersText(c, ms, format, d + 1), ObjectClose(format, d);
    var mid := off + |open|;
    AtConcat3(s, off, open, body, close);
    AtByte(s, off, open, 0);
    NoMembersText(c, format, d + 1);
    CloseParts(format, d, s, mid + |body|);
    ObjectStart(c, ms, format, d, s, off);
    var first := Skip(s, off + 1);
    if ms != [] && depth < NESTING_LIMIT {
      SkipNone(s, first);
      MembersReadBack(c, ms, format, d + 1, s, first - 1, mid, depth + 1);
    }
    ObjectShape(c, ms, s, off, first, mid + |body| + |close| - 1, depth);
  }

  lemma ObjectShape(c: Libc, ms: seq<Member>, s: bytes, off: nat, first: nat, e: nat, depth: nat)
    requires IsAt(s, off, LBRACE) && depth <= NESTING_LIMIT
    requires Skip(s, off + 1) == first && IsAt(s, first, if ms == [] then RBRACE else QUOTE)
    requires if ms == [] then e == first
             else depth < NESTING_LIMIT ==>
               ReadMembers(c, s, first - 1, depth + 1) == IfShallow(depth + 1, MembersDepth(ms), ms, e)
    ensures ReadValue(c, s, off, depth) == IfShallow(depth, Depth(Object(ms)), Object(ms), e + 1)
  {
    hide ReadMembers, Skip;
    NotWord(s, off);
  }

  lemma NoMembersText(c: Libc, format: bool, d: nat)
    ensures MembersText(c, [], format, d) == []
  {
  }

  /** The first visible byte behind the brace: the first key's quote, or the closing brace. */
  lemma ObjectStart(c: Libc, ms: seq<Member>, format: bool, d: nat, s: bytes, off: nat)
    requires At(s, off, ObjectOpen(format))
    requires At(s, off + |ObjectOpen(format)|, MembersText(c, ms, format, d + 1))
    requires At(s, off + |ObjectOpen(format)| + |MembersText(c, ms, format, d + 1)|, ObjectClose(format, d))
    ensures off + 1 < |s|
    ensures Skip(s, off + 1) == off + |ObjectOpen(format)| + if !format then 0 else if ms == [] then d else d + 1
    ensures IsAt(s, Skip(s, off + 1), if ms == [] then RBRACE else QUOTE)
  {
    hide At, Quoted, Text;
    var open := ObjectOpen(format);
    var mid := off + |open|;
    if ms == [] {
      var tabs := if format then Tabs(d) else [];
      CloseParts(format, d, s, mid);
      SkipGap(s, off, open, tabs);
    } else {
      var tabs := if format then Tabs(d + 1) else [];
      var k, _, _, _, _ := KeyParts(c, ms, format, d + 1, s, mid);
      QuoteAt(s, k, ms[0].key);
      SkipGap(s, off, open, tabs);
    }
  }

  lemma CloseParts(format: bool, d: nat, s: bytes, t: nat)
    requires At(s, t, ObjectClose(format, d))
    ensures At(s, t, if format then Tabs(d) else [])
    ensures IsAt(s, t + (if format then d else 0), RBRACE)
    ensures |ObjectClose(format, d)| == 1 + if format then d else 0
  {
    hide At;
    var tabs := if format then Tabs(d) else [];
    AtAppend(s, t, tabs, [RBRACE]);
    AtByte(s, t + |tabs|, [RBRACE], 0);
  }

  /** The pieces of the first member's text: its key starts at k, the colon stands at x, the value
      starts at y and ends at z, and the next member's text starts at r. */
  lemma KeyParts(c: Libc, ms: seq<Member>, format: bool, d: nat, s: bytes, t: nat)
    returns (k: nat, x: nat, y: nat, z: nat, r: nat)
    requires ms != [] && At(s, t, MembersText(c, ms, format, d))
    ensures k == t + (if format then d else 0)
    ensures At(s, t, if format then Tabs(d) else []) && At(s, k, Quoted(ms[0].key))
    ensures x == k + |Quoted(ms[0].key)| && At(s, x, if format then [COLON, TAB] else [COLON])
    ensures y == x + (if format then 2 else 1) && At(s, y, Text(c, ms[0].value, format, d))
    ensures z == y + |Text(c, ms[0].value, format, d)| && At(s, z, MemberEnd(|ms| == 1, format))
    ensures r == z + |MemberEnd(|ms| == 1, format)| && At(s, r, MembersText(c, ms[1..], format, d))
    ensures t + |MembersText(c, ms, format, d)| == r + |MembersText(c, ms[1..], format, d)|
  {
    hide At, Quoted;
    var tabs := if format then Tabs(d) else [];
    var colon := if format then [COLON, TAB] else [COLON];
    var key, quoted := KeyText(ms[0].key, format, d), Quoted(ms[0].key);
    var text, end, rest := Text(c, ms[0].value, format, d), MemberEnd(|ms| == 1, format),
      MembersText(c, ms[1..], format, d);
    k := t + |tabs|;
    x := k + |quoted|;
    y := x + |colon|;
    z := y + |text|;
    r := z + |end|;
    AtAppend(s, t, key + text + end, rest);
    AtConcat3(s, t, key, text, end);
    AtConcat3(s, t, tabs, quoted, colon);
  }

  lemma QuoteAt(s: bytes, k: nat, str: bytes)
    requires At(s, k, Quoted(str))
    ensures IsAt(s, k, QUOTE)
  {
  }

  /** The gap between a colon or comma at x and the visible byte behind it is skipped. */
  lemma SkipGap(s: bytes, x: nat, gap: bytes, more: bytes)
    requires gap != [] && At(s, x, gap) && At(s, x + |gap|, more)
    requires forall i :: 1 <= i < |gap| ==> gap[i] <= 32
    requires forall i :: 0 <= i < |more| ==> more[i] <= 32
    requires x + |gap| + |more| < |s| && s[x + |gap| + |more|] > 32
    ensures Skip(s, x + 1) == x + |gap| + |more|
  {
    hide At;
    assert gap == [gap[0]] + gap[1..];
    AtAppend(s, x, [gap[0]], gap[1..]);
    AtAppend(s, x + 1, gap[1..], more);
    SkipText(s, x + 1, gap[1..] + more);
  }

  /** The key, colon and value of the first member; t is where its text starts, p the byte in
      front of which the loop stands, and z where its value ends. */
  lemma {:induction false} MemberReadsBack(c: Libc, ms: seq<Member>, format: bool, d: nat, s: bytes, p: nat, t: nat,
                                           z: nat, depth: nat)
    requires ms != [] && depth <= NESTING_LIMIT && p < |s|
    requires NUL !in ms[0].key && Printable(c, ms[0].value)
    requires At(s, t, MembersText(c, ms, format, d))
    requires Skip(s, p + 1) == t + if format then d else 0
    requires z == t + |KeyText(ms[0].key, format, d)| + |Text(c, ms[0].value, format, d)| && Ends(s, z)
    ensures ReadMember(c, s, p, depth) == IfShallow(depth, Depth(ms[0].value), ms[0], Skip(s, z))
    decreases ms, 0
  {
    hide At, Quoted, Text, MembersText, JsonString.ReadString, ReadValue, Skip, Printable;
    var k, x, y, z', _ := KeyParts(c, ms, format, d, s, t);
    assert z == z';
    ColonGap(c, ms[0].value, format, d, s, x);
    JsonString.QuotedReadsBack(ms[0].key, s, k);
    ValueReadsBack(c, ms[0].value, format, d, s, y, depth);
  }

  lemma ColonGap(c: Libc, v: Value, format: bool, d: nat, s: bytes, x: nat)
    requires Printable(c, v)
    requires At(s, x, if format then [COLON, TAB] else [COLON])
    requires At(s, x + (if format then 2 else 1), Text(c, v, format, d))
    ensures IsAt(s, x, COLON) && Skip(s, x) == x
    ensures Skip(s, x + 1) == x + if format then 2 else 1
  {
    hide At, Text, Printable;
    var colon := if format then [COLON, TAB] else [COLON];
    TextStart(c, v, format, d);
    AtByte(s, x + |colon|, Text(c, v, format, d), 0);
    AtByte(s, x, colon, 0);
    SkipNone(s, x);
    AtEmpty(s, x + |colon|);
    SkipGap(s, x, colon, []);
  }

  lemma {:induction false} MembersReadBack(c: Libc, ms: seq<Member>, format: bool, d: nat, s: bytes, p: nat, t: nat,
                                           depth: nat)
    requires ms != [] && depth <= NESTING_LIMIT && p < |s| && d > 0
    requires forall i :: 0 <= i < |ms| ==> NUL !in ms[i].key && Printable(c, ms[i].value)
    requires At(s, t, MembersText(c, ms, format, d))
    requires At(s, t + |MembersText(c, ms, format, d)|, ObjectClose(format, d - 1))
    requires Skip(s, p + 1) == t + if format then d else 0
    ensures ReadMembers(c, s, p, depth)
         == IfShallow(depth, MembersDepth(ms), ms,
                      t + |MembersText(c, ms, format, d)| + |ObjectClose(format, d - 1)| - 1)
    decreases ms, 1
  {
    hide At, Quoted, Text, ReadMember, ReadMembers, Skip, Printable, ObjectClose, MemberEnd, KeyText, Tabs;
    var k, x, y, z, r := KeyParts(c, ms, format, d, s, t);
    KeyLength(ms[0].key, format, d);
    if |ms| == 1 {
      LastMember(format, d, s, z);
      hide MembersText;
      MemberReadsBack(c, ms, format, d, s, p, t, z, depth);
      NoMembersText(c, format, d);
      OneMember(c, ms, s, p, z, depth);
    } else {
      hide MembersText;
      MemberGap(c, ms[1..], format, d, s, z);
      MemberReadsBack(c, ms, format, d, s, p, t, z, depth);
      MembersReadBack(c, ms[1..], format, d, s, z, r, depth);
      MoreMembers(c, ms, s, p, z, t + |MembersText(c, ms, format, d)| + |ObjectClose(format, d - 1)| - 1, depth);
    }
  }

  lemma KeyLength(key: bytes, format: bool, d: nat)
    ensures |KeyText(key, format, d)| == (if format then d else 0) + |Quoted(key)| + if format then 2 else 1
  {
    hide Quoted;
  }

  lemma OneMember(c: Libc, ms: seq<Member>, s: bytes, p: nat, z: nat, depth: nat)
    requires |ms| == 1 && p < |s| && z < |s| && IsAt(s, Skip(s, z), RBRACE)
    requires ReadMember(c, s, p, depth) == IfShallow(depth, Depth(ms[0].value), ms[0], Skip(s, z))
    ensures ReadMembers(c, s, p, depth) == IfShallow(depth, MembersDepth(ms), ms, Skip(s, z))
  {
    hide ReadMember, Skip;
    assert ms == [ms[0]] && ms[1..] == [];
  }

  lemma MoreMembers(c: Libc, ms: seq<Member>, s: bytes, p: nat, z: nat, e: nat, depth: nat)
    requires |ms| > 1 && p < z < |s| && IsAt(s, z, COMMA)
    requires ReadMember(c, s, p, depth) == IfShallow(depth, Depth(ms[0].value), ms[0], z)
    requires ReadMembers(c, s, z, depth) == IfShallow(depth, MembersDepth(ms[1..]), ms[1..], e)
    ensures ReadMembers(c, s, p, depth) == IfShallow(depth, MembersDepth(ms), ms, e)
  {
    hide ReadMember;
    assert [ms[0]] + ms[1..] == ms;
  }

  /** Behind a member that is not the last come a comma and the next key. */
  lemma MemberGap(c: Libc, ms: seq<Member>, format: bool, d: nat, s: bytes, z: nat)
    requires ms != [] && At(s, z, MemberEnd(false, format))
    requires At(s, z + |MemberEnd(false, format)|, MembersText(c, ms, format, d))
    ensures Ends(s, z) && IsAt(s, z, COMMA) && Skip(s, z) == z
    ensures Skip(s, z + 1) == z + |MemberEnd(false, format)| + if format then d else 0
  {
    hide At, Quoted, Text, MembersText;
    var end, tabs := MemberEnd(false, format), if format then Tabs(d) else [];
    AtByte(s, z, end, 0);
    SkipNone(s, z);
    var k, _, _, _, _ := KeyParts(c, ms, format, d, s, z + |end|);
    QuoteAt(s, k, ms[0].key);
    SkipGap(s, z, end, tabs);
  }

  lemma LastMember(format: bool, d: nat, s: bytes, z: nat)
    requires d > 0 && At(s, z, MemberEnd(true, format))
    requires At(s, z + |MemberEnd(true, format)|, ObjectClose(format, d - 1))
    ensures Ends(s, z)
    ensures Skip(s, z) == z + |MemberEnd(true, format)| + |ObjectClose(format, d - 1)| - 1
    ensures IsAt(s, Skip(s, z), RBRACE)
  {
    hide At, ObjectClose;
    var end, tabs := MemberEnd(true, format), if format then Tabs(d - 1) else [];
    CloseParts(format, d - 1, s, z + |end|);
    AtAppend(s, z, end, tabs);
    if format {
      AtByte(s, z, end, 0);
    }
    SkipText(s, z, end + tabs);
  }

  // ---------- the theorem ----------

  /** Wherever a printable value's text stands, the parser reads exactly that value and stops
      exactly behind it, unless the nesting would pass the limit: then it reads nothing. */
  lemma {:induction false} ValueReadsBack(c: Libc, v: Value, format: bool, d: nat, s: bytes, off: nat, depth: nat)
    requires Printable(c, v) && depth <= NESTING_LIMIT
    requires At(s, off, Text(c, v, format, d)) && Ends(s, off + |Text(c, v, format, d)|)
    ensures ReadValue(c, s, off, depth) == IfShallow(depth, Depth(v), v, off + |Text(c, v, format, d)|)
    decreases v, 2
  {
    if v.Array? {
      ArrayReadsBack(c, v, format, d, s, off, depth);
    } else if v.Object? {
      ObjectReadsBack(c, v, format, d, s, off, depth);
    } else {
      ScalarReadsBack(c, v, format, d, s, off, depth);
    }
  }

  /** cJSON_Parse of what cJSON_Print or cJSON_PrintUnformatted wrote. */
  lemma ParseUndoesPrint(c: Libc, v: Value, format: bool)
    requires Printable(c, v)
    ensures Parse(c, Text(c, v, format, 0)) == IfShallow(0, Depth(v), v, |Text(c, v, format, 0)|)
  {
    var t := Text(c, v, format, 0);
    var s := t + [NUL];
    AtSlice(s, 0, t);
    TextStart(c, v, format, 0);
    assert s[0] != 0xEF;
    if At(s, 0, BOM) {
      AtByte(s, 0, BOM, 0);
    }
    SkipNone(s, 0);
    ValueReadsBack(c, v, format, 0, s, 0, 0);
  }
}
