/** What the printer writes is a text of the JSON grammar, formatted or not, and means the value printed. */
module JsonOutput {
  import opened Bytes
  import opened JsonValue
  import opened JsonGrammar
  import T = JsonText
  import U = Utf

  // ---------- strings ----------

  function CharOf(b: byte): Char {
    if b == QUOTE || b == BACKSLASH then Short(b)
    else if b == BACKSPACE then Short(98)
    else if b == FORM_FEED then Short(102)
    else if b == NEWLINE then Short(110)
    else if b == RETURN then Short(114)
    else if b == TAB then Short(116)
    else if b < 32 then Hex(b, [ZERO, ZERO, HEX_LOWER[b / 16], HEX_LOWER[b % 16]])
    else Plain(b)
  }

  function CharsOf(s: bytes): seq<Char> {
    if s == [] then [] else [CharOf(s[0])] + CharsOf(s[1..])
  }

  lemma ByteEscaped(b: byte)
    requires b != NUL
    ensures CharOf(b).Valid() && CharOf(b).Text() == T.EscapeByte(b) && CharOf(b).Means() == [b]
  {
    if CharOf(b).Hex? {
      ControlEscaped(b);
    } else {
      hide Char.Valid, U.Utf8;
      assert CharOf(b).Valid() by {
        ShortValid(b);
      }
    }
  }

  lemma ShortValid(b: byte)
    requires b != NUL
    ensures !CharOf(b).Hex? ==> CharOf(b).Valid()
  {
    hide SpellsHex;
  }

  lemma ControlEscaped(b: byte)
    requires 0 < b && CharOf(b).Hex?
    ensures CharOf(b).Valid() && CharOf(b).Text() == T.EscapeByte(b) && CharOf(b).Means() == [b]
  {
    assert b < 32;
    LowerDigit(b / 16);
    LowerDigit(b % 16);
    hide T.HexDigit;
  }

  lemma LowerDigit(n: nat)
    requires n < 16
    ensures T.HexDigit(n) == HEX_LOWER[n]
  {
  }

  /** Every byte is escaped by one character of the grammar, control bytes in lower-case digits. */
  lemma {:induction false} StringEscaped(s: bytes)
    requires NUL !in s
    ensures var chars := CharsOf(s); ValidChars(chars) && CharsText(chars) == T.Escape(s) && CharsMean(chars) == s
    ensures StringText(CharsOf(s)) == T.Quoted(s)
  {
    hide CharOf, T.EscapeByte, Char.Valid, Char.Text, Char.Means;
    if s != [] {
      ByteEscaped(s[0]);
      StringEscaped(s[1..]);
      assert CharsOf(s)[1..] == CharsOf(s[1..]);
    }
  }

  // ---------- values ----------

  /** Strings are C strings, and what is printed of a number is a number of the grammar that strtod reads
      as that number. */
  ghost predicate Spellable(c: Libc, v: Value)
    decreases v
  {
    match v
    case Null => true
    case Bool(_) => true
    case Number(d) => exists n: NumberText :: SpellsNumber(c, n, d)
    case String(s) => NUL !in s
    case Array(vs) => forall i :: 0 <= i < |vs| ==> Spellable(c, vs[i])
    case Object(ms) => forall i :: 0 <= i < |ms| ==> NUL !in ms[i].key && Spellable(c, ms[i].value)
  }

  predicate SpellsNumber(c: Libc, n: NumberText, d: real) {
    n.Valid() && |n.Text()| <= 63 && n.Text() == T.NumberText(c, d) && Strtod(c, n.Text()).1 == d
  }

  /** Where strtod keeps the C standard's promise, strings and integers are, whatever it does with other
      numbers. */
  lemma {:induction false} IntegralSpellable(c: Libc, v: Value)
    requires T.ReadsIntegers(c) && T.Integral(v)
    ensures Spellable(c, v)
    decreases v
  {
    hide T.ReadsIntegers;
    if v.Number? {
      var n := IntegerSpelled(c, v.d.Floor);
    } else if v.Array? {
      forall i | 0 <= i < |v.items| ensures Spellable(c, v.items[i]) {
        IntegralSpellable(c, v.items[i]);
      }
    } else if v.Object? {
      forall i | 0 <= i < |v.members| ensures Spellable(c, v.members[i].value) {
        IntegralSpellable(c, v.members[i].value);
      }
    }
  }

  lemma IntegerSpelled(c: Libc, k: int) returns (n: NumberText)
    requires T.ReadsIntegers(c) && -0x20_0000_0000_0000 <= k <= 0x20_0000_0000_0000
    ensures SpellsNumber(c, n, k as real)
  {
    T.IntegersReadBack(c, k);
    n := SpelledAs(T.NumberText(c, k as real));
    hide T.NumberText, T.DecimalValue, T.ReadsIntegers, NumberText.Valid;
    assert n.Text() == T.NumberText(c, k as real);
  }

  lemma SpelledAs(t: bytes) returns (n: NumberText)
    requires T.IsInteger(t) && T.NoLeadingZero(t)
    ensures n.Valid() && n.Text() == t
  {
    n := if t[0] == MINUS then NumberText(true, t[1..], [], []) else NumberText(false, t, [], []);
    assert n.Text() == t;
  }

  function Lead(format: bool): bytes {
    if format then [NEWLINE] else []
  }

  function Indent(format: bool, depth: nat): bytes {
    if format then T.Tabs(depth) else []
  }

  lemma IndentBlank(format: bool, depth: nat)
    ensures Blank(Indent(format, depth)) && Blank(Lead(format) + Indent(format, depth))
  {
  }

  /** The printed text is spelled by the grammar, with the layout as white space between the tokens. */
  lemma {:induction false} TextIsGrammatical(c: Libc, v: Value, format: bool, depth: nat) returns (x: Syntax)
    requires Spellable(c, v)
    ensures Valid(x) && Spelled(x) == T.Text(c, v, format, depth) && Means(c, x) == v
    decreases v, 1
  {
    hide T.Escape, T.NumberText, NumberText.Text, NumberText.Valid, T.ItemsText, T.MembersText;
    if v.Null? {
      x := NullWord;
    } else if v.Bool? {
      x := BoolWord(v.b);
    } else if v.Number? {
      var n: NumberText :| SpellsNumber(c, n, v.d);
      x := NumberWord(n);
    } else if v.String? {
      StringEscaped(v.s);
      x := StringWord(CharsOf(v.s));
    } else if v.Array? {
      x := ArrayIsGrammatical(c, v, format, depth);
    } else {
      x := ObjectIsGrammatical(c, v, format, depth);
    }
  }

  lemma {:induction false} ArrayIsGrammatical(c: Libc, v: Value, format: bool, depth: nat) returns (x: Syntax)
    requires v.Array? && Spellable(c, v)
    ensures Valid(x) && Spelled(x) == T.Text(c, v, format, depth) && Means(c, x) == v
    decreases v, 0
  {
    var items := ItemsAreGrammatical(c, v.items, format, depth + 1, []);
    hide Spellable;
    x := ArrayOf([], items);
    assert [] + T.ItemsText(c, v.items, format, depth + 1) == T.ItemsText(c, v.items, format, depth + 1);
    if v.items == [] {
      assert T.ItemsText(c, v.items, format, depth + 1) == [];
    }
  }

  lemma {:induction false} ItemsAreGrammatical(c: Libc, vs: seq<Value>, format: bool, depth: nat, lead: bytes)
    returns (items: seq<Item>)
    requires (forall i :: 0 <= i < |vs| ==> Spellable(c, vs[i])) && Blank(lead)
    ensures (forall i :: 0 <= i < |items| ==> ValidItem(items[i])) && |items| == |vs|
    ensures vs != [] ==> ItemsSpelled(items) == lead + T.ItemsText(c, vs, format, depth)
    ensures ItemsMean(c, items) == vs
    decreases vs, 0
  {
    items := [];
    if vs != [] {
      var x := TextIsGrammatical(c, vs[0], format, depth);
      var gap := if format then [SPACE] else [];
      var rest := ItemsAreGrammatical(c, vs[1..], format, depth, gap);
      hide T.Text, Spellable, Means, Spelled, Valid;
      items := [Item(lead, x, [])] + rest;
      assert items[1..] == rest && ValidItem(items[0]);
      if |vs| == 1 {
        assert T.ItemsText(c, vs[1..], format, depth) == [];
        assert ItemsSpelled(items) == ItemSpelled(items[0]) + [];
        assert T.ItemsText(c, vs, format, depth) == T.Text(c, vs[0], format, depth) + [] + [];
      } else {
        assert [COMMA] + gap == T.ItemSeparator(format);
        Joined(lead, Spelled(x), gap, T.ItemsText(c, vs[1..], format, depth));
      }
    }
  }

  lemma Joined(lead: bytes, t: bytes, gap: bytes, rest: bytes)
    ensures lead + t + [] + ([COMMA] + (gap + rest)) == lead + (t + ([COMMA] + gap) + rest)
  {
  }

  lemma {:induction false} ObjectIsGrammatical(c: Libc, v: Value, format: bool, depth: nat) returns (x: Syntax)
    requires v.Object? && Spellable(c, v)
    ensures Valid(x) && Spelled(x) == T.Text(c, v, format, depth) && Means(c, x) == v
    decreases v, 0
  {
    var ms, trail := v.members, Indent(format, depth);
    var pairs := EntriesAreGrammatical(c, ms, format, depth + 1, trail);
    IndentBlank(format, depth);
    x := ObjectOf(Lead(format) + trail, pairs);
    hide T.Text, Spellable, T.MembersText, EntriesSpelled, Spelled;
    ObjectLaidOut(c, ms, format, depth, pairs);
  }

  lemma {:induction false} ObjectLaidOut(c: Libc, ms: seq<Member>, format: bool, depth: nat, pairs: seq<Entry>)
    requires |pairs| == |ms|
    requires ms != [] ==>
      EntriesSpelled(pairs) == Lead(format) + T.MembersText(c, ms, format, depth + 1) + Indent(format, depth)
    ensures Spelled(ObjectOf(Lead(format) + Indent(format, depth), pairs)) == T.Text(c, Object(ms), format, depth)
  {
    hide EntriesSpelled, T.MembersText, T.Tabs;
    var m, lead, trail := T.MembersText(c, ms, format, depth + 1), Lead(format), Indent(format, depth);
    var x := ObjectOf(lead + trail, pairs);
    assert T.Text(c, Object(ms), format, depth) == T.ObjectOpen(format) + m + T.ObjectClose(format, depth);
    assert Spelled(x) == [LBRACE] + (if ms == [] then lead + trail else EntriesSpelled(pairs)) + [RBRACE];
    hide T.Text, Spelled;
    assert T.ObjectOpen(format) == [LBRACE] + lead && T.ObjectClose(format, depth) == trail + [RBRACE];
    NoMembers(c, ms, format, depth + 1);
    Enclosed(lead, m, trail);
  }

  lemma NoMembers(c: Libc, ms: seq<Member>, format: bool, depth: nat)
    ensures ms == [] ==> T.MembersText(c, ms, format, depth) == []
  {
  }

  lemma Enclosed(lead: bytes, m: bytes, trail: bytes)
    ensures [LBRACE] + lead + m + (trail + [RBRACE]) == [LBRACE] + (lead + m + trail) + [RBRACE]
    ensures lead + [] + trail == lead + trail
  {
  }

  lemma {:induction false} EntriesAreGrammatical(c: Libc, ms: seq<Member>, format: bool, depth: nat, trail: bytes)
    returns (pairs: seq<Entry>)
    requires Blank(trail)
    requires forall i :: 0 <= i < |ms| ==> NUL !in ms[i].key && Spellable(c, ms[i].value)
    ensures (forall i :: 0 <= i < |pairs| ==> ValidEntry(pairs[i])) && |pairs| == |ms|
    ensures ms != [] ==> EntriesSpelled(pairs) == Lead(format) + T.MembersText(c, ms, format, depth) + trail
    ensures EntriesMean(c, pairs) == ms
    decreases ms, 0
  {
    pairs := [];
    if ms != [] {
      var x := TextIsGrammatical(c, ms[0].value, format, depth);
      var rest := EntriesAreGrammatical(c, ms[1..], format, depth, trail);
      StringEscaped(ms[0].key);
      IndentBlank(format, depth);
      hide T.Text, Spellable, Means, Spelled, Valid, T.Quoted, StringText, CharsOf, ValidChars, T.Tabs, CharsMean,
           T.MembersText, EntriesSpelled, EntriesMean, Blank;
      var after := if |ms| == 1 then Lead(format) + trail else [];
      var first := Entry(Lead(format) + Indent(format, depth), CharsOf(ms[0].key), [],
                         Item(if format then [TAB] else [], x, after));
      BlankAround(format, depth, trail);
      assert ValidItem(first.item);
      pairs := [first] + rest;
      EntryLaidOut(c, ms, format, depth, trail, first, rest);
      EntryMeans(c, ms, first, rest);
    }
  }

  lemma BlankAround(format: bool, depth: nat, trail: bytes)
    requires Blank(trail)
    ensures Blank([]) && Blank([TAB]) && Blank(Lead(format) + trail) && Blank(Lead(format) + Indent(format, depth))
  {
    IndentBlank(format, depth);
  }

  lemma {:induction false} EntryMeans(c: Libc, ms: seq<Member>, first: Entry, rest: seq<Entry>)
    requires ms != [] && EntriesMean(c, rest) == ms[1..]
    requires CharsMean(first.key) == ms[0].key && Means(c, first.item.value) == ms[0].value
    ensures EntriesMean(c, [first] + rest) == ms
  {
    hide Means, CharsMean;
    assert ([first] + rest)[1..] == rest;
    assert EntriesMean(c, [first] + rest) == [ms[0]] + ms[1..] == ms;
  }

  /** A member with the white space around it. */
  lemma {:induction false} EntryLaidOut(c: Libc, ms: seq<Member>, format: bool, depth: nat, trail: bytes,
                                        first: Entry, rest: seq<Entry>)
    requires ms != [] && |rest| == |ms| - 1
    requires first.before == Lead(format) + Indent(format, depth) && first.gap == []
    requires StringText(first.key) == T.Quoted(ms[0].key) && first.item.before == (if format then [TAB] else [])
    requires Spelled(first.item.value) == T.Text(c, ms[0].value, format, depth)
    requires first.item.after == if |ms| == 1 then Lead(format) + trail else []
    requires |ms| > 1 ==> EntriesSpelled(rest) == Lead(format) + T.MembersText(c, ms[1..], format, depth) + trail
    ensures EntriesSpelled([first] + rest) == Lead(format) + T.MembersText(c, ms, format, depth) + trail
  {
    hide T.Text, Spelled, T.Quoted, StringText, T.Tabs;
    var pairs := [first] + rest;
    var lead, indent, q := Lead(format), Indent(format, depth), T.Quoted(ms[0].key);
    var tab, t := if format then [TAB] else [], T.Text(c, ms[0].value, format, depth);
    var more := T.MembersText(c, ms[1..], format, depth);
    assert pairs[1..] == rest;
    assert [COLON] + tab == if format then [COLON, TAB] else [COLON];
    assert T.KeyText(ms[0].key, format, depth) == indent + q + ([COLON] + tab);
    assert EntrySpelled(first) == lead + indent + q + [] + [COLON] + (tab + t + first.item.after);
    if |ms| == 1 {
      assert more == [] && T.MemberEnd(true, format) == [] + lead;
      LastMember(lead, indent, q, tab, t, trail);
    } else {
      assert T.MemberEnd(false, format) == [COMMA] + lead;
      NextMember(lead, indent, q, tab, t, trail, more);
    }
  }

  lemma LastMember(lead: bytes, indent: bytes, q: bytes, tab: bytes, t: bytes, trail: bytes)
    ensures lead + indent + q + [] + [COLON] + (tab + t + (lead + trail)) + []
         == lead + (indent + q + ([COLON] + tab) + t + ([] + lead) + []) + trail
  {
  }

  lemma NextMember(lead: bytes, indent: bytes, q: bytes, tab: bytes, t: bytes, trail: bytes, more: bytes)
    ensures lead + indent + q + [] + [COLON] + (tab + t + []) + ([COMMA] + (lead + more + trail))
         == lead + (indent + q + ([COLON] + tab) + t + ([COMMA] + lead) + more) + trail
  {
  }
}
