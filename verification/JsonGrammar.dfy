/** The JSON grammar of RFC 8259 as a syntax of its own: how its texts are spelled, what they mean, and
    that the parser reads every one of them as what it means. */
module JsonGrammar {
  import opened Bytes
  import opened JsonValue
  import opened JsonRead
  import opened JsonRoundTrip
  import JsonString
  import T = JsonText
  import U = Utf

  // ---------- numbers (section 6) ----------

  predicate AllDigits(t: bytes) {
    t != [] && forall i :: 0 <= i < |t| ==> ZERO <= t[i] <= NINE
  }

  /** Digits without a leading zero. */
  predicate IsInt(t: bytes) {
    AllDigits(t) && (t[0] == ZERO ==> |t| == 1)
  }

  predicate IsFrac(t: bytes) {
    t != [] && t[0] == DOT && AllDigits(t[1..])
  }

  predicate IsExp(t: bytes) {
    && |t| > 1 && (t[0] == 101 || t[0] == 69)
    && (AllDigits(t[1..]) || ((t[1] == PLUS || t[1] == MINUS) && AllDigits(t[2..])))
  }

  /** number = [ minus ] int [ frac ] [ exp ] */
  datatype NumberText = NumberText(minus: bool, whole: bytes, frac: bytes, exp: bytes) {
    predicate Valid() {
      IsInt(whole) && (frac == [] || IsFrac(frac)) && (exp == [] || IsExp(exp))
    }

    function Text(): bytes {
      (if minus then [MINUS] else []) + whole + frac + exp
    }
  }

  lemma NumberBytesOnly(n: NumberText)
    requires n.Valid()
    ensures n.Text() != [] && (n.Text()[0] == MINUS || ZERO <= n.Text()[0] <= NINE)
    ensures forall i :: 0 <= i < |n.Text()| ==> T.NumberByte(n.Text()[i])
  {
    assert forall i :: 1 <= i < |n.frac| ==> n.frac[i] == n.frac[1..][i - 1];
    assert forall i :: 1 <= i < |n.exp| ==> n.exp[i] == n.exp[1..][i - 1];
    assert forall i :: 2 <= i < |n.exp| ==> n.exp[i] == n.exp[2..][i - 2];
  }

  lemma InNumber(b: byte) returns (n: NumberText)
    requires T.NumberByte(b)
    ensures n.Valid() && b in n.Text()
  {
    var digit := if ZERO <= b <= NINE then b else ZERO;
    n := NumberText(false, [digit], [], []);
    assert n.Text() == [digit];
    if b == DOT {
      n := n.(frac := [DOT, ZERO]);
      assert n.frac[1..] == [ZERO] && n.Text() == [ZERO, DOT, ZERO] && n.Text()[1] == b;
    } else if b == 101 || b == 69 {
      n := n.(exp := [b, ZERO]);
      assert n.exp[1..] == [ZERO] && n.Text() == [ZERO, b, ZERO] && n.Text()[1] == b;
    } else if b == PLUS || b == MINUS {
      n := n.(exp := [101, b, ZERO]);
      assert n.exp[2..] == [ZERO] && n.Text() == [ZERO, 101, b, ZERO] && n.Text()[2] == b;
    } else {
      assert n.Text()[0] == b;
    }
  }

  /** The bytes the parser copies for strtod are exactly those that occur in numbers. */
  lemma NumberBytesExactly(b: byte)
    ensures T.NumberByte(b) <==> exists n: NumberText :: n.Valid() && b in n.Text()
  {
    hide T.NumberByte, NumberText.Valid, NumberText.Text;
    if T.NumberByte(b) {
      var n := InNumber(b);
    }
    forall n: NumberText | n.Valid() && b in n.Text() ensures T.NumberByte(b) {
      NumberBytesOnly(n);
    }
  }

  /** What may follow a value: a comma, a closing bracket, white space or the end of the C string. */
  predicate Delimits(b: byte) {
    b == COMMA || b == RBRACKET || b == RBRACE || b <= 32
  }

  predicate DelimitedAt(s: bytes, off: nat) {
    off < |s| && Delimits(s[off])
  }

  /** The number is copied whole, or its first 63 bytes are. */
  lemma NumberCopied(n: NumberText, s: bytes, off: nat)
    requires n.Valid() && At(s, off, n.Text()) && DelimitedAt(s, off + |n.Text()|)
    ensures NumberRun(s, off, 63) == if |n.Text()| <= 63 then n.Text() else n.Text()[..63]
  {
    var t := n.Text();
    NumberBytesOnly(n);
    if |t| <= 63 {
      RunIsText(s, off, t, 63);
    } else {
      assert t == t[..63] + t[63..];
      AtAppend(s, off, t[..63], t[63..]);
      RunCut(s, off, t[..63]);
    }
  }

  lemma {:induction false} RunCut(s: bytes, off: nat, t: bytes)
    requires At(s, off, t) && forall i :: 0 <= i < |t| ==> T.NumberByte(t[i])
    ensures NumberRun(s, off, |t|) == t
    decreases t
  {
    if t != [] {
      assert t == [t[0]] + t[1..];
      AtAppend(s, off, [t[0]], t[1..]);
      AtByte(s, off, t, 0);
      RunCut(s, off + 1, t[1..]);
    }
  }

  /** A number of at most 63 bytes is read as what strtod makes of it. */
  lemma NumberIsRead(c: Libc, n: NumberText, d: real, s: bytes, off: nat, depth: nat)
    requires n.Valid() && |n.Text()| <= 63 && At(s, off, n.Text()) && DelimitedAt(s, off + |n.Text()|)
    requires Strtod(c, n.Text()) == (|n.Text()|, d)
    ensures ReadValue(c, s, off, depth) == Some((Number(d), off + |n.Text()|))
  {
    hide NumberText.Text;
    NumberCopied(n, s, off);
    NumberBytesOnly(n);
    AtByte(s, off, n.Text(), 0);
    NotWord(s, off);
  }

  // ---------- strings (section 7) ----------

  const HEX_LOWER: bytes := [48, 49, 50, 51, 52, 53, 54, 55, 56, 57, 97, 98, 99, 100, 101, 102]
  const HEX_UPPER: bytes := [48, 49, 50, 51, 52, 53, 54, 55, 56, 57, 65, 66, 67, 68, 69, 70]

  predicate SpellsDigit(b: byte, v: nat) {
    v < 16 && (b == HEX_LOWER[v] || b == HEX_UPPER[v])
  }

  /** Four hexadecimal digits, each in either case. */
  predicate SpellsHex(t: bytes, code: nat) {
    && |t| == 4 && SpellsDigit(t[0], code / 4096) && SpellsDigit(t[1], code / 256 % 16)
    && SpellsDigit(t[2], code / 16 % 16) && SpellsDigit(t[3], code % 16)
  }

  /** A byte as it is, an escape of two bytes, or one or two escapes of six bytes for a code point. */
  datatype Char =
    | Plain(b: byte)
    | Short(letter: byte)
    | Hex(code: nat, digits: bytes)
    | Pair(code: nat, high: bytes, low: bytes)
  {
    /** In strings for C, without U+0000. */
    predicate Valid() {
      match this
      case Plain(b) => b >= 32 && b != QUOTE && b != BACKSLASH
      case Short(x) => x in [QUOTE, BACKSLASH, SLASH, 98, 102, 110, 114, 116]
      case Hex(code, digits) => 0 < code < 0x10000 && U.Scalar(code) && SpellsHex(digits, code)
      case Pair(code, high, low) =>
        && 0x10000 <= code <= 0x10FFFF
        && SpellsHex(high, U.HighSurrogate(code)) && SpellsHex(low, U.LowSurrogate(code))
    }

    function Text(): bytes {
      match this
      case Plain(b) => [b]
      case Short(x) => [BACKSLASH, x]
      case Hex(_, digits) => [BACKSLASH, U.LOWER_U] + digits
      case Pair(_, high, low) => [BACKSLASH, U.LOWER_U] + high + [BACKSLASH, U.LOWER_U] + low
    }

    function Means(): bytes {
      match this
      case Plain(b) => [b]
      case Short(x) =>
        [if x == 98 then BACKSPACE else if x == 102 then FORM_FEED else if x == 110 then NEWLINE
         else if x == 114 then RETURN else if x == 116 then TAB else x]
      case Hex(code, _) => if U.Scalar(code) then U.Utf8(code) else []
      case Pair(code, _, _) => if U.Scalar(code) then U.Utf8(code) else []
    }
  }

  predicate ValidChars(chars: seq<Char>) {
    forall i :: 0 <= i < |chars| ==> chars[i].Valid()
  }

  function CharsText(chars: seq<Char>): bytes {
    if chars == [] then [] else chars[0].Text() + CharsText(chars[1..])
  }

  function CharsMean(chars: seq<Char>): bytes {
    if chars == [] then [] else chars[0].Means() + CharsMean(chars[1..])
  }

  function StringText(chars: seq<Char>): bytes {
    [QUOTE] + CharsText(chars) + [QUOTE]
  }

  lemma SpelledDigit(b: byte, v: nat)
    requires SpellsDigit(b, v)
    ensures U.HexValue(b) == v
  {
  }

  lemma SpelledHex(t: bytes, code: nat, s: bytes, p: nat)
    requires SpellsHex(t, code) && code < 0x10000 && At(s, p, t)
    ensures U.IsHex4(s, p) && U.Hex4(s, p) == code
    ensures forall k :: p <= k < p + 4 ==> s[k] != BACKSLASH && s[k] != QUOTE
  {
    hide At, SpellsDigit;
    AtByte(s, p, t, 0);
    AtByte(s, p, t, 1);
    AtByte(s, p, t, 2);
    AtByte(s, p, t, 3);
    SpelledDigit(t[0], code / 4096);
    SpelledDigit(t[1], code / 256 % 16);
    SpelledDigit(t[2], code / 16 % 16);
    SpelledDigit(t[3], code % 16);
    assert U.HexValue(BACKSLASH) == -1 == U.HexValue(QUOTE);
    HexSum(code);
  }

  lemma HexSum(code: nat)
    ensures code == code / 4096 * 4096 + code / 256 % 16 * 256 + code / 16 % 16 * 16 + code % 16
  {
    assert code == code / 16 * 16 + code % 16;
    assert code / 16 == code / 256 * 16 + code / 16 % 16;
    assert code / 256 == code / 4096 * 16 + code / 256 % 16;
  }

  lemma {:induction false} ScanPlain(s: bytes, p: nat, n: nat)
    requires p + n <= |s| && forall k :: p <= k < p + n ==> s[k] != BACKSLASH && s[k] != QUOTE
    ensures JsonString.ScanEnd(s, p) == JsonString.ScanEnd(s, p + n)
    decreases n
  {
    if n > 0 {
      ScanPlain(s, p + 1, n - 1);
    }
  }

  /** An escape of six bytes. */
  lemma SixBytes(t: bytes, code: nat, s: bytes, p: nat)
    requires SpellsHex(t, code) && code < 0x10000 && At(s, p, [BACKSLASH, U.LOWER_U] + t)
    ensures p + 6 <= |s| && s[p] == BACKSLASH && s[p + 1] == U.LOWER_U
    ensures U.IsHex4(s, p + 2) && U.Hex4(s, p + 2) == code
    ensures JsonString.ScanEnd(s, p) == JsonString.ScanEnd(s, p + 6)
  {
    hide SpellsHex, At;
    var u := [BACKSLASH, U.LOWER_U];
    AtAppend(s, p, u, t);
    AtByte(s, p, u, 0);
    AtByte(s, p, u, 1);
    SpelledHex(t, code, s, p + 2);
    ScanPlain(s, p + 2, 4);
  }

  lemma HexDecodes(ch: Char, s: bytes, p: nat, e: nat)
    requires ch.Hex? && ch.Valid() && At(s, p, ch.Text()) && p + |ch.Text()| <= e < |s|
    ensures JsonString.DecodeStep(s, p, e) == Some(JsonString.Step(ch.Means(), |ch.Text()|))
    ensures JsonString.ScanEnd(s, p) == JsonString.ScanEnd(s, p + |ch.Text()|)
  {
    hide At, U.Hex4, U.IsHex4, U.Utf8, JsonString.ScanEnd;
    SixBytes(ch.digits, ch.code, s, p);
  }

  lemma PairIsLiteral(code: nat, s: bytes, p: nat, e: nat)
    requires 0x10000 <= code <= 0x10FFFF && p + 12 <= e <= |s|
    requires U.Hex4(s, p + 2) == U.HighSurrogate(code) && U.Hex4(s, p + 8) == U.LowSurrogate(code)
    requires s[p + 6] == BACKSLASH && s[p + 7] == U.LOWER_U
    ensures U.ReadLiteral(s, p, e) == Some(U.Literal(code, 12))
  {
    hide U.Hex4;
    var c := code - 0x10000;
    assert c == c / 0x400 * 0x400 + c % 0x400 && c / 0x400 < 0x400;
  }

  lemma PairDecodes(ch: Char, s: bytes, p: nat, e: nat)
    requires ch.Pair? && ch.Valid() && At(s, p, ch.Text()) && p + |ch.Text()| <= e < |s|
    ensures JsonString.DecodeStep(s, p, e) == Some(JsonString.Step(ch.Means(), |ch.Text()|))
    ensures JsonString.ScanEnd(s, p) == JsonString.ScanEnd(s, p + |ch.Text()|)
  {
    hide At, U.Hex4, U.IsHex4, U.Utf8, JsonString.ScanEnd, U.ReadLiteral, SpellsHex;
    var u := [BACKSLASH, U.LOWER_U];
    PairText(ch);
    AtAppend(s, p, u + ch.high, u + ch.low);
    SixBytes(ch.high, U.HighSurrogate(ch.code), s, p);
    SixBytes(ch.low, U.LowSurrogate(ch.code), s, p + 6);
    PairIsLiteral(ch.code, s, p, e);
  }

  lemma PairText(ch: Char)
    requires ch.Pair? && ch.Valid()
    ensures var u := [BACKSLASH, U.LOWER_U];
      ch.Text() == (u + ch.high) + (u + ch.low) && |u + ch.high| == 6 == |u + ch.low|
  {
  }

  lemma ShortDecodes(ch: Char, s: bytes, p: nat, e: nat)
    requires (ch.Plain? || ch.Short?) && ch.Valid() && At(s, p, ch.Text()) && p + |ch.Text()| <= e < |s|
    ensures JsonString.DecodeStep(s, p, e) == Some(JsonString.Step(ch.Means(), |ch.Text()|))
    ensures JsonString.ScanEnd(s, p) == JsonString.ScanEnd(s, p + |ch.Text()|)
  {
    hide At, U.ReadLiteral;
    AtByte(s, p, ch.Text(), 0);
    if ch.Short? {
      AtByte(s, p, ch.Text(), 1);
    }
  }

  lemma CharDecodes(ch: Char, s: bytes, p: nat, e: nat)
    requires ch.Valid() && At(s, p, ch.Text()) && p + |ch.Text()| <= e < |s|
    ensures JsonString.DecodeStep(s, p, e) == Some(JsonString.Step(ch.Means(), |ch.Text()|))
    ensures JsonString.ScanEnd(s, p) == JsonString.ScanEnd(s, p + |ch.Text()|)
    ensures |ch.Text()| > 0 && NUL !in ch.Means()
  {
    MeansNoNul(ch);
    hide At, JsonString.DecodeStep, JsonString.ScanEnd, Char.Means;
    if ch.Hex? {
      HexDecodes(ch, s, p, e);
    } else if ch.Pair? {
      PairDecodes(ch, s, p, e);
    } else {
      ShortDecodes(ch, s, p, e);
    }
  }

  lemma MeansNoNul(ch: Char)
    requires ch.Valid()
    ensures NUL !in ch.Means()
  {
    if ch.Hex? || ch.Pair? {
      var c := ch.code;
      assert c / 64 % 64 < 64 && c % 64 < 64;
    }
  }

  lemma {:induction false} CharsDecode(chars: seq<Char>, s: bytes, p: nat, e: nat)
    requires ValidChars(chars) && At(s, p, CharsText(chars))
    requires e == p + |CharsText(chars)| < |s| && s[e] == QUOTE
    ensures JsonString.Decode(s, p, e) == Some(CharsMean(chars)) && JsonString.ScanEnd(s, p) == Some(e)
    ensures NUL !in CharsMean(chars)
  {
    hide At, Char.Text, Char.Means, Char.Valid, JsonString.DecodeStep;
    if chars != [] {
      var t := chars[0].Text();
      AtAppend(s, p, t, CharsText(chars[1..]));
      CharDecodes(chars[0], s, p, e);
      CharsDecode(chars[1..], s, p + |t|, e);
    }
  }

  /** A string is read as the bytes its characters mean, in UTF-8. */
  lemma StringIsRead(chars: seq<Char>, s: bytes, off: nat)
    requires ValidChars(chars) && At(s, off, StringText(chars))
    ensures JsonString.ReadString(s, off) == Some((CharsMean(chars), off + |StringText(chars)|))
  {
    hide At, CharsText, CharsMean, JsonString.Decode, JsonString.ScanEnd, ValidChars;
    var t := CharsText(chars);
    AtAppend(s, off, [QUOTE] + t, [QUOTE]);
    AtAppend(s, off, [QUOTE], t);
    AtByte(s, off, [QUOTE], 0);
    AtByte(s, off + 1 + |t|, [QUOTE], 0);
    CharsDecode(chars, s, off + 1, off + 1 + |t|);
    CStringWhole(CharsMean(chars), []);
  }

  // ---------- values, arrays and objects (sections 2 to 5) ----------

  /** White space between tokens. */
  predicate Blank(t: bytes) {
    forall i :: 0 <= i < |t| ==> t[i] in [SPACE, TAB, NEWLINE, RETURN]
  }

  /** A text as the grammar takes it apart; before and after are the white space around a value. */
  datatype Syntax =
    | NullWord
    | BoolWord(b: bool)
    | NumberWord(n: NumberText)
    | StringWord(chars: seq<Char>)
    | ArrayOf(blank: bytes, items: seq<Item>)
    | ObjectOf(blank: bytes, pairs: seq<Entry>)

  datatype Item = Item(before: bytes, value: Syntax, after: bytes)

  datatype Entry = Entry(before: bytes, key: seq<Char>, gap: bytes, item: Item)

  /** Numbers of at most 63 bytes, which is what the parser copies. */
  predicate Valid(x: Syntax) {
    match x
    case NullWord => true
    case BoolWord(_) => true
    case NumberWord(n) => n.Valid() && |n.Text()| <= 63
    case StringWord(chars) => ValidChars(chars)
    case ArrayOf(blank, items) => Blank(blank) && forall i :: 0 <= i < |items| ==> ValidItem(items[i])
    case ObjectOf(blank, pairs) =>
      Blank(blank) && forall i :: 0 <= i < |pairs| ==> ValidEntry(pairs[i])
  }

  predicate ValidEntry(entry: Entry) {
    Blank(entry.before) && ValidChars(entry.key) && Blank(entry.gap) && ValidItem(entry.item)
  }

  predicate ValidItem(item: Item) {
    Blank(item.before) && Valid(item.value) && Blank(item.after)
  }

  function Spelled(x: Syntax): bytes {
    match x
    case NullWord => T.NULL_TEXT
    case BoolWord(b) => if b then T.TRUE_TEXT else T.FALSE_TEXT
    case NumberWord(n) => n.Text()
    case StringWord(chars) => StringText(chars)
    case ArrayOf(blank, items) => [LBRACKET] + (if items == [] then blank else ItemsSpelled(items)) + [RBRACKET]
    case ObjectOf(blank, pairs) => [LBRACE] + (if pairs == [] then blank else EntriesSpelled(pairs)) + [RBRACE]
  }

  function ItemSpelled(item: Item): bytes {
    item.before + Spelled(item.value) + item.after
  }

  function ItemsSpelled(items: seq<Item>): bytes {
    if items == [] then []
    else ItemSpelled(items[0]) + if |items| == 1 then [] else [COMMA] + ItemsSpelled(items[1..])
  }

  function EntrySpelled(entry: Entry): bytes {
    entry.before + StringText(entry.key) + entry.gap + [COLON] + ItemSpelled(entry.item)
  }

  function EntriesSpelled(pairs: seq<Entry>): bytes {
    if pairs == [] then []
    else EntrySpelled(pairs[0]) + if |pairs| == 1 then [] else [COMMA] + EntriesSpelled(pairs[1..])
  }

  /** What a text means does not depend on its white space, nor on how characters are spelled; what a
      number means is up to strtod. */
  function Means(c: Libc, x: Syntax): Value {
    match x
    case NullWord => Null
    case BoolWord(b) => Bool(b)
    case NumberWord(n) => Number(Strtod(c, n.Text()).1)
    case StringWord(chars) => String(CharsMean(chars))
    case ArrayOf(_, items) => Array(ItemsMean(c, items))
    case ObjectOf(_, pairs) => Object(EntriesMean(c, pairs))
  }

  function ItemsMean(c: Libc, items: seq<Item>): seq<Value> {
    if items == [] then [] else [Means(c, items[0].value)] + ItemsMean(c, items[1..])
  }

  function EntriesMean(c: Libc, pairs: seq<Entry>): seq<Member> {
    if pairs == [] then []
    else [Member(CharsMean(pairs[0].key), Means(c, pairs[0].item.value))] + EntriesMean(c, pairs[1..])
  }

  /** What the C standard promises of strtod: it reads all of a decimal number. */
  ghost predicate ReadsNumbers(c: Libc) {
    forall n: NumberText :: n.Valid() ==> Strtod(c, n.Text()).0 == |n.Text()|
  }

  lemma StartsVisible(x: Syntax)
    requires Valid(x)
    ensures Spelled(x) != [] && 32 < Spelled(x)[0] < 128 && Spelled(x)[0] != RBRACKET && Spelled(x)[0] != RBRACE
  {
    if x.NumberWord? {
      NumberBytesOnly(x.n);
    }
  }

  lemma VisibleAt(x: Syntax, s: bytes, off: nat, more: bytes)
    requires Valid(x) && At(s, off, Spelled(x) + more)
    ensures off < |s| && 32 < s[off] < 128 && s[off] != RBRACKET && s[off] != RBRACE
  {
    hide At, Spelled, Valid;
    StartsVisible(x);
    AtByte(s, off, Spelled(x) + more, 0);
  }

  lemma BlankSkipped(s: bytes, off: nat, t: bytes)
    requires At(s, off, t) && Blank(t) && off + |t| < |s| && s[off + |t|] > 32
    ensures Skip(s, off) == off + |t|
  {
    hide At;
    SkipText(s, off, t);
  }

  /** White space behind a value, and the token behind that. */
  lemma BehindValue(s: bytes, e: nat, after: bytes)
    requires At(s, e, after) && Blank(after) && e + |after| < |s|
    requires s[e + |after|] == COMMA || s[e + |after|] == RBRACKET || s[e + |after|] == RBRACE
    ensures DelimitedAt(s, e) && Skip(s, e) == e + |after|
  {
    hide At;
    BlankSkipped(s, e, after);
    if after != [] {
      AtByte(s, e, after, 0);
    }
  }

  lemma WordIsRead(c: Libc, x: Syntax, s: bytes, off: nat, depth: nat)
    requires (x.NullWord? || x.BoolWord?) && At(s, off, Spelled(x)) && depth <= NESTING_LIMIT
    ensures ReadValue(c, s, off, depth) == IfShallow(depth, Depth(Means(c, x)), Means(c, x), off + |Spelled(x)|)
  {
    if x.BoolWord? {
      BoolReadsBack(c, x.b, s, off, depth);
    }
  }

  lemma StringValueIsRead(c: Libc, chars: seq<Char>, s: bytes, off: nat, depth: nat)
    requires ValidChars(chars) && At(s, off, StringText(chars))
    ensures ReadValue(c, s, off, depth) == Some((String(CharsMean(chars)), off + |StringText(chars)|))
  {
    hide JsonString.ReadString;
    AtByte(s, off, StringText(chars), 0);
    NotWord(s, off);
    StringIsRead(chars, s, off);
  }

  /** An array's text behind the white space in front of its first value. */
  function ItemsTail(items: seq<Item>): bytes
    requires items != []
  {
    Spelled(items[0].value) + items[0].after + if |items| == 1 then [] else [COMMA] + ItemsSpelled(items[1..])
  }

  lemma ItemsBefore(items: seq<Item>)
    requires items != []
    ensures ItemsSpelled(items) == items[0].before + ItemsTail(items)
  {
    hide Spelled;
  }

  /** The first value of the items starts at v. */
  lemma ItemsFound(items: seq<Item>, s: bytes, off: nat)
    requires items != [] && Valid(items[0].value) && Blank(items[0].before) && At(s, off, ItemsSpelled(items))
    ensures var v := off + |items[0].before|;
      && Skip(s, off) == v && At(s, v, ItemsTail(items)) && v + |ItemsTail(items)| == off + |ItemsSpelled(items)|
      && v < |s| && s[v] > 32 && s[v] != RBRACKET
  {
    hide At, Spelled, Valid, ItemsSpelled, Skip, Blank;
    var first := items[0];
    var more := if |items| == 1 then [] else [COMMA] + ItemsSpelled(items[1..]);
    ItemsBefore(items);
    AtAppend(s, off, first.before, ItemsTail(items));
    assert ItemsTail(items) == Spelled(first.value) + (first.after + more);
    VisibleAt(first.value, s, off + |first.before|, first.after + more);
    BlankSkipped(s, off, first.before);
  }

  lemma {:induction false} ItemsAreRead(c: Libc, items: seq<Item>, s: bytes, p: nat, v: nat, depth: nat)
    requires ReadsNumbers(c) && items != [] && (forall i :: 0 <= i < |items| ==> ValidItem(items[i]))
    requires depth <= NESTING_LIMIT && p < |s| && Skip(s, p + 1) == v && At(s, v, ItemsTail(items))
    requires IsAt(s, v + |ItemsTail(items)|, RBRACKET)
    ensures var vs := ItemsMean(c, items);
      ReadItems(c, s, p, depth) == IfShallow(depth, ItemsDepth(vs), vs, v + |ItemsTail(items)|)
    decreases items, 1
  {
    hide At, Spelled, Valid, ReadValue, Skip, ItemsSpelled, Means, Blank, ReadsNumbers;
    var first := items[0];
    assert ValidItem(first);
    var t, more := Spelled(first.value), if |items| == 1 then [] else [COMMA] + ItemsSpelled(items[1..]);
    var e := v + |t|;
    var f := e + |first.after|;
    AtConcat3(s, v, t, first.after, more);
    if |items| == 1 {
      BehindValue(s, e, first.after);
      SyntaxIsRead(c, first.value, s, v, depth);
      OneItem(c, Means(c, first.value), s, p, e, f, depth);
      OneMeans(c, items);
    } else {
      var rest := items[1..];
      AtAppend(s, f, [COMMA], ItemsSpelled(rest));
      AtByte(s, f, [COMMA], 0);
      BehindValue(s, e, first.after);
      assert ValidItem(rest[0]);
      ItemsFound(rest, s, f + 1);
      SyntaxIsRead(c, first.value, s, v, depth);
      ItemsAreRead(c, rest, s, f, f + 1 + |rest[0].before|, depth);
      MoreItems(c, ItemsMean(c, items), s, p, e, f, v + |ItemsTail(items)|, depth);
    }
  }

  lemma OneMeans(c: Libc, items: seq<Item>)
    requires |items| == 1
    ensures ItemsMean(c, items) == [Means(c, items[0].value)]
  {
    hide Means;
    assert items[1..] == [] && ItemsMean(c, items[1..]) == [];
  }

  /** What stands between two brackets. */
  lemma Bracketed(open: byte, body: bytes, close: byte, s: bytes, off: nat)
    requires At(s, off, [open] + body + [close])
    ensures IsAt(s, off, open) && At(s, off + 1, body) && IsAt(s, off + 1 + |body|, close)
  {
    hide At;
    AtAppend(s, off, [open] + body, [close]);
    AtAppend(s, off, [open], body);
    AtByte(s, off, [open], 0);
    AtByte(s, off + 1 + |body|, [close], 0);
  }

  lemma {:induction false} ArrayIsRead(c: Libc, x: Syntax, s: bytes, off: nat, depth: nat)
    requires ReadsNumbers(c) && x.ArrayOf? && Valid(x) && depth <= NESTING_LIMIT && At(s, off, Spelled(x))
    ensures ReadValue(c, s, off, depth) == IfShallow(depth, Depth(Means(c, x)), Means(c, x), off + |Spelled(x)|)
    decreases x, 0
  {
    hide At, ReadItems, ReadValue, Skip, ItemsSpelled, ItemsTail, Blank, ReadsNumbers, ItemsDepth;
    var items, vs := x.items, ItemsMean(c, x.items);
    var body := if items == [] then x.blank else ItemsSpelled(items);
    var e := off + 1 + |body|;
    Bracketed(LBRACKET, body, RBRACKET, s, off);
    if items == [] {
      BlankSkipped(s, off + 1, x.blank);
      ArrayShape(c, vs, s, off, e, e, depth);
    } else {
      assert ValidItem(items[0]);
      ItemsFound(items, s, off + 1);
      var v := off + 1 + |items[0].before|;
      SkipNone(s, v);
      if depth < NESTING_LIMIT {
        ItemsAreRead(c, items, s, v - 1, v, depth + 1);
      }
      ArrayShape(c, vs, s, off, v, e, depth);
    }
  }

  lemma {:induction false} SyntaxIsRead(c: Libc, x: Syntax, s: bytes, off: nat, depth: nat)
    requires ReadsNumbers(c) && Valid(x) && depth <= NESTING_LIMIT
    requires At(s, off, Spelled(x)) && DelimitedAt(s, off + |Spelled(x)|)
    ensures ReadValue(c, s, off, depth) == IfShallow(depth, Depth(Means(c, x)), Means(c, x), off + |Spelled(x)|)
    decreases x, 2
  {
    hide At, ReadValue;
    if x.NumberWord? {
      NumberIsRead(c, x.n, Strtod(c, x.n.Text()).1, s, off, depth);
    } else if x.StringWord? {
      StringValueIsRead(c, x.chars, s, off, depth);
    } else if x.ArrayOf? {
      ArrayIsRead(c, x, s, off, depth);
    } else if x.ObjectOf? {
      ObjectIsRead(c, x, s, off, depth);
    } else {
      WordIsRead(c, x, s, off, depth);
    }
  }

  /** An object's text behind the white space in front of its first key. */
  function EntriesTail(pairs: seq<Entry>): bytes
    requires pairs != []
  {
    var first := pairs[0];
    StringText(first.key) + (first.gap + [COLON] + first.item.before) + Spelled(first.item.value) + first.item.after
    + if |pairs| == 1 then [] else [COMMA] + EntriesSpelled(pairs[1..])
  }

  lemma EntriesBefore(pairs: seq<Entry>)
    requires pairs != []
    ensures EntriesSpelled(pairs) == pairs[0].before + EntriesTail(pairs)
  {
    hide Spelled, StringText;
    var first := pairs[0];
    var item, key, t := first.item, StringText(first.key), Spelled(first.item.value);
    var more := if |pairs| == 1 then [] else [COMMA] + EntriesSpelled(pairs[1..]);
    assert ItemSpelled(item) == item.before + t + item.after;
    assert EntrySpelled(first) == first.before + key + first.gap + [COLON] + (item.before + t + item.after);
    assert EntriesSpelled(pairs) == EntrySpelled(first) + more;
    assert EntriesTail(pairs) == key + (first.gap + [COLON] + item.before) + t + item.after + more;
    hide ItemSpelled, EntrySpelled, EntriesSpelled, EntriesTail;
    Regroup(first.before, key, first.gap, [COLON], item.before, t, item.after, more);
  }

  lemma Regroup(a: bytes, k: bytes, g: bytes, x: bytes, b: bytes, v: bytes, w: bytes, m: bytes)
    ensures a + k + g + x + (b + v + w) + m == a + (k + (g + x + b) + v + w + m)
  {
    var left := a + k + g + x;
    assert left + (b + v + w) == left + b + v + w;
    assert left + b == a + (k + (g + x + b));
    assert a + (k + (g + x + b)) + v + w + m == a + (k + (g + x + b) + v + w + m);
  }

  lemma QuoteAtKey(chars: seq<Char>, s: bytes, off: nat, more: bytes)
    requires At(s, off, StringText(chars) + more)
    ensures IsAt(s, off, QUOTE)
  {
    hide At, CharsText;
    AtByte(s, off, StringText(chars) + more, 0);
  }

  /** The first key of the entries starts at k. */
  lemma EntriesFound(pairs: seq<Entry>, s: bytes, off: nat)
    requires pairs != [] && Blank(pairs[0].before) && At(s, off, EntriesSpelled(pairs))
    ensures var k := off + |pairs[0].before|;
      && Skip(s, off) == k && At(s, k, EntriesTail(pairs)) && IsAt(s, k, QUOTE)
      && k + |EntriesTail(pairs)| == off + |EntriesSpelled(pairs)|
  {
    hide At, Spelled, EntriesSpelled, Skip, Blank, StringText;
    var first := pairs[0];
    EntriesBefore(pairs);
    AtAppend(s, off, first.before, EntriesTail(pairs));
    var more := (first.gap + [COLON] + first.item.before) + Spelled(first.item.value) + first.item.after
      + if |pairs| == 1 then [] else [COMMA] + EntriesSpelled(pairs[1..]);
    assert EntriesTail(pairs) == StringText(first.key) + more;
    QuoteAtKey(first.key, s, off + |first.before|, more);
    BlankSkipped(s, off, first.before);
  }

  /** The colon between a key that ends at x and a value. */
  lemma ColonFound(entry: Entry, s: bytes, x: nat)
    requires Blank(entry.gap) && ValidItem(entry.item)
    requires At(s, x, entry.gap + [COLON] + entry.item.before)
    requires At(s, x + |entry.gap| + 1 + |entry.item.before|, Spelled(entry.item.value))
    ensures var colon := x + |entry.gap|;
      IsAt(s, colon, COLON) && Skip(s, x) == colon && Skip(s, colon + 1) == colon + 1 + |entry.item.before|
  {
    hide At, Spelled, Valid, Skip, Blank;
    AtConcat3(s, x, entry.gap, [COLON], entry.item.before);
    AtByte(s, x + |entry.gap|, [COLON], 0);
    BlankSkipped(s, x, entry.gap);
    assert Spelled(entry.item.value) + [] == Spelled(entry.item.value);
    VisibleAt(entry.item.value, s, x + |entry.gap| + 1 + |entry.item.before|, []);
    BlankSkipped(s, x + |entry.gap| + 1, entry.item.before);
  }

  /** One entry whose key starts at k and whose value ends at e, with the next token at f. */
  lemma {:induction false} EntryIsRead(c: Libc, entry: Entry, s: bytes, p: nat, k: nat, e: nat, f: nat, depth: nat)
    requires ReadsNumbers(c) && ValidChars(entry.key) && Blank(entry.gap) && ValidItem(entry.item)
    requires depth <= NESTING_LIMIT && p < |s| && Skip(s, p + 1) == k && At(s, k, StringText(entry.key))
    requires var x := k + |StringText(entry.key)|;
      && At(s, x, entry.gap + [COLON] + entry.item.before)
      && At(s, x + |entry.gap| + 1 + |entry.item.before|, Spelled(entry.item.value))
      && e == x + |entry.gap| + 1 + |entry.item.before| + |Spelled(entry.item.value)|
    requires DelimitedAt(s, e) && Skip(s, e) == f
    ensures var v := Means(c, entry.item.value);
      ReadMember(c, s, p, depth) == IfShallow(depth, Depth(v), Member(CharsMean(entry.key), v), f)
    decreases entry, 0
  {
    hide At, Spelled, Valid, ReadValue, Skip, Means, Blank, ReadsNumbers, StringText, CharsMean, JsonString.ReadString,
         ValidChars, Char.Valid;
    var x := k + |StringText(entry.key)|;
    var v := x + |entry.gap| + 1 + |entry.item.before|;
    StringIsRead(entry.key, s, k);
    ColonFound(entry, s, x);
    SyntaxIsRead(c, entry.item.value, s, v, depth);
  }

  lemma {:induction false} EntriesAreRead(c: Libc, pairs: seq<Entry>, s: bytes, p: nat, k: nat, depth: nat)
    requires ReadsNumbers(c) && pairs != [] && (forall i :: 0 <= i < |pairs| ==> ValidEntry(pairs[i]))
    requires depth <= NESTING_LIMIT && p < |s| && Skip(s, p + 1) == k && At(s, k, EntriesTail(pairs))
    requires IsAt(s, k + |EntriesTail(pairs)|, RBRACE)
    ensures var ms := EntriesMean(c, pairs);
      ReadMembers(c, s, p, depth) == IfShallow(depth, MembersDepth(ms), ms, k + |EntriesTail(pairs)|)
    decreases pairs, 1
  {
    hide At, Spelled, Valid, ReadMember, Skip, EntriesSpelled, Means, Blank, ReadsNumbers, StringText, CharsMean,
         ValidChars, Char.Valid;
    var first := pairs[0];
    var item := first.item;
    assert ValidEntry(first) && ValidItem(item);
    var key, colon, t := StringText(first.key), first.gap + [COLON] + item.before, Spelled(item.value);
    var more := if |pairs| == 1 then [] else [COMMA] + EntriesSpelled(pairs[1..]);
    var e := k + |key| + |colon| + |t|;
    var f := e + |item.after|;
    AtConcat3(s, k, key + colon + t, item.after, more);
    AtConcat3(s, k, key, colon, t);
    if |pairs| == 1 {
      BehindValue(s, e, item.after);
      EntryIsRead(c, first, s, p, k, e, f, depth);
      OneEntry(c, pairs, s, p, f, depth);
    } else {
      var rest := pairs[1..];
      AtAppend(s, f, [COMMA], EntriesSpelled(rest));
      AtByte(s, f, [COMMA], 0);
      BehindValue(s, e, item.after);
      assert ValidEntry(rest[0]);
      EntriesFound(rest, s, f + 1);
      EntryIsRead(c, first, s, p, k, e, f, depth);
      EntriesAreRead(c, rest, s, f, f + 1 + |rest[0].before|, depth);
      MoreEntries(c, pairs, s, p, f, k + |EntriesTail(pairs)|, depth);
    }
  }

  lemma {:induction false} OneEntry(c: Libc, pairs: seq<Entry>, s: bytes, p: nat, f: nat, depth: nat)
    requires |pairs| == 1 && p < |s| && IsAt(s, f, RBRACE)
    requires var v := Means(c, pairs[0].item.value);
      ReadMember(c, s, p, depth) == IfShallow(depth, Depth(v), Member(CharsMean(pairs[0].key), v), f)
    ensures var ms := EntriesMean(c, pairs); ReadMembers(c, s, p, depth) == IfShallow(depth, MembersDepth(ms), ms, f)
  {
    hide Means, CharsMean, ReadMember;
    var ms := EntriesMean(c, pairs);
    assert ms == [Member(CharsMean(pairs[0].key), Means(c, pairs[0].item.value))] && ms[1..] == [];
  }

  lemma {:induction false} MoreEntries(c: Libc, pairs: seq<Entry>, s: bytes, p: nat, f: nat, end: nat, depth: nat)
    requires |pairs| > 1 && p < f < |s| && IsAt(s, f, COMMA)
    requires var v := Means(c, pairs[0].item.value);
      ReadMember(c, s, p, depth) == IfShallow(depth, Depth(v), Member(CharsMean(pairs[0].key), v), f)
    requires var ms := EntriesMean(c, pairs[1..]);
      ReadMembers(c, s, f, depth) == IfShallow(depth, MembersDepth(ms), ms, end)
    ensures var ms := EntriesMean(c, pairs); ReadMembers(c, s, p, depth) == IfShallow(depth, MembersDepth(ms), ms, end)
  {
    hide Means, CharsMean, ReadMember;
    var ms := EntriesMean(c, pairs);
    assert ms[0] == Member(CharsMean(pairs[0].key), Means(c, pairs[0].item.value));
    assert ms[1..] == EntriesMean(c, pairs[1..]);
  }

  lemma MeansAsMany(c: Libc, pairs: seq<Entry>)
    ensures EntriesMean(c, pairs) == [] <==> pairs == []
  {
  }

  lemma {:induction false} ObjectIsRead(c: Libc, x: Syntax, s: bytes, off: nat, depth: nat)
    requires ReadsNumbers(c) && x.ObjectOf? && Valid(x) && depth <= NESTING_LIMIT && At(s, off, Spelled(x))
    ensures ReadValue(c, s, off, depth) == IfShallow(depth, Depth(Means(c, x)), Means(c, x), off + |Spelled(x)|)
    decreases x, 0
  {
    hide At, ReadMembers, ReadValue, Skip, EntriesSpelled, EntriesTail, Blank, ReadsNumbers, MembersDepth, EntriesMean,
         ValidChars, ValidItem;
    MeansAsMany(c, x.pairs);
    var pairs, ms := x.pairs, EntriesMean(c, x.pairs);
    var body := if pairs == [] then x.blank else EntriesSpelled(pairs);
    var e := off + 1 + |body|;
    Bracketed(LBRACE, body, RBRACE, s, off);
    if pairs == [] {
      BlankSkipped(s, off + 1, x.blank);
      ObjectShape(c, ms, s, off, e, e, depth);
    } else {
      assert ValidEntry(pairs[0]);
      EntriesFound(pairs, s, off + 1);
      var k := off + 1 + |pairs[0].before|;
      SkipNone(s, k);
      if depth < NESTING_LIMIT {
        EntriesAreRead(c, pairs, s, k - 1, k, depth + 1);
      }
      ObjectShape(c, ms, s, off, k, e, depth);
    }
  }

  // ---------- the theorem ----------

  /** cJSON_Parse of a text of the grammar, with white space around it, gives what it means, exactly when
      its nesting is within the limit. */
  lemma TextIsParsed(c: Libc, before: bytes, x: Syntax, after: bytes)
    requires ReadsNumbers(c) && Valid(x) && Blank(before) && Blank(after)
    ensures Parse(c, before + Spelled(x) + after)
         == IfShallow(0, Depth(Means(c, x)), Means(c, x), |before| + |Spelled(x)|)
  {
    hide Means, ReadValue, Valid, Spelled, ReadsNumbers, At, Skip, Blank;
    var t, rest := Spelled(x), after + [NUL];
    var s := before + Spelled(x) + after + [NUL];
    assert s == before + (t + rest);
    AtSlice(s, 0, s);
    AtAppend(s, 0, before, t + rest);
    AtAppend(s, |before|, t, rest);
    VisibleAt(x, s, |before|, rest);
    assert !At(s, 0, BOM) by {
      if At(s, 0, BOM) {
        AtByte(s, 0, BOM, 0);
        FirstByte(s, before);
      }
    }
    BlankSkipped(s, 0, before);
    assert s[|before| + |t|] == rest[0];
    assert DelimitedAt(s, |before| + |t|) by {
      FirstByte(rest, after);
    }
    SyntaxIsRead(c, x, s, |before|, 0);
  }

  /** White space in front: the first byte is of it, or there is none. */
  lemma FirstByte(s: bytes, before: bytes)
    requires s != [] && |before| <= |s| && s[..|before|] == before && Blank(before)
    ensures before == [] || s[0] <= 32
  {
    if before != [] {
      assert s[0] == s[..|before|][0] == before[0];
    }
  }
}
