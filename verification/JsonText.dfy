/** The text the printer is to produce, as a pure function of the value. */
module JsonText {
  import opened Bytes
  import opened JsonValue

  const NULL_TEXT: bytes := [110, 117, 108, 108]
  const TRUE_TEXT: bytes := [116, 114, 117, 101]
  const FALSE_TEXT: bytes := [102, 97, 108, 115, 101]

  const INT64_MAX: int := 0x7FFF_FFFF_FFFF_FFFF
  const INT64_MIN: int := -0x8000_0000_0000_0000

  // ---------- numbers ----------

  /** The C conversion of a double to int64_t, with the library's saturation; it truncates toward zero. */
  function ToInt64(d: real): int {
    if d >= 0x8000_0000_0000_0000 as real then INT64_MAX
    else if d <= INT64_MIN as real then INT64_MIN
    else if d >= 0.0 then d.Floor else -((-d).Floor)
  }

  /** Converting back: INT64_MAX is not a double and rounds up to 2^63. Every other result of
      ToInt64 is a double and stays as it is. */
  function FromInt64(n: int): real {
    if n == INT64_MAX then 0x8000_0000_0000_0000 as real else n as real
  }

  function Digits(n: nat): (r: bytes)
    ensures |r| > 0
    ensures forall i :: 0 <= i < |r| ==> ZERO <= r[i] <= NINE
  {
    if n < 10 then [ZERO + n] else Digits(n / 10) + [ZERO + n % 10]
  }

  function IntegerText(n: int): bytes {
    if n < 0 then [MINUS] + Digits(-n) else Digits(n)
  }

  function NumberText(c: Libc, d: real): bytes {
    if d == FromInt64(ToInt64(d)) then IntegerText(ToInt64(d)) else FormatReal(c, d)
  }

  // ---------- strings ----------

  function HexDigit(n: nat): byte
    requires n < 16
  {
    if n < 10 then 48 + n else 87 + n
  }

  /** A control byte without a short escape becomes \u00xx; everything else is short or itself. */
  function EscapeByte(b: byte): (r: bytes)
    ensures |r| > 0
  {
    if b == QUOTE then [BACKSLASH, QUOTE]
    else if b == BACKSLASH then [BACKSLASH, BACKSLASH]
    else if b == BACKSPACE then [BACKSLASH, 98]
    else if b == FORM_FEED then [BACKSLASH, 102]
    else if b == NEWLINE then [BACKSLASH, 110]
    else if b == RETURN then [BACKSLASH, 114]
    else if b == TAB then [BACKSLASH, 116]
    else if b < 32 then [BACKSLASH, 117, ZERO, ZERO, HexDigit(b / 16), HexDigit(b % 16)]
    else [b]
  }

  function Escape(s: bytes): (r: bytes)
    ensures |r| >= |s|
  {
    if s == [] then [] else EscapeByte(s[0]) + Escape(s[1..])
  }

  function Quoted(s: bytes): bytes {
    [QUOTE] + Escape(s) + [QUOTE]
  }

  // ---------- values ----------

  function Tabs(n: nat): (r: bytes)
    ensures |r| == n
    ensures forall i :: 0 <= i < n ==> r[i] == TAB
  {
    if n == 0 then [] else [TAB] + Tabs(n - 1)
  }

  /** depth is the number of containers around the value; only the formatted text depends on it. */
  function Text(c: Libc, v: Value, format: bool, depth: nat): bytes
    decreases v
  {
    match v
    case Null => NULL_TEXT
    case Bool(b) => if b then TRUE_TEXT else FALSE_TEXT
    case Number(d) => NumberText(c, d)
    case String(s) => Quoted(s)
    case Array(vs) => [LBRACKET] + ItemsText(c, vs, format, depth + 1) + [RBRACKET]
    case Object(ms) =>
      ObjectOpen(format) + MembersText(c, ms, format, depth + 1) + ObjectClose(format, depth)
  }

  function ObjectOpen(format: bool): bytes {
    if format then [LBRACE, NEWLINE] else [LBRACE]
  }

  function ObjectClose(format: bool, depth: nat): bytes {
    (if format then Tabs(depth) else []) + [RBRACE]
  }

  function ItemSeparator(format: bool): bytes {
    if format then [COMMA, SPACE] else [COMMA]
  }

  function ItemsText(c: Libc, vs: seq<Value>, format: bool, depth: nat): bytes
    decreases vs
  {
    if vs == [] then []
    else Text(c, vs[0], format, depth)
         + (if |vs| > 1 then ItemSeparator(format) else [])
         + ItemsText(c, vs[1..], format, depth)
  }

  function KeyText(key: bytes, format: bool, depth: nat): bytes {
    (if format then Tabs(depth) else []) + Quoted(key) + (if format then [COLON, TAB] else [COLON])
  }

  function MemberEnd(last: bool, format: bool): bytes {
    (if last then [] else [COMMA]) + (if format then [NEWLINE] else [])
  }

  function MembersText(c: Libc, ms: seq<Member>, format: bool, depth: nat): bytes
    decreases ms
  {
    if ms == [] then []
    else KeyText(ms[0].key, format, depth)
         + Text(c, ms[0].value, format, depth)
         + MemberEnd(|ms| == 1, format)
         + MembersText(c, ms[1..], format, depth)
  }

  // ---------- which values can be printed and read back ----------

  predicate NumberByte(b: byte) {
    ZERO <= b <= NINE || b == PLUS || b == MINUS || b == DOT || b == 101 || b == 69
  }

  /** The number's text fits print_number's 26-byte buffer, is made of number bytes, and strtod
      reads all of it back as the same number. */
  predicate ReadsBack(c: Libc, d: real) {
    var t := NumberText(c, d);
    && 0 < |t| <= 25
    && (t[0] == MINUS || ZERO <= t[0] <= NINE)
    && (forall i :: 0 <= i < |t| ==> NumberByte(t[i]))
    && Strtod(c, t) == (|t|, d)
  }

  /** Strings are C strings, and numbers survive the C library. */
  predicate Printable(c: Libc, v: Value) {
    match v
    case Null => true
    case Bool(_) => true
    case Number(d) => ReadsBack(c, d)
    case String(s) => NUL !in s
    case Array(vs) => forall i :: 0 <= i < |vs| ==> Printable(c, vs[i])
    case Object(ms) => forall i :: 0 <= i < |ms| ==> NUL !in ms[i].key && Printable(c, ms[i].value)
  }

  // ---------- what a decimal text means ----------

  predicate IsDecimal(t: bytes) {
    t != [] && forall i :: 0 <= i < |t| ==> ZERO <= t[i] <= NINE
  }

  /** Each digit counts ten times less than the one in front of it. */
  function DecimalValue(t: bytes): nat
    requires forall i :: 0 <= i < |t| ==> ZERO <= t[i] <= NINE
  {
    if t == [] then 0 else 10 * DecimalValue(t[..|t| - 1]) + (t[|t| - 1] - ZERO)
  }

  /** Decimal digits, perhaps behind a minus sign. */
  predicate IsInteger(t: bytes) {
    IsDecimal(t) || (t != [] && t[0] == MINUS && IsDecimal(t[1..]))
  }

  function IntegerValue(t: bytes): int
    requires IsInteger(t)
  {
    if t[0] == MINUS then -(DecimalValue(t[1..]) as int) else DecimalValue(t)
  }

  /** As short as it can be: no zero in front of another digit. */
  predicate NoLeadingZero(t: bytes) {
    |t| > 1 ==> t[0] != ZERO && (t[0] == MINUS ==> t[1] != ZERO)
  }

  /** What the C standard promises of strtod on decimal integers a double holds exactly. */
  ghost predicate ReadsIntegers(c: Libc) {
    forall t: bytes :: IsInteger(t) && -0x20_0000_0000_0000 <= IntegerValue(t) <= 0x20_0000_0000_0000 ==>
      Strtod(c, t) == (|t|, IntegerValue(t) as real)
  }

  /** There is a C library that keeps the promise, and reads all of every text besides. */
  lemma PromiseKept() returns (c: Libc)
    ensures ReadsIntegers(c) && forall t: bytes :: Strtod(c, t).0 == |t|
  {
    var strtod: imap<bytes, (nat, real)> :=
      imap t: bytes | true :: (|t|, if IsInteger(t) then IntegerValue(t) as real else 0.0);
    c := Libc(strtod, imap[]);
    forall t: bytes
      ensures Strtod(c, t).0 == |t| && (IsInteger(t) ==> Strtod(c, t).1 == IntegerValue(t) as real)
    {
      assert t in c.strtod && c.strtod[t].0 == |t|;
    }
  }

  lemma {:induction false} DigitsMean(n: nat)
    ensures IsDecimal(Digits(n)) && DecimalValue(Digits(n)) == n
    ensures n > 0 ==> Digits(n)[0] != ZERO
  {
    if n >= 10 {
      DigitsMean(n / 10);
      var t := Digits(n);
      assert t[..|t| - 1] == Digits(n / 10) && t[0] == Digits(n / 10)[0];
    } else {
      assert Digits(n)[..0] == [];
    }
  }

  function Pow10(k: nat): nat {
    if k == 0 then 1 else 10 * Pow10(k - 1)
  }

  lemma {:induction false} DigitsLength(n: nat, k: nat)
    requires k > 0 && n < Pow10(k)
    ensures |Digits(n)| <= k
  {
    if n >= 10 {
      assert k > 1;
      DigitsLength(n / 10, k - 1);
    }
  }

  /** The text of an integer is the shortest decimal text that means it. */
  lemma IntegerTextMeans(n: int)
    ensures var t := IntegerText(n); IsInteger(t) && IntegerValue(t) == n && NoLeadingZero(t)
  {
    hide Digits, DecimalValue;
    var m := if n < 0 then -n else n;
    DigitsMean(m);
    if n < 0 {
      assert IntegerText(n)[1..] == Digits(m);
    } else if m == 0 {
      ZeroText();
    }
  }

  lemma ZeroText()
    ensures Digits(0) == [ZERO]
  {
  }

  /** Every number that is an integer an int64_t holds is printed as such a text. */
  lemma IntegersPrinted(c: Libc, n: int)
    requires INT64_MIN <= n <= INT64_MAX && FromInt64(n) == n as real
    ensures var t := NumberText(c, n as real); IsInteger(t) && IntegerValue(t) == n && NoLeadingZero(t)
  {
    assert ToInt64(n as real) == n;
    IntegerTextMeans(n);
  }

  /** A double as an int64_t is the integer next to it toward zero, or the nearest there is. */
  lemma Truncates(d: real)
    ensures var n := ToInt64(d);
      && INT64_MIN <= n <= INT64_MAX
      && (0.0 <= d < INT64_MAX as real + 1.0 ==> n as real <= d < n as real + 1.0)
      && (INT64_MIN as real <= d <= 0.0 ==> n as real - 1.0 < d <= n as real)
      && (d > INT64_MAX as real ==> n == INT64_MAX) && (d < INT64_MIN as real ==> n == INT64_MIN)
  {
  }

  /** The numbers printed as integers are exactly the integers from -2^63 to 2^63, the last as one less;
      2^63 - 1 is not a double. */
  lemma WhichAreIntegers(c: Libc, d: real)
    ensures NumberText(c, d) ==
      if d == d.Floor as real && INT64_MIN <= d.Floor < INT64_MAX then IntegerText(d.Floor)
      else if d == INT64_MAX as real + 1.0 then IntegerText(INT64_MAX)
      else FormatReal(c, d)
  {
    hide IntegerText, FormatReal;
    if d == d.Floor as real && INT64_MIN <= d.Floor < INT64_MAX {
      assert ToInt64(d) == d.Floor;
    } else if INT64_MIN as real < d < INT64_MAX as real {
      var n := ToInt64(d);
      assert n as real != d && n != INT64_MAX;
    }
  }

  /** Every integer of magnitude up to 2^53 prints as the decimal text that means it and is read back. */
  lemma IntegersReadBack(c: Libc, n: int)
    requires ReadsIntegers(c)
    requires -0x20_0000_0000_0000 <= n <= 0x20_0000_0000_0000
    ensures var t := NumberText(c, n as real); IsInteger(t) && IntegerValue(t) == n && NoLeadingZero(t)
    ensures ReadsBack(c, n as real)
  {
    assert ToInt64(n as real) == n;
    IntegersPrinted(c, n);
    var m := if n < 0 then -n else n;
    assert Pow10(17) == 100000000000000000 by {
      assert Pow10(4) == 10000;
      assert Pow10(8) == 100000000;
      assert Pow10(12) == 1000000000000;
      assert Pow10(16) == 10000000000000000;
    }
    DigitsLength(m, 17);
    var t := IntegerText(n);
    var g := Digits(m);
    assert t == if n < 0 then [MINUS] + g else g;
    assert Strtod(c, t) == (|t|, n as real);
  }

  /** Values of NUL-free strings and integers of magnitude up to 2^53. */
  predicate Integral(v: Value) {
    match v
    case Null => true
    case Bool(_) => true
    case Number(d) => d == d.Floor as real && -0x20_0000_0000_0000 as real <= d <= 0x20_0000_0000_0000 as real
    case String(s) => NUL !in s
    case Array(vs) => forall i :: 0 <= i < |vs| ==> Integral(vs[i])
    case Object(ms) => forall i :: 0 <= i < |ms| ==> NUL !in ms[i].key && Integral(ms[i].value)
  }

  /** They can be printed and read back, whatever else the C library does. */
  lemma {:induction false} IntegralPrintable(c: Libc, v: Value)
    requires ReadsIntegers(c) && Integral(v)
    ensures Printable(c, v)
    decreases v
  {
    hide ReadsIntegers, ReadsBack;
    if v.Number? {
      IntegersReadBack(c, v.d.Floor);
    } else if v.Array? {
      forall i | 0 <= i < |v.items| ensures Printable(c, v.items[i]) {
        IntegralPrintable(c, v.items[i]);
      }
    } else if v.Object? {
      forall i | 0 <= i < |v.members| ensures Printable(c, v.members[i].value) {
        IntegralPrintable(c, v.members[i].value);
      }
    }
  }
}
