/** What the parser accepts, as pure functions over the input that follow it branch by branch. */
module JsonRead {
  import opened Bytes
  import opened JsonValue
  import JsonString
  import T = JsonText

  function SkipRun(s: bytes, off: nat): (r: nat)
    requires off <= |s|
    ensures off <= r <= |s|
    ensures r < |s| ==> s[r] > 32
    decreases |s| - off
  {
    if off < |s| && s[off] <= 32 then SkipRun(s, off + 1) else off
  }

  /** buffer_skip_whitespace: it steps back onto the last byte when everything was skipped. */
  function Skip(s: bytes, off: nat): (r: nat)
    requires off <= |s|
    ensures off <= r <= |s|
    ensures off < |s| ==> r < |s|
  {
    if off == |s| then off
    else
      var r := SkipRun(s, off);
      if r == |s| then r - 1 else r
  }

  predicate IsAt(s: bytes, off: nat, b: byte) {
    off < |s| && s[off] == b
  }

  /** The bytes parse_number copies for strtod: number bytes, at most n of them. */
  function NumberRun(s: bytes, off: nat, n: nat): (r: bytes)
    ensures |r| <= n && off + |r| <= Max(off, |s|)
    decreases n
  {
    if n == 0 || off >= |s| || !T.NumberByte(s[off]) then [] else [s[off]] + NumberRun(s, off + 1, n - 1)
  }

  type Read<T> = Option<(T, nat)>

  function ReadNumber(c: Libc, s: bytes, off: nat): (r: Read<real>)
    ensures r.Some? ==> off < r.value.1 <= Max(off, |s|)
  {
    var run := NumberRun(s, off, 63);
    var (n, d) := Strtod(c, run);
    if n == 0 then None else Some((d, off + n))
  }

  /** parse_value at off with depth containers open: the value and the offset behind it. */
  function ReadValue(c: Libc, s: bytes, off: nat, depth: nat): (r: Read<Value>)
    requires off <= |s|
    ensures r.Some? ==> off < r.value.1 <= |s|
    decreases |s| - off, 3
  {
    if At(s, off, T.NULL_TEXT) then Some((Null, off + 4))
    else if At(s, off, T.FALSE_TEXT) then Some((Bool(false), off + 5))
    else if At(s, off, T.TRUE_TEXT) then Some((Bool(true), off + 4))
    else if IsAt(s, off, QUOTE) then
      match JsonString.ReadString(s, off)
      case None => None
      case Some((str, e)) => Some((String(str), e))
    else if off < |s| && (s[off] == MINUS || ZERO <= s[off] <= NINE) then
      match ReadNumber(c, s, off)
      case None => None
      case Some((d, e)) => Some((Number(d), e))
    else if IsAt(s, off, LBRACKET) then ReadArray(c, s, off, depth)
    else if IsAt(s, off, LBRACE) then ReadObject(c, s, off, depth)
    else None
  }

  function ReadArray(c: Libc, s: bytes, off: nat, depth: nat): (r: Read<Value>)
    requires IsAt(s, off, LBRACKET)
    ensures r.Some? ==> off < r.value.1 <= |s|
    decreases |s| - off, 1
  {
    var first := Skip(s, off + 1);
    if depth >= NESTING_LIMIT || first == |s| then None
    else if s[first] == RBRACKET then Some((Array([]), first + 1))
    else
      match ReadItems(c, s, first - 1, depth + 1)
      case None => None
      case Some((vs, e)) => Some((Array(vs), e + 1))
  }

  /** The do loop of parse_array; off is the byte in front of the next element, and the result's
      offset is that of the closing bracket. */
  function ReadItems(c: Libc, s: bytes, off: nat, depth: nat): (r: Read<seq<Value>>)
    requires off < |s|
    ensures r.Some? ==> off < r.value.1 < |s|
    decreases |s| - off, 0
  {
    match ReadValue(c, s, Skip(s, off + 1), depth)
    case None => None
    case Some((v, e)) =>
      var f := Skip(s, e);
      if IsAt(s, f, COMMA) then ItemsBehind([v], ReadItems(c, s, f, depth))
      else if IsAt(s, f, RBRACKET) then Some(([v], f))
      else None
  }

  function ItemsBehind<T>(done: seq<T>, rest: Read<seq<T>>): (r: Read<seq<T>>)
    ensures r.Some? <==> rest.Some?
    ensures r.Some? ==> r.value.1 == rest.value.1
  {
    match rest
    case None => None
    case Some((vs, e)) => Some((done + vs, e))
  }

  lemma BehindTwice<T>(a: seq<T>, b: seq<T>, rest: Read<seq<T>>)
    ensures ItemsBehind(a, ItemsBehind(b, rest)) == ItemsBehind(a + b, rest)
    ensures ItemsBehind([], rest) == rest
  {
    if rest.Some? {
      assert a + (b + rest.value.0) == a + b + rest.value.0;
      assert [] + rest.value.0 == rest.value.0;
    }
  }

  function ReadObject(c: Libc, s: bytes, off: nat, depth: nat): (r: Read<Value>)
    requires IsAt(s, off, LBRACE)
    ensures r.Some? ==> off < r.value.1 <= |s|
    decreases |s| - off, 2
  {
    var first := Skip(s, off + 1);
    if depth >= NESTING_LIMIT || first == |s| then None
    else if s[first] == RBRACE then Some((Object([]), first + 1))
    else
      match ReadMembers(c, s, first - 1, depth + 1)
      case None => None
      case Some((ms, e)) => Some((Object(ms), e + 1))
  }

  /** One key, colon and value of parse_object's loop; the result's offset is behind the value and
      the space that follows it. */
  function ReadMember(c: Libc, s: bytes, off: nat, depth: nat): (r: Read<Member>)
    requires off < |s|
    ensures r.Some? ==> off < r.value.1 <= |s|
    decreases |s| - off, 0
  {
    match JsonString.ReadString(s, Skip(s, off + 1))
    case None => None
    case Some((key, k)) =>
      var colon := Skip(s, k);
      if !IsAt(s, colon, COLON) then None
      else
        match ReadValue(c, s, Skip(s, colon + 1), depth)
        case None => None
        case Some((v, e)) => Some((Member(key, v), Skip(s, e)))
  }

  function ReadMembers(c: Libc, s: bytes, off: nat, depth: nat): (r: Read<seq<Member>>)
    requires off < |s|
    ensures r.Some? ==> off < r.value.1 < |s|
    decreases |s| - off, 1
  {
    match ReadMember(c, s, off, depth)
    case None => None
    case Some((m, f)) =>
      if IsAt(s, f, COMMA) then ItemsBehind([m], ReadMembers(c, s, f, depth))
      else if IsAt(s, f, RBRACE) then Some(([m], f))
      else None
  }

  const BOM: bytes := [0xEF, 0xBB, 0xBF]

  /** cJSON_Parse of the C string text: the NUL belongs to the buffer, and whatever follows the
      first value is not looked at. */
  function Parse(c: Libc, text: bytes): Read<Value> {
    var s := text + [NUL];
    var start := if 4 < |s| && At(s, 0, BOM) then 3 else 0;
    ReadValue(c, s, Skip(s, start), 0)
  }
}
