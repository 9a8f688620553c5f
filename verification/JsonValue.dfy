/** The abstract value a cJSON tree stands for, and the C library calls its numbers go through. */
module JsonValue {
  import opened Bytes

  datatype Value =
    | Null
    | Bool(b: bool)
    | Number(d: real)
    | String(s: bytes)
    | Array(items: seq<Value>)
    | Object(members: seq<Member>)

  datatype Member = Member(key: bytes, value: Value)

  /** The C library as two tables: strtod says how many bytes of a string it reads and as which
      number, format is the %1.15g or %1.17g text of a number. */
  datatype Libc = Libc(strtod: imap<bytes, (nat, real)>, format: imap<real, bytes>)

  /** strtod never reads past the end of its string; 0 bytes read is its failure. */
  function Strtod(c: Libc, run: bytes): (r: (nat, real))
    ensures r.0 <= |run|
  {
    if run in c.strtod && c.strtod[run].0 <= |run| then c.strtod[run] else (0, 0.0)
  }

  function FormatReal(c: Libc, d: real): bytes {
    if d in c.format then c.format[d] else []
  }

  const NESTING_LIMIT: nat := 1000

  /** How deeply arrays and objects are nested. */
  function Depth(v: Value): nat {
    match v
    case Array(vs) => 1 + ItemsDepth(vs)
    case Object(ms) => 1 + MembersDepth(ms)
    case _ => 0
  }

  function ItemsDepth(vs: seq<Value>): (r: nat)
    ensures forall i :: 0 <= i < |vs| ==> Depth(vs[i]) <= r
  {
    if vs == [] then 0 else Max(Depth(vs[0]), ItemsDepth(vs[1..]))
  }

  function MembersDepth(ms: seq<Member>): (r: nat)
    ensures forall i :: 0 <= i < |ms| ==> Depth(ms[i].value) <= r
  {
    if ms == [] then 0 else Max(Depth(ms[0].value), MembersDepth(ms[1..]))
  }

  function Max(a: nat, b: nat): nat {
    if a < b then b else a
  }
}
