/** When cJSON_Compare calls two values equal, and that this is equality up to the order of
    object members. */
module JsonEquality {
  import opened Bytes
  import opened JsonValue

  // ---------- lookup ----------

  /** tolower in the C locale. */
  function Lower(b: byte): byte {
    if 65 <= b <= 90 then b + 32 else b
  }

  predicate SameKey(a: bytes, b: bytes, caseSensitive: bool) {
    if caseSensitive then a == b
    else |a| == |b| && forall i :: 0 <= i < |a| ==> Lower(a[i]) == Lower(b[i])
  }

  /** The same byte, or the two cases of one letter. */
  predicate SameLetter(a: byte, b: byte) {
    a == b || (65 <= a <= 90 && b == a + 32) || (65 <= b <= 90 && a == b + 32)
  }

  /** Ignoring case, two names are the same exactly when they are so letter by letter. */
  lemma SameButForCase(a: bytes, b: bytes)
    ensures SameKey(a, b, false) <==> |a| == |b| && forall i :: 0 <= i < |a| ==> SameLetter(a[i], b[i])
  {
    if |a| == |b| {
      forall i | 0 <= i < |a| ensures Lower(a[i]) == Lower(b[i]) <==> SameLetter(a[i], b[i]) {
      }
    }
  }

  /** get_object_item: the first member of that name. */
  function Find(ms: seq<Member>, name: bytes, caseSensitive: bool): (r: Option<nat>)
    ensures r == None ==> forall i :: 0 <= i < |ms| ==> !SameKey(name, ms[i].key, caseSensitive)
    ensures r.Some? ==> r.value < |ms| && SameKey(name, ms[r.value].key, caseSensitive)
    ensures r.Some? ==> forall i :: 0 <= i < r.value ==> !SameKey(name, ms[i].key, caseSensitive)
  {
    if ms == [] then None
    else if SameKey(name, ms[0].key, caseSensitive) then Some(0)
    else
      match Find(ms[1..], name, caseSensitive)
      case None => None
      case Some(k) => Some(k + 1)
  }

  // ---------- what cJSON_Compare computes ----------

  function Abs(d: real): real {
    if d < 0.0 then -d else d
  }

  /** compare_double, with DBL_EPSILON as 2^-52 and multiplied out. */
  predicate CloseEnough(a: real, b: real) {
    var max := if Abs(a) > Abs(b) then Abs(a) else Abs(b);
    Abs(a - b) * 0x10_0000_0000_0000 as real <= max
  }

  /** Two numbers compare equal if and only if one is the other made smaller by at most one part in 2^52. */
  lemma CloseMeans(a: real, b: real)
    ensures CloseEnough(a, b) <==> exists part: real :: MadeSmaller(a, b, part) || MadeSmaller(b, a, part)
  {
    forall part: real | MadeSmaller(a, b, part) ensures CloseEnough(a, b) {
      SmallerIsClose(a, b, part);
    }
    forall part: real | MadeSmaller(b, a, part) ensures CloseEnough(a, b) {
      SmallerIsClose(b, a, part);
    }
    if CloseEnough(a, b) {
      if Abs(a) >= Abs(b) {
        var part := CloseIsSmaller(a, b);
      } else {
        var part := CloseIsSmaller(b, a);
      }
    }
  }

  /** b is a but for that part of it. */
  predicate MadeSmaller(a: real, b: real, part: real) {
    0.0 <= part * 0x10_0000_0000_0000 as real <= 1.0 && b == a - a * part
  }

  lemma SmallerIsClose(a: real, b: real, part: real)
    requires MadeSmaller(a, b, part)
    ensures CloseEnough(a, b) && CloseEnough(b, a)
  {
    PartOf(a, part, 0x10_0000_0000_0000 as real);
  }

  /** A part of a, taken e times, is still no more than a. */
  lemma PartOf(a: real, part: real, e: real)
    requires e > 0.0 && 0.0 <= part * e <= 1.0
    ensures Abs(a * part) * e <= Abs(a)
  {
    assert part >= 0.0;
    if a >= 0.0 {
      Times(a, part, e);
    } else {
      Times(-a, part, e);
      assert a * part == -(-a * part);
    }
  }

  lemma Times(m: real, part: real, e: real)
    requires m >= 0.0 && part >= 0.0 && part * e <= 1.0
    ensures m * part >= 0.0 && m * part * e <= m
  {
    assert m * (part * e) <= m;
    assert m * (part * e) == m * part * e;
  }

  lemma CloseIsSmaller(a: real, b: real) returns (part: real)
    requires CloseEnough(a, b) && Abs(a) >= Abs(b)
    ensures MadeSmaller(a, b, part)
  {
    var e := 0x10_0000_0000_0000 as real;
    if a == 0.0 {
      part := 0.0;
    } else {
      part := (a - b) / a;
      assert a * part == a - b;
      SamePart(a, b, part, e);
    }
  }

  lemma SamePart(a: real, b: real, part: real, e: real)
    requires a != 0.0 && Abs(a) >= Abs(b) && a * part == a - b && e > 2.0 && Abs(a - b) * e <= Abs(a)
    ensures 0.0 <= part * e <= 1.0
  {
    if a > 0.0 {
      assert a - b >= 0.0 && a * (part * e) == (a - b) * e <= a;
    } else {
      assert a - b <= 0.0 && -a * (part * e) == (b - a) * e <= -a;
    }
  }

  predicate CompareValues(a: Value, b: Value, caseSensitive: bool)
    decreases Depth(a) + Depth(b), 1
  {
    if a.Number? && b.Number? then CloseEnough(a.d, b.d)
    else if a.Array? && b.Array? then
      && |a.items| == |b.items|
      && forall i :: 0 <= i < |a.items| ==> CompareValues(a.items[i], b.items[i], caseSensitive)
    else if a.Object? && b.Object? then
      && CompareMembers(a.members, b.members, caseSensitive)
      && CompareMembers(b.members, a.members, caseSensitive)
    else a == b
  }

  /** Each member of ms is found in ns by name and compares equal to what is found. */
  predicate CompareMembers(ms: seq<Member>, ns: seq<Member>, caseSensitive: bool)
    decreases Depth(Object(ms)) + Depth(Object(ns)), 0
  {
    forall i :: 0 <= i < |ms| ==>
      var j := Find(ns, ms[i].key, caseSensitive);
      j.Some? && CompareValues(ms[i].value, ns[j.value].value, caseSensitive)
  }

  // ---------- equality up to member order ----------

  /** Values with the order of object members forgotten. */
  datatype Normal =
    | NNull
    | NBool(b: bool)
    | NNumber(d: real)
    | NString(s: bytes)
    | NArray(items: seq<Normal>)
    | NObject(members: map<bytes, Normal>)

  function Normalize(v: Value): Normal
    decreases v
  {
    match v
    case Null => NNull
    case Bool(b) => NBool(b)
    case Number(d) => NNumber(d)
    case String(s) => NString(s)
    case Array(vs) => NArray(NormalItems(vs))
    case Object(ms) => NObject(NormalMembers(ms))
  }

  function NormalItems(vs: seq<Value>): (r: seq<Normal>)
    ensures |r| == |vs| && forall i :: 0 <= i < |vs| ==> r[i] == Normalize(vs[i])
    decreases vs
  {
    if vs == [] then [] else [Normalize(vs[0])] + NormalItems(vs[1..])
  }

  function NormalMembers(ms: seq<Member>): (r: map<bytes, Normal>)
    ensures forall i :: 0 <= i < |ms| ==> ms[i].key in r
    ensures forall k :: k in r ==> exists i :: 0 <= i < |ms| && ms[i].key == k && r[k] == Normalize(ms[i].value)
    decreases ms
  {
    if ms == [] then map[]
    else
      var rest := NormalMembers(ms[1..]);
      var r := rest[ms[0].key := Normalize(ms[0].value)];
      assert forall i :: 0 <= i < |ms| ==> ms[i].key in r by {
        forall i | 0 <= i < |ms| ensures ms[i].key in r {
          if i > 0 {
            assert ms[1..][i - 1].key in rest;
          }
        }
      }
      assert forall k :: k in r ==> exists i :: 0 <= i < |ms| && ms[i].key == k && r[k] == Normalize(ms[i].value) by {
        forall k | k in r ensures exists i :: 0 <= i < |ms| && ms[i].key == k && r[k] == Normalize(ms[i].value) {
          if k == ms[0].key {
            assert ms[0].key == k;
          } else {
            var i :| 0 <= i < |ms[1..]| && ms[1..][i].key == k && rest[k] == Normalize(ms[1..][i].value);
            assert ms[i + 1].key == k;
          }
        }
      }
      r
  }

  predicate UniqueKeys(ms: seq<Member>) {
    forall i, j :: 0 <= i < j < |ms| ==> ms[i].key != ms[j].key
  }

  /** No object anywhere in v has two members of one name. */
  predicate DistinctKeys(v: Value) {
    match v
    case Array(vs) => forall i :: 0 <= i < |vs| ==> DistinctKeys(vs[i])
    case Object(ms) => UniqueKeys(ms) && forall i :: 0 <= i < |ms| ==> DistinctKeys(ms[i].value)
    case _ => true
  }

  /** All numbers are integers of magnitude below 2^52, where compare_double is exact. */
  predicate SmallIntegers(v: Value) {
    match v
    case Number(d) => d == d.Floor as real && Abs(d) < 0x10_0000_0000_0000 as real
    case Array(vs) => forall i :: 0 <= i < |vs| ==> SmallIntegers(vs[i])
    case Object(ms) => forall i :: 0 <= i < |ms| ==> SmallIntegers(ms[i].value)
    case _ => true
  }

  lemma SmallIntegersExact(a: real, b: real)
    requires SmallIntegers(Number(a)) && SmallIntegers(Number(b))
    ensures CloseEnough(a, b) <==> a == b
  {
    var max := if Abs(a) > Abs(b) then Abs(a) else Abs(b);
    if a == b {
      assert Abs(a - b) == 0.0 <= max;
    } else {
      assert a.Floor != b.Floor;
      assert Abs(a - b) >= 1.0;
      assert Abs(a - b) * 0x10_0000_0000_0000 as real >= 0x10_0000_0000_0000 as real > max;
    }
  }

  // ---------- what cJSON_Compare decides ----------

  /** Members of one name anywhere in v are equal up to member order. */
  predicate Consistent(v: Value) {
    match v
    case Array(vs) => forall i :: 0 <= i < |vs| ==> Consistent(vs[i])
    case Object(ms) => Covered(ms, ms) && forall i :: 0 <= i < |ms| ==> Consistent(ms[i].value)
    case _ => true
  }

  /** Every member of ms has an equal one of the same name in ns, which is the first of that name. */
  predicate Covered(ms: seq<Member>, ns: seq<Member>) {
    forall i :: 0 <= i < |ms| ==>
      ms[i].key in NormalMembers(ns) && NormalMembers(ns)[ms[i].key] == Normalize(ms[i].value)
  }

  predicate ConsistentMembers(ms: seq<Member>) {
    forall i :: 0 <= i < |ms| ==> Consistent(ms[i].value)
  }

  lemma NormalMembersIs(ms: seq<Member>)
    requires ms != []
    ensures NormalMembers(ms) == NormalMembers(ms[1..])[ms[0].key := Normalize(ms[0].value)]
  {
  }

  /** The map of an object has what a lookup finds. */
  lemma {:induction false} FindNormal(ms: seq<Member>, k: bytes)
    ensures var j := Find(ms, k, true);
      (j.Some? <==> k in NormalMembers(ms)) && (j.Some? ==> NormalMembers(ms)[k] == Normalize(ms[j.value].value))
  {
    hide Normalize;
    if ms != [] {
      FindNormal(ms[1..], k);
      NormalMembersIs(ms);
      hide NormalMembers;
      assert SameKey(k, ms[0].key, true) <==> k == ms[0].key;
    }
  }

  /** cJSON_Compare, case-sensitively, decides equality up to member order at every level, for any
      values in which members of one name are equal; with others it never holds. */
  lemma {:induction false} CompareDecides(a: Value, b: Value)
    requires SmallIntegers(a) && SmallIntegers(b)
    ensures CompareValues(a, b, true) <==> Consistent(a) && Consistent(b) && Normalize(a) == Normalize(b)
    decreases Depth(a) + Depth(b), 2
  {
    if a.Number? && b.Number? {
      SmallIntegersExact(a.d, b.d);
    } else if a.Array? && b.Array? {
      ArraysDecide(a.items, b.items);
    } else if a.Object? && b.Object? {
      ObjectsDecide(a.members, b.members);
    }
  }

  lemma {:induction false} ArraysDecide(vs: seq<Value>, ws: seq<Value>)
    requires SmallIntegers(Array(vs)) && SmallIntegers(Array(ws))
    ensures var a, b := Array(vs), Array(ws);
      CompareValues(a, b, true) <==> Consistent(a) && Consistent(b) && Normalize(a) == Normalize(b)
    decreases Depth(Array(vs)) + Depth(Array(ws)), 0
  {
    if |vs| == |ws| {
      forall i | 0 <= i < |vs|
        ensures CompareValues(vs[i], ws[i], true)
          <==> Consistent(vs[i]) && Consistent(ws[i]) && NormalItems(vs)[i] == NormalItems(ws)[i]
      {
        CompareDecides(vs[i], ws[i]);
      }
    }
  }

  lemma {:induction false} ObjectsDecide(ms: seq<Member>, ns: seq<Member>)
    requires SmallIntegers(Object(ms)) && SmallIntegers(Object(ns))
    ensures var a, b := Object(ms), Object(ns);
      CompareValues(a, b, true) <==> Consistent(a) && Consistent(b) && Normalize(a) == Normalize(b)
    decreases Depth(Object(ms)) + Depth(Object(ns)), 1
  {
    hide CompareMembers, NormalMembers, Covered;
    MembersDecide(ms, ns);
    MembersDecide(ns, ms);
    CoveredBothWays(ms, ns);
  }

  lemma {:induction false} MembersDecide(ms: seq<Member>, ns: seq<Member>)
    requires SmallIntegers(Object(ms)) && SmallIntegers(Object(ns))
    ensures CompareMembers(ms, ns, true) ==> ConsistentMembers(ms) && Covered(ms, ns)
    ensures ConsistentMembers(ms) && ConsistentMembers(ns) && Covered(ms, ns) ==> CompareMembers(ms, ns, true)
    decreases Depth(Object(ms)) + Depth(Object(ns)), 0
  {
    hide NormalMembers, Consistent;
    forall i | 0 <= i < |ms|
      ensures var j, k := Find(ns, ms[i].key, true), ms[i].key;
        && (j.Some? <==> k in NormalMembers(ns))
        && (j.Some? ==> NormalMembers(ns)[k] == Normalize(ns[j.value].value))
        && (j.Some? ==> (CompareValues(ms[i].value, ns[j.value].value, true) <==>
              && Consistent(ms[i].value) && Consistent(ns[j.value].value)
              && NormalMembers(ns)[k] == Normalize(ms[i].value)))
    {
      var j := Find(ns, ms[i].key, true);
      FindNormal(ns, ms[i].key);
      if j.Some? {
        CompareDecides(ms[i].value, ns[j.value].value);
      }
    }
  }

  lemma CoveredBothWays(ms: seq<Member>, ns: seq<Member>)
    ensures Covered(ms, ns) && Covered(ns, ms)
      <==> Covered(ms, ms) && Covered(ns, ns) && NormalMembers(ms) == NormalMembers(ns)
  {
    if Covered(ms, ns) && Covered(ns, ms) {
      CoveredInto(ms, ns);
      CoveredInto(ns, ms);
      assert NormalMembers(ms) == NormalMembers(ns);
    }
  }

  lemma CoveredInto(ms: seq<Member>, ns: seq<Member>)
    requires Covered(ms, ns)
    ensures forall k :: k in NormalMembers(ms) ==>
      k in NormalMembers(ns) && NormalMembers(ms)[k] == NormalMembers(ns)[k]
  {
    var m, n := NormalMembers(ms), NormalMembers(ns);
    hide Normalize, NormalMembers;
    forall k | k in m ensures k in n && m[k] == n[k] {
      var i :| 0 <= i < |ms| && ms[i].key == k && m[k] == Normalize(ms[i].value);
      assert ms[i].key in n;
    }
  }

  /** A value compares equal to itself exactly when members of one name are equal in it. */
  lemma ComparesToItself(v: Value)
    requires SmallIntegers(v)
    ensures CompareValues(v, v, true) <==> Consistent(v)
  {
    CompareDecides(v, v);
  }

  // ---------- values with distinct keys ----------

  /** With unique keys a member is found under its own name, and its normal form is the map's. */
  lemma {:induction false} MemberNormal(ms: seq<Member>, i: nat)
    requires UniqueKeys(ms) && i < |ms|
    ensures Find(ms, ms[i].key, true) == Some(i)
    ensures ms[i].key in NormalMembers(ms) && NormalMembers(ms)[ms[i].key] == Normalize(ms[i].value)
  {
    hide Normalize, NormalMembers, Find;
    FindNormal(ms, ms[i].key);
  }

  lemma {:induction false} DistinctIsConsistent(v: Value)
    requires DistinctKeys(v)
    ensures Consistent(v)
    decreases v
  {
    if v.Array? {
      forall i | 0 <= i < |v.items| ensures Consistent(v.items[i]) {
        DistinctIsConsistent(v.items[i]);
      }
    } else if v.Object? {
      forall i | 0 <= i < |v.members|
        ensures Consistent(v.members[i].value)
        ensures var k, m := v.members[i].key, NormalMembers(v.members); k in m && m[k] == Normalize(v.members[i].value)
      {
        DistinctIsConsistent(v.members[i].value);
        MemberNormal(v.members, i);
      }
    }
  }

  lemma CompareDecidesEquality(a: Value, b: Value)
    requires DistinctKeys(a) && DistinctKeys(b) && SmallIntegers(a) && SmallIntegers(b)
    ensures CompareValues(a, b, true) <==> Normalize(a) == Normalize(b)
  {
    DistinctIsConsistent(a);
    DistinctIsConsistent(b);
    CompareDecides(a, b);
  }

  lemma SameEntry(ms: seq<Member>, ns: seq<Member>, k: bytes)
    requires UniqueKeys(ms) && multiset(ms) == multiset(ns) && k in NormalMembers(ns)
    ensures k in NormalMembers(ms) && NormalMembers(ms)[k] == NormalMembers(ns)[k]
  {
    hide Normalize, NormalMembers, UniqueKeys;
    var j :| 0 <= j < |ns| && ns[j].key == k && NormalMembers(ns)[k] == Normalize(ns[j].value);
    assert ns[j] in multiset(ns);
    var i :| 0 <= i < |ms| && ms[i] == ns[j];
    MemberNormal(ms, i);
  }

  lemma {:induction false} SameKeyThere(ms: seq<Member>, ns: seq<Member>, k: bytes)
    requires multiset(ms) == multiset(ns) && k in NormalMembers(ms)
    ensures k in NormalMembers(ns)
  {
    hide Normalize, NormalMembers;
    var i :| 0 <= i < |ms| && ms[i].key == k;
    assert ms[i] in multiset(ms);
    var j :| 0 <= j < |ns| && ns[j] == ms[i];
  }

  /** Reordering an object's members does not change its normal form. */
  lemma ReorderingKeepsNormal(ms: seq<Member>, ns: seq<Member>)
    requires UniqueKeys(ms) && multiset(ms) == multiset(ns)
    ensures Normalize(Object(ms)) == Normalize(Object(ns))
  {
    hide NormalMembers, UniqueKeys;
    var m, n := NormalMembers(ms), NormalMembers(ns);
    forall k | k in n ensures k in m && m[k] == n[k] {
      SameEntry(ms, ns, k);
    }
    forall k | k in m ensures k in n {
      SameKeyThere(ms, ns, k);
    }
    assert m == n;
  }

  /** Any value with distinct keys compares equal to itself, whatever its numbers. */
  lemma {:induction false} CompareReflexive(v: Value)
    requires DistinctKeys(v)
    ensures CompareValues(v, v, true)
    decreases v
  {
    if v.Array? {
      forall i | 0 <= i < |v.items| ensures CompareValues(v.items[i], v.items[i], true) {
        CompareReflexive(v.items[i]);
      }
    } else if v.Object? {
      forall i | 0 <= i < |v.members|
        ensures Find(v.members, v.members[i].key, true) == Some(i)
        ensures CompareValues(v.members[i].value, v.members[i].value, true)
      {
        MemberNormal(v.members, i);
        CompareReflexive(v.members[i].value);
      }
    }
  }

  /** Without distinct keys it may not: only the first member of a name is ever looked at. */
  lemma RepeatedKeyDiffersFromItself(key: bytes, x: bool)
    ensures var v := Object([Member(key, Bool(x)), Member(key, Bool(!x))]);
            !CompareValues(v, v, true)
  {
    var ms := [Member(key, Bool(x)), Member(key, Bool(!x))];
    assert Find(ms, ms[1].key, true) == Some(0);
    assert !CompareValues(ms[1].value, ms[0].value, true);
  }
}
