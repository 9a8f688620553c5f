/** cJSON_Compare and the lookup it uses, on trees in the heap. */
module JsonCompare {
  import opened Bytes
  import opened JsonValue
  import opened JsonNode
  import opened JsonTree
  import opened JsonEquality
  import JsonDuplicate

  // ---------- lookup ----------

  ghost function Names(ns: seq<Node>): (r: seq<Option<bytes>>)
    reads ns`key
    ensures |r| == |ns| && forall i :: 0 <= i < |ns| ==> r[i] == ns[i].key
  {
    if ns == [] then [] else [ns[0].key] + Names(ns[1..])
  }

  /** Whether a child has that name; one without a name has none. */
  predicate Named(key: Option<bytes>, name: bytes, caseSensitive: bool) {
    key.Some? && SameKey(name, key.value, caseSensitive)
  }

  /** The child at k is the first of that name, and with case no child before it is without one. */
  ghost predicate FirstNamed(names: seq<Option<bytes>>, name: bytes, caseSensitive: bool, k: nat) {
    && k < |names| && Named(names[k], name, caseSensitive)
    && forall i :: 0 <= i < k ==> !Named(names[i], name, caseSensitive) && (caseSensitive ==> names[i].Some?)
  }

  ghost function FindNamed(names: seq<Option<bytes>>, name: bytes, caseSensitive: bool): (r: Option<nat>)
    ensures r.Some? ==> FirstNamed(names, name, caseSensitive, r.value)
    ensures r == None ==> forall k: nat :: !FirstNamed(names, name, caseSensitive, k)
  {
    if exists k: nat :: FirstNamed(names, name, caseSensitive, k) then
      var k: nat :| FirstNamed(names, name, caseSensitive, k);
      Some(k)
    else None
  }

  lemma FoundFirst(names: seq<Option<bytes>>, name: bytes, caseSensitive: bool, k: nat)
    requires FirstNamed(names, name, caseSensitive, k)
    ensures FindNamed(names, name, caseSensitive) == Some(k)
  {
  }

  lemma FoundNone(names: seq<Option<bytes>>, name: bytes, caseSensitive: bool, k: nat)
    requires k <= |names| && forall i :: 0 <= i < k ==> !Named(names[i], name, caseSensitive)
    requires k < |names| ==> caseSensitive && names[k] == None
    ensures FindNamed(names, name, caseSensitive) == None
  {
  }

  /** get_object_item: walks the children until the name matches; with case, until one has none. */
  method GetObjectItem(parent: Node?, name: Option<bytes>, caseSensitive: bool, ghost ns: seq<Node>) returns (r: Node?)
    requires parent != null ==> Siblings(parent, ns)
    ensures parent == null || name == None ==> r == null
    ensures parent != null && name.Some? ==>
      match FindNamed(Names(ns), name.value, caseSensitive)
      case None => r == null
      case Some(k) => r == ns[k]
  {
    hide SameKey, FindNamed, FirstNamed;
    if parent == null || name == None {
      return null;
    }
    ghost var k, names := 0, Names(ns);
    r := parent.child;
    while r != null && (caseSensitive ==> r.key.Some?) && !Named(r.key, name.value, caseSensitive)
      invariant k <= |ns| && r == if k < |ns| then ns[k] else null
      invariant forall i :: 0 <= i < k ==>
        !Named(names[i], name.value, caseSensitive) && (caseSensitive ==> names[i].Some?)
      decreases |ns| - k
    {
      r := r.next;
      k := k + 1;
    }
    if r == null || r.key == None {
      FoundNone(names, name.value, caseSensitive, k);
      return null;
    }
    NamedFirst(names, name.value, caseSensitive, k);
  }

  lemma NamedFirst(names: seq<Option<bytes>>, name: bytes, caseSensitive: bool, k: nat)
    requires k < |names| && Named(names[k], name, caseSensitive)
    requires forall i :: 0 <= i < k ==> !Named(names[i], name, caseSensitive) && (caseSensitive ==> names[i].Some?)
    ensures FindNamed(names, name, caseSensitive) == Some(k)
  {
    FoundFirst(names, name, caseSensitive, k);
  }

  /** Among the members of an object, which all have names, it is the one Find gives. */
  lemma FindsMember(t: Tree, v: Value, name: bytes, caseSensitive: bool)
    requires Reps(t, v) && v.Object?
    ensures Siblings(t.root, Roots(t.kids)) && |t.kids| == |v.members|
    ensures FindNamed(Names(Roots(t.kids)), name, caseSensitive) == Find(v.members, name, caseSensitive)
  {
    hide Named, FindNamed, FirstNamed, SameKey, Siblings, Find;
    var names := Names(Roots(t.kids));
    forall i | 0 <= i < |t.kids| ensures names[i] == Some(v.members[i].key) {
      assert Keyed(t.kids[i].root, v, i);
    }
    FindsAmong(names, v.members, name, caseSensitive);
  }

  lemma FindsAmong(names: seq<Option<bytes>>, ms: seq<Member>, name: bytes, caseSensitive: bool)
    requires |names| == |ms| && forall i :: 0 <= i < |ms| ==> names[i] == Some(ms[i].key)
    ensures FindNamed(names, name, caseSensitive) == Find(ms, name, caseSensitive)
  {
    hide SameKey, FindNamed;
    var j := Find(ms, name, caseSensitive);
    if j.Some? {
      NamedFirst(names, name, caseSensitive, j.value);
    } else {
      FoundNone(names, name, caseSensitive, |ms|);
    }
  }

  /** The same on the tree of an object. */
  method GetMember(parent: Node, name: Option<bytes>, caseSensitive: bool, ghost t: Tree, ghost v: Value)
    returns (r: Node?)
    requires t.root == parent && Reps(t, v) && v.Object? && name.Some?
    ensures match Find(v.members, name.value, caseSensitive)
      case None => r == null
      case Some(k) => |t.kids| == |v.members| && r == t.kids[k].root
  {
    hide Reps, Siblings, Find, FindNamed, FirstNamed, Named, Names, Keyed;
    FindsMember(t, v, name.value, caseSensitive);
    r := GetObjectItem(parent, name, caseSensitive, Roots(t.kids));
  }

  // ---------- comparison ----------

  /** When the answer is known from the values alone: the trees share no node, or nothing in one of
      them is a different value of the same name. */
  ghost predicate Decided(ta: Tree, va: Value, tb: Tree, vb: Value, caseSensitive: bool) {
    Nodes(ta) !! Nodes(tb) || (caseSensitive && (DistinctKeys(va) || DistinctKeys(vb)))
  }

  lemma KidsDecided(ta: Tree, va: Value, i: nat, tb: Tree, vb: Value, j: nat, caseSensitive: bool)
    requires i < |ta.kids| == Arity(va) && j < |tb.kids| == Arity(vb)
    ensures Decided(ta, va, tb, vb, caseSensitive) ==>
      Decided(ta.kids[i], Child(va, i), tb.kids[j], Child(vb, j), caseSensitive)
  {
    assert Nodes(ta.kids[i]) <= AllNodes(ta.kids) && Nodes(tb.kids[j]) <= AllNodes(tb.kids);
  }

  lemma DecidedBothWays(ta: Tree, va: Value, tb: Tree, vb: Value, caseSensitive: bool)
    ensures Decided(ta, va, tb, vb, caseSensitive) <==> Decided(tb, vb, ta, va, caseSensitive)
  {
  }

  /** A node compared with itself. */
  lemma {:induction false} SameNode(ta: Tree, va: Value, tb: Tree, vb: Value, caseSensitive: bool)
    requires Reps(ta, va) && Reps(tb, vb) && ta.root == tb.root
    ensures Decided(ta, va, tb, vb, caseSensitive) ==> CompareValues(va, vb, caseSensitive)
  {
    assert ta.root in Nodes(ta) && tb.root in Nodes(tb);
    OneValue(ta, va, tb, vb);
    if caseSensitive && DistinctKeys(va) {
      CompareReflexive(va);
    }
  }

  /** cJSON_Compare. A node equals itself at once; otherwise trees are compared by value. */
  method Compare(a: Node?, b: Node?, caseSensitive: bool, ghost ta: Tree, ghost va: Value, ghost tb: Tree,
                 ghost vb: Value)
    returns (r: bool)
    requires a != null ==> ta.root == a && Reps(ta, va)
    requires b != null ==> tb.root == b && Reps(tb, vb)
    ensures a == null || b == null ==> !r
    ensures a != null && a == b ==> r
    ensures a != null && b != null && Decided(ta, va, tb, vb, caseSensitive) ==>
      r == CompareValues(va, vb, caseSensitive)
    decreases Depth(va) + Depth(vb), 2
  {
    hide Reps, Nodes, Decided;
    if a == null || b == null {
      return false;
    }
    assert allocated(Nodes(ta)) && allocated(AllNodes(ta.kids));
    assert allocated(Nodes(tb)) && allocated(AllNodes(tb.kids));
    NoKids(ta, va);
    NoKids(tb, vb);
    if a.kind != b.kind {
      return false;
    }
    if a == b {
      SameNode(ta, va, tb, vb, caseSensitive);
      return true;
    }
    if a.kind == KNumber {
      return CloseEnough(a.valueDouble, b.valueDouble);
    }
    if a.kind == KString {
      return a.valueString == b.valueString;
    }
    if a.kind == KArray {
      r := CompareArrays(a, b, caseSensitive, ta, va, tb, vb);
      return;
    }
    if a.kind == KObject {
      DecidedBothWays(ta, va, tb, vb, caseSensitive);
      r := CompareObject(a, b, caseSensitive, ta, va, tb, vb);
      if r {
        r := CompareObject(b, a, caseSensitive, tb, vb, ta, va);
      }
      return;
    }
    return true;
  }

  method CompareArrays(a: Node, b: Node, caseSensitive: bool, ghost ta: Tree, ghost va: Value, ghost tb: Tree,
                       ghost vb: Value)
    returns (r: bool)
    requires ta.root == a && Reps(ta, va) && va.Array?
    requires tb.root == b && Reps(tb, vb) && vb.Array?
    ensures Decided(ta, va, tb, vb, caseSensitive) ==> r == CompareValues(va, vb, caseSensitive)
    decreases Depth(va) + Depth(vb), 1
  {
    hide Reps, Nodes, Decided;
    assert allocated(Nodes(ta)) && allocated(AllNodes(ta.kids));
    assert allocated(Nodes(tb)) && allocated(AllNodes(tb.kids));
    NoKids(ta, va);
    NoKids(tb, vb);
    var x, y := a.child, b.child;
    ghost var k := 0;
    while x != null && y != null
      invariant Reps(ta, va) && Reps(tb, vb)
      invariant k <= |ta.kids| == |va.items| && k <= |tb.kids| == |vb.items|
      invariant x == if k < |ta.kids| then ta.kids[k].root else null
      invariant y == if k < |tb.kids| then tb.kids[k].root else null
      invariant Decided(ta, va, tb, vb, caseSensitive) ==>
        forall i :: 0 <= i < k ==> CompareValues(va.items[i], vb.items[i], caseSensitive)
      decreases |ta.kids| - k
    {
      KidLinks(ta, va, k);
      KidLinks(tb, vb, k);
      KidsDecided(ta, va, k, tb, vb, k, caseSensitive);
      var same := Compare(x, y, caseSensitive, ta.kids[k], va.items[k], tb.kids[k], vb.items[k]);
      if !same {
        return false;
      }
      x, y := x.next, y.next;
      k := k + 1;
    }
    return x == y;
  }

  /** One of the two loops over members: everything in a is looked up in b. */
  method CompareObject(a: Node, b: Node, caseSensitive: bool, ghost ta: Tree, ghost va: Value, ghost tb: Tree,
                       ghost vb: Value)
    returns (r: bool)
    requires ta.root == a && Reps(ta, va) && va.Object?
    requires tb.root == b && Reps(tb, vb) && vb.Object?
    ensures Decided(ta, va, tb, vb, caseSensitive) ==> r == CompareMembers(va.members, vb.members, caseSensitive)
    decreases Depth(va) + Depth(vb), 1
  {
    hide Reps, Nodes, Decided;
    assert allocated(Nodes(ta)) && allocated(AllNodes(ta.kids));
    assert allocated(Nodes(tb)) && allocated(AllNodes(tb.kids));
    NoKids(ta, va);
    NoKids(tb, vb);
    var x := a.child;
    ghost var k := 0;
    while x != null
      invariant Reps(ta, va) && Reps(tb, vb)
      invariant k <= |ta.kids| == |va.members| && x == if k < |ta.kids| then ta.kids[k].root else null
      invariant Decided(ta, va, tb, vb, caseSensitive) ==>
        forall i :: 0 <= i < k ==>
          var j := Find(vb.members, va.members[i].key, caseSensitive);
          j.Some? && CompareValues(va.members[i].value, vb.members[j.value].value, caseSensitive)
      decreases |ta.kids| - k
    {
      KidLinks(ta, va, k);
      ghost var j := Find(vb.members, va.members[k].key, caseSensitive);
      var y := GetMember(b, x.key, caseSensitive, tb, vb);
      if y == null {
        return false;
      }
      KidLinks(ta, va, k);
      KidLinks(tb, vb, j.value);
      KidsDecided(ta, va, k, tb, vb, j.value, caseSensitive);
      var same := Compare(x, y, caseSensitive, ta.kids[k], va.members[k].value, tb.kids[j.value],
        vb.members[j.value].value);
      if !same {
        return false;
      }
      x := x.next;
      k := k + 1;
    }
    return true;
  }

  /** A recursive duplicate shares no node with its original. It compares equal to it when keys are
      distinct, and with integers below 2^52 exactly when members of one name are equal. */
  method DuplicateAndCompare(item: Node, ghost t: Tree, ghost v: Value) returns (copy: Node, same: bool, ghost u: Tree)
    requires t.root == item && Reps(t, v)
    ensures Reps(t, v) && Reps(u, v) && u.root == copy && Nodes(u) !! Nodes(t)
    ensures same == CompareValues(v, v, true)
    ensures DistinctKeys(v) ==> same
    ensures SmallIntegers(v) ==> (same <==> Consistent(v))
  {
    hide Reps, Nodes, CompareValues;
    assert allocated(Nodes(t)) && allocated(AllNodes(t.kids));
    var r;
    r, u := JsonDuplicate.Duplicate(item, true, t, v);
    copy := r;
    assert allocated(Nodes(u)) && allocated(AllNodes(u.kids));
    same := Compare(item, copy, true, t, v, u, v);
    if DistinctKeys(v) {
      CompareReflexive(v);
    }
    if SmallIntegers(v) {
      ComparesToItself(v);
    }
  }
}
