/** Trees of nodes in the heap and the values they represent. */
module JsonTree {
  import opened Bytes
  import opened JsonValue
  import opened JsonNode
  import opened Sequences
  import JsonText

  /** The shape of a tree: which nodes it is made of, top down. */
  datatype Tree = Tree(root: Node, kids: seq<Tree>)

  ghost function Leaf(n: Node): Tree {
    Tree(n, [])
  }

  ghost function Nodes(t: Tree): (r: set<Node>)
    ensures t.root in r
  {
    {t.root} + AllNodes(t.kids)
  }

  ghost function AllNodes(ts: seq<Tree>): (r: set<Node>)
    ensures forall i, n :: 0 <= i < |ts| && n in Nodes(ts[i]) ==> n in r
  {
    set i, n | 0 <= i < |ts| && n in Nodes(ts[i]) :: n
  }

  ghost function Roots(ts: seq<Tree>): (r: seq<Node>)
    ensures |r| == |ts|
    ensures forall i :: 0 <= i < |ts| ==> r[i] == ts[i].root
  {
    if ts == [] then [] else [ts[0].root] + Roots(ts[1..])
  }

  /** No node stands in two places. */
  ghost predicate Separate(t: Tree) {
    t.root !in AllNodes(t.kids) && SeparateAll(t.kids)
  }

  ghost predicate SeparateAll(ts: seq<Tree>) {
    && (forall i :: 0 <= i < |ts| ==> Separate(ts[i]))
    && (forall i, j :: 0 <= i < j < |ts| ==> Nodes(ts[i]) !! Nodes(ts[j]))
  }

  /** How many children a value has, and the i-th of them. */
  function Arity(v: Value): nat {
    if v.Array? then |v.items| else if v.Object? then |v.members| else 0
  }

  function Child(v: Value, i: nat): Value
    requires i < Arity(v)
  {
    if v.Array? then v.items[i] else v.members[i].value
  }

  /** The fields of a node that hold its own part of v. */
  ghost predicate Payload(n: Node, v: Value)
    reads n`kind, n`valueString, n`valueDouble, n`valueInt
  {
    match v
    case Null => n.kind == KNull
    case Bool(b) => n.kind == if b then KTrue else KFalse
    case Number(d) => n.kind == KNumber && n.valueDouble == d && n.valueInt == JsonText.ToInt64(d)
    case String(s) => n.kind == KString && n.valueString == Some(s)
    case Array(_) => n.kind == KArray
    case Object(_) => n.kind == KObject
  }

  ghost predicate Keyed(n: Node, v: Value, i: nat)
    requires i < Arity(v)
    reads n`key
  {
    v.Object? ==> n.key == Some(v.members[i].key)
  }

  /** The nodes of t, linked as siblings under their parents, hold the value v. Where the root
      itself is linked is left open. */
  ghost predicate Reps(t: Tree, v: Value)
    reads Nodes(t)`kind, Nodes(t)`valueString, Nodes(t)`valueDouble, Nodes(t)`valueInt, Nodes(t)`child
    reads AllNodes(t.kids)`key, AllNodes(t.kids)`next, AllNodes(t.kids)`prev
    decreases t
  {
    && Payload(t.root, v)
    && Siblings(t.root, Roots(t.kids))
    && |t.kids| == Arity(v)
    && forall i :: 0 <= i < |t.kids| ==> Keyed(t.kids[i].root, v, i) && Reps(t.kids[i], Child(v, i))
  }

  /** Everything strictly below the given roots. */
  ghost function Below(ts: seq<Tree>): (r: set<Node>)
    ensures forall i, n :: 0 <= i < |ts| && n in AllNodes(ts[i].kids) ==> n in r
  {
    set i, n | 0 <= i < |ts| && n in AllNodes(ts[i].kids) :: n
  }

  /** The trees ts hold, in order, the children of v; how their roots are linked is left open. */
  ghost predicate Holds(ts: seq<Tree>, v: Value)
    reads AllNodes(ts)`kind, AllNodes(ts)`valueString, AllNodes(ts)`valueDouble, AllNodes(ts)`valueInt
    reads AllNodes(ts)`child, AllNodes(ts)`key, Below(ts)`next, Below(ts)`prev
  {
    && |ts| == Arity(v)
    && forall i :: 0 <= i < |ts| ==> Keyed(ts[i].root, v, i) && Reps(ts[i], Child(v, i))
  }

  lemma RepsFromHolds(t: Tree, v: Value)
    requires Payload(t.root, v) && Siblings(t.root, Roots(t.kids)) && Holds(t.kids, v)
    ensures Reps(t, v)
  {
  }

  /** What a parent's links and the k-th child's say. */
  lemma KidLinks(t: Tree, v: Value, k: nat)
    requires Reps(t, v) && k < |t.kids|
    ensures t.root.child == t.kids[0].root
    ensures t.kids[k].root.next == if k + 1 < |t.kids| then t.kids[k + 1].root else null
    ensures |t.kids| == Arity(v) && Keyed(t.kids[k].root, v, k) && Reps(t.kids[k], Child(v, k))
  {
    assert Roots(t.kids)[k] == t.kids[k].root;
  }

  lemma NoKids(t: Tree, v: Value)
    requires Reps(t, v)
    ensures Payload(t.root, v)
    ensures |t.kids| == Arity(v) && t.root.child == if t.kids == [] then null else t.kids[0].root
  {
  }

  lemma LeafReps(n: Node, v: Value)
    requires Payload(n, v) && n.child == null && Arity(v) == 0
    ensures Reps(Leaf(n), v) && Separate(Leaf(n)) && Nodes(Leaf(n)) == {n}
  {
  }

  lemma LeafNodes(n: Node)
    ensures Nodes(Leaf(n)) == {n}
  {
  }

  lemma InAllNodes(ts: seq<Tree>, n: Node)
    requires n in AllNodes(ts)
    ensures exists i :: 0 <= i < |ts| && n in Nodes(ts[i])
  {
  }

  lemma AllNodesAppend(ts: seq<Tree>, t: Tree)
    ensures AllNodes(ts + [t]) == AllNodes(ts) + Nodes(t)
  {
    hide Nodes, AllNodes;
    var us := ts + [t];
    forall n | n in AllNodes(us) ensures n in AllNodes(ts) + Nodes(t) {
      InAllNodes(us, n);
      var i :| 0 <= i < |us| && n in Nodes(us[i]);
      assert us[i] == if i < |ts| then ts[i] else t;
    }
    forall n | n in AllNodes(ts) + Nodes(t) ensures n in AllNodes(us) {
      if n in AllNodes(ts) {
        InAllNodes(ts, n);
        var i :| 0 <= i < |ts| && n in Nodes(ts[i]);
        assert us[i] == ts[i];
      }
      assert us[|ts|] == t;
    }
  }

  lemma SeparateAppend(ts: seq<Tree>, t: Tree)
    requires SeparateAll(ts) && Separate(t) && Nodes(t) !! AllNodes(ts)
    ensures SeparateAll(ts + [t])
    ensures AllNodes(ts + [t]) == AllNodes(ts) + Nodes(t)
    ensures Roots(ts + [t]) == Roots(ts) + [t.root]
  {
    hide Nodes, AllNodes, Separate;
    var us := ts + [t];
    forall i | 0 <= i < |us| ensures Separate(us[i]) {
      assert us[i] == if i < |ts| then ts[i] else t;
    }
    forall i, j | 0 <= i < j < |us| ensures Nodes(us[i]) !! Nodes(us[j]) {
      assert us[i] == ts[i];
      assert us[j] == if j < |ts| then ts[j] else t;
    }
    AllNodesAppend(ts, t);
  }

  lemma {:induction false} HoldsItem(ts: seq<Tree>, vs: seq<Value>, t: Tree, v: Value)
    requires Holds(ts, Array(vs)) && Reps(t, v)
    ensures Holds(ts + [t], Array(vs + [v]))
  {
    var us, a, b := ts + [t], Array(vs), Array(vs + [v]);
    forall i | 0 <= i < |us| ensures Reps(us[i], Child(b, i)) {
      if i < |ts| {
        assert Reps(ts[i], Child(a, i));
      }
    }
  }

  lemma {:induction false} HoldsMember(ts: seq<Tree>, ms: seq<Member>, t: Tree, m: Member)
    requires Holds(ts, Object(ms)) && Reps(t, m.value) && t.root.key == Some(m.key)
    ensures Holds(ts + [t], Object(ms + [m]))
  {
    var us, a, b := ts + [t], Object(ms), Object(ms + [m]);
    forall i | 0 <= i < |us| ensures Keyed(us[i].root, b, i) && Reps(us[i], Child(b, i)) {
      if i < |ts| {
        assert Keyed(ts[i].root, a, i) && Reps(ts[i], Child(a, i));
      }
    }
  }

  ghost function RootSet(ts: seq<Tree>): (r: set<Node>)
    ensures forall n :: n in Roots(ts) ==> n in r
    ensures r <= AllNodes(ts)
  {
    set i | 0 <= i < |ts| :: ts[i].root
  }

  lemma RootsAppend(ts: seq<Tree>, t: Tree)
    ensures Roots(ts + [t]) == Roots(ts) + [t.root]
    ensures RootSet(ts + [t]) == RootSet(ts) + {t.root}
  {
    var us := ts + [t];
    assert forall i :: 0 <= i < |ts| ==> us[i] == ts[i];
    assert us[|ts|] == t;
  }

  /** In separate trees no root occurs below another root. */
  lemma RootsNotBelow(ts: seq<Tree>)
    requires SeparateAll(ts)
    ensures RootSet(ts) !! Below(ts)
    ensures Distinct(Roots(ts))
  {
    forall i, j | 0 <= i < |ts| && 0 <= j < |ts| ensures ts[i].root !in AllNodes(ts[j].kids) {
      if i != j {
        assert ts[i].root in Nodes(ts[i]) && AllNodes(ts[j].kids) <= Nodes(ts[j]);
      }
    }
    forall i, j | 0 <= i < j < |ts| ensures ts[i].root != ts[j].root {
      assert ts[i].root in Nodes(ts[i]) && ts[j].root in Nodes(ts[j]);
    }
  }

  /** A parent has one list of children. */
  lemma OneList(parent: Node, ns: seq<Node>, ms: seq<Node>)
    requires Siblings(parent, ns) && Siblings(parent, ms)
    ensures ns == ms
  {
    var i := 0;
    while i < |ns| && i < |ms|
      invariant i <= |ns| && i <= |ms|
      invariant forall k :: 0 <= k < i ==> ns[k] == ms[k]
      invariant 0 < i < |ns| ==> ns[i - 1].next == ns[i]
      invariant 0 < i < |ms| ==> ms[i - 1].next == ms[i]
    {
      i := i + 1;
    }
    assert |ns| == |ms|;
  }

  /** What a node holds is determined by the heap, whatever trees are drawn over it. */
  lemma {:induction false} OneValue(t: Tree, v: Value, u: Tree, w: Value)
    requires Reps(t, v) && Reps(u, w) && t.root == u.root
    ensures v == w
    decreases t
  {
    OneList(t.root, Roots(t.kids), Roots(u.kids));
    assert Arity(v) == |t.kids| == |Roots(t.kids)| == |u.kids| == Arity(w);
    forall i | 0 <= i < |t.kids| ensures Child(v, i) == Child(w, i) && Keyed(t.kids[i].root, w, i) {
      assert t.kids[i].root == Roots(t.kids)[i] == u.kids[i].root;
      OneValue(t.kids[i], Child(v, i), u.kids[i], Child(w, i));
    }
    SameChildren(t, v, w);
  }

  lemma SameChildren(t: Tree, v: Value, w: Value)
    requires Payload(t.root, v) && Payload(t.root, w)
    requires |t.kids| == Arity(v) == Arity(w)
    requires forall i :: 0 <= i < |t.kids| ==> Keyed(t.kids[i].root, v, i) && Keyed(t.kids[i].root, w, i)
    requires forall i :: 0 <= i < |t.kids| ==> Child(v, i) == Child(w, i)
    ensures v == w
  {
    if v.Array? {
      assert forall i :: 0 <= i < |t.kids| ==> Child(v, i) == v.items[i] && Child(w, i) == w.items[i];
      assert v.items == w.items;
    } else if v.Object? {
      forall i | 0 <= i < |t.kids| ensures v.members[i] == w.members[i] {
        assert Keyed(t.kids[i].root, v, i) && Keyed(t.kids[i].root, w, i);
        assert Child(v, i) == Child(w, i);
      }
      assert v.members == w.members;
    }
  }

  lemma NoTrees()
    ensures Open(Roots([]), null, null) && SeparateAll([]) && AllNodes([]) == {}
    ensures Holds([], Array([])) && Holds([], Object([]))
  {
  }
}
