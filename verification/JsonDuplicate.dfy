/** cJSON_Duplicate: a copy of a tree that shares no node with it. */
module JsonDuplicate {
  import opened Bytes
  import opened JsonValue
  import opened JsonNode
  import opened Sequences
  import opened JsonTree

  /** v with its first k children only. */
  function Prefix(v: Value, k: nat): Value
    requires k <= Arity(v)
  {
    if v.Array? then Array(v.items[..k]) else if v.Object? then Object(v.members[..k]) else v
  }

  lemma PrefixWhole(v: Value)
    ensures Prefix(v, Arity(v)) == v
    ensures Holds([], Prefix(v, 0))
  {
    if v.Array? {
      assert v.items[..|v.items|] == v.items;
    } else if v.Object? {
      assert v.members[..|v.members|] == v.members;
    }
  }

  lemma HoldsNext(us: seq<Tree>, v: Value, k: nat, u: Tree)
    requires k < Arity(v) && Holds(us, Prefix(v, k)) && Reps(u, Child(v, k)) && Keyed(u.root, v, k)
    ensures Holds(us + [u], Prefix(v, k + 1))
  {
    hide Holds, Reps;
    if v.Array? {
      HoldsItem(us, v.items[..k], u, v.items[k]);
      assert v.items[..k] + [v.items[k]] == v.items[..k + 1];
    } else {
      HoldsMember(us, v.members[..k], u, v.members[k]);
      assert v.members[..k] + [v.members[k]] == v.members[..k + 1];
    }
  }

  /** "copy over all vars". */
  method CopyFields(item: Node) returns (r: Node)
    ensures fresh(r) && Detached(r) && r.child == null
    ensures SameFields(item, r)
  {
    r := new Node();
    r.kind := item.kind;
    r.valueInt := item.valueInt;
    r.valueDouble := item.valueDouble;
    r.valueString := item.valueString;
    r.key := item.key;
  }

  ghost predicate SameFields(a: Node, b: Node)
    reads a, b
  {
    && a.kind == b.kind && a.valueInt == b.valueInt && a.valueDouble == b.valueDouble
    && a.valueString == b.valueString && a.key == b.key
  }

  /** The copy is detached and new through and through; without recurse it has no children. */
  method Duplicate(item: Node?, recurse: bool, ghost t: Tree, ghost v: Value) returns (r: Node?, ghost u: Tree)
    requires item != null ==> t.root == item && Reps(t, v)
    ensures r == null <==> item == null
    ensures item != null ==>
      && u.root == r && Detached(r) && SameFields(item, r) && fresh(Nodes(u))
      && (if recurse then Reps(u, v) && Separate(u) else r.child == null)
    decreases t, 1
  {
    hide Reps, Holds, Separate, SeparateAll, Open, Nodes, AllNodes, Below, Siblings, Prefix, Roots, RootSet;
    u := t;
    if item == null {
      return null, u;
    }
    assert allocated(Nodes(t)) && allocated(AllNodes(t.kids));
    var copy := CopyFields(item);
    r := copy;
    u := Leaf(copy);
    LeafNodes(copy);
    if !recurse {
      return;
    }
    NoKids(t, v);
    NoTrees();
    PrefixWhole(v);
    var child := item.child;
    var last: Node? := null;
    ghost var k, us := 0, [];
    while child != null
      invariant k <= |t.kids| == Arity(v) && child == if k < |t.kids| then t.kids[k].root else null
      invariant Reps(t, v) && SameFields(item, copy) && Detached(copy)
      invariant Open(Roots(us), copy.child, last) && SeparateAll(us) && Holds(us, Prefix(v, k))
      invariant fresh(AllNodes(us)) && copy !in AllNodes(us)
      decreases |t.kids| - k
    {
      ghost var nu;
      last, nu := CopyChild(copy, last, child, t, v, k, us);
      AllNodesAppend(us, nu);
      KidLinks(t, v, k);
      us, k := us + [nu], k + 1;
      child := child.next;
    }
    FinishCopy(copy, last, us, v);
    u := Tree(copy, us);
  }

  /** One turn of the loop: the child is duplicated and its copy linked. */
  method CopyChild(copy: Node, last: Node?, child: Node, ghost t: Tree, ghost v: Value, ghost k: nat,
                   ghost us: seq<Tree>)
    returns (newChild: Node, ghost nu: Tree)
    requires Reps(t, v) && k < |t.kids| == Arity(v) && child == t.kids[k].root
    requires Open(Roots(us), copy.child, last) && SeparateAll(us) && Holds(us, Prefix(v, k))
    requires copy !in AllNodes(us)
    modifies copy`child, RootSet(us)`next
    ensures Open(Roots(us + [nu]), copy.child, newChild) && SeparateAll(us + [nu]) && Holds(us + [nu], Prefix(v, k + 1))
    ensures fresh(Nodes(nu))
    decreases t, 0
  {
    hide Reps, Holds, Separate, SeparateAll, Open, Nodes, AllNodes, Below, Prefix, Roots, RootSet;
    KidLinks(t, v, k);
    assert allocated(AllNodes(us)) && allocated(Below(us));
    newChild, nu := Duplicate(child, true, t.kids[k], Child(v, k));
    HoldsNext(us, v, k, nu);
    SeparateAppend(us, nu);
    AppendCopy(copy, last, us, newChild, nu, Prefix(v, k + 1));
  }

  /** Links a finished copy behind its elder siblings; no copy's contents change. */
  method AppendCopy(copy: Node, last: Node?, ghost us: seq<Tree>, item: Node, ghost u: Tree, ghost w: Value)
    requires Open(Roots(us), copy.child, last) && Roots(us + [u]) == Roots(us) + [item]
    requires SeparateAll(us + [u]) && Holds(us + [u], w)
    requires Detached(item) && copy !in AllNodes(us + [u])
    modifies copy`child, RootSet(us)`next, item`prev
    ensures Open(Roots(us + [u]), copy.child, item) && Holds(us + [u], w)
  {
    hide Holds, Open, SeparateAll, Below, Roots, RootSet, AllNodes;
    ghost var ts := us + [u];
    assert allocated(AllNodes(ts)) && allocated(Below(ts));
    RootsNotBelow(ts);
    RootsAppend(us, u);
    assert Distinct(Roots(us) + [item]) && item == (Roots(us) + [item])[|Roots(us)|];
    assert forall i :: 0 <= i < |Roots(us)| ==> (Roots(us) + [item])[i] == Roots(us)[i];
    copy.child := Link(copy.child, last, item, Roots(us));
  }

  method FinishCopy(copy: Node, last: Node?, ghost us: seq<Tree>, ghost v: Value)
    requires Open(Roots(us), copy.child, last) && SeparateAll(us) && Holds(us, v) && copy !in AllNodes(us)
    requires Payload(copy, v)
    modifies copy`child, RootSet(us)`prev
    ensures Reps(Tree(copy, us), v) && Separate(Tree(copy, us))
    ensures Nodes(Tree(copy, us)) == {copy} + AllNodes(us)
  {
    hide Holds, Open, SeparateAll, Below, Roots, RootSet, AllNodes, Payload;
    assert allocated(AllNodes(us)) && allocated(Below(us));
    RootsNotBelow(us);
    Close(copy, copy.child, last, Roots(us));
    RepsFromHolds(Tree(copy, us), v);
  }
}
