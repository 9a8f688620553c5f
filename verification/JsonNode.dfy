/** cJSON's nodes and their sibling lists: each node's prev mirrors next, except that the first
    sibling's prev is the last one. */
module JsonNode {
  import opened Bytes
  import opened Sequences

  datatype Kind = KInvalid | KFalse | KTrue | KNull | KNumber | KString | KArray | KObject

  class Node {
    var kind: Kind
    var valueString: Option<bytes>
    var valueInt: int
    var valueDouble: real
    var key: Option<bytes>
    var next: Node?
    var prev: Node?
    var child: Node?

    /** cJSON_New_Item: all fields zero. */
    constructor ()
      ensures Blank()
    {
      kind, valueString, valueInt, valueDouble, key := KInvalid, None, 0, 0.0, None;
      next, prev, child := null, null, null;
    }

    ghost predicate Blank()
      reads this
    {
      && kind == KInvalid && valueString == None && valueInt == 0 && valueDouble == 0.0 && key == None
      && next == null && prev == null && child == null
    }
  }

  /** ns are, in order, all children of parent. */
  ghost predicate Siblings(parent: Node, ns: seq<Node>)
    reads parent`child, ns`next, ns`prev
  {
    && (if ns == [] then parent.child == null
        else parent.child == ns[0] && ns[0].prev == ns[|ns| - 1] && ns[|ns| - 1].next == null)
    && (forall i {:trigger ns[i].next} :: 0 <= i < |ns| - 1 ==> ns[i].next == ns[i + 1])
    && (forall i {:trigger ns[i].prev} :: 0 < i < |ns| ==> ns[i].prev == ns[i - 1])
    && Distinct(ns)
  }

  /** A node that belongs to no list. */
  ghost predicate Detached(n: Node)
    reads n`next, n`prev
  {
    n.next == null && n.prev == null
  }

  /** What the k-th child's links say, and where a child may stand a second time: nowhere. */
  lemma Neighbours(parent: Node, ns: seq<Node>, k: nat)
    requires Siblings(parent, ns) && k < |ns|
    ensures parent.child == ns[0] && ns[0].prev == ns[|ns| - 1] && ns[|ns| - 1].next == null
    ensures ns[k].next == if k + 1 < |ns| then ns[k + 1] else null
    ensures ns[k].prev == if k == 0 then ns[|ns| - 1] else ns[k - 1]
    ensures forall i :: 0 <= i < |ns| && i != k ==> ns[i] != ns[k]
    ensures forall i :: 0 < i < |ns| ==> ns[i] != ns[0]
  {
  }

  ghost function Just(n: Node?): set<Node> {
    if n == null then {} else {n}
  }

  method GetArrayItem(parent: Node?, which: int, ghost ns: seq<Node>) returns (r: Node?)
    requires parent != null ==> Siblings(parent, ns)
    ensures r == if parent != null && 0 <= which < |ns| then ns[which] else null
  {
    if which < 0 || parent == null {
      return null;
    }
    var index := which;
    r := parent.child;
    while r != null && index > 0
      invariant 0 <= index <= which
      invariant r == if which - index < |ns| then ns[which - index] else null
    {
      index := index - 1;
      r := r.next;
    }
  }

  /** add_item_to_array: appends, by way of the first child's prev. */
  method AddItem(parent: Node?, item: Node?, ghost ns: seq<Node>) returns (ok: bool)
    requires parent != null ==> Siblings(parent, ns)
    requires item != null ==> Detached(item) && item !in ns
    modifies Just(parent)`child, Just(item)`next, Just(item)`prev, ns`next, ns`prev
    ensures ok <==> item != null && parent != null && parent != item
    ensures ok ==> Siblings(parent, ns + [item])
    ensures !ok && parent != null ==> Siblings(parent, ns)
  {
    if item == null || parent == null || parent == item {
      return false;
    }
    if parent.child == null {
      parent.child := item;
      item.prev := item;
      item.next := null;
    } else {
      Neighbours(parent, ns, |ns| - 1);
      var last := parent.child.prev;
      last.next := item;
      item.prev := last;
      parent.child.prev := item;
    }
    ok := true;
    ghost var m := ns + [item];
    assert forall i :: 0 <= i < |ns| ==> m[i] == ns[i];
  }

  /** cJSON_DetachItemViaPointer, for an item of the list. */
  method DetachItem(parent: Node?, item: Node?, ghost ns: seq<Node>, ghost k: nat) returns (r: Node?)
    requires parent != null ==> Siblings(parent, ns)
    requires parent != null && item != null ==> k < |ns| && ns[k] == item
    modifies Just(parent)`child, ns`next, ns`prev
    ensures parent == null || item == null ==> r == null
    ensures parent != null && item == null ==> Siblings(parent, ns)
    ensures parent != null && item != null ==>
      r == item && Detached(item) && Siblings(parent, Without(ns, k))
  {
    if parent == null || item == null {
      return null;
    }
    Neighbours(parent, ns, k);
    hide Without;
    if item != parent.child {
      item.prev.next := item.next;
    }
    if item.next != null {
      item.next.prev := item.prev;
    }
    if item == parent.child {
      parent.child := item.next;
    } else if item.next == null {
      parent.child.prev := item.prev;
    }
    item.prev := null;
    item.next := null;
    SplicedOut(parent, ns, k);
    return item;
  }

  /** The links once the node at k is bypassed; all others are as in the list ns. */
  lemma SplicedOut(parent: Node, ns: seq<Node>, k: nat)
    requires k < |ns| && Distinct(ns)
    requires parent.child == if k > 0 then ns[0] else if |ns| > 1 then ns[1] else null
    requires |ns| > 1 ==> parent.child.prev == if k + 1 < |ns| then ns[|ns| - 1] else ns[|ns| - 2]
    requires if k + 1 < |ns| then ns[|ns| - 1].next == null else k > 0 ==> ns[k - 1].next == null
    requires 0 < k < |ns| - 1 ==> ns[k - 1].next == ns[k + 1] && ns[k + 1].prev == ns[k - 1]
    requires forall i {:trigger ns[i].next} :: 0 <= i < |ns| - 1 && i != k - 1 && i != k ==> ns[i].next == ns[i + 1]
    requires forall i {:trigger ns[i].prev} :: 0 < i < |ns| && i != k && i != k + 1 ==> ns[i].prev == ns[i - 1]
    ensures Siblings(parent, Without(ns, k))
  {
    var m := Without(ns, k);
    forall i | 0 <= i < |m| - 1 ensures m[i].next == m[i + 1] {
      if i >= k {
        assert ns[i + 1].next == ns[i + 2];
      } else if i < k - 1 {
        assert ns[i].next == ns[i + 1];
      }
    }
    forall i | 0 < i < |m| ensures m[i].prev == m[i - 1] {
      if i > k {
        assert ns[i + 1].prev == ns[i];
      } else if i < k {
        assert ns[i].prev == ns[i - 1];
      }
    }
  }

  /** cJSON_DetachItemFromArray. */
  method DetachItemFromArray(parent: Node?, which: int, ghost ns: seq<Node>) returns (r: Node?)
    requires parent != null ==> Siblings(parent, ns)
    modifies Just(parent)`child, ns`next, ns`prev
    ensures parent != null ==>
      if 0 <= which < |ns|
      then r == ns[which] && Detached(ns[which]) && Siblings(parent, Without(ns, which))
      else r == null && Siblings(parent, ns)
  {
    if which < 0 {
      return null;
    }
    var item := GetArrayItem(parent, which, ns);
    r := DetachItem(parent, item, ns, which);
  }

  /** cJSON_InsertItemInArray: in front of the item at which, or at the end when there is none. */
  method InsertItem(parent: Node?, which: int, item: Node?, ghost ns: seq<Node>) returns (ok: bool)
    requires parent != null ==> Siblings(parent, ns)
    requires item != null ==> Detached(item) && item !in ns
    requires item == null && parent != null ==> !(0 <= which < |ns|)
    modifies Just(parent)`child, Just(item)`next, Just(item)`prev, ns`next, ns`prev
    ensures ok <==> which >= 0 && parent != null && item != null && (which < |ns| || parent != item)
    ensures ok ==>
      Siblings(parent, With(ns, if which < |ns| then which else |ns|, item))
    ensures !ok && parent != null ==> Siblings(parent, ns)
  {
    if which < 0 {
      return false;
    }
    var after := GetArrayItem(parent, which, ns);
    if after == null {
      ok := AddItem(parent, item, ns);
      assert ok ==> With(ns, |ns|, item) == ns + [item];
      return;
    }
    Neighbours(parent, ns, which);
    item.next := after;
    item.prev := after.prev;
    after.prev := item;
    if after == parent.child {
      parent.child := item;
    } else {
      item.prev.next := item;
    }
    SplicedIn(parent, ns, which, item);
    return true;
  }

  /** The links once item is in front of the node at which; all others are as in the list ns. */
  lemma SplicedIn(parent: Node, ns: seq<Node>, which: nat, item: Node)
    requires which < |ns| && Distinct(ns) && item !in ns
    requires item.next == ns[which] && ns[which].prev == item && ns[|ns| - 1].next == null
    requires which == 0 ==> parent.child == item && item.prev == ns[|ns| - 1]
    requires which > 0 ==> parent.child == ns[0] && ns[0].prev == ns[|ns| - 1]
    requires which > 0 ==> item.prev == ns[which - 1] && ns[which - 1].next == item
    requires forall i {:trigger ns[i].next} :: 0 <= i < |ns| - 1 && i != which - 1 ==> ns[i].next == ns[i + 1]
    requires forall i {:trigger ns[i].prev} :: 0 < i < |ns| && i != which ==> ns[i].prev == ns[i - 1]
    ensures Siblings(parent, With(ns, which, item))
  {
    var m := With(ns, which, item);
    forall i | 0 <= i < |m| - 1 ensures m[i].next == m[i + 1] {
      if i > which {
        assert ns[i - 1].next == ns[i];
      } else if i < which - 1 {
        assert ns[i].next == ns[i + 1];
      }
    }
    forall i | 0 < i < |m| ensures m[i].prev == m[i - 1] {
      if i > which + 1 {
        assert ns[i - 1].prev == ns[i - 2];
      } else if i < which {
        assert ns[i].prev == ns[i - 1];
      }
    }
  }

  /** cJSON_ReplaceItemViaPointer; freeing the replaced item is left to the collector. */
  method ReplaceItem(parent: Node?, item: Node?, replacement: Node?, ghost ns: seq<Node>, ghost k: nat)
    returns (ok: bool)
    requires parent != null ==> Siblings(parent, ns)
    requires parent != null && item != null ==> k < |ns| && ns[k] == item
    requires replacement != null && replacement != item ==> replacement !in ns
    modifies Just(parent)`child, Just(replacement)`next, Just(replacement)`prev, ns`next, ns`prev
    ensures ok <==> parent != null && item != null && replacement != null
    ensures ok ==> Siblings(parent, ns[k := replacement])
    ensures ok && replacement != item ==> Detached(item)
    ensures !ok && parent != null ==> Siblings(parent, ns)
  {
    if parent == null || replacement == null || item == null {
      return false;
    }
    if replacement == item {
      assert ns[k := replacement] == ns;
      return true;
    }
    Neighbours(parent, ns, k);
    replacement.next := item.next;
    replacement.prev := item.prev;
    if replacement.next != null {
      replacement.next.prev := replacement;
    }
    if parent.child == item {
      if parent.child.prev == parent.child {
        replacement.prev := replacement;
      }
      parent.child := replacement;
    } else {
      if replacement.prev != null {
        replacement.prev.next := replacement;
      }
      if replacement.next == null {
        parent.child.prev := replacement;
      }
    }
    item.next := null;
    item.prev := null;
    SplicedOver(parent, ns, k, replacement);
    return true;
  }

  /** The links once r has taken the place of the node at k; all others are as in the list ns. */
  lemma SplicedOver(parent: Node, ns: seq<Node>, k: nat, r: Node)
    requires k < |ns| && Distinct(ns) && r !in ns
    requires parent.child == if k == 0 then r else ns[0]
    requires r.next == if k + 1 < |ns| then ns[k + 1] else null
    requires r.prev == if |ns| == 1 then r else if k == 0 then ns[|ns| - 1] else ns[k - 1]
    requires k + 1 < |ns| ==> ns[k + 1].prev == r && ns[|ns| - 1].next == null
    requires k > 0 ==> ns[k - 1].next == r && ns[0].prev == if k + 1 == |ns| then r else ns[|ns| - 1]
    requires forall i {:trigger ns[i].next} :: 0 <= i < |ns| - 1 && i != k - 1 && i != k ==> ns[i].next == ns[i + 1]
    requires forall i {:trigger ns[i].prev} :: 0 < i < |ns| && i != k && i != k + 1 ==> ns[i].prev == ns[i - 1]
    ensures Siblings(parent, ns[k := r])
  {
    var m := ns[k := r];
    forall i | 0 <= i < |m| - 1 ensures m[i].next == m[i + 1] {
      if i != k - 1 && i != k {
        assert ns[i].next == ns[i + 1];
      }
    }
    forall i | 0 < i < |m| ensures m[i].prev == m[i - 1] {
      if i != k && i != k + 1 {
        assert ns[i].prev == ns[i - 1];
      }
    }
  }

  // ---------- building a list ----------

  /** A list under construction: the first node's prev is still null. */
  ghost predicate Open(ns: seq<Node>, head: Node?, last: Node?)
    reads ns`next, ns`prev
  {
    && (if ns == [] then head == null
        else head == ns[0] && last == ns[|ns| - 1] && head.prev == null && last.next == null)
    && (forall i {:trigger ns[i].next} :: 0 <= i < |ns| - 1 ==> ns[i].next == ns[i + 1])
    && (forall i {:trigger ns[i].prev} :: 0 < i < |ns| ==> ns[i].prev == ns[i - 1])
    && Distinct(ns)
  }

  /** Puts a detached node behind the last one. */
  method Link(head: Node?, last: Node?, item: Node, ghost ns: seq<Node>) returns (first: Node)
    requires Open(ns, head, last) && Detached(item) && item !in ns
    modifies ns`next, item`prev
    ensures Open(ns + [item], first, item)
  {
    ghost var m := ns + [item];
    assert forall i :: 0 <= i < |ns| ==> m[i] == ns[i];
    if head == null {
      first := item;
    } else {
      first := head;
      last.next := item;
      item.prev := last;
    }
  }

  /** The end of a list: the first node's prev becomes the last one. */
  method Close(parent: Node, head: Node?, last: Node?, ghost ns: seq<Node>)
    requires Open(ns, head, last)
    modifies ns`prev, parent`child
    ensures Siblings(parent, ns)
  {
    if head != null {
      head.prev := last;
    }
    parent.child := head;
  }
}
