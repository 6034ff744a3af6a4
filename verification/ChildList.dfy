// The child list of a cJSON array or object: nodes linked both ways, where the
// head's `prev` names the last node and the last node's `next` is null.
module ChildList {
  import opened Bytes

  // What the list operations mean for the sequence of children.
  function Without<T>(xs: seq<T>, k: nat): seq<T>
    requires k < |xs|
  {
    xs[..k] + xs[k + 1..]
  }

  function With<T>(xs: seq<T>, k: nat, x: T): seq<T>
    requires k <= |xs|
  {
    xs[..k] + [x] + xs[k..]
  }

  ghost predicate Distinct(xs: seq<Node>) { forall i, j :: 0 <= i < j < |xs| ==> xs[i] != xs[j] }

  // The neighbours of xs[i] in a list made of xs.
  ghost function After(xs: seq<Node>, i: nat): Node?
    requires i < |xs|
  {
    if i + 1 < |xs| then xs[i + 1] else null
  }

  ghost function Before(xs: seq<Node>, i: nat): Node
    requires i < |xs|
  {
    if i == 0 then xs[|xs| - 1] else xs[i - 1]
  }

  // xs is the list that starts at `head`.
  ghost predicate Linked(head: Node?, xs: seq<Node>)
    reads xs
  {
    && head == (if xs == [] then null else xs[0])
    && (forall i {:trigger xs[i].next} :: 0 <= i < |xs| ==> xs[i].next == After(xs, i))
    && (forall i {:trigger xs[i].prev} :: 0 <= i < |xs| ==> xs[i].prev == Before(xs, i))
  }

  // The head's `prev` is the end of the list.
  lemma EndIsNull(head: Node, xs: seq<Node>)
    ensures Linked(head, xs) ==> head.prev != null && head.prev.next == null
  {
    if Linked(head, xs) {
      assert xs[0].prev == xs[|xs| - 1] && xs[|xs| - 1].next == After(xs, |xs| - 1);
    }
  }

  // A head whose `prev` has a `next` starts no list at all.
  lemma NoEnd(head: Node, last: Node)
    requires head.prev == last && last.next != null
    ensures forall xs: seq<Node> :: !Linked(head, xs)
  {
    forall xs: seq<Node> ensures !Linked(head, xs) { EndIsNull(head, xs); }
  }

  // The links among xs once xs[k] has been taken out.
  ghost predicate Unspliced(head: Node?, xs: seq<Node>, k: nat)
    requires k < |xs|
    reads xs
  {
    && head == (if k > 0 then xs[0] else After(xs, 0))
    && (forall j {:trigger xs[j].next} :: 0 <= j < |xs| && j != k ==>
          xs[j].next == if j + 1 == k then After(xs, k) else After(xs, j))
    && (forall j {:trigger xs[j].prev} :: 0 <= j < |xs| && j != k ==>
          xs[j].prev == if j == k + 1 || (j == 0 && k == |xs| - 1) then Before(xs, k) else Before(xs, j))
  }

  lemma LinkedWithout(head: Node?, xs: seq<Node>, k: nat)
    requires k < |xs| && Distinct(xs) && Unspliced(head, xs, k)
    ensures Distinct(Without(xs, k)) && Linked(head, Without(xs, k))
  {
    var ys := Without(xs, k);
    forall i | 0 <= i < |ys| ensures ys[i].next == After(ys, i) && ys[i].prev == Before(ys, i) {
      var j := if i < k then i else i + 1;
      assert ys[i] == xs[j];
    }
  }

  // The links among xs once x has been put in front of xs[k].
  ghost predicate Inserted(head: Node?, xs: seq<Node>, k: nat, x: Node)
    requires k < |xs|
    reads xs, x
  {
    && head == (if k == 0 then x else xs[0])
    && x.next == xs[k] && x.prev == Before(xs, k)
    && (forall j {:trigger xs[j].next} :: 0 <= j < |xs| ==> xs[j].next == if j + 1 == k then x else After(xs, j))
    && (forall j {:trigger xs[j].prev} :: 0 <= j < |xs| ==> xs[j].prev == if j == k then x else Before(xs, j))
  }

  lemma LinkedWith(head: Node?, xs: seq<Node>, k: nat, x: Node)
    requires k < |xs| && x !in xs && Distinct(xs) && Inserted(head, xs, k, x)
    ensures Distinct(With(xs, k, x)) && Linked(head, With(xs, k, x))
  {
    var ys := With(xs, k, x);
    forall i | 0 <= i < |ys| ensures ys[i].next == After(ys, i) && ys[i].prev == Before(ys, i) {
      var j := if i < k then i else i - 1;
      assert ys[i] == if i == k then x else xs[j];
    }
  }

  // The links among xs once x stands in for xs[k].
  ghost predicate Replaced(head: Node?, xs: seq<Node>, k: nat, x: Node)
    requires k < |xs|
    reads xs, x
  {
    && head == (if k == 0 then x else xs[0])
    && x.next == After(xs, k) && x.prev == (if |xs| == 1 then x else Before(xs, k))
    && (forall j {:trigger xs[j].next} :: 0 <= j < |xs| && j != k ==>
          xs[j].next == if j + 1 == k then x else After(xs, j))
    && (forall j {:trigger xs[j].prev} :: 0 <= j < |xs| && j != k ==>
          xs[j].prev == if j == k + 1 || (j == 0 && k == |xs| - 1) then x else Before(xs, j))
  }

  lemma LinkedReplaced(head: Node?, xs: seq<Node>, k: nat, x: Node)
    requires k < |xs| && x !in xs && Distinct(xs) && Replaced(head, xs, k, x)
    ensures Distinct(xs[k := x]) && Linked(head, xs[k := x])
  {
    var ys := xs[k := x];
    forall i | 0 <= i < |ys| ensures ys[i].next == After(ys, i) && ys[i].prev == Before(ys, i) {
      assert ys[i] == if i == k then x else xs[i];
    }
  }

  datatype Kind = NullKind | FalseKind | TrueKind | NumberKind | StringKind | ArrayKind | ObjectKind

  class Node {
    var next: Node?
    var prev: Node?
    var child: Node?
    var kind: Kind
    var valuestring: seq<byte>
    var valueint: int
    var valuedouble: real
    var name: seq<byte>
    ghost var children: seq<Node>
    ghost var repr: set<Node>

    ghost predicate Valid()
      reads this, children
    {
      this !in children && Distinct(children) && Linked(child, children)
    }

    constructor ()
      ensures next == null && prev == null && child == null && children == [] && repr == {this} && Valid()
    {
      next, prev, child := null, null, null;
      valuestring, valueint, valuedouble, name := [], 0, 0.0, [];
      children := [];
      repr := {this};
    }

    // get_array_item
    method GetItem(index: nat) returns (item: Node?)
      requires Valid()
      ensures item == if index < |children| then children[index] else null
    {
      item := child;
      var left := index;
      while item != null && left > 0
        invariant 0 <= left <= index
        invariant item == if index - left < |children| then children[index - left] else null
      {
        left := left - 1;
        item := item.next;
      }
    }

    // add_item_to_array. The item's own `next` is kept when it is appended, so
    // the list stays well formed exactly when that was null.
    method AddItem(item: Node?) returns (ok: bool)
      requires Valid() && item !in children
      modifies `child, `children, children`next, children`prev
      modifies (if item == null then {} else {item})`next, (if item == null then {} else {item})`prev
      ensures ok <==> item != null && item != this
      ensures ok ==> children == old(children) + [item] && child != null
      ensures ok ==> (Valid() <==> old(item.next) == null || old(children) == [])
      ensures ok && !(old(item.next) == null || old(children) == []) ==>
                forall xs: seq<Node> :: !Linked(child, xs)
      ensures !ok ==> Valid() && children == old(children) && child == old(child)
    {
      if item == null || item == this { return false; }
      if child == null {
        child := item;
        item.prev := item;
        item.next := null;
      } else {
        child.prev.next := item;
        item.prev := child.prev;
        child.prev := item;
      }
      children := children + [item];
      ok := true;
      assert children[|children| - 1].next == item.next;
      assert After(children, |children| - 1) == null;
      if item.next != null { NoEnd(child, item); }
    }

    // cJSON_DetachItemViaPointer
    method DetachItem(item: Node?, ghost k: nat) returns (r: Node?)
      requires Valid() && (item != null ==> k < |children| && children[k] == item)
      modifies `child, `children, children`next, children`prev
      ensures Valid() && r == item
      ensures item == null ==> children == old(children)
      ensures item != null ==> item.next == null && item.prev == null
      ensures item != null ==> children == Without(old(children), k)
    {
      if item == null || (item != child && item.prev == null) { return null; }
      assert item.next == After(children, k) && item.prev == Before(children, k);
      if item != child {
        item.prev.next := item.next;
      }
      if item.next != null {
        item.next.prev := item.prev;
      }
      if item == child {
        child := item.next;
      } else if item.next == null {
        child.prev := item.prev;
      }
      item.prev := null;
      item.next := null;
      LinkedWithout(child, children, k);
      children := Without(children, k);
      r := item;
    }

    // cJSON_InsertItemInArray, which appends when there is no such place.
    method InsertItem(which: int, newitem: Node?) returns (ok: bool)
      requires Valid() && newitem !in children && newitem != this
      modifies `child, `children, children`next, children`prev
      modifies (if newitem == null then {} else {newitem})`next, (if newitem == null then {} else {newitem})`prev
      ensures ok <==> which >= 0 && newitem != null
      ensures ok ==> (Valid() <==> which < |old(children)| || old(newitem.next) == null || old(children) == [])
      ensures ok && !(which < |old(children)| || old(newitem.next) == null || old(children) == []) ==>
                forall xs: seq<Node> :: !Linked(child, xs)
      ensures !ok ==> Valid()
      ensures ok ==>
                children == With(old(children), if which < |old(children)| then which else |old(children)|, newitem)
      ensures !ok ==> children == old(children)
    {
      if which < 0 || newitem == null { return false; }
      var after := GetItem(which);
      if after == null {
        ok := AddItem(newitem);
        return;
      }
      if after != child && after.prev == null { return false; }
      InsertBefore(after, newitem, which);
      ok := true;
    }

    // newitem in front of the node at k.
    method InsertBefore(after: Node, newitem: Node, ghost k: nat)
      requires Valid() && k < |children| && after == children[k] && newitem !in children && newitem != this
      modifies `child, `children, children`next, children`prev, newitem`next, newitem`prev
      ensures Valid() && children == With(old(children), k, newitem)
    {
      assert after.next == After(children, k) && after.prev == Before(children, k);
      newitem.next := after;
      newitem.prev := after.prev;
      after.prev := newitem;
      if after == child {
        child := newitem;
      } else {
        newitem.prev.next := newitem;
      }
      LinkedWith(child, children, k, newitem);
      children := With(children, k, newitem);
    }

    // cJSON_ReplaceItemViaPointer; the node it replaces is left unlinked.
    method ReplaceItem(item: Node?, replacement: Node?, ghost k: nat) returns (ok: bool)
      requires Valid() && (item != null ==> k < |children| && children[k] == item) && replacement != this
      requires replacement != item ==> replacement !in children
      modifies `child, `children, children`next, children`prev
      modifies (if replacement == null then {} else {replacement})`next
      modifies (if replacement == null then {} else {replacement})`prev
      ensures Valid() && (ok <==> item != null && replacement != null)
      ensures ok && replacement != item ==> item.next == null && item.prev == null
      ensures ok ==> children == old(children)[k := replacement]
      ensures !ok ==> children == old(children)
    {
      if child == null || replacement == null || item == null { return false; }
      ok := true;
      if replacement == item {
        assert children == children[k := replacement];
        return;
      }
      assert item.next == After(children, k) && item.prev == Before(children, k);
      replacement.next := item.next;
      replacement.prev := item.prev;
      if replacement.next != null {
        replacement.next.prev := replacement;
      }
      if child == item {
        if child.prev == child {
          replacement.prev := replacement;
        }
        child := replacement;
      } else {
        if replacement.prev != null {
          replacement.prev.next := replacement;
        }
        if replacement.next == null {
          child.prev := replacement;
        }
      }
      item.next := null;
      item.prev := null;
      LinkedReplaced(child, children, k, replacement);
      children := children[k := replacement];
    }
  }

  // A list of one item, and a second one appended that still has a `next`.
  method DanglingItemBreaksList() returns (list: Node)
    ensures fresh(list) && |list.children| == 2 && forall xs: seq<Node> :: !Linked(list.child, xs)
  {
    list := new Node();
    var first := new Node();
    var second := new Node();
    var other := new Node();
    second.next := other;
    var ok := list.AddItem(first);
    ok := list.AddItem(second);
  }

  // The pointers leave no choice: two sequences linked from the same head agree.
  lemma {:induction false} LinksDetermine(head: Node?, xs: seq<Node>, ys: seq<Node>)
    requires Linked(head, xs) && Linked(head, ys)
    ensures xs == ys
  {
    if xs != [] {
      var k := 0;
      while k + 1 < |xs| && k + 1 < |ys|
        invariant k < |xs| && k < |ys| && xs[..k + 1] == ys[..k + 1]
      {
        assert xs[k].next == After(xs, k) && ys[k].next == After(ys, k);
        k := k + 1;
      }
      assert xs[k].next == After(xs, k) && ys[k].next == After(ys, k);
      assert xs[k] == ys[k];
    }
  }

  // The nodes a builder has chained so far, the head's `prev` not yet set.
  ghost predicate Chained(head: Node?, xs: seq<Node>)
    reads xs
  {
    && head == (if xs == [] then null else xs[0])
    && (forall i {:trigger xs[i].next} :: 0 <= i < |xs| ==> xs[i].next == After(xs, i))
    && (forall i {:trigger xs[i].prev} :: 1 <= i < |xs| ==> xs[i].prev == Before(xs, i))
  }
}
