// cJSON_Duplicate on the heap: the copy is a new tree of nodes, its child lists
// well formed at every level, with the value of the original.
module JsonDuplicate {
  import opened Bytes
  import opened JsonText
  import opened JsonCompare
  import opened ChildList
  import opened JsonNodes

  // ----- heights -----

  lemma {:induction false} HeightIs(k: Kind, i: int, d: real, s: seq<byte>, names: seq<seq<byte>>, vs: seq<Json>)
    requires |names| == |vs| && (!HasChildren(k) ==> vs == [])
    ensures Height(Assembled(k, i, d, s, names, vs)) == HeightItems(vs)
  {
    HeightNamed(names, vs);
  }

  lemma {:induction false} HeightNamed(names: seq<seq<byte>>, vs: seq<Json>)
    requires |names| == |vs|
    ensures HeightMembers(Named(names, vs)) == HeightItems(vs)
  {
    if vs != [] {
      HeightNamed(names[1..], vs[1..]);
    }
  }

  lemma NoHeight()
    ensures HeightItems([]) == 0
  {
  }

  lemma {:induction false} HeightBounds(vs: seq<Json>, i: nat, b: nat)
    ensures i < |vs| ==> HeightItems(vs) >= 1 + Height(vs[i])
    ensures (forall k :: 0 <= k < |vs| ==> 1 + Height(vs[k]) <= b) ==> HeightItems(vs) <= b
  {
    if vs != [] {
      HeightBounds(vs[1..], if i > 0 then i - 1 else 0, b);
      assert i > 0 && i < |vs| ==> vs[1..][i - 1] == vs[i];
      assert forall k :: 0 <= k < |vs[1..]| ==> vs[1..][k] == vs[k + 1];
    }
  }

  // When the walk stops for the limit, and when it does not.
  lemma LimitIs(item: Node, o: Batch, i: nat, depth: nat)
    requires Holds(item, o)
    ensures i < |o.vs| && (depth >= 10000 || Duplicate(o.vs[i], depth + 1) == None) ==>
              Duplicate(Value(item), depth) == None
    ensures (forall k :: 0 <= k < |o.vs| ==> depth < 10000 && Duplicate(o.vs[k], depth + 1) != None) ==>
              Duplicate(Value(item), depth) != None
  {
    var vs := o.vs;
    assert |vs| == |o.names|;
    hide Tree, Grove, Assembled, Duplicate, Height, HeightItems, Value;
    HeightIs(item.kind, item.valueint, item.valuedouble, item.valuestring, o.names, vs);
    DuplicateCopies(Value(item), depth);
    forall k | 0 <= k < |vs|
      ensures Duplicate(vs[k], depth + 1) == None <==> Height(vs[k]) > 0 && depth + 1 + Height(vs[k]) > CIRCULAR_LIMIT
    {
      DuplicateCopies(vs[k], depth + 1);
    }
    HeightBounds(vs, i, if depth <= CIRCULAR_LIMIT then CIRCULAR_LIMIT - depth else 0);
    NoHeight();
  }

  // ----- the copy -----

  // b has what a node holds besides its links, copied as C strings.
  predicate CutLabel(a: Node, b: Node)
    reads a, b
  {
    && a.kind == b.kind && b.valuestring == CText(a.valuestring) && a.valueint == b.valueint
    && a.valuedouble == b.valuedouble && b.name == CText(a.name)
  }

  method NewItem(item: Node) returns (copy: Node)
    ensures fresh(copy) && Blank(copy) && copy.next == null && CutLabel(item, copy)
  {
    copy := new Node();
    copy.kind := item.kind;
    copy.valueint := item.valueint;
    copy.valuedouble := item.valuedouble;
    copy.valuestring := CText(item.valuestring);
    copy.name := CText(item.name);
  }

  // The first i children, copied.
  predicate CutBatch(b: Batch, o: Batch, i: nat)
  {
    && |b.vs| == |b.names| == i <= |o.vs| == |o.names|
    && forall k :: 0 <= k < i ==> b.vs[k] == Cut(o.vs[k]) && b.names[k] == CText(o.names[k])
  }

  lemma {:induction false} CutNamed(names: seq<seq<byte>>, vs: seq<Json>, cut: seq<seq<byte>>, ws: seq<Json>)
    requires |names| == |vs| == |cut| == |ws|
    requires forall k :: 0 <= k < |vs| ==> ws[k] == Cut(vs[k]) && cut[k] == CText(names[k])
    ensures CutMembers(Named(names, vs)) == Named(cut, ws)
  {
    if vs != [] { CutNamed(names[1..], vs[1..], cut[1..], ws[1..]); }
  }

  lemma SameValue(a: Node, x: Batch, b: Node, y: Batch)
    requires Holds(a, x) && Holds(b, y) && CutBatch(y, x, |x.vs|) && CutLabel(a, b)
    ensures Tree(a) && Tree(b) && Value(b) == Cut(Value(a))
  {
    hide Tree, Value, Grove, Assembled, Cut, CText;
    CutAssembled(a.kind, a.valueint, a.valuedouble, a.valuestring, x, y);
  }

  lemma CutAssembled(k: Kind, i: int, d: real, s: seq<byte>, x: Batch, y: Batch)
    requires CutBatch(y, x, |x.vs|)
    ensures Assembled(k, i, d, CText(s), y.names, y.vs) == Cut(Assembled(k, i, d, s, x.names, x.vs))
  {
    CutNamed(x.names, x.vs, y.names, y.vs);
    assert CutItems(x.vs) == y.vs;
  }

  // The walk along the children of item, the first i of them copied into b.
  ghost predicate Walk(item: Node, child: Node?, depth: nat, newitem: Node, next: Node?, i: nat, b: Batch, o: Batch)
    reads item, item.repr, newitem, b.nodes
  {
    && Holds(item, o) && |b.xs| == i <= |o.vs| == |o.names| == |item.children|
    && child == (if i < |o.vs| then item.children[i] else null)
    && item.repr !! b.nodes && newitem !in item.repr && newitem !in b.nodes && item in item.repr
    && CutLabel(item, newitem) && newitem.next == null
    && CutBatch(b, o, i) && Growing(newitem, next, b)
    && newitem.children == []
    && forall k :: 0 <= k < i ==> depth < CIRCULAR_LIMIT && Duplicate(o.vs[k], depth + 1) != None
  }

  // cJSON_Duplicate_rec with `recurse` set.
  method DuplicateRec(item: Node?, depth: nat) returns (copy: Node?)
    requires item != null ==> Tree(item)
    ensures item == null ==> copy == null
    ensures copy != null ==> item != null && fresh(copy) && fresh(copy.repr) && copy.next == null && Tree(copy)
    ensures copy != null ==> Value(copy) == Cut(old(Value(item))) && copy.name == CText(item.name)
    ensures item != null ==> (copy == null <==> old(Duplicate(Value(item), depth)) == None)
    decreases if item == null then {} else item.repr, 2
  {
    hide Duplicate, Value, Tree, Walk;
    if item == null { return null; }
    ghost var o;
    var newitem: Node;
    newitem, o := StartCopy(item, depth);
    var next: Node? := null;
    var child := item.child;
    ghost var i := 0;
    ghost var b := NOTHING;
    while child != null
      invariant fresh(newitem) && fresh(b.nodes)
      invariant Walk(item, child, depth, newitem, next, i, b, o)
      decreases |o.vs| - i
    {
      AtLimit(item, child, depth, newitem, next, i, b, o);
      if depth >= CIRCULAR_LIMIT { return null; }
      var newchild;
      newchild, b := CopyChild(item, child, depth, newitem, next, i, b, o);
      if newchild == null { return null; }
      next := newchild;
      i := i + 1;
      child := child.next;
    }
    Finish(newitem, next, item, depth, i, b, o);
    copy := newitem;
  }

  method StartCopy(item: Node, ghost depth: nat) returns (newitem: Node, ghost o: Batch)
    requires Tree(item)
    ensures fresh(newitem) && Walk(item, item.child, depth, newitem, null, 0, NOTHING, o)
  {
    o := Brood(item);
    TreeHolds(item);
    assert item in item.repr;
    hide Duplicate, Values, Names, Value, Tree, Strung;
    newitem := NewItem(item);
    NothingStrung();
  }

  lemma AtLimit(item: Node, child: Node?, depth: nat, newitem: Node, next: Node?, i: nat, b: Batch, o: Batch)
    requires Walk(item, child, depth, newitem, next, i, b, o)
    ensures Tree(item)
    ensures child != null && depth >= CIRCULAR_LIMIT ==> Duplicate(Value(item), depth) == None
    ensures child == null ==> Duplicate(Value(item), depth) != None
  {
    LimitIs(item, o, i, depth);
    hide Duplicate, Value, Growing;
  }

  // One round of the walk: the child at the cursor is copied and hung up.
  method CopyChild(item: Node, child: Node, depth: nat, newitem: Node, next: Node?, ghost i: nat, ghost b: Batch,
                   ghost o: Batch)
    returns (newchild: Node?, ghost more: Batch)
    requires Walk(item, child, depth, newitem, next, i, b, o) && depth < CIRCULAR_LIMIT
    modifies newitem`child, b.nodes
    ensures i < |o.vs| && (newchild == null ==> Tree(item) && Duplicate(Value(item), depth) == None)
    ensures newchild != null ==> fresh(more.nodes - b.nodes)
    ensures newchild != null ==> Walk(item, child.next, depth, newitem, newchild, i + 1, more, o)
    decreases item.repr, 1
  {
    LimitIs(item, o, i, depth);
    hide Duplicate, Growing, Holds, Tree, Value;
    newchild, more := CopyAndHang(item, child, depth, newitem, next, i, b, o);
  }

  method CopyAndHang(item: Node, child: Node, depth: nat, newitem: Node, next: Node?, ghost i: nat, ghost b: Batch,
                     ghost o: Batch)
    returns (newchild: Node?, ghost more: Batch)
    requires Holds(item, o) && i < |o.vs| == |o.names| == |item.children| && child == item.children[i]
    requires Growing(newitem, next, b) && CutBatch(b, o, i)
    requires item !in b.nodes && item.repr !! b.nodes && newitem !in item.repr && newitem != item
    modifies newitem`child, b.nodes
    ensures newchild == null <==> Duplicate(o.vs[i], depth + 1) == None
    ensures newchild != null ==> Growing(newitem, newchild, more) && child.next == After(item.children, i)
    ensures newchild != null ==> CutBatch(more, o, i + 1)
    ensures newchild != null ==> |more.xs| == |b.xs| + 1 && fresh(more.nodes - b.nodes)
    ensures newchild != null ==> item.repr !! more.nodes && newitem !in more.nodes
    ensures Holds(item, o) && item.repr == old(item.repr) && item.children == old(item.children)
    ensures newitem.children == old(newitem.children) && LabelKept(item)
    ensures newitem.next == old(newitem.next) && LabelKept(newitem)
    decreases item.repr, 0
  {
    hide Duplicate, Holds, Tree, Value, Strung;
    ghost var mine := item.repr;
    ChildIs(item, o, i);
    newchild := DuplicateRec(child, depth + 1);
    more := b;
    if newchild != null {
      more := Plus(b, newchild, newchild.repr, Value(newchild), newchild.name);
      assert mine !! newchild.repr;
      Hang(newitem, next, newchild, b);
      ChildIs(item, o, i);
    }
  }

  // The head's `prev` closes the list, and the node owns it.
  method Finish(newitem: Node, next: Node?, ghost item: Node, ghost depth: nat, ghost i: nat, ghost b: Batch,
                ghost o: Batch)
    requires Walk(item, null, depth, newitem, next, i, b, o)
    modifies newitem`children, newitem`repr, b.nodes
    ensures Tree(newitem) && Tree(item) && Value(newitem) == Cut(old(Value(item))) && newitem.name == CText(item.name)
    ensures newitem.repr == b.nodes + {newitem} && newitem.next == null
    ensures old(Duplicate(Value(item), depth)) != None
  {
    AtLimit(item, null, depth, newitem, next, i, b, o);
    assert !HasChildren(item.kind) ==> b.xs == [];
    hide Duplicate, Growing, Holds, Tree, Value;
    Close(newitem, next, b);
    SameValue(item, o, newitem, b);
  }
}
