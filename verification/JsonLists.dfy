// The list operations on whole trees: what appending, inserting, detaching and
// replacing an item make of the value, and the array builder.
module JsonLists {
  import opened Bytes
  import opened JsonText
  import opened ChildList
  import opened JsonNodes

  // ----- the operations on values -----

  // x, named in an object, in front of the k-th child.
  function Inserted(v: Json, k: nat, name: seq<byte>, x: Json): Json
  {
    match v
    case JArray(items) => if k <= |items| then JArray(With(items, k, x)) else v
    case JObject(members) => if k <= |members| then JObject(With(members, k, Member(name, x))) else v
    case _ => v
  }

  function Removed(v: Json, k: nat): Json
  {
    match v
    case JArray(items) => if k < |items| then JArray(Without(items, k)) else v
    case JObject(members) => if k < |members| then JObject(Without(members, k)) else v
    case _ => v
  }

  function Updated(v: Json, k: nat, name: seq<byte>, x: Json): Json
  {
    match v
    case JArray(items) => if k < |items| then JArray(items[k := x]) else v
    case JObject(members) => if k < |members| then JObject(members[k := Member(name, x)]) else v
    case _ => v
  }

  // ----- batches -----

  ghost function BatchWith(b: Batch, k: nat, n: Node, repr: set<Node>, v: Json, name: seq<byte>): Batch
    requires k <= |b.xs| == |b.vs| == |b.names|
  {
    Batch(With(b.xs, k, n), b.nodes + repr, With(b.vs, k, v), With(b.names, k, name))
  }

  ghost function BatchWithout(b: Batch, k: nat, repr: set<Node>): Batch
    requires k < |b.xs| == |b.vs| == |b.names|
  {
    Batch(Without(b.xs, k), b.nodes - repr, Without(b.vs, k), Without(b.names, k))
  }

  lemma WithAt<T>(xs: seq<T>, k: nat, x: T, i: nat)
    requires k <= |xs| && i <= |xs|
    ensures With(xs, k, x)[i] == if i < k then xs[i] else if i == k then x else xs[i - 1]
  {
  }

  lemma GroveWith(b: Batch, k: nat, n: Node)
    requires Grove(b) && k <= |b.xs| && Tree(n) && b.nodes !! n.repr
    ensures Grove(BatchWith(b, k, n, n.repr, Value(n), n.name))
  {
    hide Value;
    assert n in n.repr;
    hide Tree;
    var c := BatchWith(b, k, n, n.repr, Value(n), n.name);
    forall i | 0 <= i < |c.xs|
      ensures c.xs[i] == if i < k then b.xs[i] else if i == k then n else b.xs[i - 1]
      ensures c.vs[i] == if i < k then b.vs[i] else if i == k then Value(n) else b.vs[i - 1]
      ensures c.names[i] == if i < k then b.names[i] else if i == k then n.name else b.names[i - 1]
    {
      WithAt(b.xs, k, n, i);
      WithAt(b.vs, k, Value(n), i);
      WithAt(b.names, k, n.name, i);
    }
  }

  lemma GroveWithout(b: Batch, k: nat)
    requires Grove(b) && k < |b.xs|
    ensures Grove(BatchWithout(b, k, b.xs[k].repr)) && b.nodes - b.xs[k].repr !! b.xs[k].repr
  {
    hide Value;
    forall i | 0 <= i < |b.xs| ensures b.xs[i] in b.xs[i].repr { assert Tree(b.xs[i]); }
    hide Tree;
    var c := BatchWithout(b, k, b.xs[k].repr);
    forall i | 0 <= i < |c.xs|
      ensures var j := if i < k then i else i + 1; c.xs[i] == b.xs[j] && c.vs[i] == b.vs[j] && c.names[i] == b.names[j]
    {}
  }

  lemma {:induction false} NamedAt(names: seq<seq<byte>>, vs: seq<Json>, i: nat)
    requires i < |names| == |vs|
    ensures Named(names, vs)[i] == Member(names[i], vs[i])
  {
    if i > 0 { NamedAt(names[1..], vs[1..], i - 1); }
  }

  lemma NamedWith(names: seq<seq<byte>>, vs: seq<Json>, k: nat, name: seq<byte>, v: Json)
    requires k <= |names| == |vs|
    ensures Named(With(names, k, name), With(vs, k, v)) == With(Named(names, vs), k, Member(name, v))
  {
    hide Named;
    var m, n := With(names, k, name), With(vs, k, v);
    forall i | 0 <= i < |m| ensures Named(m, n)[i] == With(Named(names, vs), k, Member(name, v))[i] {
      NamedAt(m, n, i);
      if i < k { NamedAt(names, vs, i); }
      if i > k { NamedAt(names, vs, i - 1); }
    }
  }

  lemma NamedWithout(names: seq<seq<byte>>, vs: seq<Json>, k: nat)
    requires k < |names| == |vs|
    ensures Named(Without(names, k), Without(vs, k)) == Without(Named(names, vs), k)
  {
    hide Named;
    var m, n := Without(names, k), Without(vs, k);
    forall i | 0 <= i < |m| ensures Named(m, n)[i] == Without(Named(names, vs), k)[i] {
      NamedAt(m, n, i);
      NamedAt(names, vs, if i < k then i else i + 1);
    }
  }

  // Without the k-th and with another one in its place.
  lemma WithoutWith<T>(xs: seq<T>, k: nat, x: T)
    requires k < |xs|
    ensures With(Without(xs, k), k, x) == xs[k := x]
  {
  }

  lemma AppendIsWith<T>(xs: seq<T>, x: T)
    ensures With(xs, |xs|, x) == xs + [x]
  {
  }

  // ----- the operations on trees -----

  function Labelled(n: Node, names: seq<seq<byte>>, vs: seq<Json>): Json
    requires |names| == |vs|
    reads n`kind, n`valueint, n`valuedouble, n`valuestring
  {
    Assembled(n.kind, n.valueint, n.valuedouble, n.valuestring, names, vs)
  }

  lemma LabelledWith(n: Node, b: Batch, k: nat, name: seq<byte>, v: Json)
    requires HasChildren(n.kind) && k <= |b.names| == |b.vs|
    ensures Labelled(n, With(b.names, k, name), With(b.vs, k, v)) == Inserted(Labelled(n, b.names, b.vs), k, name, v)
  {
    hide With, Named;
    NamedWith(b.names, b.vs, k, name, v);
  }

  lemma LabelledWithout(n: Node, b: Batch, k: nat)
    requires HasChildren(n.kind) && k < |b.names| == |b.vs|
    ensures Labelled(n, Without(b.names, k), Without(b.vs, k)) == Removed(Labelled(n, b.names, b.vs), k)
  {
    hide Without, Named;
    NamedWithout(b.names, b.vs, k);
  }

  lemma RemovedInserted(v: Json, k: nat, name: seq<byte>, x: Json)
    requires (v.JArray? && k < |v.items|) || (v.JObject? && k < |v.members|)
    ensures Inserted(Removed(v, k), k, name, x) == Updated(v, k, name, x)
  {
    if v.JArray? {
      WithoutWith(v.items, k, x);
    } else {
      WithoutWith(v.members, k, Member(name, x));
    }
  }

  // A list to edit: its tree, its batch, and what the edit may rely on.
  ghost predicate Editable(list: Node, b: Batch)
    reads list, list.repr
  {
    && Holds(list, b) && Insides(b.xs, b.nodes) && Distinct(b.xs) && list.Valid() && list !in b.nodes
    && |b.xs| == |b.vs| == |b.names| && HasChildren(list.kind)
  }

  lemma EditableIs(list: Node)
    requires Tree(list) && HasChildren(list.kind)
    ensures Editable(list, Brood(list)) && Value(list) == Labelled(list, Brood(list).names, Brood(list).vs)
  {
    TreeHolds(list);
    OwnRoots(list.children, list.repr - {list});
  }

  lemma Apartness(list: Node, n: Node?, b: Batch)
    requires Editable(list, b) && (n != null ==> Tree(n) && n.repr !! list.repr)
    ensures Grove(b) && Insides(b.xs, b.nodes) && list.Valid() && b.xs == list.children && Distinct(b.xs)
    ensures b.nodes == list.repr - {list}
    ensures list !in b.nodes && list !in b.xs && |b.xs| == |b.vs| == |b.names|
    ensures forall c :: c in b.xs ==> c in b.nodes
    ensures n != null ==> n in n.repr && n !in b.nodes && n !in b.xs && n != list && b.nodes + {list} !! n.repr
  {
    RootsWithin(b.xs, b.nodes);
  }

  // The edited list, its new batch at hand.
  ghost method Settle(list: Node, b: Batch)
    requires Grove(b) && list !in b.nodes && HasChildren(list.kind) && b.xs == list.children && list.Valid()
    modifies list`repr
    ensures list.repr == b.nodes + {list} && Tree(list) && |b.names| == |b.vs|
    ensures Value(list) == Labelled(list, b.names, b.vs)
  {
    assert |b.names| == |b.vs|;
    hide Tree, Value, Grove, Linked, Distinct;
    list.repr := b.nodes + {list};
    assert list.repr - {list} == b.nodes;
    GroveMakesTree(list, b);
  }

  // The item joins the list's tree.
  ghost method Join(list: Node, k: nat, n: Node, b: Batch)
    requires Grove(b) && |b.xs| == |b.vs| == |b.names| && k <= |b.xs| && Tree(n) && b.nodes + {list} !! n.repr
    requires list !in b.nodes && HasChildren(list.kind) && list.children == With(b.xs, k, n) && list.Valid()
    modifies list`repr
    ensures Tree(list) && list.repr == b.nodes + n.repr + {list}
    ensures Value(list) == Inserted(Labelled(list, b.names, b.vs), k, n.name, old(Value(n)))
  {
    hide Tree, Value, Grove, Labelled, Inserted;
    GroveWith(b, k, n);
    LabelledWith(list, b, k, n.name, Value(n));
    Settle(list, BatchWith(b, k, n, n.repr, Value(n), n.name));
  }

  // The k-th child leaves the list's tree.
  ghost method Leave(list: Node, k: nat, b: Batch)
    requires Grove(b) && |b.xs| == |b.vs| == |b.names| && k < |b.xs|
    requires list !in b.nodes && HasChildren(list.kind) && list.children == Without(b.xs, k) && list.Valid()
    modifies list`repr
    ensures Tree(list) && Tree(b.xs[k]) && b.xs[k].repr !! list.repr && list.repr <= b.nodes + {list}
    ensures Value(list) == Removed(Labelled(list, b.names, b.vs), k)
  {
    RootIsTree(b, k);
    assert b.xs[k] in b.nodes && b.xs[k].repr <= b.nodes;
    hide Tree, Value, Grove, Labelled, Removed, Without;
    GroveWithout(b, k);
    LabelledWithout(list, b, k);
    Settle(list, BatchWithout(b, k, b.xs[k].repr));
  }

  lemma RootIsTree(b: Batch, k: nat)
    requires Grove(b) && k < |b.xs|
    ensures Tree(b.xs[k]) && Value(b.xs[k]) == b.vs[k] && b.xs[k] in b.xs[k].repr
  {
  }

  // n takes the place of the k-th child.
  ghost method Swap(list: Node, k: nat, n: Node, b: Batch)
    requires Grove(b) && |b.xs| == |b.vs| == |b.names| && k < |b.xs| && Tree(n) && b.nodes + {list} !! n.repr
    requires list !in b.nodes && HasChildren(list.kind) && list.children == b.xs[k := n] && list.Valid()
    modifies list`repr
    ensures Tree(list) && Value(list) == Updated(Labelled(list, b.names, b.vs), k, n.name, old(Value(n)))
  {
    hide Tree, Value, Grove, Labelled, Removed, Inserted, Updated;
    GroveWithout(b, k);
    LabelledWithout(list, b, k);
    WithoutWith(b.xs, k, n);
    LabelledHas(list, b, k);
    RemovedInserted(Labelled(list, b.names, b.vs), k, n.name, Value(n));
    Join(list, k, n, BatchWithout(b, k, b.xs[k].repr));
  }

  lemma LabelledHas(n: Node, b: Batch, k: nat)
    requires HasChildren(n.kind) && k < |b.names| == |b.vs|
    ensures var v := Labelled(n, b.names, b.vs); (v.JArray? && k < |v.items|) || (v.JObject? && k < |v.members|)
  {
  }

  // The pointer operations, and what they leave alone among the nodes of the list.
  method AddLinks(list: Node, item: Node, ghost nodes: set<Node>)
    requires list.Valid() && list !in nodes && forall c :: c in list.children ==> c in nodes
    requires item != list && item !in nodes
    modifies list`child, list`children, nodes, item`next, item`prev
    ensures list.children == old(list.children) + [item]
    ensures list.Valid() <==> old(item.next) == null || old(list.children) == []
    ensures !list.Valid() ==> forall xs: seq<Node> :: !Linked(list.child, xs)
    ensures forall i :: 0 <= i < |old(list.children)| ==> OnlyLinks(old(list.children)[i])
    ensures forall c :: c in nodes && c !in old(list.children) ==> unchanged(c)
  {
    hide Node.Valid;
    var ok := list.AddItem(item);
  }

  method InsertLinks(list: Node, which: nat, newitem: Node, ghost nodes: set<Node>)
    requires list.Valid() && list !in nodes && forall c :: c in list.children ==> c in nodes
    requires newitem != list && newitem !in nodes
    modifies list`child, list`children, nodes, newitem`next, newitem`prev
    ensures list.children ==
            With(old(list.children), if which < |old(list.children)| then which else |old(list.children)|, newitem)
    ensures list.Valid() <==> which < |old(list.children)| || old(newitem.next) == null || old(list.children) == []
    ensures !list.Valid() ==> forall xs: seq<Node> :: !Linked(list.child, xs)
    ensures forall i :: 0 <= i < |old(list.children)| ==> OnlyLinks(old(list.children)[i])
    ensures forall c :: c in nodes && c !in old(list.children) ==> unchanged(c)
  {
    hide Node.Valid;
    var ok := list.InsertItem(which, newitem);
  }

  method DetachLinks(list: Node, item: Node, ghost k: nat, ghost nodes: set<Node>)
    requires list.Valid() && list !in nodes && forall c :: c in list.children ==> c in nodes
    requires k < |list.children| && item == list.children[k]
    modifies list`child, list`children, nodes
    ensures list.Valid() && list.children == Without(old(list.children), k) && item.next == null && item.prev == null
    ensures forall i :: 0 <= i < |old(list.children)| ==> OnlyLinks(old(list.children)[i])
    ensures forall c :: c in nodes && c !in old(list.children) ==> unchanged(c)
  {
    hide Node.Valid, Without;
    var r := list.DetachItem(item, k);
  }

  method ReplaceLinks(list: Node, item: Node, newitem: Node, ghost k: nat, ghost nodes: set<Node>)
    requires k < |list.children| && item == list.children[k]
    requires list.Valid() && list !in nodes && forall c :: c in list.children ==> c in nodes
    requires newitem != list && newitem !in nodes
    modifies list`child, list`children, nodes, newitem`next, newitem`prev
    ensures list.Valid() && list.children == old(list.children)[k := newitem]
    ensures forall i :: 0 <= i < |old(list.children)| ==> OnlyLinks(old(list.children)[i])
    ensures forall c :: c in nodes && c !in old(list.children) ==> unchanged(c)
  {
    hide Node.Valid;
    var ok := list.ReplaceItem(item, newitem, k);
  }

  // cJSON_AddItemToArray. An item that still has a `next` makes a tree only of
  // an empty list.
  method AddItemToArray(list: Node, item: Node?) returns (ok: bool)
    requires Tree(list) && HasChildren(list.kind)
    requires item != null ==> Tree(item) && item.repr !! list.repr
    modifies list`child, list`children, list`repr, list.repr - {list}
    modifies (if item == null then {} else {item})`next, (if item == null then {} else {item})`prev
    ensures ok <==> item != null
    ensures ok ==> list.children == old(list.children) + [item]
    ensures ok && (old(item.next) == null || old(list.children) == []) ==>
              && Tree(list)
              && Value(list) == Inserted(old(Value(list)), |old(list.children)|, item.name, old(Value(item)))
    ensures ok && !(old(item.next) == null || old(list.children) == []) ==>
              forall xs: seq<Node> :: !Linked(list.child, xs)
    ensures !ok ==> Tree(list) && Value(list) == old(Value(list))
  {
    if item == null { return false; }
    Append(list, item);
    ok := true;
  }

  method Append(list: Node, item: Node)
    requires Tree(list) && HasChildren(list.kind) && Tree(item) && item.repr !! list.repr
    modifies list`child, list`children, list`repr, list.repr - {list}, item`next, item`prev
    ensures list.children == old(list.children) + [item]
    ensures (old(item.next) == null || old(list.children) == []) ==>
              && Tree(list)
              && Value(list) == Inserted(old(Value(list)), |old(list.children)|, item.name, old(Value(item)))
    ensures !(old(item.next) == null || old(list.children) == []) ==>
              forall xs: seq<Node> :: !Linked(list.child, xs)
  {
    ghost var b := Brood(list);
    EditableIs(list);
    hide Tree, Value, Grove, Linked, Node.Valid, With, Without, Labelled, Editable, Removed, Inserted, Updated, Brood;
    Apartness(list, item, b);
    hide Insides, Distinct, Holds, Forest, Apart;
    AppendIsWith(b.xs, item);
    AddLinks(list, item, b.nodes);
    assert Grove(b) by { GroveStays(b); }
    assert Tree(item) && Value(item) == old(Value(item)) by { LinksAside(item); }
    if list.Valid() {
      Join(list, |b.xs|, item, b);
    }
  }

  // cJSON_InsertItemInArray
  method InsertItemInArray(list: Node, which: int, newitem: Node?) returns (ok: bool)
    requires Tree(list) && HasChildren(list.kind)
    requires newitem != null ==> Tree(newitem) && newitem.repr !! list.repr
    modifies list`child, list`children, list`repr, list.repr - {list}
    modifies (if newitem == null then {} else {newitem})`next, (if newitem == null then {} else {newitem})`prev
    ensures ok <==> which >= 0 && newitem != null
    ensures ok ==> var k := if which < |old(list.children)| then which else |old(list.children)|;
                   && list.children == With(old(list.children), k, newitem as Node)
                   && (which < |old(list.children)| || old(newitem.next) == null || old(list.children) == [] ==>
                        && Tree(list)
                        && Value(list) == Inserted(old(Value(list)), k, newitem.name, old(Value(newitem))))
    ensures ok && !(which < |old(list.children)| || old(newitem.next) == null || old(list.children) == []) ==>
              forall xs: seq<Node> :: !Linked(list.child, xs)
    ensures !ok ==> Tree(list) && Value(list) == old(Value(list))
  {
    if which < 0 || newitem == null { return false; }
    InsertAt(list, which, newitem, if which < |list.children| then which else |list.children|);
    ok := true;
  }

  method InsertAt(list: Node, which: nat, newitem: Node, ghost k: nat)
    requires Tree(list) && HasChildren(list.kind) && Tree(newitem) && newitem.repr !! list.repr
    requires k == if which < |list.children| then which else |list.children|
    modifies list`child, list`children, list`repr, list.repr - {list}, newitem`next, newitem`prev
    ensures list.children == With(old(list.children), k, newitem)
    ensures (k < |old(list.children)| || old(newitem.next) == null || old(list.children) == []) ==>
              Tree(list) && Value(list) == Inserted(old(Value(list)), k, newitem.name, old(Value(newitem)))
    ensures !(k < |old(list.children)| || old(newitem.next) == null || old(list.children) == []) ==>
              forall xs: seq<Node> :: !Linked(list.child, xs)
  {
    ghost var b := Brood(list);
    EditableIs(list);
    hide Tree, Value, Grove, Linked, Node.Valid, With, Without, Labelled, Editable, Removed, Inserted, Updated, Brood;
    Apartness(list, newitem, b);
    hide Insides, Distinct, Holds, Forest, Apart;
    InsertLinks(list, which, newitem, b.nodes);
    assert Grove(b) by { GroveStays(b); }
    assert Tree(newitem) && Value(newitem) == old(Value(newitem)) by { LinksAside(newitem); }
    if list.Valid() {
      Join(list, k, newitem, b);
    }
  }

  // cJSON_DetachItemFromArray
  method DetachItemFromArray(list: Node, which: int) returns (r: Node?)
    requires Tree(list) && HasChildren(list.kind)
    modifies list`child, list`children, list`repr, list.repr - {list}
    ensures Tree(list) && (r != null <==> 0 <= which < |old(list.children)|)
    ensures r != null ==>
              && r == old(list.children)[which] && list.children == Without(old(list.children), which)
              && r.next == null && r.prev == null && Tree(r) && r.repr !! list.repr
              && Value(list) == Removed(old(Value(list)), which)
    ensures r == null ==> list.children == old(list.children) && Value(list) == old(Value(list))
  {
    if which < 0 { return null; }
    TreeIsValid(list);
    hide Tree, Value, Removed, Without;
    r := list.GetItem(which);
    if r != null { DetachAt(list, r, which); }
  }

  lemma TreeIsValid(n: Node)
    requires Tree(n)
    ensures n.Valid()
  {
  }

  method DetachAt(list: Node, item: Node, ghost k: nat)
    requires Tree(list) && HasChildren(list.kind) && k < |list.children| && item == list.children[k]
    modifies list`child, list`children, list`repr, list.repr - {list}
    ensures Tree(list) && list.children == Without(old(list.children), k)
    ensures item.next == null && item.prev == null && Tree(item) && item.repr !! list.repr
    ensures Value(list) == Removed(old(Value(list)), k)
  {
    ghost var b := Brood(list);
    EditableIs(list);
    hide Tree, Value, Grove, Linked, Node.Valid, With, Without, Labelled, Editable, Removed, Inserted, Updated, Brood;
    Apartness(list, null, b);
    hide Insides, Distinct, Holds, Forest, Apart;
    DetachLinks(list, item, k, b.nodes);
    assert Grove(b) by { GroveStays(b); }
    Leave(list, k, b);
  }

  // cJSON_ReplaceItemInArray
  method ReplaceItemInArray(list: Node, which: int, newitem: Node?) returns (ok: bool)
    requires Tree(list) && HasChildren(list.kind)
    requires newitem != null ==> Tree(newitem) && newitem.repr !! list.repr
    modifies list`child, list`children, list`repr, list.repr - {list}
    modifies (if newitem == null then {} else {newitem})`next, (if newitem == null then {} else {newitem})`prev
    ensures Tree(list) && (ok <==> 0 <= which < |old(list.children)| && newitem != null)
    ensures ok ==> list.children == old(list.children)[which := newitem]
    ensures ok ==> Value(list) == Updated(old(Value(list)), which, newitem.name, old(Value(newitem)))
    ensures !ok ==> list.children == old(list.children) && Value(list) == old(Value(list))
  {
    if which < 0 || newitem == null { return false; }
    var item := list.GetItem(which);
    if item == null { return false; }
    ReplaceAt(list, item, newitem, which);
    ok := true;
  }

  method ReplaceAt(list: Node, item: Node, newitem: Node, ghost k: nat)
    requires Tree(list) && HasChildren(list.kind) && Tree(newitem) && newitem.repr !! list.repr
    requires k < |list.children| && item == list.children[k]
    modifies list`child, list`children, list`repr, list.repr - {list}, newitem`next, newitem`prev
    ensures Tree(list) && list.children == old(list.children)[k := newitem]
    ensures Value(list) == Updated(old(Value(list)), k, newitem.name, old(Value(newitem)))
  {
    ghost var b := Brood(list);
    EditableIs(list);
    hide Tree, Value, Grove, Linked, Node.Valid, With, Without, Labelled, Editable, Removed, Inserted, Updated, Brood;
    Apartness(list, newitem, b);
    hide Insides, Distinct, Holds, Forest, Apart;
    ReplaceKeeping(list, item, newitem, k, b);
    Swap(list, k, newitem, b);
  }

  method ReplaceKeeping(list: Node, item: Node, newitem: Node, ghost k: nat, ghost b: Batch)
    requires Grove(b) && Insides(b.xs, b.nodes) && list.Valid() && list !in b.nodes && b.xs == list.children
    requires Tree(newitem) && b.nodes + {list} !! newitem.repr && newitem in newitem.repr
    requires k < |b.xs| && item == b.xs[k] && forall c :: c in b.xs ==> c in b.nodes
    modifies list`child, list`children, b.nodes, newitem`next, newitem`prev
    ensures Grove(b) && list.Valid() && list.children == b.xs[k := newitem]
    ensures Tree(newitem) && Value(newitem) == old(Value(newitem))
  {
    hide Tree, Value, Grove, Node.Valid, Insides;
    ReplaceLinks(list, item, newitem, k, b.nodes);
    GroveStays(b);
    LinksAside(newitem);
  }

  // ----- the array builder -----

  function Integers(numbers: seq<int>): (vs: seq<Json>)
    ensures |vs| == |numbers|
  {
    if numbers == [] then [] else Integers(numbers[..|numbers| - 1]) + [Integer(numbers[|numbers| - 1])]
  }

  // cJSON_CreateNumber of an int
  method CreateNumber(num: int) returns (n: Node)
    requires INT_MIN <= num <= INT_MAX
    ensures fresh(n) && Blank(n) && n.next == null && Tree(n) && Value(n) == Integer(num)
  {
    n := new Node();
    n.kind := NumberKind;
    n.valuedouble := num as real;
    n.valueint := num;
  }

  // cJSON_CreateIntArray: each new node is hung behind the last one, and the
  // head's `prev` is set once at the end.
  method CreateIntArray(numbers: seq<int>) returns (a: Node)
    requires forall i :: 0 <= i < |numbers| ==> INT_MIN <= numbers[i] <= INT_MAX
    ensures fresh(a) && fresh(a.repr) && Tree(a) && Value(a) == JArray(Integers(numbers))
  {
    hide Tree, Value, Growing, Grove;
    a := new Node();
    a.kind := ArrayKind;
    var p: Node? := null;
    ghost var b := NOTHING;
    NothingGrown(a);
    var i := 0;
    while i < |numbers|
      invariant 0 <= i <= |numbers| && fresh(a) && fresh(b.nodes) && a.kind == ArrayKind
      invariant Growing(a, p, b) && b.vs == Integers(numbers[..i])
    {
      var n := CreateNumber(numbers[i]);
      ghost var more := Plus(b, n, n.repr, Value(n), n.name);
      Hang(a, p, n, b);
      b := more;
      p := n;
      assert numbers[..i + 1][..i] == numbers[..i];
      i := i + 1;
    }
    assert numbers[..i] == numbers;
    Close(a, p, b);
    HoldsValue(a, b);
  }

  lemma NothingGrown(parent: Node)
    requires Blank(parent)
    ensures Growing(parent, null, NOTHING)
  {
  }

  lemma HoldsValue(a: Node, b: Batch)
    requires Holds(a, b) && a.kind == ArrayKind
    ensures Tree(a) && Value(a) == JArray(b.vs)
  {
  }
}
