// Trees of nodes on the heap: child lists well formed at every level, the tree
// they stand for, and the pointer writes by which a list of trees is built.
module JsonNodes {
  import opened Bytes
  import opened JsonText
  import opened ChildList

  // ----- trees of nodes -----

  predicate HasChildren(k: Kind) { k.ArrayKind? || k.ObjectKind? }

  // Nodes whose child lists are well formed at every level and share nothing.
  ghost predicate Tree(n: Node)
    reads n, n.repr
    decreases n.repr, 0
  {
    && n in n.repr
    && Forest(n.children, n.repr - {n})
    && n.Valid()
    && Apart(n.children)
    && (!HasChildren(n.kind) ==> n.children == [])
  }

  ghost predicate Apart(xs: seq<Node>)
    reads xs
  {
    forall i, j :: 0 <= i < j < |xs| ==> xs[i].repr !! xs[j].repr
  }

  // Trees within a set of nodes.
  ghost predicate Forest(xs: seq<Node>, nodes: set<Node>)
    reads nodes
    decreases nodes, 1
  {
    forall i :: 0 <= i < |xs| ==> xs[i] in nodes && xs[i].repr <= nodes && Tree(xs[i])
  }

  ghost function Value(n: Node): Json
    requires Tree(n)
    reads n, n.repr
    decreases n.repr, 0
  {
    match n.kind
    case NullKind => JNull
    case FalseKind => JFalse
    case TrueKind => JTrue
    case NumberKind => JNumber(n.valueint, n.valuedouble)
    case StringKind => JString(n.valuestring)
    case ArrayKind => JArray(Values(n.children, n.repr - {n}))
    case ObjectKind => JObject(Members(n.children, n.repr - {n}))
  }

  ghost function Values(xs: seq<Node>, nodes: set<Node>): (vs: seq<Json>)
    requires Forest(xs, nodes)
    reads nodes
    ensures |vs| == |xs|
    decreases nodes, |xs| + 1
  {
    if xs == [] then [] else [Value(xs[0])] + Values(xs[1..], nodes)
  }

  ghost function Members(xs: seq<Node>, nodes: set<Node>): (ms: seq<Member>)
    requires Forest(xs, nodes)
    reads nodes
    ensures |ms| == |xs|
    decreases nodes, |xs| + 1
  {
    if xs == [] then [] else [Member(xs[0].name, Value(xs[0]))] + Members(xs[1..], nodes)
  }

  // A new item: no children yet.
  ghost predicate Blank(n: Node)
    reads n
  {
    n.child == null && n.children == [] && n.repr == {n}
  }

  // ----- lists of trees by what they hold -----

  // Roots, all their nodes, and the values and names of the roots.
  datatype Batch = Batch(xs: seq<Node>, nodes: set<Node>, vs: seq<Json>, names: seq<seq<byte>>)

  const NOTHING := Batch([], {}, [], [])

  ghost function Plus(b: Batch, n: Node, repr: set<Node>, v: Json, name: seq<byte>): Batch
  {
    Batch(b.xs + [n], b.nodes + repr, b.vs + [v], b.names + [name])
  }

  // Trees that share nothing, with their values and names.
  ghost predicate Grove(b: Batch)
    reads b.nodes
  {
    && Forest(b.xs, b.nodes) && |b.vs| == |b.xs| == |b.names|
    && Apart(b.xs)
    && (forall i :: 0 <= i < |b.xs| ==> Value(b.xs[i]) == b.vs[i] && b.xs[i].name == b.names[i])
  }

  function Named(names: seq<seq<byte>>, vs: seq<Json>): (ms: seq<Member>)
    requires |names| == |vs|
    ensures |ms| == |vs|
  {
    if vs == [] then [] else [Member(names[0], vs[0])] + Named(names[1..], vs[1..])
  }

  lemma {:induction false} NamedAt(names: seq<seq<byte>>, vs: seq<Json>, i: nat)
    requires i < |names| == |vs|
    ensures Named(names, vs)[i] == Member(names[i], vs[i])
  {
    if i > 0 { NamedAt(names[1..], vs[1..], i - 1); }
  }

  function Assembled(k: Kind, i: int, d: real, s: seq<byte>, names: seq<seq<byte>>, vs: seq<Json>): Json
    requires |names| == |vs|
  {
    match k
    case NullKind => JNull
    case FalseKind => JFalse
    case TrueKind => JTrue
    case NumberKind => JNumber(i, d)
    case StringKind => JString(s)
    case ArrayKind => JArray(vs)
    case ObjectKind => JObject(Named(names, vs))
  }

  lemma ValueIs(n: Node, b: Batch)
    requires Tree(n) && Grove(b) && b.xs == n.children && b.nodes == n.repr - {n}
    ensures Value(n) == Assembled(n.kind, n.valueint, n.valuedouble, n.valuestring, b.names, b.vs)
  {
    hide Forest;
    ValuesAre(b);
  }

  lemma {:induction false} ValuesAre(b: Batch)
    requires Grove(b)
    ensures Values(b.xs, b.nodes) == b.vs && Members(b.xs, b.nodes) == Named(b.names, b.vs)
    decreases |b.xs|
  {
    if b.xs != [] {
      hide Tree, Value;
      ValuesAre(Batch(b.xs[1..], b.nodes, b.vs[1..], b.names[1..]));
      assert b.vs == [b.vs[0]] + b.vs[1..];
    }
  }

  function Names(xs: seq<Node>): (names: seq<seq<byte>>)
    reads xs
    ensures |names| == |xs| && forall i :: 0 <= i < |xs| ==> names[i] == xs[i].name
  {
    if xs == [] then [] else [xs[0].name] + Names(xs[1..])
  }

  // The children of a tree.
  ghost function Brood(n: Node): Batch
    requires Tree(n)
    reads n, n.repr
  {
    Batch(n.children, n.repr - {n}, Values(n.children, n.repr - {n}), Names(n.children))
  }

  lemma {:induction false} ForestIsGrove(xs: seq<Node>, nodes: set<Node>)
    requires Forest(xs, nodes) && Apart(xs)
    ensures Grove(Batch(xs, nodes, Values(xs, nodes), Names(xs)))
  {
    hide Tree, Value;
    if xs != [] {
      ForestIsGrove(xs[1..], nodes);
    }
  }

  // A tree, with the batch of its children.
  ghost predicate Holds(n: Node, b: Batch)
    reads n, n.repr
  {
    && Tree(n) && b.xs == n.children && b.nodes == n.repr - {n} && Grove(b)
    && Value(n) == Assembled(n.kind, n.valueint, n.valuedouble, n.valuestring, b.names, b.vs)
    && (!HasChildren(n.kind) ==> b.vs == [])
  }

  lemma TreeHolds(n: Node)
    requires Tree(n)
    ensures Holds(n, Brood(n))
    ensures n.child == (if n.children == [] then null else n.children[0])
    ensures !HasChildren(n.kind) ==> n.children == []
  {
    ForestIsGrove(n.children, n.repr - {n});
    ValueIs(n, Brood(n));
  }

  // ----- walking along the children -----

  // The node at the cursor after i children.
  ghost predicate IsChild(item: Node, i: nat, child: Node?)
    reads item
  {
    child == if i < |item.children| then item.children[i] else null
  }

  lemma FirstChild(item: Node, o: Batch)
    requires Holds(item, o)
    ensures IsChild(item, 0, item.child) && |item.children| == |o.vs| == |o.names|
  {
    hide Value, Assembled;
  }

  // The child at the cursor.
  lemma ChildIs(item: Node, o: Batch, i: nat)
    requires Holds(item, o) && i < |o.vs|
    ensures var c := item.children[i];
            && |item.children| == |o.vs| == |o.names|
            && item in item.repr && c.repr < item.repr && Tree(c) && Value(c) == o.vs[i] && c.name == o.names[i]
            && c.next == After(item.children, i) && IsChild(item, i + 1, c.next)
  {
    hide Value, Assembled;
    var c := item.children[i];
    assert c.repr <= item.repr - {item} && item in item.repr;
  }

  lemma GroveMakesTree(n: Node, b: Batch)
    requires n in n.repr && Grove(b) && b.xs == n.children && b.nodes == n.repr - {n}
    requires Linked(n.child, n.children) && Distinct(n.children) && (!HasChildren(n.kind) ==> n.children == [])
    ensures Holds(n, b)
  {
    RootsWithin(n.children, n.repr - {n});
    assert Tree(n);
    ValueIs(n, b);
  }

  // ----- what relinking keeps -----

  twostate predicate LabelKept(n: Node)
    reads n
  {
    && n.kind == old(n.kind) && n.valuestring == old(n.valuestring) && n.valueint == old(n.valueint)
    && n.valuedouble == old(n.valuedouble) && n.name == old(n.name)
  }

  // All but the links of a node is as it was.
  twostate predicate OnlyLinks(n: Node)
    reads n
  {
    LabelKept(n) && n.child == old(n.child) && n.children == old(n.children) && n.repr == old(n.repr)
  }

  lemma RootsWithin(xs: seq<Node>, nodes: set<Node>)
    requires Forest(xs, nodes)
    ensures forall c :: c in xs ==> c in nodes
  {
  }

  // Hanging a tree into a list changes its root's links only.
  twostate lemma LinksAside(n: Node)
    requires old(Tree(n)) && OnlyLinks(n)
    requires forall c :: c in old(n.repr) - {n} ==> unchanged(c)
    ensures Tree(n) && Value(n) == old(Value(n))
  {
    hide Linked, Distinct, Apart;
    assert old(Forest(n.children, n.repr - {n})) && Forest(n.children, n.repr - {n});
    assert old(Linked(n.child, n.children)) && Linked(n.child, n.children);
    assert old(Apart(n.children)) && Apart(n.children);
  }

  // No tree holds another one's root.
  ghost predicate Insides(xs: seq<Node>, nodes: set<Node>)
    reads nodes, xs
  {
    && (forall i :: 0 <= i < |xs| ==> xs[i] in nodes && xs[i].repr <= nodes)
    && (forall i, c :: 0 <= i < |xs| && c in xs[i].repr - {xs[i]} ==> c !in xs)
  }

  lemma OwnRoots(xs: seq<Node>, nodes: set<Node>)
    requires Forest(xs, nodes) && Apart(xs)
    ensures Distinct(xs) && Insides(xs, nodes)
  {
    forall i | 0 <= i < |xs| ensures xs[i] in xs[i].repr { assert Tree(xs[i]); }
    hide Tree;
    assert forall i, j :: 0 <= i < |xs| && 0 <= j < |xs| && i != j ==> xs[j] !in xs[i].repr;
    forall i, c | 0 <= i < |xs| && c in xs[i].repr - {xs[i]} ensures c !in xs {
      assert forall j :: 0 <= j < |xs| ==> xs[j] != c;
    }
  }

  // Of the nodes, only the links of the roots may change.
  twostate lemma GroveStays(b: Batch)
    requires old(Grove(b)) && old(Insides(b.xs, b.nodes))
    requires forall i :: 0 <= i < |b.xs| ==> OnlyLinks(b.xs[i])
    requires forall c :: c in b.nodes && c !in b.xs ==> unchanged(c)
    ensures Grove(b)
  {
    hide Tree, Value;
    forall i | 0 <= i < |b.xs| ensures Tree(b.xs[i]) && Value(b.xs[i]) == old(Value(b.xs[i])) {
      LinksAside(b.xs[i]);
    }
  }

  lemma GroveGrows(b: Batch, n: Node)
    requires Grove(b) && Tree(n) && b.nodes !! n.repr
    ensures Grove(Plus(b, n, n.repr, Value(n), n.name))
  {
    hide Value;
    assert n in n.repr;
    hide Tree;
  }

  // ----- building a list -----

  // A list under construction, the head's `prev` not yet set.
  ghost predicate Strung(head: Node?, last: Node?, b: Batch)
    reads b.nodes
  {
    && Grove(b) && Chained(head, b.xs)
    && last == if b.xs == [] then null else b.xs[|b.xs| - 1]
  }

  lemma NothingStrung()
    ensures Strung(null, null, NOTHING)
  {
  }

  // The pointer writes of one round: n behind the last node.
  method HangBehind(last: Node, n: Node, ghost head: Node?, ghost b: Batch)
    requires Strung(head, last, b) && n.next == null && n !in b.nodes
    modifies n`prev, b.nodes
    ensures Grove(b) && Chained(head, b.xs + [n]) && n.next == null
  {
    OwnRoots(b.xs, b.nodes);
    hide Grove, Forest, Apart;
    HangLinks(last, n, head, b.xs, b.nodes);
    hide Chained, Insides, Distinct;
    GroveStays(b);
  }

  method HangLinks(last: Node, n: Node, ghost head: Node?, ghost xs: seq<Node>, ghost nodes: set<Node>)
    requires Distinct(xs) && Insides(xs, nodes) && Chained(head, xs) && xs != [] && last == xs[|xs| - 1]
    requires n.next == null && n !in nodes
    modifies n`prev, nodes
    ensures Chained(head, xs + [n]) && n.next == null
    ensures forall i :: 0 <= i < |xs| ==> OnlyLinks(xs[i])
    ensures forall c :: c in nodes && c !in xs ==> unchanged(c)
  {
    last.next := n;
    n.prev := last;
    ghost var ys := xs + [n];
    forall i | 0 <= i < |ys| ensures ys[i].next == After(ys, i) && (i > 0 ==> ys[i].prev == Before(ys, i)) {
      if i + 1 < |xs| { assert xs[i] != xs[|xs| - 1]; }
    }
  }

  lemma FirstChained(n: Node)
    requires n.next == null
    ensures Chained(n, [] + [n])
  {
  }

  // The chained node's tree joins the grove.
  lemma StrungGrows(head: Node?, b: Batch, n: Node)
    requires Grove(b) && Chained(head, b.xs + [n]) && Tree(n) && b.nodes !! n.repr
    ensures Strung(head, n, Plus(b, n, n.repr, Value(n), n.name))
  {
    GroveGrows(b, n);
    hide Tree, Value, Grove;
  }

  lemma NoneIsClosed(last: Node?, b: Batch)
    requires Strung(null, last, b)
    ensures b.xs == [] && Linked(null, b.xs) && Distinct(b.xs) && Grove(b) && |b.names| == |b.vs|
  {
  }

  // The head's `prev` closes the list.
  method CloseChain(head: Node, last: Node?, ghost b: Batch)
    requires Strung(head, last, b)
    modifies b.nodes
    ensures Linked(head, b.xs) && Distinct(b.xs) && Grove(b) && |b.names| == |b.vs|
  {
    assert |b.names| == |b.vs|;
    OwnRoots(b.xs, b.nodes);
    hide Grove, Forest, Apart;
    CloseLinks(head, last, b.xs, b.nodes);
    hide Linked, Insides, Distinct, Chained;
    GroveStays(b);
  }

  method CloseLinks(head: Node, last: Node?, ghost xs: seq<Node>, ghost nodes: set<Node>)
    requires Distinct(xs) && Insides(xs, nodes) && Chained(head, xs) && xs != [] && last == xs[|xs| - 1]
    modifies nodes
    ensures Linked(head, xs)
    ensures forall i :: 0 <= i < |xs| ==> OnlyLinks(xs[i])
    ensures forall c :: c in nodes && c !in xs ==> unchanged(c)
  {
    head.prev := last;
    assert forall i :: 0 < i < |xs| ==> xs[i] != xs[0];
  }

  // The list under construction hangs from a new node.
  ghost predicate Growing(parent: Node, last: Node?, b: Batch)
    reads parent, b.nodes
  {
    parent !in b.nodes && parent.repr == {parent} && Strung(parent.child, last, b)
  }

  // A finished tree is hung behind the last child, or becomes the first one.
  method Hang(parent: Node, last: Node?, n: Node, ghost b: Batch)
    requires Growing(parent, last, b)
    requires Tree(n) && n.next == null && b.nodes + {parent} !! n.repr
    modifies parent`child, b.nodes, n`prev
    ensures n.repr == old(n.repr) && parent.next == old(parent.next) && LabelKept(parent)
    ensures Growing(parent, n, Plus(b, n, n.repr, old(Value(n)), old(n.name)))
  {
    assert n in n.repr;
    hide Tree, Value, Grove, Chained;
    if last != null {
      HangBehind(last, n, parent.child, b);
    } else {
      FirstChained(n);
      parent.child := n;
    }
    LinksAside(n);
    StrungGrows(parent.child, b, n);
  }

  // The head's `prev` closes the list, and the node owns it.
  method Close(parent: Node, last: Node?, ghost b: Batch)
    requires Growing(parent, last, b)
    requires !HasChildren(parent.kind) ==> b.xs == []
    modifies parent`children, parent`repr, b.nodes
    ensures Holds(parent, b) && parent.repr == b.nodes + {parent} && parent.next == old(parent.next)
    ensures LabelKept(parent)
  {
    RootsWithin(b.xs, b.nodes);
    hide Tree, Value, Grove, Strung, Chained, Linked, Distinct;
    if parent.child != null {
      CloseChain(parent.child, last, b);
    } else {
      NoneIsClosed(last, b);
    }
    parent.children := b.xs;
    parent.repr := b.nodes + {parent};
    assert parent.repr - {parent} == b.nodes;
    GroveMakesTree(parent, b);
  }
}
