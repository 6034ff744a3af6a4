// cJSON_Compare as it runs on nodes: loops along the children, lookups by name,
// and the shortcut for one and the same node.
module JsonNodeCompare {
  import opened Bytes
  import opened JsonText
  import opened JsonCompare
  import opened ChildList
  import opened JsonNodes

  // The child at the cursor, and the cursor behind it.
  lemma Visit(parent: Node, o: Batch, i: nat, child: Node?)
    requires Holds(parent, o) && IsChild(parent, i, child)
    ensures |parent.children| == |o.vs| == |o.names| && parent in parent.repr
    ensures child == null <==> i >= |o.vs|
    ensures child != null ==> Tree(child) && child in child.repr && child.repr < parent.repr
    ensures child != null ==> IsChild(parent, i + 1, child.next)
    ensures child != null ==> Value(child) == o.vs[i] && Named(o.names, o.vs)[i] == Member(child.name, o.vs[i])
  {
    FirstChild(parent, o);
    hide Named;
    if child != null {
      ChildIs(parent, o, i);
      NamedAt(o.names, o.vs, i);
    }
    hide Value;
  }

  // get_object_item
  method GetObjectItem(parent: Node, name: seq<byte>, caseSensitive: bool, ghost o: Batch) returns (item: Node?)
    requires Holds(parent, o) && |o.names| == |o.vs|
    ensures IsChild(parent, FindMember(Named(o.names, o.vs), name, caseSensitive), item)
  {
    hide Holds, Tree, Value, Named, Name;
    ghost var members := Named(o.names, o.vs);
    ghost var i := 0;
    item := parent.child;
    FirstChild(parent, o);
    Visit(parent, o, i, item);
    assert members[0..] == members;
    while item != null && Name(item.name, caseSensitive) != Name(name, caseSensitive)
      invariant 0 <= i <= |members| && IsChild(parent, i, item)
      invariant FindMember(members, name, caseSensitive) == i + FindMember(members[i..], name, caseSensitive)
      decreases |members| - i
    {
      Visit(parent, o, i, item);
      assert members[i..][1..] == members[i + 1..];
      i := i + 1;
      item := item.next;
    }
    Visit(parent, o, i, item);
  }

  // cJSON_Compare of two trees that share no node, or of one with itself.
  method CompareNodes(a: Node?, b: Node?, caseSensitive: bool) returns (r: bool)
    requires (a != null ==> Tree(a)) && (b != null ==> Tree(b))
    requires a != null && b != null ==> a == b || a.repr !! b.repr
    ensures r <==> a != null && b != null && (a == b || Compare(Value(a), Value(b), caseSensitive))
    decreases (if a == null then {} else a.repr) + (if b == null then {} else b.repr), 2
  {
    if a == null || b == null { return false; }
    if a == b { return true; }
    ghost var x, y := Brood(a), Brood(b);
    TreeHolds(a);
    TreeHolds(b);
    hide Tree, Holds, Brood, CompareItems, CompareMembers, CompareDouble;
    if a.kind != b.kind { return false; }
    match a.kind {
      case NumberKind => r := CompareDouble(a.valuedouble, b.valuedouble);
      case StringKind => r := CText(a.valuestring) == CText(b.valuestring);
      case ArrayKind => r := CompareArrays(a, b, caseSensitive, x, y);
      case ObjectKind =>
        r := EachIsFound(a, b, caseSensitive, x, y);
        if r { r := EachIsFound(b, a, caseSensitive, y, x); }
      case _ => r := true;
    }
  }

  // One round of the loops.
  lemma ItemsFrom(xs: seq<Json>, ys: seq<Json>, i: nat, caseSensitive: bool)
    requires i < |xs| && i < |ys|
    ensures CompareItems(xs[i..], ys[i..], caseSensitive) <==>
            Compare(xs[i], ys[i], caseSensitive) && CompareItems(xs[i + 1..], ys[i + 1..], caseSensitive)
  {
    assert xs[i..][1..] == xs[i + 1..] && ys[i..][1..] == ys[i + 1..];
  }

  lemma ItemsEnd(xs: seq<Json>, ys: seq<Json>, caseSensitive: bool)
    requires xs == [] || ys == []
    ensures CompareItems(xs, ys, caseSensitive) <==> xs == [] && ys == []
  {
  }

  lemma MembersFrom(ms: seq<Member>, ns: seq<Member>, i: nat, caseSensitive: bool)
    requires i < |ms|
    ensures var k := FindMember(ns, ms[i].key, caseSensitive);
            CompareMembers(ms[i..], ns, caseSensitive) <==>
            && k < |ns| && Compare(ms[i].value, ns[k].value, caseSensitive)
            && CompareMembers(ms[i + 1..], ns, caseSensitive)
  {
    assert ms[i..][1..] == ms[i + 1..];
  }

  lemma MembersEnd(ms: seq<Member>, ns: seq<Member>, caseSensitive: bool)
    requires ms == []
    ensures CompareMembers(ms, ns, caseSensitive)
  {
  }

  // The loop over two arrays.
  method CompareArrays(a: Node, b: Node, caseSensitive: bool, ghost x: Batch, ghost y: Batch) returns (r: bool)
    requires Holds(a, x) && Holds(b, y) && a.repr !! b.repr
    ensures r <==> CompareItems(x.vs, y.vs, caseSensitive)
    decreases a.repr + b.repr, 1
  {
    hide Holds, Tree, Value, Named, Compare, CompareItems;
    ghost var i := 0;
    var c, d := a.child, b.child;
    FirstChild(a, x);
    FirstChild(b, y);
    assert x.vs[0..] == x.vs && y.vs[0..] == y.vs;
    Visit(a, x, i, c);
    Visit(b, y, i, d);
    while c != null && d != null
      invariant 0 <= i <= |x.vs| && i <= |y.vs| && IsChild(a, i, c) && IsChild(b, i, d)
      invariant CompareItems(x.vs, y.vs, caseSensitive) <==> CompareItems(x.vs[i..], y.vs[i..], caseSensitive)
      decreases |x.vs| - i
    {
      Visit(a, x, i, c);
      Visit(b, y, i, d);
      ItemsFrom(x.vs, y.vs, i, caseSensitive);
      r := CompareNodes(c, d, caseSensitive);
      if !r { return; }
      i := i + 1;
      c := c.next;
      d := d.next;
    }
    Visit(a, x, i, c);
    Visit(b, y, i, d);
    ItemsEnd(x.vs[i..], y.vs[i..], caseSensitive);
    r := c == d;
  }

  // One of the two loops over objects: every member of a is looked up in b.
  method EachIsFound(a: Node, b: Node, caseSensitive: bool, ghost x: Batch, ghost y: Batch) returns (r: bool)
    requires Holds(a, x) && Holds(b, y) && a.repr !! b.repr && |x.names| == |x.vs| && |y.names| == |y.vs|
    ensures r <==> CompareMembers(Named(x.names, x.vs), Named(y.names, y.vs), caseSensitive)
    decreases a.repr + b.repr, 1
  {
    hide Holds, Tree, Value, Named, Compare, CompareMembers, FindMember;
    ghost var ms, ns := Named(x.names, x.vs), Named(y.names, y.vs);
    ghost var i := 0;
    var c := a.child;
    FirstChild(a, x);
    assert ms[0..] == ms;
    while c != null
      invariant 0 <= i <= |ms| && IsChild(a, i, c)
      invariant CompareMembers(ms, ns, caseSensitive) <==> CompareMembers(ms[i..], ns, caseSensitive)
      decreases |ms| - i
    {
      Visit(a, x, i, c);
      MembersFrom(ms, ns, i, caseSensitive);
      var d := GetObjectItem(b, c.name, caseSensitive, y);
      Visit(b, y, FindMember(ns, c.name, caseSensitive), d);
      if d == null { return false; }
      r := CompareNodes(c, d, caseSensitive);
      if !r { return; }
      i := i + 1;
      c := c.next;
    }
    Visit(a, x, i, c);
    MembersEnd(ms[i..], ns, caseSensitive);
    r := true;
  }
}
