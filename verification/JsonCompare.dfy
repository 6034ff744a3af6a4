// cJSON_Compare and cJSON_Duplicate: comparison is equality of what two trees
// mean, objects being maps from names, and a duplicate compares equal.
module JsonCompare {
  import opened Bytes
  import opened JsonText

  function ToLower(b: byte): byte { if UPPER_A <= b <= 0x5A then b + 0x20 else b }

  function Lower(t: seq<byte>): (r: seq<byte>)
    ensures |r| == |t|
  {
    if t == [] then [] else [ToLower(t[0])] + Lower(t[1..])
  }

  // The name under which a key is looked up.
  function Name(key: seq<byte>, caseSensitive: bool): seq<byte>
  {
    if caseSensitive then CText(key) else Lower(CText(key))
  }

  // Two letters that differ in case only, A to Z and a to z.
  predicate SameLetter(a: byte, b: byte)
  {
    a == b || (0x41 <= a <= 0x5A && b == a + 0x20) || (0x41 <= b <= 0x5A && a == b + 0x20)
  }

  predicate SameButCase(a: seq<byte>, b: seq<byte>)
  {
    |a| == |b| && forall k :: 0 <= k < |a| ==> SameLetter(a[k], b[k])
  }

  lemma {:induction false} LowerIs(a: seq<byte>, b: seq<byte>)
    ensures Lower(a) == Lower(b) <==> SameButCase(a, b)
  {
    if a != [] && b != [] {
      LowerIs(a[1..], b[1..]);
      assert Lower(a)[1..] == Lower(a[1..]) && Lower(b)[1..] == Lower(b[1..]);
      assert forall k :: 0 < k < |a| ==> a[k] == a[1..][k - 1];
      assert forall k :: 0 < k < |b| ==> b[k] == b[1..][k - 1];
      assert forall k :: 0 <= k < |a[1..]| ==> a[1..][k] == a[k + 1];
      assert forall k :: 0 <= k < |b[1..]| ==> b[1..][k] == b[k + 1];
    }
  }

  // Names match when they are the same C string, up to case where it does not count.
  lemma NamesMatch(a: seq<byte>, b: seq<byte>)
    ensures Name(a, true) == Name(b, true) <==> CText(a) == CText(b)
    ensures Name(a, false) == Name(b, false) <==> SameButCase(CText(a), CText(b))
  {
    LowerIs(CText(a), CText(b));
  }

  // get_object_item: the first member of that name, or the number of members.
  function FindMember(members: seq<Member>, key: seq<byte>, caseSensitive: bool): (k: nat)
    ensures k <= |members|
  {
    if members == [] || Name(members[0].key, caseSensitive) == Name(key, caseSensitive) then 0
    else 1 + FindMember(members[1..], key, caseSensitive)
  }

  function Abs(x: real): real { if x < 0.0 then -x else x }

  const DBL_EPSILON: real := 1.0 / 4503599627370496.0

  predicate CompareDouble(a: real, b: real)
  {
    Abs(a - b) <= (if Abs(a) > Abs(b) then Abs(a) else Abs(b)) * DBL_EPSILON
  }

  // ----- the number of nodes of a tree -----

  function Size(v: Json): (n: nat)
    ensures n >= 1
    decreases v, 1
  {
    match v
    case JArray(items) => 1 + SizeItems(items)
    case JObject(members) => 1 + SizeMembers(members)
    case _ => 1
  }

  function SizeItems(items: seq<Json>): nat
    decreases items, 0
  {
    if items == [] then 0 else Size(items[0]) + SizeItems(items[1..])
  }

  function SizeMembers(members: seq<Member>): nat
    decreases members, 0
  {
    if members == [] then 0 else Size(members[0].value) + SizeMembers(members[1..])
  }

  lemma {:induction false} MemberIsSmaller(members: seq<Member>, k: nat)
    requires k < |members|
    ensures Size(members[k].value) <= SizeMembers(members)
  {
    if k > 0 { MemberIsSmaller(members[1..], k - 1); }
  }

  // ----- cJSON_Compare -----

  // Comparison of two nodes at different addresses.
  predicate Compare(a: Json, b: Json, caseSensitive: bool)
    decreases Size(a) + Size(b), 1
  {
    match (a, b)
    case (JNull, JNull) => true
    case (JFalse, JFalse) => true
    case (JTrue, JTrue) => true
    case (JNumber(_, x), JNumber(_, y)) => CompareDouble(x, y)
    case (JString(t), JString(u)) => CText(t) == CText(u)
    case (JArray(xs), JArray(ys)) => CompareItems(xs, ys, caseSensitive)
    case (JObject(ms), JObject(ns)) =>
      CompareMembers(ms, ns, caseSensitive) && CompareMembers(ns, ms, caseSensitive)
    case _ => false
  }

  // The loop over two arrays.
  predicate CompareItems(xs: seq<Json>, ys: seq<Json>, caseSensitive: bool)
    decreases SizeItems(xs) + SizeItems(ys), 2, |xs|
  {
    if xs == [] || ys == [] then xs == [] && ys == []
    else
      Compare(xs[0], ys[0], caseSensitive) && CompareItems(xs[1..], ys[1..], caseSensitive)
  }

  // Each member of ms is looked up in ns and compared.
  predicate CompareMembers(ms: seq<Member>, ns: seq<Member>, caseSensitive: bool)
    decreases SizeMembers(ms) + SizeMembers(ns), 2, |ms|
  {
    if ms == [] then true
    else
      var k := FindMember(ns, ms[0].key, caseSensitive);
      && k < |ns|
      && (MemberIsSmaller(ns, k); Compare(ms[0].value, ns[k].value, caseSensitive))
      && CompareMembers(ms[1..], ns, caseSensitive)
  }

  // ----- what a tree means -----

  datatype Meaning =
    | Null
    | False
    | True
    | Number(n: real)
    | Text(t: seq<byte>)
    | List(elements: seq<Meaning>)
    | Record(fields: map<seq<byte>, Meaning>)

  function Mean(v: Json, caseSensitive: bool): Meaning
    decreases v, 1
  {
    match v
    case JNull => Null
    case JFalse => False
    case JTrue => True
    case JNumber(_, d) => Number(d)
    case JString(t) => Text(CText(t))
    case JArray(items) => List(MeanItems(items, caseSensitive))
    case JObject(members) => Record(MeanMembers(members, caseSensitive))
  }

  function MeanItems(items: seq<Json>, caseSensitive: bool): (r: seq<Meaning>)
    ensures |r| == |items|
    decreases items, 0
  {
    if items == [] then [] else [Mean(items[0], caseSensitive)] + MeanItems(items[1..], caseSensitive)
  }

  function MeanMembers(members: seq<Member>, caseSensitive: bool): map<seq<byte>, Meaning>
    decreases members, 0
  {
    if members == [] then map[]
    else
      MeanMembers(members[1..], caseSensitive)
        [Name(members[0].key, caseSensitive) := Mean(members[0].value, caseSensitive)]
  }

  // No object has two members of one name.
  predicate DistinctNames(v: Json, caseSensitive: bool)
    decreases v, 1
  {
    match v
    case JArray(items) => DistinctInItems(items, caseSensitive)
    case JObject(members) => DistinctInMembers(members, caseSensitive)
    case _ => true
  }

  predicate DistinctInItems(items: seq<Json>, caseSensitive: bool)
    decreases items, 0
  {
    items == [] || (DistinctNames(items[0], caseSensitive) && DistinctInItems(items[1..], caseSensitive))
  }

  predicate DistinctInMembers(members: seq<Member>, caseSensitive: bool)
    decreases members, 0
  {
    members == [] ||
    (&& FindMember(members[1..], members[0].key, caseSensitive) == |members| - 1
     && DistinctNames(members[0].value, caseSensitive)
     && DistinctInMembers(members[1..], caseSensitive))
  }

  // The tolerance of compare_double does not confuse two 32-bit integers.
  lemma IntegersCompareExactly(m: int, n: int)
    requires INT_MIN <= m <= INT_MAX && INT_MIN <= n <= INT_MAX
    ensures CompareDouble(m as real, n as real) <==> m == n
  {
    var a, b := m as real, n as real;
    var large := if Abs(a) > Abs(b) then Abs(a) else Abs(b);
    assert large <= 2147483648.0;
    assert large * DBL_EPSILON < 1.0;
    if m != n {
      assert Abs(a - b) >= 1.0;
    }
  }

  // One unit in the last place at 1 is tolerated, two are not.
  lemma ToleranceIsOneUnit()
    ensures CompareDouble(1.0 + 1.0 / 4503599627370496.0, 1.0)
    ensures !CompareDouble(1.0 + 2.0 / 4503599627370496.0, 1.0)
  {
  }

  // Lookup finds what the meaning maps the name to.
  lemma {:induction false} LookupMeans(ns: seq<Member>, key: seq<byte>, caseSensitive: bool)
    ensures var k, m := FindMember(ns, key, caseSensitive), MeanMembers(ns, caseSensitive);
            if k < |ns|
            then Name(key, caseSensitive) in m &&
                 m[Name(key, caseSensitive)] == Mean(ns[k].value, caseSensitive)
            else Name(key, caseSensitive) !in m
  {
    if ns != [] {
      LookupMeans(ns[1..], key, caseSensitive);
    }
  }

  predicate Submap(m: map<seq<byte>, Meaning>, n: map<seq<byte>, Meaning>)
  {
    forall x :: x in m ==> x in n && m[x] == n[x]
  }

  // Every member means what the map says of its name.
  predicate Fits(ms: seq<Member>, fields: map<seq<byte>, Meaning>, caseSensitive: bool)
  {
    ms == [] ||
    (&& Name(ms[0].key, caseSensitive) in fields
     && fields[Name(ms[0].key, caseSensitive)] == Mean(ms[0].value, caseSensitive)
     && Fits(ms[1..], fields, caseSensitive))
  }

  // In every object the members of one name mean the same.
  predicate Agrees(v: Json, caseSensitive: bool)
    decreases v, 1
  {
    match v
    case JArray(items) => AgreesInItems(items, caseSensitive)
    case JObject(members) =>
      Fits(members, MeanMembers(members, caseSensitive), caseSensitive) && AgreesInMembers(members, caseSensitive)
    case _ => true
  }

  predicate AgreesInItems(items: seq<Json>, caseSensitive: bool)
    decreases items, 0
  {
    items == [] || (Agrees(items[0], caseSensitive) && AgreesInItems(items[1..], caseSensitive))
  }

  predicate AgreesInMembers(members: seq<Member>, caseSensitive: bool)
    decreases members, 0
  {
    members == [] || (Agrees(members[0].value, caseSensitive) && AgreesInMembers(members[1..], caseSensitive))
  }

  // For all trees, repeated names or not: two trees compare equal exactly when
  // the members of one name agree in both and the trees mean the same.
  lemma {:induction false} CompareMeans(a: Json, b: Json, caseSensitive: bool)
    requires Integral(a) && Integral(b)
    ensures Compare(a, b, caseSensitive) <==>
            Agrees(a, caseSensitive) && Agrees(b, caseSensitive) && Mean(a, caseSensitive) == Mean(b, caseSensitive)
    decreases Size(a) + Size(b), 1
  {
    match (a, b)
    case (JNumber(m, _), JNumber(n, _)) => IntegersCompareExactly(m, n);
    case (JArray(xs), JArray(ys)) => CompareItemsMeans(xs, ys, caseSensitive);
    case (JObject(ms), JObject(ns)) =>
      CompareMembersMeans(ms, ns, caseSensitive);
      CompareMembersMeans(ns, ms, caseSensitive);
      FoundAgree(ms, ns, caseSensitive);
      FoundAgree(ns, ms, caseSensitive);
      BothFit(ms, ns, caseSensitive);
    case _ =>
  }

  lemma {:induction false} CompareItemsMeans(xs: seq<Json>, ys: seq<Json>, caseSensitive: bool)
    requires IntegralItems(xs) && IntegralItems(ys)
    ensures CompareItems(xs, ys, caseSensitive) <==>
            && AgreesInItems(xs, caseSensitive) && AgreesInItems(ys, caseSensitive)
            && MeanItems(xs, caseSensitive) == MeanItems(ys, caseSensitive)
    decreases SizeItems(xs) + SizeItems(ys), 2, |xs|
  {
    if xs != [] && ys != [] {
      CompareMeans(xs[0], ys[0], caseSensitive);
      CompareItemsMeans(xs[1..], ys[1..], caseSensitive);
      assert MeanItems(xs, caseSensitive)[1..] == MeanItems(xs[1..], caseSensitive);
      assert MeanItems(ys, caseSensitive)[1..] == MeanItems(ys[1..], caseSensitive);
    }
  }

  // The members of ns that the members of ms find agree in themselves.
  predicate FoundAgreeing(ms: seq<Member>, ns: seq<Member>, caseSensitive: bool)
  {
    ms == [] ||
    (&& FindMember(ns, ms[0].key, caseSensitive) < |ns|
     && Agrees(ns[FindMember(ns, ms[0].key, caseSensitive)].value, caseSensitive)
     && FoundAgreeing(ms[1..], ns, caseSensitive))
  }

  lemma {:induction false} CompareMembersMeans(ms: seq<Member>, ns: seq<Member>, caseSensitive: bool)
    requires IntegralMembers(ms) && IntegralMembers(ns)
    ensures CompareMembers(ms, ns, caseSensitive) <==>
            && AgreesInMembers(ms, caseSensitive) && FoundAgreeing(ms, ns, caseSensitive)
            && Fits(ms, MeanMembers(ns, caseSensitive), caseSensitive)
    decreases SizeMembers(ms) + SizeMembers(ns), 2, |ms|
  {
    if ms != [] {
      var k := FindMember(ns, ms[0].key, caseSensitive);
      LookupMeans(ns, ms[0].key, caseSensitive);
      CompareMembersMeans(ms[1..], ns, caseSensitive);
      if k < |ns| {
        MemberIsSmaller(ns, k);
        MemberIsGood(ns, k, caseSensitive);
        CompareMeans(ms[0].value, ns[k].value, caseSensitive);
      }
    }
  }

  lemma {:induction false} MemberIsGood(ns: seq<Member>, k: nat, caseSensitive: bool)
    requires k < |ns| && IntegralMembers(ns)
    ensures Integral(ns[k].value)
    ensures AgreesInMembers(ns, caseSensitive) ==> Agrees(ns[k].value, caseSensitive)
  {
    if k > 0 { MemberIsGood(ns[1..], k - 1, caseSensitive); }
  }

  lemma {:induction false} FoundAgree(ms: seq<Member>, ns: seq<Member>, caseSensitive: bool)
    requires IntegralMembers(ns)
    ensures AgreesInMembers(ns, caseSensitive) && Fits(ms, MeanMembers(ns, caseSensitive), caseSensitive) ==>
              FoundAgreeing(ms, ns, caseSensitive)
  {
    if ms != [] {
      FoundAgree(ms[1..], ns, caseSensitive);
      LookupMeans(ns, ms[0].key, caseSensitive);
      var k := FindMember(ns, ms[0].key, caseSensitive);
      if k < |ns| { MemberIsGood(ns, k, caseSensitive); }
    }
  }

  // Members that fit a map are a part of it.
  lemma {:induction false} FitsIsPart(ms: seq<Member>, fields: map<seq<byte>, Meaning>, caseSensitive: bool)
    requires Fits(ms, fields, caseSensitive)
    ensures Submap(MeanMembers(ms, caseSensitive), fields)
  {
    if ms != [] { FitsIsPart(ms[1..], fields, caseSensitive); }
  }

  lemma BothFit(ms: seq<Member>, ns: seq<Member>, caseSensitive: bool)
    ensures var m, n := MeanMembers(ms, caseSensitive), MeanMembers(ns, caseSensitive);
            Fits(ms, n, caseSensitive) && Fits(ns, m, caseSensitive) <==>
            Fits(ms, m, caseSensitive) && Fits(ns, n, caseSensitive) && m == n
  {
    hide Fits, MeanMembers;
    var m, n := MeanMembers(ms, caseSensitive), MeanMembers(ns, caseSensitive);
    if Fits(ms, n, caseSensitive) && Fits(ns, m, caseSensitive) {
      FitsIsPart(ms, n, caseSensitive);
      FitsIsPart(ns, m, caseSensitive);
      assert m.Keys == n.Keys;
      assert m == n;
    }
  }

  // Where no object repeats a name, comparison is equality of meaning.
  lemma CompareMeansWhenDistinct(a: Json, b: Json, caseSensitive: bool)
    requires Integral(a) && Integral(b)
    requires DistinctNames(a, caseSensitive) && DistinctNames(b, caseSensitive)
    ensures Compare(a, b, caseSensitive) <==> Mean(a, caseSensitive) == Mean(b, caseSensitive)
  {
    CompareMeans(a, b, caseSensitive);
    DistinctAgrees(a, caseSensitive);
    DistinctAgrees(b, caseSensitive);
  }

  lemma {:induction false} DistinctAgrees(v: Json, caseSensitive: bool)
    requires DistinctNames(v, caseSensitive)
    ensures Agrees(v, caseSensitive)
    decreases v, 1
  {
    match v
    case JArray(items) => DistinctAgreesItems(items, caseSensitive);
    case JObject(members) => DistinctAgreesMembers(members, caseSensitive);
    case _ =>
  }

  lemma {:induction false} DistinctAgreesItems(items: seq<Json>, caseSensitive: bool)
    requires DistinctInItems(items, caseSensitive)
    ensures AgreesInItems(items, caseSensitive)
    decreases items, 0
  {
    if items != [] {
      DistinctAgrees(items[0], caseSensitive);
      DistinctAgreesItems(items[1..], caseSensitive);
    }
  }

  lemma {:induction false} DistinctAgreesMembers(members: seq<Member>, caseSensitive: bool)
    requires DistinctInMembers(members, caseSensitive)
    ensures AgreesInMembers(members, caseSensitive)
    ensures Fits(members, MeanMembers(members, caseSensitive), caseSensitive)
    decreases members, 0
  {
    if members != [] {
      DistinctAgrees(members[0].value, caseSensitive);
      DistinctAgreesMembers(members[1..], caseSensitive);
      FitsStill(members[1..], MeanMembers(members[1..], caseSensitive), members[0], caseSensitive);
    }
  }

  // A field of another name does not matter.
  lemma {:induction false} FitsStill(
      ms: seq<Member>, fields: map<seq<byte>, Meaning>, m: Member, caseSensitive: bool)
    requires Fits(ms, fields, caseSensitive) && FindMember(ms, m.key, caseSensitive) == |ms|
    ensures Fits(ms, fields[Name(m.key, caseSensitive) := Mean(m.value, caseSensitive)], caseSensitive)
  {
    if ms != [] { FitsStill(ms[1..], fields, m, caseSensitive); }
  }

  // A tree compares equal to a copy of itself exactly when the members of one
  // name agree in it; symmetry and transitivity hold on all trees.
  lemma CompareIsEquivalence(a: Json, b: Json, c: Json, caseSensitive: bool)
    requires Integral(a) && Integral(b) && Integral(c)
    ensures Compare(a, a, caseSensitive) <==> Agrees(a, caseSensitive)
    ensures Compare(a, b, caseSensitive) ==> Compare(b, a, caseSensitive)
    ensures Compare(a, b, caseSensitive) && Compare(b, c, caseSensitive) ==> Compare(a, c, caseSensitive)
  {
    hide Compare, Mean, Agrees;
    CompareMeans(a, a, caseSensitive);
    CompareMeans(a, b, caseSensitive);
    CompareMeans(b, a, caseSensitive);
    CompareMeans(b, c, caseSensitive);
    CompareMeans(a, c, caseSensitive);
  }

  // Two members of one name that differ: the object does not even compare equal
  // to a copy of itself at another address.
  lemma RepeatedNameBreaksReflexivity(key: seq<byte>, caseSensitive: bool)
    ensures var v := JObject([Member(key, JNull), Member(key, JTrue)]);
            !Agrees(v, caseSensitive) && !Compare(v, v, caseSensitive)
  {
    var ms := [Member(key, JNull), Member(key, JTrue)];
    assert FindMember(ms, key, caseSensitive) == 0;
    assert FindMember(ms[1..], key, caseSensitive) == 0;
    assert !CompareMembers(ms[1..], ms, caseSensitive);
    assert MeanMembers(ms, caseSensitive)[Name(key, caseSensitive)] == Null;
    assert !Fits(ms[1..], MeanMembers(ms, caseSensitive), caseSensitive);
  }

  // ----- cJSON_Duplicate -----

  const CIRCULAR_LIMIT := 10000

  // cJSON_Duplicate_rec with `recurse` set, at the given depth.
  function Duplicate(v: Json, depth: nat): Option<Json>
    decreases v, 1
  {
    match v
    case JArray(items) =>
      (match DuplicateItems(items, depth)
       case None => None
       case Some(copies) => Some(JArray(copies)))
    case JObject(members) =>
      (match DuplicateMembers(members, depth)
       case None => None
       case Some(copies) => Some(JObject(copies)))
    case JString(t) => Some(JString(CText(t)))
    case _ => Some(v)
  }

  // The walk along the `next` chain of a node at `depth`.
  function DuplicateItems(items: seq<Json>, depth: nat): Option<seq<Json>>
    decreases items, 0
  {
    if items == [] then Some([])
    else if depth >= CIRCULAR_LIMIT then None
    else
      match Duplicate(items[0], depth + 1)
      case None => None
      case Some(copy) =>
        match DuplicateItems(items[1..], depth)
        case None => None
        case Some(rest) => Some([copy] + rest)
  }

  function DuplicateMembers(members: seq<Member>, depth: nat): Option<seq<Member>>
    decreases members, 0
  {
    if members == [] then Some([])
    else if depth >= CIRCULAR_LIMIT then None
    else
      match Duplicate(members[0].value, depth + 1)
      case None => None
      case Some(copy) =>
        match DuplicateMembers(members[1..], depth)
        case None => None
        case Some(rest) => Some([Member(CText(members[0].key), copy)] + rest)
  }

  // The longest chain of child links.
  function Height(v: Json): nat
    decreases v, 1
  {
    match v
    case JArray(items) => HeightItems(items)
    case JObject(members) => HeightMembers(members)
    case _ => 0
  }

  function HeightItems(items: seq<Json>): nat
    decreases items, 0
  {
    if items == [] then 0 else Max(1 + Height(items[0]), HeightItems(items[1..]))
  }

  function HeightMembers(members: seq<Member>): nat
    decreases members, 0
  {
    if members == [] then 0 else Max(1 + Height(members[0].value), HeightMembers(members[1..]))
  }

  // A duplicate is the tree itself, its texts cut at their first NUL, made
  // exactly when the child links stay within the limit.
  lemma {:induction false} DuplicateCopies(v: Json, depth: nat)
    ensures Duplicate(v, depth) ==
            if Height(v) == 0 || depth + Height(v) <= 10000 then Some(Cut(v)) else None
    ensures Cut(v) == v <==> AllCStrings(v)
    decreases v, 1
  {
    CutKeeps(v);
    match v
    case JArray(items) => DuplicateCopiesItems(items, depth);
    case JObject(members) => DuplicateCopiesMembers(members, depth);
    case _ =>
  }

  lemma {:induction false} DuplicateCopiesItems(items: seq<Json>, depth: nat)
    ensures DuplicateItems(items, depth) ==
            if HeightItems(items) == 0 || depth + HeightItems(items) <= 10000
            then Some(CutItems(items)) else None
    decreases items, 0
  {
    if items != [] {
      DuplicateCopies(items[0], depth + 1);
      DuplicateCopiesItems(items[1..], depth);
    }
  }

  lemma {:induction false} DuplicateCopiesMembers(members: seq<Member>, depth: nat)
    ensures DuplicateMembers(members, depth) ==
            if HeightMembers(members) == 0 || depth + HeightMembers(members) <= 10000
            then Some(CutMembers(members)) else None
    decreases members, 0
  {
    if members != [] {
      DuplicateCopies(members[0].value, depth + 1);
      DuplicateCopiesMembers(members[1..], depth);
    }
  }

  // Neither the meaning nor the agreement of names depends on what a NUL hides.
  lemma {:induction false} CutMeans(v: Json, caseSensitive: bool)
    ensures Mean(Cut(v), caseSensitive) == Mean(v, caseSensitive)
    ensures Agrees(Cut(v), caseSensitive) <==> Agrees(v, caseSensitive)
    ensures Integral(v) ==> Integral(Cut(v))
    decreases v, 1
  {
    match v
    case JArray(items) => CutMeansItems(items, caseSensitive);
    case JObject(members) =>
      CutMeansMembers(members, caseSensitive);
      CutFits(members, MeanMembers(members, caseSensitive), caseSensitive);
    case _ =>
  }

  lemma {:induction false} CutMeansItems(items: seq<Json>, caseSensitive: bool)
    ensures MeanItems(CutItems(items), caseSensitive) == MeanItems(items, caseSensitive)
    ensures AgreesInItems(CutItems(items), caseSensitive) <==> AgreesInItems(items, caseSensitive)
    ensures IntegralItems(items) ==> IntegralItems(CutItems(items))
    decreases items, 0
  {
    if items != [] {
      CutMeans(items[0], caseSensitive);
      CutMeansItems(items[1..], caseSensitive);
      assert CutItems(items)[1..] == CutItems(items[1..]);
    }
  }

  lemma {:induction false} CutMeansMembers(members: seq<Member>, caseSensitive: bool)
    ensures MeanMembers(CutMembers(members), caseSensitive) == MeanMembers(members, caseSensitive)
    ensures AgreesInMembers(CutMembers(members), caseSensitive) <==> AgreesInMembers(members, caseSensitive)
    ensures IntegralMembers(members) ==> IntegralMembers(CutMembers(members))
    decreases members, 0
  {
    if members != [] {
      CutMeans(members[0].value, caseSensitive);
      CutMeansMembers(members[1..], caseSensitive);
      assert CutMembers(members)[1..] == CutMembers(members[1..]);
    }
  }

  lemma {:induction false} CutFits(members: seq<Member>, fields: map<seq<byte>, Meaning>, caseSensitive: bool)
    ensures Fits(CutMembers(members), fields, caseSensitive) <==> Fits(members, fields, caseSensitive)
    decreases members, 0
  {
    if members != [] {
      CutMeans(members[0].value, caseSensitive);
      CutFits(members[1..], fields, caseSensitive);
      assert CutMembers(members)[1..] == CutMembers(members[1..]);
    }
  }

  // cJSON_Compare holds between a tree and its recursive duplicate exactly when
  // the members of one name agree.
  lemma DuplicateComparesEqual(v: Json, caseSensitive: bool)
    requires Integral(v) && Height(v) <= 10000
    ensures Duplicate(v, 0).Some?
    ensures Compare(v, Duplicate(v, 0).value, caseSensitive) <==> Agrees(v, caseSensitive)
  {
    DuplicateCopies(v, 0);
    CutComparesEqual(v, caseSensitive);
  }

  lemma CutComparesEqual(v: Json, caseSensitive: bool)
    requires Integral(v)
    ensures Compare(v, Cut(v), caseSensitive) <==> Agrees(v, caseSensitive)
  {
    CutMeans(v, caseSensitive);
    CompareMeans(v, Cut(v), caseSensitive);
  }
}
