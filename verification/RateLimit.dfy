// The anonymous rate limiter: a table of 256 slots standing in for a map from
// client addresses to the time of their last submission.
module RateLimit {
  import opened Bytes

  const SLOTS: nat := 256
  const GAP: int := 5

  // A slot is empty while its address is the empty text.
  datatype Entry = Entry(address: string, last: int)

  datatype Request = Request(address: string, now: int)

  function EmptyTable(): (t: seq<Entry>)
    ensures |t| == SLOTS
  {
    seq(SLOTS, _ => Entry("", 0))
  }

  // ----- one request -----

  predicate Holds(t: seq<Entry>, a: string) { exists k :: 0 <= k < |t| && t[k].address == a }

  // The slot of an address: its own, otherwise the last empty one, otherwise the first.
  ghost predicate IsSlot(t: seq<Entry>, a: string, k: nat)
  {
    && k < |t|
    && (Holds(t, a) ==> t[k].address == a && forall i :: 0 <= i < k ==> t[i].address != a)
    && (!Holds(t, a) && Holds(t, "") ==> t[k].address == "" && forall i :: k < i < |t| ==> t[i].address != "")
    && (!Holds(t, a) && !Holds(t, "") ==> k == 0)
  }

  // The slot, scanning from i on with a candidate at hand.
  function SlotFrom(t: seq<Entry>, a: string, i: nat, candidate: nat): nat
    requires i <= |t|
    decreases |t| - i
  {
    if i == |t| then candidate
    else if t[i].address == a then i
    else SlotFrom(t, a, i + 1, if t[i].address == "" then i else candidate)
  }

  function Slot(t: seq<Entry>, a: string): nat { SlotFrom(t, a, 0, 0) }

  // What has been seen before i.
  ghost predicate Scanned(t: seq<Entry>, a: string, i: nat, k: nat)
  {
    && i <= |t| && (k < i || k == 0)
    && (forall j :: 0 <= j < i ==> t[j].address != a)
    && (forall j :: k < j < i ==> t[j].address != "")
    && ((k < i && t[k].address == "") || (k == 0 && forall j :: 0 <= j < i ==> t[j].address != ""))
  }

  lemma {:induction false} SlotFromIs(t: seq<Entry>, a: string, i: nat, k: nat)
    requires |t| > 0 && Scanned(t, a, i, k)
    ensures IsSlot(t, a, SlotFrom(t, a, i, k))
    decreases |t| - i
  {
    if i < |t| && t[i].address != a {
      SlotFromIs(t, a, i + 1, if t[i].address == "" then i else k);
    }
  }

  lemma SlotIs(t: seq<Entry>, a: string)
    requires |t| > 0
    ensures IsSlot(t, a, Slot(t, a))
  {
    SlotFromIs(t, a, 0, 0);
  }

  predicate Allowed(t: seq<Entry>, r: Request)
    requires |t| == SLOTS
  {
    var k := Slot(t, r.address);
    SlotIs(t, r.address);
    r.now >= t[k].last + GAP
  }

  function After(t: seq<Entry>, r: Request): (u: seq<Entry>)
    requires |t| == SLOTS
    ensures |u| == SLOTS
  {
    SlotIs(t, r.address);
    if Allowed(t, r) then t[Slot(t, r.address) := Entry(r.address, r.now)] else t
  }

  // ----- runs -----

  // Requests the server sees: a client always has some address, and the clock never goes back.
  ghost predicate Run(rs: seq<Request>)
  {
    && (forall i :: 0 <= i < |rs| ==> rs[i].address != "")
    && (forall i, j :: 0 <= i < j < |rs| ==> rs[i].now <= rs[j].now)
  }

  function TableAfter(rs: seq<Request>): (t: seq<Entry>)
    ensures |t| == SLOTS
  {
    if rs == [] then EmptyTable() else After(TableAfter(rs[..|rs| - 1]), rs[|rs| - 1])
  }

  predicate Granted(rs: seq<Request>, i: nat)
    requires i < |rs|
  {
    Allowed(TableAfter(rs[..i]), rs[i])
  }

  // The unbounded map: when the address was last granted a submission.
  function LastGrant(rs: seq<Request>, a: string): Option<int>
  {
    if rs == [] then None
    else
      var n := |rs| - 1;
      if rs[n].address == a && Granted(rs, n) then Some(rs[n].now) else LastGrant(rs[..n], a)
  }

  // What the table keeps of the map.
  ghost predicate Faithful(t: seq<Entry>, rs: seq<Request>)
    requires |t| == SLOTS
  {
    && (forall i, j :: 0 <= i < j < SLOTS && t[i].address == t[j].address ==> t[i].address == "")
    && (forall i :: 0 <= i < SLOTS && t[i].address == "" ==> t[i].last == 0)
    && (forall i :: 0 <= i < SLOTS && t[i].address != "" ==> LastGrant(rs, t[i].address) == Some(t[i].last))
    && (forall a: string :: LastGrant(rs, a).Some? && !Holds(t, a) ==>
          !Holds(t, "") && rs != [] && rs[|rs| - 1].now >= LastGrant(rs, a).value + GAP)
  }

  // Times in the table: 0 or that of a granted request.
  ghost predicate Dated(t: seq<Entry>, now: int)
  {
    forall i :: 0 <= i < |t| ==> t[i].last >= 0 && (t[i].address != "" ==> GAP <= t[i].last <= now)
  }

  lemma {:induction false} TableIsDated(rs: seq<Request>, now: int)
    requires Run(rs) && (rs != [] ==> rs[|rs| - 1].now <= now)
    ensures Dated(TableAfter(rs), now)
  {
    hide Slot;
    if rs != [] { TableIsDated(rs[..|rs| - 1], now); }
  }

  lemma {:induction false} TableIsFaithful(rs: seq<Request>)
    requires Run(rs)
    ensures Faithful(TableAfter(rs), rs)
  {
    if rs != [] {
      var n := |rs| - 1;
      TableIsFaithful(rs[..n]);
      FaithfulStep(TableAfter(rs[..n]), rs);
    }
  }

  lemma GrantedAddressIsReal(rs: seq<Request>, a: string)
    requires Run(rs) && LastGrant(rs, a).Some?
    ensures a != ""
  {
    var n := |rs| - 1;
    if !(rs[n].address == a && Granted(rs, n)) { GrantedAddressIsReal(rs[..n], a); }
  }

  lemma AddressIsReal(rs: seq<Request>, i: nat)
    requires Run(rs) && i < |rs|
    ensures rs[i].address != ""
  {
  }

  lemma HoldsAt(t: seq<Entry>, k: nat)
    requires k < |t|
    ensures Holds(t, t[k].address)
  {
  }

  lemma FaithfulStep(t: seq<Entry>, rs: seq<Request>)
    requires rs != [] && Run(rs) && t == TableAfter(rs[..|rs| - 1]) && Faithful(t, rs[..|rs| - 1])
    ensures Faithful(After(t, rs[|rs| - 1]), rs)
  {
    hide Slot, EmptyTable, Run, LastGrant;
    var n := |rs| - 1;
    var r := rs[n];
    var u := After(t, r);
    var k := Slot(t, r.address);
    SlotIs(t, r.address);
    forall a: string
      ensures LastGrant(rs, a) == if a == r.address && Allowed(t, r) then Some(r.now) else LastGrant(rs[..n], a)
    {
      LastGrantStep(rs, a);
    }
    forall a: string | LastGrant(rs, a).Some? && !Holds(u, a)
      ensures !Holds(u, "") && r.now >= LastGrant(rs, a).value + GAP
    {
      LeftOut(t, rs, a);
    }
    AddressIsReal(rs, n);
  }

  lemma LastGrantStep(rs: seq<Request>, a: string)
    requires rs != []
    ensures var n := |rs| - 1;
            LastGrant(rs, a) ==
              if a == rs[n].address && Allowed(TableAfter(rs[..n]), rs[n]) then Some(rs[n].now)
              else LastGrant(rs[..n], a)
  {
  }

  // An address with a grant but no slot: the table is full and its wait is over.
  lemma LeftOut(t: seq<Entry>, rs: seq<Request>, a: string)
    requires rs != [] && Run(rs) && t == TableAfter(rs[..|rs| - 1]) && Faithful(t, rs[..|rs| - 1])
    requires LastGrant(rs, a).Some? && !Holds(After(t, rs[|rs| - 1]), a)
    ensures !Holds(After(t, rs[|rs| - 1]), "") && rs[|rs| - 1].now >= LastGrant(rs, a).value + GAP
  {
    hide Slot, EmptyTable, LastGrant, Holds;
    var n := |rs| - 1;
    var r := rs[n];
    var u := After(t, r);
    var k := Slot(t, r.address);
    SlotIs(t, r.address);
    LastGrantStep(rs, a);
    GrantedAddressIsReal(rs, a);
    if Allowed(t, r) { HoldsAt(u, k); }
    if Holds(t, a) { Displaced(t, r, a); }
    if Allowed(t, r) { EmptiesOnlyShrink(t, r, a); }
    assert n > 0 ==> rs[..n][n - 1].now <= r.now;
  }

  lemma Displaced(t: seq<Entry>, r: Request, a: string)
    requires |t| == SLOTS && a != "" && Holds(t, a) && !Holds(After(t, r), a)
    ensures Allowed(t, r) && t[0].address == a && r.now >= t[0].last + GAP
  {
    SlotIs(t, r.address);
    var i :| 0 <= i < SLOTS && t[i].address == a;
    assert After(t, r)[i].address != a;
  }

  // A slot filled by an address that had none leaves no other address without
  // one, unless the table was full.
  lemma EmptiesOnlyShrink(t: seq<Entry>, r: Request, a: string)
    requires |t| == SLOTS && r.address != "" && Allowed(t, r)
    ensures Holds(After(t, r), "") ==> Holds(t, "")
    ensures Holds(t, "") && Holds(t, a) && a != "" ==> Holds(After(t, r), a)
  {
    var u := After(t, r);
    var k := Slot(t, r.address);
    SlotIs(t, r.address);
    if Holds(u, "") {
      var i :| 0 <= i < SLOTS && u[i].address == "";
      assert t[i].address == "";
    }
    if Holds(t, "") && Holds(t, a) && a != "" {
      var i :| 0 <= i < SLOTS && t[i].address == a;
      assert u[i].address == a;
    }
  }

  lemma OneSlotPerAddress(rs: seq<Request>, i: nat, j: nat)
    requires Run(rs) && i < j < 256
    ensures TableAfter(rs)[i].address == TableAfter(rs)[j].address ==> TableAfter(rs)[i].address == ""
  {
    TableIsFaithful(rs);
  }

  // When the map of last grants would let a request pass.
  predicate MapGrants(rs: seq<Request>, j: nat)
    requires j < |rs|
  {
    var last := LastGrant(rs[..j], rs[j].address);
    rs[j].now >= 5 + if last.Some? then last.value else 0
  }

  // The table decides as the map would, until it is full: from then on an address
  // without a slot waits for the holder of the first slot.
  lemma TableStandsForMap(rs: seq<Request>, j: nat)
    requires Run(rs) && j < |rs|
    ensures var t := TableAfter(rs[..j]);
            && (Holds(t, rs[j].address) || Holds(t, "") ==> (Granted(rs, j) <==> MapGrants(rs, j)))
            && (!Holds(t, rs[j].address) && !Holds(t, "") ==>
                  && LastGrant(rs[..j], t[0].address) == Some(t[0].last)
                  && (Granted(rs, j) <==> rs[j].now >= 5 + t[0].last))
  {
    TableIsFaithful(rs[..j]);
    SlotIs(TableAfter(rs[..j]), rs[j].address);
  }

  // Table and map agree on a request exactly when the address has a slot, or
  // there is an empty one, or the holder of slot 0 has waited long enough.
  lemma TableDecidesAsMap(rs: seq<Request>, j: nat)
    requires Run(rs) && j < |rs|
    ensures var t := TableAfter(rs[..j]);
            (Granted(rs, j) <==> MapGrants(rs, j)) <==>
            (Holds(t, rs[j].address) || Holds(t, "") || rs[j].now >= 5 + t[0].last)
  {
    var t, r := TableAfter(rs[..j]), rs[j];
    TableStandsForMap(rs, j);
    if !Holds(t, r.address) && !Holds(t, "") {
      TableIsFaithful(rs[..j]);
      TableIsDated(rs[..j], r.now);
      HoldsAt(t, 0);
      assert MapGrants(rs, j);
    }
  }

  // ----- a full table -----

  function Crowd(n: nat): (rs: seq<Request>)
    ensures |rs| == n
  {
    seq(n, i requires 0 <= i < n => Request(seq(i + 1, _ => 'x'), GAP))
  }

  // The slots fill up from the last one.
  lemma {:induction false} CrowdFills(n: nat)
    requires n <= SLOTS
    ensures forall k :: 0 <= k < SLOTS ==>
              if k < SLOTS - n then TableAfter(Crowd(n))[k] == Entry("", 0)
              else |TableAfter(Crowd(n))[k].address| == SLOTS - k && TableAfter(Crowd(n))[k].last == GAP
  {
    if n > 0 {
      CrowdFills(n - 1);
      assert Crowd(n)[..n - 1] == Crowd(n - 1);
      var t, a := TableAfter(Crowd(n - 1)), Crowd(n)[n - 1].address;
      assert |a| == n && t[SLOTS - n] == Entry("", 0);
      HoldsAt(t, SLOTS - n);
      assert !Holds(t, a);
      SlotIs(t, a);
      assert Slot(t, a) == SLOTS - n;
    }
  }

  lemma {:induction false} NeverSeen(rs: seq<Request>, a: string)
    requires forall i :: 0 <= i < |rs| ==> rs[i].address != a
    ensures LastGrant(rs, a) == None
  {
    if rs != [] { NeverSeen(rs[..|rs| - 1], a); }
  }

  // As many addresses as there are slots have sent one request each: the next
  // address, never seen before, is refused, though the map would let it pass.
  lemma FullTableRefuses()
    ensures var rs := Crowd(257);
            && Run(rs) && (forall i :: 0 <= i < 256 ==> rs[i].address != rs[256].address)
            && MapGrants(rs, 256) && !Granted(rs, 256)
  {
    var rs := Crowd(SLOTS + 1);
    forall i | 0 <= i < SLOTS ensures rs[i].address != rs[SLOTS].address {
      assert |rs[i].address| == i + 1;
    }
    NeverSeen(rs[..SLOTS], rs[SLOTS].address);
    CrowdFills(SLOTS);
    assert rs[..SLOTS] == Crowd(SLOTS);
    var t, a := TableAfter(Crowd(SLOTS)), rs[SLOTS].address;
    assert |a| == SLOTS + 1;
    SlotIs(t, a);
  }

  lemma GrantIsLater(rs: seq<Request>, j: nat)
    requires Run(rs) && j < |rs| && Granted(rs, j)
    ensures var last := LastGrant(rs[..j], rs[j].address); last.Some? ==> rs[j].now >= last.value + 5
  {
    TableIsFaithful(rs[..j]);
    SlotIs(TableAfter(rs[..j]), rs[j].address);
    assert j > 0 ==> rs[..j][|rs[..j]| - 1] == rs[j - 1];
  }

  lemma {:induction false} LastGrantIsLast(rs: seq<Request>, i: nat)
    requires Run(rs) && i < |rs| && Granted(rs, i)
    ensures LastGrant(rs, rs[i].address).Some? && LastGrant(rs, rs[i].address).value >= rs[i].now
  {
    var n := |rs| - 1;
    if i < n && !(rs[n].address == rs[i].address && Granted(rs, n)) {
      assert rs[..n][..i] == rs[..i];
      LastGrantIsLast(rs[..n], i);
    }
  }

  // Two submissions granted to one address are at least five seconds apart.
  lemma GrantsAreSpaced(rs: seq<Request>, i: nat, j: nat)
    requires Run(rs) && i < j < |rs| && rs[i].address == rs[j].address
    requires Granted(rs, i) && Granted(rs, j)
    ensures rs[j].now >= rs[i].now + 5
  {
    assert rs[..j][..i] == rs[..i];
    LastGrantIsLast(rs[..j], i);
    GrantIsLater(rs, j);
  }

  lemma OneMore(rs: seq<Request>, r: Request)
    ensures TableAfter(rs + [r]) == After(TableAfter(rs), r)
    ensures Granted(rs + [r], |rs|) <==> Allowed(TableAfter(rs), r)
  {
    assert (rs + [r])[..|rs|] == rs;
  }

  // ----- the table in place -----

  class Limiter {
    const rates: array<Entry>
    ghost var log: seq<Request>

    ghost predicate Valid()
      reads this, rates
    {
      rates[..] == TableAfter(log)
    }

    constructor ()
      ensures Valid() && fresh(rates) && log == []
    {
      rates := new Entry[SLOTS](_ => Entry("", 0));
      log := [];
      new;
      assert rates[..] == EmptyTable();
    }

    // anonymous_submission_allowed, with the client's address and the clock as inputs.
    method SubmissionAllowed(address: string, now: int) returns (allowed: bool)
      requires Valid()
      modifies this, rates
      ensures Valid() && log == old(log) + [Request(address, now)]
      ensures allowed <==> Granted(log, |log| - 1)
    {
      hide TableAfter, Granted, IsSlot, EmptyTable;
      ghost var t := rates[..];
      var slot := 0;
      var i := 0;
      assert rates.Length == |t| == SLOTS;
      while i < rates.Length
        invariant 0 <= i <= rates.Length && 0 <= slot < rates.Length && rates[..] == t
        invariant Slot(t, address) == SlotFrom(t, address, i, slot)
      {
        if rates[i].address == address {
          slot := i;
          break;
        }
        if rates[i].address == "" { slot := i; }
        i := i + 1;
      }
      assert slot == Slot(t, address);
      allowed := now >= rates[slot].last + GAP;
      if allowed {
        rates[slot] := Entry(address, now);
      }
      assert rates[..] == After(t, Request(address, now));
      OneMore(log, Request(address, now));
      log := log + [Request(address, now)];
    }
  }
}
