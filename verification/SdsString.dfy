// sds strings: five header layouts that all behave as one byte sequence.
module SdsString {
  import opened Bytes

  const SIZE_MAX: int := 0xFFFF_FFFF_FFFF_FFFF
  const SDS_MAX_PREALLOC := 1024 * 1024

  datatype Header = Type5 | Type8 | Type16 | Type32 | Type64

  // One more than the largest length the header's fields can hold.
  function Capacity(h: Header): int
  {
    match h
    case Type5 => 0x20
    case Type8 => 0x100
    case Type16 => 0x1_0000
    case Type32 => 0x1_0000_0000
    case Type64 => SIZE_MAX + 1
  }

  // What a header's field keeps of n.
  function Truncated(n: int, h: Header): (r: nat)
    ensures r < Capacity(h) && (0 <= n < Capacity(h) ==> r == n)
  {
    n % Capacity(h)
  }

  // The cast of a 64-bit integer to `unsigned int`.
  function UnsignedInt(n: int): (r: nat)
    ensures r < 0x1_0000_0000 && (0 <= n < 0x1_0000_0000 ==> r == n)
  {
    n % 0x1_0000_0000
  }

  // sdsHdrSize
  function HeaderSize(h: Header): nat
  {
    match h
    case Type5 => 1
    case Type8 => 3
    case Type16 => 5
    case Type32 => 9
    case Type64 => 17
  }

  // sdsReqType
  function RequiredHeader(size: nat): Header
  {
    if size < 0x20 then Type5
    else if size < 0x100 then Type8
    else if size < 0x1_0000 then Type16
    else if size < 0x1_0000_0000 then Type32
    else Type64
  }

  // The size sdsMakeRoomFor asks for when `length` bytes are needed.
  function Preallocated(length: nat): nat
  {
    if length < SDS_MAX_PREALLOC then 2 * length else length + SDS_MAX_PREALLOC
  }

  // The header chosen can hold the length, and no smaller one can.
  lemma HeaderHolds(n: nat)
    requires n <= SIZE_MAX
    ensures n < Capacity(RequiredHeader(n))
    ensures forall h :: n < Capacity(h) ==> HeaderSize(RequiredHeader(n)) <= HeaderSize(h)
    ensures RequiredHeader(n).Type5? ==> n < Capacity(Type8)
  {
  }

  function Power(b: nat, n: nat): nat { if n == 0 then 1 else b * Power(b, n - 1) }

  // The smallest header keeps five bits of length beside its type, every other one
  // has two fields of equal width and a byte for the type.
  lemma FieldsFill(h: Header)
    ensures Capacity(h) == if h == Type5 then Power(2, 5) else Power(256, (HeaderSize(h) - 1) / 2)
    ensures HeaderSize(h) == match h case Type5 => 1 case Type8 => 3 case Type16 => 5 case Type32 => 9 case Type64 => 17
  {
    assert Power(256, 2) == 0x1_0000 && Power(256, 4) == 0x1_0000_0000;
    assert Power(256, 8) == 0x1_0000_0000 * Power(256, 4);
  }

  lemma PreallocatedIs(n: nat)
    ensures Preallocated(n) == if n < 1048576 then 2 * n else n + 1048576
  {
  }

  lemma PreallocatedIsEnough(n: nat)
    ensures n <= Preallocated(n)
  {
  }

  // The allocation for `length` bytes and their growth does not overflow size_t.
  predicate Addressable(length: nat) { Preallocated(length) + HeaderSize(Type64) + 1 <= SIZE_MAX }

  class Sds {
    var header: Header
    var lenField: nat
    var allocField: nat              // absent in Type5
    var buf: array<byte>             // from the first character on

    // sdslen
    function Len(): nat
      reads this
    {
      lenField
    }

    // sdsalloc
    function Alloc(): nat
      reads this
    {
      if header.Type5? then lenField else allocField
    }

    // sdsavail
    function Avail(): int
      reads this
    {
      if header.Type5? then 0 else allocField - lenField
    }

    // Lengths fit their fields, the allocation has room for them and a NUL, and
    // the NUL is there.
    predicate Valid()
      reads this, buf
    {
      && Len() <= Alloc() < Capacity(header)
      && Alloc() < buf.Length
      && buf[Len()] == NUL
    }

    function Contents(): seq<byte>
      requires Valid()
      reads this, buf
    {
      buf[..Len()]
    }

    // sdssetlen: the field keeps what fits in it.
    method SetLen(n: nat)
      modifies this`lenField
      ensures lenField == Truncated(n, header)
    {
      lenField := Truncated(n, header);
    }

    // sdssetalloc: Type5 has no such field.
    method SetAlloc(n: nat)
      modifies this`allocField
      ensures !header.Type5? ==> allocField == Truncated(n, header)
    {
      if !header.Type5? { allocField := Truncated(n, header); }
    }

    // sdsnewlen; None stands for a null `init`.
    constructor (init: Option<seq<byte>>, initlen: nat)
      requires init.Some? ==> |init.value| == initlen
      requires initlen + HeaderSize(Type64) + 1 <= SIZE_MAX
      ensures Valid() && fresh(buf)
      ensures Contents() == if init.Some? then init.value else seq(initlen, _ => NUL)
      ensures Alloc() == initlen && buf.Length == initlen + 1
      ensures header == if initlen == 0 then Type8 else RequiredHeader(initlen)
    {
      var h := RequiredHeader(initlen);
      if h.Type5? && initlen == 0 { h := Type8; }
      header := h;
      lenField := initlen;
      allocField := initlen;
      buf := new byte[initlen + 1](i requires 0 <= i =>
        if init.Some? && i < |init.value| then init.value[i] else NUL);
    }

    // sdsMakeRoomFor: room for `addlen` more bytes; the text stays as it is.
    method MakeRoomFor(addlen: nat)
      requires Valid() && Addressable(Len() + addlen)
      modifies this
      ensures Valid() && Contents() == old(Contents()) && Len() == old(Len())
      ensures Len() + addlen <= Alloc()
      ensures buf == old(buf) || fresh(buf)
      ensures old(Avail()) >= addlen ==> buf == old(buf) && header == old(header) && Alloc() == old(Alloc())
      ensures old(Avail()) < addlen ==>
                var need := Len() + addlen;
                Alloc() == (if need < 1048576 then 2 * need else need + 1048576) && header != Type5
    {
      PreallocatedIs(Len() + addlen);
      hide Truncated, Preallocated, RequiredHeader;
      if Avail() >= addlen { return; }
      var len := Len();
      var newlen := Preallocated(len + addlen);
      var h := RequiredHeader(newlen);
      if h.Type5? { h := Type8; }
      HeaderHolds(newlen);
      PreallocatedIsEnough(len + addlen);
      var newbuf := CopyOf(newlen + 1, len + 1);
      buf := newbuf;
      if header != h {
        header := h;
        SetLen(len);
      }
      SetAlloc(newlen);
    }

    // A new allocation of `size` bytes that starts with the first n of buf.
    method CopyOf(size: nat, n: nat) returns (newbuf: array<byte>)
      requires n <= buf.Length && n <= size
      ensures fresh(newbuf) && newbuf.Length == size && newbuf[..n] == buf[..n]
    {
      newbuf := new byte[size];
      var i := 0;
      while i < n
        invariant 0 <= i <= n && newbuf[..i] == buf[..i]
      {
        newbuf[i] := buf[i];
        i := i + 1;
      }
    }

    // Sets the length and the NUL behind text that is already in place.
    method Finish(n: nat)
      requires n <= Alloc() < Capacity(header) && Alloc() < buf.Length
      modifies this`lenField, buf
      ensures header.Type5? || Alloc() == old(Alloc())
      ensures Valid() && Len() == n && Contents() == old(buf[..n])
    {
      hide Truncated;
      SetLen(n);
      buf[n] := NUL;
    }

    // sdscatlen
    method CatLen(t: seq<byte>)
      requires Valid() && Addressable(Len() + |t|)
      modifies this, buf
      ensures Valid() && Contents() == old(Contents()) + t
      ensures buf == old(buf) || fresh(buf)
    {
      var curlen := Len();
      MakeRoomFor(|t|);
      CopyInto(buf, curlen, t);
      Finish(curlen + |t|);
    }

    // sdscpylen
    method CpyLen(t: seq<byte>)
      requires Valid() && Addressable(|t|)
      modifies this, buf
      ensures Valid() && Contents() == t
      ensures buf == old(buf) || fresh(buf)
    {
      if Alloc() < |t| {
        MakeRoomFor(|t| - Len());
      }
      CopyInto(buf, 0, t);
      Finish(|t|);
    }

    // sdsgrowzero
    method GrowZero(len: nat)
      requires Valid() && Addressable(len)
      modifies this, buf
      ensures Valid() && (buf == old(buf) || fresh(buf))
      ensures Contents() ==
              old(Contents()) + seq(if len <= |old(Contents())| then 0 else len - |old(Contents())|, _ => NUL)
    {
      var curlen := Len();
      if len <= curlen {
        assert Contents() + [] == Contents();
        return;
      }
      MakeRoomFor(len - curlen);
      CopyInto(buf, curlen, seq(len - curlen, _ => NUL));
      Finish(len);
    }

    // sdsRemoveFreeSpace: the same text in the smallest room.
    method RemoveFreeSpace()
      requires Valid()
      modifies this
      ensures Valid() && Contents() == old(Contents()) && Avail() == 0
      ensures buf == old(buf) || fresh(buf)
    {
      hide Truncated, RequiredHeader;
      var len := Len();
      if Avail() == 0 { return; }
      var h := RequiredHeader(len);
      HeaderHolds(len);
      var newbuf := CopyOf(len + 1, len + 1);
      buf := newbuf;
      if header != h && (h.Type5? || h.Type8?) {
        header := h;
        SetLen(len);
      }
      SetAlloc(len);
    }

    // What the assertion of sdsIncrLen is after: room for an increment, where the
    // header records it, and enough text for a decrement.
    predicate Meant(incr: int)
      reads this
    {
      if header.Type5? then (incr > 0 && Len() + incr < 0x20) || (incr < 0 && Len() >= -incr)
      else (incr >= 0 && Avail() >= incr) || (incr < 0 && Len() >= -incr)
    }

    // What it asserts. The casts to `unsigned int` drop whatever a 64-bit
    // argument has above 32 bits.
    predicate Asserted(incr: int)
      reads this
    {
      match header
      case Type5 => (incr > 0 && Len() + incr < 0x20) || (incr < 0 && Len() >= UnsignedInt(-incr))
      case Type32 => (incr >= 0 && Avail() >= UnsignedInt(incr)) || (incr < 0 && Len() >= UnsignedInt(-incr))
      case Type64 => (incr >= 0 && Avail() >= incr) || (incr < 0 && Len() >= -incr)
      case _ => (incr >= 0 && Avail() >= incr) || (incr < 0 && Len() >= UnsignedInt(-incr))
    }

    // Where the truncated length lands.
    lemma LengthMoves(incr: int)
      requires Valid() && Asserted(incr)
      ensures var n := Truncated(Len() + incr, header);
              && (n == Len() + incr <==> header.Type64? || -0x1_0000_0000 < incr < 0x1_0000_0000)
              && (!header.Type5? ==> n <= Alloc())
              && (header.Type5? ==> Len() + incr < 0x20 && (incr <= -0x1_0000_0000 <==> Len() + incr < 0))
    {
      if !header.Type64? && incr < 0 {
        WholeTurns(Len(), -incr, Capacity(header));
      } else if header.Type32? {
        WholeTurnsUp(Len(), incr);
      }
    }

    // sdsIncrLen: the field is truncated to its width, and the NUL is written at
    // the new length, which for Type5 is not truncated. `place` is where, counted
    // from the first character; the C code writes it inside the allocation or not.
    method IncrLen(incr: int) returns (place: int)
      requires Valid() && Asserted(incr)
      modifies this`lenField, buf
      ensures 0 <= place < buf.Length <==> !header.Type5? || (-0x1_0000_0000 < incr && old(Len()) + incr < buf.Length)
      ensures Valid() && Len() == old(Len()) + incr <==>
                header.Type64? || (-0x1_0000_0000 < incr < 0x1_0000_0000 &&
                                   (header.Type5? ==> old(Len()) + incr < buf.Length))
      ensures Len() == Truncated(old(Len()) + incr, header)
      ensures 0 <= place < buf.Length ==> place == Len() && Valid() && Contents() == old(buf[..])[..Len()]
      ensures !(0 <= place < buf.Length) ==> buf[..] == old(buf[..])
    {
      hide Truncated, Asserted;
      LengthMoves(incr);
      var len := Len() + incr;
      lenField := Truncated(len, header);
      place := if header.Type5? then len else lenField;
      if 0 <= place < buf.Length { buf[place] := NUL; }
    }

    // sdsclear
    method Clear()
      requires Valid()
      modifies this`lenField, buf
      ensures Valid() && Contents() == []
    {
      SetLen(0);
      buf[0] := NUL;
    }
  }

  // A cast that keeps no more than the length leaves what a truncated field keeps.
  lemma WholeTurns(n: nat, k: nat, c: nat)
    requires c > 0 && 0x1_0000_0000 % c == 0 && n < c && n >= UnsignedInt(k)
    ensures (n - k) % c == n - UnsignedInt(k)
  {
    var q, r := k / 0x1_0000_0000, UnsignedInt(k);
    var m := 0x1_0000_0000 / c;
    assert n - k == (n - r) - q * (m * c) == (n - r) - (q * m) * c;
    TurnsOff(n - r, q * m, c);
  }

  lemma TurnsOff(n: nat, q: int, c: nat)
    requires n < c
    ensures (n - q * c) % c == n
  {
    var z := n - q * c;
    var t := q + z / c;
    assert n - z % c == t * c;
    Multiples(t, c);
  }

  lemma Multiples(t: int, c: nat)
    ensures t > 0 ==> t * c >= c
    ensures t < 0 ==> t * c + c <= 0
  {
    if t > 0 { assert (t - 1) * c >= 0; }
    if t < 0 { assert (-t - 1) * c >= 0; }
  }

  lemma WholeTurnsUp(n: nat, k: nat)
    requires n + UnsignedInt(k) < 0x1_0000_0000
    ensures (n + k) % 0x1_0000_0000 == n + UnsignedInt(k)
  {
  }

  // The casts make no difference to increments of less than 32 bits, nor to the
  // widest header; to others they make one exactly when the assertion passes.
  lemma CastsMatter(s: Sds, incr: int)
    requires s.Valid()
    ensures s.header.Type64? || -0x1_0000_0000 < incr < 0x1_0000_0000 ==> (s.Asserted(incr) <==> s.Meant(incr))
    ensures !s.header.Type64? && !(-0x1_0000_0000 < incr < 0x1_0000_0000) ==>
              !s.Meant(incr)
              && (s.Asserted(incr) <==> if incr < 0 then s.Len() >= -incr % 0x1_0000_0000
                                        else s.header.Type32? && s.Avail() >= incr % 0x1_0000_0000)
  {
  }

  // 2^32 bytes less than any string holds, and 2^32 more than a 32-bit one: both
  // are let through.
  lemma WideIncrementsPass(s: Sds)
    requires s.Valid()
    ensures !s.header.Type64? ==> s.Asserted(-0x1_0000_0000) && !s.Meant(-0x1_0000_0000)
    ensures s.header.Type32? ==> s.Asserted(0x1_0000_0000) && !s.Meant(0x1_0000_0000)
  {
  }

  // A new one-byte string: adding a byte to its length satisfies the assertion
  // and puts the NUL behind the allocation.
  method SmallHeaderOverruns() returns (s: Sds)
    ensures fresh(s) && s.Valid() && s.header.Type5? && s.Asserted(1) && s.Len() + 1 == s.buf.Length
  {
    s := new Sds(Some([LOWER_A]), 1);
  }
}
