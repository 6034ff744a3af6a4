// The streaming MD5 digest: however a message is cut into updates, the digest is
// the one sections 3.1 to 3.5 of RFC 1321 give for the whole message.
module Md5 {
  import opened Bytes
  import opened Md5Rounds

  const BLOCK: nat := 64

  // The counters and the bytes of a word are reckoned in integers.
  const WORD: int := 0x1_0000_0000

  type uint4 = x: int | 0 <= x < WORD

  // ----- the one-shot digest -----

  // Section 3.1: a single one bit, then zero bits up to 56 bytes past a block boundary.
  function Padding(n: nat): (p: seq<byte>)
    ensures 1 <= |p| <= BLOCK && (n + |p|) % BLOCK == 56
    ensures p[0] == 0x80 && forall k :: 1 <= k < |p| ==> p[k] == 0
  {
    var rest := n % BLOCK;
    PadLength(n);
    [0x80] + seq(if rest < 56 then 55 - rest else 119 - rest, _ => 0)
  }

  lemma PadLength(n: nat)
    ensures var rest := n % BLOCK; (n + if rest < 56 then 56 - rest else 120 - rest) % BLOCK == 56
  {
  }

  lemma PaddingIs(n: nat, k: nat)
    requires k == if n % BLOCK < 56 then 56 - n % BLOCK else 120 - n % BLOCK
    ensures Padding(n) == [0x80] + seq(k - 1, _ => 0)
  {
  }

  // Section 2: low-order byte first.
  function Word4(b0: byte, b1: byte, b2: byte, b3: byte): uint4
  {
    b3 as int * 0x100_0000 + b2 as int * 0x1_0000 + b1 as int * 0x100 + b0 as int
  }

  function AsWord(n: uint4): word { n as word }

  function AsNumber(w: word): (n: uint4)
    ensures AsWord(n) == w
  {
    w as int
  }

  function WordAt(m: seq<byte>, o: nat): word
    requires o + 4 <= |m|
  {
    AsWord(Word4(m[o], m[o + 1], m[o + 2], m[o + 3]))
  }

  function Words(m: seq<byte>): (x: seq<word>)
    requires |m| % 4 == 0
    ensures |x| == |m| / 4
  {
    seq(|m| / 4, k requires 0 <= k < |m| / 4 => WordAt(m, 4 * k))
  }

  const INITIAL := Regs(0x67452301, 0xefcdab89, 0x98badcfe, 0x10325476)

  // Section 3.4, over the first q blocks.
  function Fold(m: seq<byte>, q: nat): Regs
    requires BLOCK * q <= |m|
  {
    hide Compress;
    if q == 0 then INITIAL else Compress(Fold(m, q - 1), Words(m[BLOCK * q - BLOCK..BLOCK * q]))
  }

  // Section 3.2: the bit length of a message of n bytes, as two words.
  function LowBits(n: nat): uint4 { 8 * n % WORD }
  function HighBits(n: nat): uint4 { 8 * n / WORD % WORD }

  lemma BitLength(n: nat)
    ensures HighBits(n) * WORD + LowBits(n) == 8 * n % (WORD * WORD)
  {
    var q := 8 * n / WORD;
    assert 8 * n == (q / WORD) * (WORD * WORD) + (q % WORD) * WORD + 8 * n % WORD;
  }

  // Below 2^61 bytes the padded form tells messages apart.
  lemma PaddedFormIsUnambiguous(m: seq<byte>, k: seq<byte>)
    requires 8 * |m| < WORD * WORD && 8 * |k| < WORD * WORD
    requires m + Padding(|m|) == k + Padding(|k|)
    requires LowBits(|m|) == LowBits(|k|) && HighBits(|m|) == HighBits(|k|)
    ensures m == k
  {
    hide Padding, LowBits, HighBits;
    BitLength(|m|);
    BitLength(|k|);
    assert m == (m + Padding(|m|))[..|m|] == (k + Padding(|k|))[..|k|] == k;
  }

  // Section 3.5
  function ByteOf(w: uint4, k: nat): byte
    requires k < 4
  {
    (if k == 0 then w else if k == 1 then w / 0x100 else if k == 2 then w / 0x1_0000 else w / 0x100_0000) % 0x100
  }

  lemma BytesOfWord(w: uint4)
    ensures Word4(ByteOf(w, 0), ByteOf(w, 1), ByteOf(w, 2), ByteOf(w, 3)) == w
  {
    assert w == w / 0x100 * 0x100 + w % 0x100;
    assert w / 0x1_0000 == w / 0x100 / 0x100;
    assert w / 0x100_0000 == w / 0x1_0000 / 0x100;
  }

  function Output(w: word): (m: seq<byte>)
    ensures |m| == 4 && WordAt(m, 0) == w
  {
    var n := AsNumber(w);
    hide AsNumber, ByteOf;
    BytesOfWord(n);
    [ByteOf(n, 0), ByteOf(n, 1), ByteOf(n, 2), ByteOf(n, 3)]
  }

  // The message and its padding: whole blocks and 56 bytes.
  function Body(m: seq<byte>): (b: seq<byte>)
    ensures |b| == |m| + |Padding(|m|)| && |b| == BLOCK * (|b| / BLOCK) + 56
  {
    m + Padding(|m|)
  }

  function Digest(m: seq<byte>): seq<byte>
  {
    hide Compress;
    var body := Body(m);
    var q := |body| / BLOCK;
    var r := Compress(Fold(body, q), Words(body[BLOCK * q..]) + [AsWord(LowBits(|m|)), AsWord(HighBits(|m|))]);
    Output(r.a) + Output(r.b) + Output(r.c) + Output(r.d)
  }

  // ----- the context -----

  class Context {
    var i0: uint4
    var i1: uint4
    var buf: Regs
    const input: array<byte>
    var digest: seq<byte>
    ghost var msg: seq<byte>

    // The counters hold the bit length mod 2^64.
    ghost predicate Counted(n: nat)
      reads this
    {
      i0 == LowBits(n) && i1 == HighBits(n)
    }

    // The whole blocks are in the registers, the rest is in the input buffer.
    ghost predicate Held()
      reads this, input
    {
      var q := |msg| / BLOCK;
      && input.Length == BLOCK
      && buf == Fold(msg, q)
      && input[..|msg| - BLOCK * q] == msg[BLOCK * q..]
    }

    ghost predicate Valid()
      reads this, input
    {
      Held() && Counted(|msg|)
    }

    // MD5Init
    constructor ()
      ensures Valid() && fresh(input) && msg == []
    {
      i0, i1 := 0, 0;
      buf := INITIAL;
      input := new byte[BLOCK];
      digest := [];
      msg := [];
    }

    // MD5Update, for data a 32-bit length can count
    method Update(data: seq<byte>)
      requires Valid() && |data| < WORD
      modifies this, input
      ensures Valid() && msg == old(msg) + data
    {
      hide Fold, Words, LowBits, HighBits;
      BytesHeld(|msg|);
      var mdi := i0 / 8 % 0x40;
      CountBits(|data|);
      ghost var n := |msg| + |data|;
      var k := 0;
      while k < |data|
        invariant 0 <= k <= |data| && Held() && Counted(n)
        invariant msg == old(msg) + data[..k] && mdi == |msg| % BLOCK
      {
        mdi := AddByte(mdi, data[k]);
        assert data[..k + 1] == data[..k] + [data[k]];
        k := k + 1;
      }
      assert data[..k] == data;
    }

    // The counters of MD5Update.
    method CountBits(inLen: nat)
      requires Counted(|msg|) && inLen < WORD
      modifies this`i0, this`i1
      ensures Counted(|msg| + inLen)
    {
      hide LowBits, HighBits;
      CountersAdvance(|msg|, inLen);
      var bits := 8 * inLen % WORD;
      if (i0 + bits) % WORD < i0 {
        i1 := (i1 + 1) % WORD;
      }
      i0 := (i0 + bits) % WORD;
      i1 := (i1 + inLen / 0x2000_0000) % WORD;
    }

    // One round of the loop in MD5Update.
    method AddByte(mdi: nat, c: byte) returns (next: nat)
      requires Held() && mdi == |msg| % BLOCK
      modifies this`buf, this`msg, input
      ensures Held() && msg == old(msg) + [c] && next == |msg| % BLOCK
    {
      hide Words, Compress;
      ghost var before := msg;
      ghost var q := |msg| / BLOCK;
      msg := msg + [c];
      input[mdi] := c;
      FoldOfLonger(before, [c], q);
      assert input[..mdi + 1] == msg[BLOCK * q..];
      next := mdi + 1;
      if next == 0x40 {
        var x := Decode(BLOCK);
        buf := Transform(buf, x);
        assert input[..BLOCK] == msg[BLOCK * (q + 1) - BLOCK..BLOCK * (q + 1)];
        assert buf == Fold(msg, q + 1);
        next := 0;
        assert input[..0] == msg[|msg|..];
      }
    }

    // The words of the first n bytes of the input buffer.
    method Decode(n: nat) returns (x: seq<word>)
      requires input.Length == BLOCK && n <= BLOCK && n % 4 == 0
      ensures x == Words(input[..n])
    {
      hide Word4, AsWord;
      x := [];
      var i, ii := 0, 0;
      while i < n / 4
        invariant 0 <= i <= n / 4 && ii == 4 * i && |x| == i
        invariant forall k :: 0 <= k < i ==> x[k] == WordAt(input[..n], 4 * k)
      {
        x := x + [AsWord(Word4(input[ii], input[ii + 1], input[ii + 2], input[ii + 3]))];
        i, ii := i + 1, ii + 4;
      }
    }

    // MD5Final
    method Final()
      requires Valid()
      modifies this, input
      ensures digest == Digest(old(msg))
    {
      hide Fold, Words, LowBits, HighBits, Padding, Compress, Output, Word4, AsWord;
      ghost var m := msg;
      var low, high := i0, i1;
      Pad();
      assert input[..56] == msg[BLOCK * (|msg| / BLOCK)..];
      var x := Decode(56);
      buf := Transform(buf, x + [AsWord(low), AsWord(high)]);
      digest := Output(buf.a) + Output(buf.b) + Output(buf.c) + Output(buf.d);
    }

    method Pad()
      requires Valid()
      modifies this, input
      ensures Valid() && msg == Body(old(msg)) && |msg| % BLOCK == 56
    {
      hide Fold, Words, LowBits, HighBits, Padding;
      ghost var n := |msg|;
      BytesHeld(n);
      PadLength(n);
      var mdi := i0 / 8 % 0x40;
      var padLen := if mdi < 56 then 56 - mdi else 120 - mdi;
      var pad: seq<byte> := [0x80] + seq(padLen - 1, _ => 0);
      PaddingIs(n, padLen);
      Update(pad);
    }
  }

  // ----- the arithmetic of the context -----

  // What follows does not change the blocks folded so far.
  lemma {:induction false} FoldOfLonger(m: seq<byte>, c: seq<byte>, q: nat)
    requires BLOCK * q <= |m|
    ensures Fold(m + c, q) == Fold(m, q)
  {
    hide Compress, Words;
    if q > 0 {
      FoldOfLonger(m, c, q - 1);
      assert (m + c)[BLOCK * q - BLOCK..BLOCK * q] == m[BLOCK * q - BLOCK..BLOCK * q];
    }
  }

  lemma BytesHeld(n: nat)
    ensures LowBits(n) / 8 % 0x40 == n % BLOCK
  {
    var q := 8 * n / WORD;
    assert LowBits(n) == 8 * (n - q * 0x2000_0000);
    assert n - q * 0x2000_0000 == n - BLOCK * (q * 0x80_0000);
  }

  // The carry of the low counter, and the bits of the length above it.
  lemma CountersAdvance(n: nat, k: nat)
    ensures var bits := 8 * k % WORD;
            var sum := (LowBits(n) + bits) % WORD;
            && sum == LowBits(n + k)
            && ((HighBits(n) + if sum < LowBits(n) then 1 else 0) % WORD + k / 0x2000_0000) % WORD == HighBits(n + k)
  {
    var a, b := 8 * n / WORD, 8 * k / WORD;
    var low, bits := LowBits(n), 8 * k % WORD;
    assert 8 * n == a * WORD + low && 8 * k == b * WORD + bits;
    assert k / 0x2000_0000 == b;
    var carry := if low + bits < WORD then 0 else 1;
    assert 8 * (n + k) == (a + b + carry) * WORD + (low + bits - carry * WORD);
    Quotient(8 * (n + k), a + b + carry, low + bits - carry * WORD);
    SumMod(a, carry, b);
  }

  lemma Quotient(v: nat, q: nat, r: nat)
    requires v == q * WORD + r && r < WORD
    ensures v / WORD == q && v % WORD == r
  {
  }

  lemma SumMod(a: nat, carry: nat, b: nat)
    ensures ((a % WORD + carry) % WORD + b) % WORD == (a + b + carry) % WORD
  {
  }
}
