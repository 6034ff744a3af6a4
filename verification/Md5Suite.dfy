// One line of the test suite in section A.5 of RFC 1321, step by step: the
// tables, the basic functions, the padding and the byte order are the standard's.
module Md5Suite {
  import opened Bytes
  import opened Md5Rounds
  import opened Md5

  // "abcdefghijklmnopqrstuvwxyz"
  const LETTERS: seq<byte> := seq(26, k requires 0 <= k < 26 => 97 + k)

  // Its one block, as words: the letters, the one bit, zeros and the bit length.
  function Block(): (x: seq<word>)
    ensures |x| == 16
  {
    [0x64636261, 0x68676665, 0x6c6b6a69, 0x706f6e6d, 0x74737271, 0x78777675, 0x00807a79,
     0, 0, 0, 0, 0, 0, 0, 208, 0]
  }

  predicate Holds(k: nat, v: word) { k < 16 && Block()[k] == v }

  ghost predicate Stands(n: nat, a: word, b: word, c: word, d: word)
  {
    n <= 64 && Steps(n, INITIAL, Block()) == Regs(a, b, c, d)
  }

  lemma BlockHolds()
    ensures Holds(0, 0x64636261) && Holds(1, 0x68676665) && Holds(2, 0x6c6b6a69) && Holds(3, 0x706f6e6d)
    ensures Holds(4, 0x74737271) && Holds(5, 0x78777675) && Holds(6, 0x00807a79)
    ensures Holds(14, 208) && Holds(15, 0) && forall k :: 7 <= k < 14 ==> Holds(k, 0)
  {
  }

  // One step: v is the word it takes, t the sum that is turned, q the new register.
  lemma Next(n: nat, a: word, b: word, c: word, d: word, v: word, t: word, q: word)
    requires n < 64 && Stands(n, a, b, c, d) && Holds(WordIndex(n), v)
    requires t == Plus(a, Plus(Plus(Mix(n, b, c, d), v), Sine(n))) && q == Plus(RotateLeft(t, Turn(n)), b)
    ensures Stands(n + 1, d, q, b, c)
  {
    hide Mix, Sine, Turn, WordIndex, Plus, RotateLeft, Block;
  }


  lemma EighthOne()
    requires Stands(0, 0x67452301, 0xefcdab89, 0x98badcfe, 0x10325476)
    ensures Stands(8, 0xfe15f787, 0xda9bbb0d, 0xb71122fc, 0xa811b278)
  {
    BlockHolds();
    hide Stands, Holds, Steps, Step, Operation, Block;
    Next(0, 0x67452301, 0xefcdab89, 0x98badcfe, 0x10325476, 0x64636261, 0x3bce06d8, 0xd6d117a6);
    Next(1, 0x10325476, 0xd6d117a6, 0xefcdab89, 0x98badcfe, 0x68676665, 0x304d3e09, 0xaab1aaaa);
    Next(2, 0x98badcfe, 0xaab1aaaa, 0xd6d117a6, 0xefcdab89, 0x6c6b6a69, 0xf123bbe5, 0x227d8cf1);
    Next(3, 0xefcdab89, 0x227d8cf1, 0xaab1aaaa, 0xd6d117a6, 0x706f6e6d, 0x18ac848a, 0x4503b812);
    Next(4, 0xd6d117a6, 0x4503b812, 0x227d8cf1, 0xaab1aaaa, 0x74737271, 0xeb72247e, 0xfe15f787);
    Next(5, 0xaab1aaaa, 0xfe15f787, 0x4503b812, 0x227d8cf1, 0x78777675, 0xaf1a9fbb, 0xa811b278);
    Next(6, 0x227d8cf1, 0xa811b278, 0xfe15f787, 0x4503b812, 0x00807a79, 0xb842077f, 0xb71122fc);
    Next(7, 0x4503b812, 0xb71122fc, 0xa811b278, 0xfe15f787, 0x00000000, 0x2a60448e, 0xda9bbb0d);
  }

  lemma EighthTwo()
    requires Stands(8, 0xfe15f787, 0xda9bbb0d, 0xb71122fc, 0xa811b278)
    ensures Stands(16, 0x1754a316, 0x608d6b7e, 0x00df74d5, 0x85567d90)
  {
    BlockHolds();
    hide Stands, Holds, Steps, Step, Operation, Block;
    Next(8, 0xfe15f787, 0xda9bbb0d, 0xb71122fc, 0xa811b278, 0x00000000, 0x19a7b2db, 0xae752899);
    Next(9, 0xa811b278, 0xae752899, 0xda9bbb0d, 0xb71122fc, 0x00000000, 0xce67d494, 0x2bbe757f);
    Next(10, 0xb71122fc, 0x2bbe757f, 0xae752899, 0xda9bbb0d, 0x00000000, 0xb14628c6, 0x7d4bd80b);
    Next(11, 0xda9bbb0d, 0x7d4bd80b, 0x2bbe757f, 0xae752899, 0x00000000, 0x0f370366, 0x56cfa5cb);
    Next(12, 0xae752899, 0x56cfa5cb, 0x7d4bd80b, 0x2bbe757f, 0x00000000, 0x978109fa, 0x1754a316);
    Next(13, 0x2bbe757f, 0x1754a316, 0x56cfa5cb, 0x7d4bd80b, 0x00000000, 0xa7a6e01d, 0x85567d90);
    Next(14, 0x7d4bd80b, 0x85567d90, 0x1754a316, 0x56cfa5cb, 0x000000d0, 0x7ba2bdc4, 0x00df74d5);
    Next(15, 0x56cfa5cb, 0x00df74d5, 0x85567d90, 0x1754a316, 0x00000000, 0xb7daa57e, 0x608d6b7e);
  }

  lemma EighthThree()
    requires Stands(16, 0x1754a316, 0x608d6b7e, 0x00df74d5, 0x85567d90)
    ensures Stands(24, 0x570c43e0, 0xc9f162d4, 0xc28ab49d, 0x977efd2a)
  {
    BlockHolds();
    hide Stands, Holds, Steps, Step, Operation, Block;
    Next(16, 0x1754a316, 0x608d6b7e, 0x00df74d5, 0x85567d90, 0x68676665, 0x76679832, 0x2d8071cc);
    Next(17, 0x85567d90, 0x2d8071cc, 0x608d6b7e, 0x00df74d5, 0x00807a79, 0xa6982737, 0x5dcee119);
    Next(18, 0x00df74d5, 0x5dcee119, 0x2d8071cc, 0x608d6b7e, 0x00000000, 0x74ca40be, 0xedfe7e4b);
    Next(19, 0x608d6b7e, 0xedfe7e4b, 0x5dcee119, 0x2d8071cc, 0x64636261, 0x2c7685e2, 0x4c2145b3);
    Next(20, 0x2d8071cc, 0x4c2145b3, 0xedfe7e4b, 0x5dcee119, 0x78777675, 0x685757f1, 0x570c43e0);
    Next(21, 0x5dcee119, 0x570c43e0, 0x4c2145b3, 0xedfe7e4b, 0x00000000, 0xa520395c, 0x977efd2a);
    Next(22, 0xedfe7e4b, 0x977efd2a, 0x570c43e0, 0x4c2145b3, 0x00000000, 0xddccac2e, 0xc28ab49d);
    Next(23, 0x4c2145b3, 0xc28ab49d, 0x977efd2a, 0x570c43e0, 0x74737271, 0x6ae37076, 0xc9f162d4);
  }

  lemma EighthFour()
    requires Stands(24, 0x570c43e0, 0xc9f162d4, 0xc28ab49d, 0x977efd2a)
    ensures Stands(32, 0xf54d8710, 0xaeb35766, 0x2e69afc7, 0x927b72e2)
  {
    BlockHolds();
    hide Stands, Holds, Steps, Step, Operation, Block;
    Next(24, 0x570c43e0, 0xc9f162d4, 0xc28ab49d, 0x977efd2a, 0x00000000, 0x3ade725b, 0x25bfae3b);
    Next(25, 0x977efd2a, 0x25bfae3b, 0xc9f162d4, 0xc28ab49d, 0x000000d0, 0x64b1ec29, 0x89980104);
    Next(26, 0xc28ab49d, 0x89980104, 0x25bfae3b, 0xc9f162d4, 0x706f6e6d, 0xd56dbcc0, 0xf8c8365f);
    Next(27, 0xc9f162d4, 0xf8c8365f, 0x89980104, 0x25bfae3b, 0x00000000, 0xb7d39ee0, 0xe6d3b398);
    Next(28, 0x25bfae3b, 0xe6d3b398, 0xf8c8365f, 0x89980104, 0x00000000, 0xc073ce9b, 0xf54d8710);
    Next(29, 0x89980104, 0xf54d8710, 0xe6d3b398, 0xf8c8365f, 0x6c6b6a69, 0xe94e96f5, 0x927b72e2);
    Next(30, 0xf8c8365f, 0x927b72e2, 0xf54d8710, 0xe6d3b398, 0x00000000, 0xf3966fb8, 0x2e69afc7);
    Next(31, 0xe6d3b398, 0x2e69afc7, 0x927b72e2, 0xf54d8710, 0x00000000, 0x9a79f804, 0xaeb35766);
  }

  lemma EighthFive()
    requires Stands(32, 0xf54d8710, 0xaeb35766, 0x2e69afc7, 0x927b72e2)
    ensures Stands(40, 0xb9c0c733, 0x8d41bf99, 0x23a9451b, 0xf1e6dc7a)
  {
    BlockHolds();
    hide Stands, Holds, Steps, Step, Operation, Block;
    Next(32, 0xf54d8710, 0xaeb35766, 0x2e69afc7, 0x927b72e2, 0x78777675, 0x8060c10a, 0xb4bf680e);
    Next(33, 0x927b72e2, 0xb4bf680e, 0xaeb35766, 0x2e69afc7, 0x00000000, 0x4e52fa12, 0x4c8ffa80);
    Next(34, 0x2e69afc7, 0x4c8ffa80, 0xb4bf680e, 0xaeb35766, 0x00000000, 0xf28ad6d1, 0x2361ed0a);
    Next(35, 0xaeb35766, 0x2361ed0a, 0x4c8ffa80, 0xb4bf680e, 0x000000d0, 0x87ea0fc6, 0x06a5e211);
    Next(36, 0xb4bf680e, 0x06a5e211, 0x2361ed0a, 0x4c8ffa80, 0x68676665, 0x2b31ae52, 0xb9c0c733);
    Next(37, 0x4c8ffa80, 0xb9c0c733, 0x06a5e211, 0x2361ed0a, 0x74737271, 0xa8e704c2, 0xf1e6dc7a);
    Next(38, 0x2361ed0a, 0xf1e6dc7a, 0xb9c0c733, 0x06a5e211, 0x00000000, 0x68a131c2, 0x23a9451b);
    Next(39, 0x06a5e211, 0x23a9451b, 0xf1e6dc7a, 0xb9c0c733, 0x00000000, 0x30f4fcd3, 0x8d41bf99);
  }

  lemma EighthSix()
    requires Stands(40, 0xb9c0c733, 0x8d41bf99, 0x23a9451b, 0xf1e6dc7a)
    ensures Stands(48, 0xb5d41f9c, 0x71d10367, 0x703d54d8, 0xa04b4904)
  {
    BlockHolds();
    hide Stands, Holds, Steps, Step, Operation, Block;
    Next(40, 0xb9c0c733, 0x8d41bf99, 0x23a9451b, 0xf1e6dc7a, 0x00000000, 0x416a6cf1, 0xa3e88ead);
    Next(41, 0xf1e6dc7a, 0xa3e88ead, 0x8d41bf99, 0x23a9451b, 0x64636261, 0x4debdb04, 0x02c0b11c);
    Next(42, 0x23a9451b, 0x02c0b11c, 0xa3e88ead, 0x8d41bf99, 0x706f6e6d, 0x95716435, 0x66f6468d);
    Next(43, 0x8d41bf99, 0x66f6468d, 0x02c0b11c, 0xa3e88ead, 0x00807a79, 0x5a28d053, 0x90a35af5);
    Next(44, 0xa3e88ead, 0x90a35af5, 0x66f6468d, 0x02c0b11c, 0x00000000, 0x72530c4a, 0xb5d41f9c);
    Next(45, 0x02c0b11c, 0xb5d41f9c, 0x90a35af5, 0x66f6468d, 0x00000000, 0x2d1d4ee5, 0xa04b4904);
    Next(46, 0x66f6468d, 0xa04b4904, 0xb5d41f9c, 0x90a35af5, 0x00000000, 0x0bd4cff2, 0x703d54d8);
    Next(47, 0x90a35af5, 0x703d54d8, 0xa04b4904, 0xb5d41f9c, 0x6c6b6a69, 0x275d1e03, 0x71d10367);
  }

  lemma EighthSeven()
    requires Stands(48, 0xb5d41f9c, 0x71d10367, 0x703d54d8, 0xa04b4904)
    ensures Stands(56, 0xc1e942f1, 0x83877d1b, 0x23a68048, 0xd9bb987c)
  {
    BlockHolds();
    hide Stands, Holds, Steps, Step, Operation, Block;
    Next(48, 0xb5d41f9c, 0x71d10367, 0x703d54d8, 0xa04b4904, 0x64636261, 0x1e298768, 0xfc32dd6e);
    Next(49, 0xa04b4904, 0xfc32dd6e, 0x71d10367, 0x703d54d8, 0x00000000, 0x719a44a3, 0x65456b34);
    Next(50, 0x703d54d8, 0x65456b34, 0xfc32dd6e, 0x71d10367, 0x000000d0, 0x2f2e9c21, 0xb35602cb);
    Next(51, 0x71d10367, 0xb35602cb, 0x65456b34, 0xfc32dd6e, 0x78777675, 0xbd766404, 0x33edb197);
    Next(52, 0xfc32dd6e, 0x33edb197, 0xb35602cb, 0x65456b34, 0x00000000, 0x6a37ee45, 0xc1e942f1);
    Next(53, 0x65456b34, 0xc1e942f1, 0x33edb197, 0xb35602cb, 0x706f6e6d, 0x62c5f495, 0xd9bb987c);
    Next(54, 0xb35602cb, 0xd9bb987c, 0xc1e942f1, 0x33edb197, 0x00000000, 0xcf9893d5, 0x23a68048);
    Next(55, 0x33edb197, 0x23a68048, 0xd9bb987c, 0xc1e942f1, 0x68676665, 0x07e69aff, 0x83877d1b);
  }

  lemma EighthEight()
    requires Stands(56, 0xc1e942f1, 0x83877d1b, 0x23a68048, 0xd9bb987c)
    ensures Stands(64, 0x708ed9c2, 0x1116e6d8, 0xd38f1e7f, 0x2baf1354)
  {
    BlockHolds();
    hide Stands, Holds, Steps, Step, Operation, Block;
    Next(56, 0xc1e942f1, 0x83877d1b, 0x23a68048, 0xd9bb987c, 0x00000000, 0xb5f3c113, 0x0077c208);
    Next(57, 0xd9bb987c, 0x0077c208, 0x83877d1b, 0x23a68048, 0x00000000, 0x37e10200, 0x847fc2e7);
    Next(58, 0x23a68048, 0x847fc2e7, 0x0077c208, 0x83877d1b, 0x00807a79, 0xc3303ec4, 0xa3e2247f);
    Next(59, 0x83877d1b, 0xa3e2247f, 0x847fc2e7, 0x0077c208, 0x00000000, 0x4d258dd4, 0x5e6bc930);
    Next(60, 0x0077c208, 0x5e6bc930, 0xa3e2247f, 0x847fc2e7, 0x74737271, 0x48488c42, 0x708ed9c2);
    Next(61, 0x847fc2e7, 0x708ed9c2, 0x5e6bc930, 0xa3e2247f, 0x00000000, 0x64aec80e, 0x2baf1354);
    Next(62, 0xa3e2247f, 0x2baf1354, 0x708ed9c2, 0x5e6bc930, 0x6c6b6a69, 0x16574fc0, 0xd38f1e7f);
    Next(63, 0x5e6bc930, 0xd38f1e7f, 0x2baf1354, 0x708ed9c2, 0x00000000, 0x3e42c9ec, 0x1116e6d8);
  }

  lemma AllSteps()
    ensures Stands(64, 0x708ed9c2, 0x1116e6d8, 0xd38f1e7f, 0x2baf1354)
  {
    assert Stands(0, 0x67452301, 0xefcdab89, 0x98badcfe, 0x10325476);
    hide Stands;
    EighthOne();
    EighthTwo();
    EighthThree();
    EighthFour();
    EighthFive();
    EighthSix();
    EighthSeven();
    EighthEight();
  }

  lemma Compressed()
    ensures Compress(INITIAL, Block()) == Regs(0xd7d3fcc3, 0x00e49261, 0x6c49fb7d, 0x3be167ca)
  {
    AllSteps();
    hide Steps, Block;
  }

  // The words as numbers.
  function Number(k: nat): uint4
    requires k < 16
  {
    if k < 6 then 1684234849 + 67372036 * k else if k == 6 then 8419961 else if k == 14 then 208 else 0
  }

  lemma NumbersAsWords()
    ensures AsWord(1684234849) == 0x64636261 && AsWord(1751606885) == 0x68676665 && AsWord(1818978921) == 0x6c6b6a69
    ensures AsWord(1886350957) == 0x706f6e6d && AsWord(1953722993) == 0x74737271 && AsWord(2021095029) == 0x78777675
    ensures AsWord(8419961) == 0x00807a79 && AsWord(0) == 0 && AsWord(208) == 208
  {
  }

  lemma NumberHolds(k: nat)
    requires k < 16
    ensures Holds(k, AsWord(Number(k)))
  {
    BlockHolds();
    NumbersAsWords();
    hide Holds, AsWord, Block;
    assert k == 0 || k == 1 || k == 2 || k == 3 || k == 4 || k == 5 || k == 6 || 7 <= k < 14 || k == 14 || k == 15;
  }

  lemma WordsAsNumbers()
    ensures AsNumber(0xd7d3fcc3) == 3620994243 && AsNumber(0x00e49261) == 14979681
    ensures AsNumber(0x6c49fb7d) == 1816787837 && AsNumber(0x3be167ca) == 1004627914
  {
  }

  lemma LowByte(n: nat, b: byte, r: nat, d: nat)
    requires d > 0 && n / d == b + 0x100 * r
    ensures n / d % 0x100 == b
  {
  }

  lemma BytesAre(b0: byte, b1: byte, b2: byte, b3: byte)
    ensures var n := Word4(b0, b1, b2, b3);
            ByteOf(n, 0) == b0 && ByteOf(n, 1) == b1 && ByteOf(n, 2) == b2 && ByteOf(n, 3) == b3
  {
    var n := Word4(b0, b1, b2, b3);
    LowByte(n, b0, b1 + 0x100 * (b2 + 0x100 * b3), 1);
    LowByte(n, b1, b2 + 0x100 * b3, 0x100);
    LowByte(n, b2, b3, 0x1_0000);
    LowByte(n, b3, 0, 0x100_0000);
  }

  lemma OutputIs(w: word, b0: byte, b1: byte, b2: byte, b3: byte)
    requires AsNumber(w) == Word4(b0, b1, b2, b3)
    ensures Output(w) == [b0, b1, b2, b3]
  {
    BytesAre(b0, b1, b2, b3);
    hide AsWord, AsNumber, ByteOf, Word4;
  }

  // The bytes of the padded message.
  lemma BodyIs()
    ensures var body := Body(LETTERS);
            && |LETTERS| == 26 && |body| == 56 && body[24] == 121 && body[25] == 122 && body[26] == 128
            && (forall k :: 0 <= k < 26 ==> body[k] == 97 + k) && (forall k :: 26 < k < 56 ==> body[k] == 0)
  {
    PaddingIs(26, 30);
  }

  lemma LettersAre(k: nat)
    requires k < 6
    ensures WordAt(Body(LETTERS), 4 * k) == AsWord(Number(k))
  {
    BodyIs();
    hide Body, AsWord;
    var b := 97 + 4 * k;
    assert Word4(b, b + 1, b + 2, b + 3) == Number(k);
  }

  lemma ZeroWord(m: seq<byte>, o: nat)
    requires o + 4 <= |m| && m[o] == 0 && m[o + 1] == 0 && m[o + 2] == 0 && m[o + 3] == 0
    ensures WordAt(m, o) == AsWord(0)
  {
    hide AsWord;
  }

  lemma LastLetters(m: seq<byte>)
    requires |m| >= 28 && m[24] == 121 && m[25] == 122 && m[26] == 128 && m[27] == 0
    ensures WordAt(m, 24) == AsWord(8419961)
  {
    hide AsWord;
  }

  lemma PaddingZeros(k: nat)
    requires 6 <= k < 14
    ensures WordAt(Body(LETTERS), 4 * k) == AsWord(Number(k))
  {
    BodyIs();
    hide Body, AsWord, WordAt, Word4;
    if k == 6 { LastLetters(Body(LETTERS)); } else { ZeroWord(Body(LETTERS), 4 * k); }
  }

  lemma WordsAre()
    ensures Words(Body(LETTERS)) + [AsWord(208), AsWord(0)] == Block()
  {
    BodyIs();
    hide Body, AsWord, Block, Word4;
    var x := Words(Body(LETTERS)) + [AsWord(208), AsWord(0)];
    forall k | 0 <= k < 16 ensures x[k] == Block()[k] {
      NumberHolds(k);
      if k < 6 { LettersAre(k); } else if k < 14 { PaddingZeros(k); }
    }
  }

  // A message whose padding fits into its first block.
  lemma OneBlock(m: seq<byte>, r: Regs)
    requires |Body(m)| == 56 && |m| < 56
    requires Compress(INITIAL, Words(Body(m)) + [AsWord(8 * |m|), AsWord(0)]) == r
    ensures Digest(m) == Output(r.a) + Output(r.b) + Output(r.c) + Output(r.d)
  {
    hide Compress, Words, Body, AsWord, Output;
    assert Body(m)[0..] == Body(m);
  }

  lemma Outputs()
    ensures Output(0xd7d3fcc3) + Output(0x00e49261) + Output(0x6c49fb7d) + Output(0x3be167ca) ==
            [0xc3, 0xfc, 0xd3, 0xd7, 0x61, 0x92, 0xe4, 0x00,
             0x7d, 0xfb, 0x49, 0x6c, 0xca, 0x67, 0xe1, 0x3b]
  {
    WordsAsNumbers();
    hide AsNumber, AsWord, Output;
    OutputIs(0xd7d3fcc3, 0xc3, 0xfc, 0xd3, 0xd7);
    OutputIs(0x00e49261, 0x61, 0x92, 0xe4, 0x00);
    OutputIs(0x6c49fb7d, 0x7d, 0xfb, 0x49, 0x6c);
    OutputIs(0x3be167ca, 0xca, 0x67, 0xe1, 0x3b);
  }

  // The digest the standard gives for the alphabet.
  lemma Suite()
    ensures Digest(LETTERS) == [0xc3, 0xfc, 0xd3, 0xd7, 0x61, 0x92, 0xe4, 0x00,
                                0x7d, 0xfb, 0x49, 0x6c, 0xca, 0x67, 0xe1, 0x3b]
  {
    hide *;
    BodyIs();
    WordsAre();
    Compressed();
    OneBlock(LETTERS, Regs(0xd7d3fcc3, 0x00e49261, 0x6c49fb7d, 0x3be167ca));
    Outputs();
  }
}
