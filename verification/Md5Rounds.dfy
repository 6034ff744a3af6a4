// The MD5 compression function: sixty-four unrolled lines against the four
// rounds of section 3.4 of RFC 1321. Words have 32 bits.
module Md5Rounds {

  type word = bv32

  datatype Regs = Regs(a: word, b: word, c: word, d: word)

  // ----- the basic functions -----

  function F(x: word, y: word, z: word): word
  {
    (x & y) | (!x & z)
  }

  function G(x: word, y: word, z: word): word
  {
    (x & z) | (y & !z)
  }

  function H(x: word, y: word, z: word): word
  {
    x ^ y ^ z
  }

  function I(x: word, y: word, z: word): word
  {
    y ^ (x | !z)
  }

  function Plus(x: word, y: word): word { x + y }

  function RotateLeft(x: word, n: bv6): word
    requires 0 < n < 32
  {
    (x << n) | (x >> (32 - n))
  }

  function Operation(f: word, a: word, b: word, x: word, s: bv6, ac: word): word
    requires 0 < s < 32
  {
    Plus(RotateLeft(Plus(a, Plus(Plus(f, x), ac)), s), b)
  }

  // ----- the rounds, step by step -----

  // floor(2^32 * |sin(n + 1)|), as tabulated, eight to a function
  function Sines1(k: nat): word
  {
    match k
    case 0 => 3614090360 case 1 => 3905402710
    case 2 => 606105819 case 3 => 3250441966
    case 4 => 4118548399 case 5 => 1200080426
    case 6 => 2821735955 case _ => 4249261313
  }

  function Sines2(k: nat): word
  {
    match k
    case 0 => 1770035416 case 1 => 2336552879
    case 2 => 4294925233 case 3 => 2304563134
    case 4 => 1804603682 case 5 => 4254626195
    case 6 => 2792965006 case _ => 1236535329
  }

  function Sines3(k: nat): word
  {
    match k
    case 0 => 4129170786 case 1 => 3225465664
    case 2 => 643717713 case 3 => 3921069994
    case 4 => 3593408605 case 5 => 38016083
    case 6 => 3634488961 case _ => 3889429448
  }

  function Sines4(k: nat): word
  {
    match k
    case 0 => 568446438 case 1 => 3275163606
    case 2 => 4107603335 case 3 => 1163531501
    case 4 => 2850285829 case 5 => 4243563512
    case 6 => 1735328473 case _ => 2368359562
  }

  function Sines5(k: nat): word
  {
    match k
    case 0 => 4294588738 case 1 => 2272392833
    case 2 => 1839030562 case 3 => 4259657740
    case 4 => 2763975236 case 5 => 1272893353
    case 6 => 4139469664 case _ => 3200236656
  }

  function Sines6(k: nat): word
  {
    match k
    case 0 => 681279174 case 1 => 3936430074
    case 2 => 3572445317 case 3 => 76029189
    case 4 => 3654602809 case 5 => 3873151461
    case 6 => 530742520 case _ => 3299628645
  }

  function Sines7(k: nat): word
  {
    match k
    case 0 => 4096336452 case 1 => 1126891415
    case 2 => 2878612391 case 3 => 4237533241
    case 4 => 1700485571 case 5 => 2399980690
    case 6 => 4293915773 case _ => 2240044497
  }

  function Sines8(k: nat): word
  {
    match k
    case 0 => 1873313359 case 1 => 4264355552
    case 2 => 2734768916 case 3 => 1309151649
    case 4 => 4149444226 case 5 => 3174756917
    case 6 => 718787259 case _ => 3951481745
  }

  function Sine(i: nat): word
    requires i < 64
  {
    var k := i % 8;
    if i < 8 then Sines1(k) else if i < 16 then Sines2(k) else if i < 24 then Sines3(k) else if i < 32 then Sines4(k)
    else if i < 40 then Sines5(k) else if i < 48 then Sines6(k) else if i < 56 then Sines7(k) else Sines8(k)
  }

  function Mix(i: nat, x: word, y: word, z: word): word
    requires i < 64
  {
    if i < 16 then F(x, y, z) else if i < 32 then G(x, y, z) else if i < 48 then H(x, y, z) else I(x, y, z)
  }

  // The message word of step i.
  function WordIndex(i: nat): (k: nat)
    requires i < 64
    ensures k < 16
  {
    if i < 16 then i else if i < 32 then (1 + 5 * i) % 16 else if i < 48 then (5 + 3 * i) % 16 else (7 * i) % 16
  }

  function Turn(i: nat): (s: bv6)
    requires i < 64
    ensures 0 < s < 32
  {
    if i < 16 then Turns(i % 4, 7, 12, 17, 22) else if i < 32 then Turns(i % 4, 5, 9, 14, 20)
    else if i < 48 then Turns(i % 4, 4, 11, 16, 23) else Turns(i % 4, 6, 10, 15, 21)
  }

  function Turns(k: nat, s1: bv6, s2: bv6, s3: bv6, s4: bv6): bv6
  {
    if k == 0 then s1 else if k == 1 then s2 else if k == 2 then s3 else s4
  }

  function Step(i: nat, r: Regs, x: seq<word>): Regs
    requires i < 64 && |x| == 16
  {
    Regs(r.d, Operation(Mix(i, r.b, r.c, r.d), r.a, r.b, x[WordIndex(i)], Turn(i), Sine(i)), r.b, r.c)
  }

  // The registers behind the first n steps.
  function Steps(n: nat, r: Regs, x: seq<word>): Regs
    requires n <= 64 && |x| == 16
  {
    if n == 0 then r else Step(n - 1, Steps(n - 1, r, x), x)
  }

  // Four rounds, a step for each word of the block.
  function Compress(r: Regs, x: seq<word>): Regs
    requires |x| == 16
  {
    var q := Steps(4 * |x|, r, x);
    Regs(Plus(r.a, q.a), Plus(r.b, q.b), Plus(r.c, q.c), Plus(r.d, q.d))
  }

  // ----- the unrolled lines, eight to a method -----

  function FF(a: word, b: word, c: word, d: word, x: word, s: bv6, ac: word): word
    requires 0 < s < 32
  {
    Operation(F(b, c, d), a, b, x, s, ac)
  }

  function GG(a: word, b: word, c: word, d: word, x: word, s: bv6, ac: word): word
    requires 0 < s < 32
  {
    Operation(G(b, c, d), a, b, x, s, ac)
  }

  function HH(a: word, b: word, c: word, d: word, x: word, s: bv6, ac: word): word
    requires 0 < s < 32
  {
    Operation(H(b, c, d), a, b, x, s, ac)
  }

  function II(a: word, b: word, c: word, d: word, x: word, s: bv6, ac: word): word
    requires 0 < s < 32
  {
    Operation(I(b, c, d), a, b, x, s, ac)
  }

  // The message word, the turn and the constant of step n.
  predicate Row(n: nat, k: nat, s: bv6, ac: word)
    requires n < 64
  {
    k == WordIndex(n) && s == Turn(n) && ac == Sine(n)
  }

  // Where the registers stand behind n steps, the names having moved on.
  ghost predicate Reached(n: nat, r: Regs, x: seq<word>, a: word, b: word, c: word, d: word)
    requires n <= 64 && |x| == 16
  {
    Steps(n, r, x) == Regs(a, b, c, d)
  }

  lemma OneLine(n: nat, r: Regs, x: seq<word>, a: word, b: word, c: word, d: word, k: nat, s: bv6, ac: word)
    requires n < 64 && |x| == 16 && Reached(n, r, x, a, b, c, d)
    requires Row(n, k, s, ac)
    ensures Reached(n + 1, r, x, d, Line(n, a, b, c, d, x[k], s, ac), b, c)
  {
  }

  // Which of the four macros a line calls.
  function Line(n: nat, a: word, b: word, c: word, d: word, x: word, s: bv6, ac: word): word
    requires n < 64 && 0 < s < 32
  {
    if n < 16 then FF(a, b, c, d, x, s, ac) else if n < 32 then GG(a, b, c, d, x, s, ac)
    else if n < 48 then HH(a, b, c, d, x, s, ac) else II(a, b, c, d, x, s, ac)
  }

  method Opening1(r: Regs, x: seq<word>, p: Regs) returns (q: Regs)
    requires |x| == 16 && p == Steps(0, r, x)
    ensures q == Steps(8, r, x)
  {
    hide Steps, FF, GG, HH, II;
    var a, b, c, d := p.a, p.b, p.c, p.d;
    OneLine(0, r, x, a, b, c, d, 0, 7, 3614090360);
    a := FF(a, b, c, d, x[0], 7, 3614090360);
    OneLine(1, r, x, d, a, b, c, 1, 12, 3905402710);
    d := FF(d, a, b, c, x[1], 12, 3905402710);
    OneLine(2, r, x, c, d, a, b, 2, 17, 606105819);
    c := FF(c, d, a, b, x[2], 17, 606105819);
    OneLine(3, r, x, b, c, d, a, 3, 22, 3250441966);
    b := FF(b, c, d, a, x[3], 22, 3250441966);
    OneLine(4, r, x, a, b, c, d, 4, 7, 4118548399);
    a := FF(a, b, c, d, x[4], 7, 4118548399);
    OneLine(5, r, x, d, a, b, c, 5, 12, 1200080426);
    d := FF(d, a, b, c, x[5], 12, 1200080426);
    OneLine(6, r, x, c, d, a, b, 6, 17, 2821735955);
    c := FF(c, d, a, b, x[6], 17, 2821735955);
    OneLine(7, r, x, b, c, d, a, 7, 22, 4249261313);
    b := FF(b, c, d, a, x[7], 22, 4249261313);
    q := Regs(a, b, c, d);
  }

  method Closing1(r: Regs, x: seq<word>, p: Regs) returns (q: Regs)
    requires |x| == 16 && p == Steps(8, r, x)
    ensures q == Steps(16, r, x)
  {
    hide Steps, FF, GG, HH, II;
    var a, b, c, d := p.a, p.b, p.c, p.d;
    OneLine(8, r, x, a, b, c, d, 8, 7, 1770035416);
    a := FF(a, b, c, d, x[8], 7, 1770035416);
    OneLine(9, r, x, d, a, b, c, 9, 12, 2336552879);
    d := FF(d, a, b, c, x[9], 12, 2336552879);
    OneLine(10, r, x, c, d, a, b, 10, 17, 4294925233);
    c := FF(c, d, a, b, x[10], 17, 4294925233);
    OneLine(11, r, x, b, c, d, a, 11, 22, 2304563134);
    b := FF(b, c, d, a, x[11], 22, 2304563134);
    OneLine(12, r, x, a, b, c, d, 12, 7, 1804603682);
    a := FF(a, b, c, d, x[12], 7, 1804603682);
    OneLine(13, r, x, d, a, b, c, 13, 12, 4254626195);
    d := FF(d, a, b, c, x[13], 12, 4254626195);
    OneLine(14, r, x, c, d, a, b, 14, 17, 2792965006);
    c := FF(c, d, a, b, x[14], 17, 2792965006);
    OneLine(15, r, x, b, c, d, a, 15, 22, 1236535329);
    b := FF(b, c, d, a, x[15], 22, 1236535329);
    q := Regs(a, b, c, d);
  }

  method Opening2(r: Regs, x: seq<word>, p: Regs) returns (q: Regs)
    requires |x| == 16 && p == Steps(16, r, x)
    ensures q == Steps(24, r, x)
  {
    hide Steps, FF, GG, HH, II;
    var a, b, c, d := p.a, p.b, p.c, p.d;
    OneLine(16, r, x, a, b, c, d, 1, 5, 4129170786);
    a := GG(a, b, c, d, x[1], 5, 4129170786);
    OneLine(17, r, x, d, a, b, c, 6, 9, 3225465664);
    d := GG(d, a, b, c, x[6], 9, 3225465664);
    OneLine(18, r, x, c, d, a, b, 11, 14, 643717713);
    c := GG(c, d, a, b, x[11], 14, 643717713);
    OneLine(19, r, x, b, c, d, a, 0, 20, 3921069994);
    b := GG(b, c, d, a, x[0], 20, 3921069994);
    OneLine(20, r, x, a, b, c, d, 5, 5, 3593408605);
    a := GG(a, b, c, d, x[5], 5, 3593408605);
    OneLine(21, r, x, d, a, b, c, 10, 9, 38016083);
    d := GG(d, a, b, c, x[10], 9, 38016083);
    OneLine(22, r, x, c, d, a, b, 15, 14, 3634488961);
    c := GG(c, d, a, b, x[15], 14, 3634488961);
    OneLine(23, r, x, b, c, d, a, 4, 20, 3889429448);
    b := GG(b, c, d, a, x[4], 20, 3889429448);
    q := Regs(a, b, c, d);
  }

  method Closing2(r: Regs, x: seq<word>, p: Regs) returns (q: Regs)
    requires |x| == 16 && p == Steps(24, r, x)
    ensures q == Steps(32, r, x)
  {
    hide Steps, FF, GG, HH, II;
    var a, b, c, d := p.a, p.b, p.c, p.d;
    OneLine(24, r, x, a, b, c, d, 9, 5, 568446438);
    a := GG(a, b, c, d, x[9], 5, 568446438);
    OneLine(25, r, x, d, a, b, c, 14, 9, 3275163606);
    d := GG(d, a, b, c, x[14], 9, 3275163606);
    OneLine(26, r, x, c, d, a, b, 3, 14, 4107603335);
    c := GG(c, d, a, b, x[3], 14, 4107603335);
    OneLine(27, r, x, b, c, d, a, 8, 20, 1163531501);
    b := GG(b, c, d, a, x[8], 20, 1163531501);
    OneLine(28, r, x, a, b, c, d, 13, 5, 2850285829);
    a := GG(a, b, c, d, x[13], 5, 2850285829);
    OneLine(29, r, x, d, a, b, c, 2, 9, 4243563512);
    d := GG(d, a, b, c, x[2], 9, 4243563512);
    OneLine(30, r, x, c, d, a, b, 7, 14, 1735328473);
    c := GG(c, d, a, b, x[7], 14, 1735328473);
    OneLine(31, r, x, b, c, d, a, 12, 20, 2368359562);
    b := GG(b, c, d, a, x[12], 20, 2368359562);
    q := Regs(a, b, c, d);
  }

  method Opening3(r: Regs, x: seq<word>, p: Regs) returns (q: Regs)
    requires |x| == 16 && p == Steps(32, r, x)
    ensures q == Steps(40, r, x)
  {
    hide Steps, FF, GG, HH, II;
    var a, b, c, d := p.a, p.b, p.c, p.d;
    OneLine(32, r, x, a, b, c, d, 5, 4, 4294588738);
    a := HH(a, b, c, d, x[5], 4, 4294588738);
    OneLine(33, r, x, d, a, b, c, 8, 11, 2272392833);
    d := HH(d, a, b, c, x[8], 11, 2272392833);
    OneLine(34, r, x, c, d, a, b, 11, 16, 1839030562);
    c := HH(c, d, a, b, x[11], 16, 1839030562);
    OneLine(35, r, x, b, c, d, a, 14, 23, 4259657740);
    b := HH(b, c, d, a, x[14], 23, 4259657740);
    OneLine(36, r, x, a, b, c, d, 1, 4, 2763975236);
    a := HH(a, b, c, d, x[1], 4, 2763975236);
    OneLine(37, r, x, d, a, b, c, 4, 11, 1272893353);
    d := HH(d, a, b, c, x[4], 11, 1272893353);
    OneLine(38, r, x, c, d, a, b, 7, 16, 4139469664);
    c := HH(c, d, a, b, x[7], 16, 4139469664);
    OneLine(39, r, x, b, c, d, a, 10, 23, 3200236656);
    b := HH(b, c, d, a, x[10], 23, 3200236656);
    q := Regs(a, b, c, d);
  }

  method Closing3(r: Regs, x: seq<word>, p: Regs) returns (q: Regs)
    requires |x| == 16 && p == Steps(40, r, x)
    ensures q == Steps(48, r, x)
  {
    hide Steps, FF, GG, HH, II;
    var a, b, c, d := p.a, p.b, p.c, p.d;
    OneLine(40, r, x, a, b, c, d, 13, 4, 681279174);
    a := HH(a, b, c, d, x[13], 4, 681279174);
    OneLine(41, r, x, d, a, b, c, 0, 11, 3936430074);
    d := HH(d, a, b, c, x[0], 11, 3936430074);
    OneLine(42, r, x, c, d, a, b, 3, 16, 3572445317);
    c := HH(c, d, a, b, x[3], 16, 3572445317);
    OneLine(43, r, x, b, c, d, a, 6, 23, 76029189);
    b := HH(b, c, d, a, x[6], 23, 76029189);
    OneLine(44, r, x, a, b, c, d, 9, 4, 3654602809);
    a := HH(a, b, c, d, x[9], 4, 3654602809);
    OneLine(45, r, x, d, a, b, c, 12, 11, 3873151461);
    d := HH(d, a, b, c, x[12], 11, 3873151461);
    OneLine(46, r, x, c, d, a, b, 15, 16, 530742520);
    c := HH(c, d, a, b, x[15], 16, 530742520);
    OneLine(47, r, x, b, c, d, a, 2, 23, 3299628645);
    b := HH(b, c, d, a, x[2], 23, 3299628645);
    q := Regs(a, b, c, d);
  }

  method Opening4(r: Regs, x: seq<word>, p: Regs) returns (q: Regs)
    requires |x| == 16 && p == Steps(48, r, x)
    ensures q == Steps(56, r, x)
  {
    hide Steps, FF, GG, HH, II;
    var a, b, c, d := p.a, p.b, p.c, p.d;
    OneLine(48, r, x, a, b, c, d, 0, 6, 4096336452);
    a := II(a, b, c, d, x[0], 6, 4096336452);
    OneLine(49, r, x, d, a, b, c, 7, 10, 1126891415);
    d := II(d, a, b, c, x[7], 10, 1126891415);
    OneLine(50, r, x, c, d, a, b, 14, 15, 2878612391);
    c := II(c, d, a, b, x[14], 15, 2878612391);
    OneLine(51, r, x, b, c, d, a, 5, 21, 4237533241);
    b := II(b, c, d, a, x[5], 21, 4237533241);
    OneLine(52, r, x, a, b, c, d, 12, 6, 1700485571);
    a := II(a, b, c, d, x[12], 6, 1700485571);
    OneLine(53, r, x, d, a, b, c, 3, 10, 2399980690);
    d := II(d, a, b, c, x[3], 10, 2399980690);
    OneLine(54, r, x, c, d, a, b, 10, 15, 4293915773);
    c := II(c, d, a, b, x[10], 15, 4293915773);
    OneLine(55, r, x, b, c, d, a, 1, 21, 2240044497);
    b := II(b, c, d, a, x[1], 21, 2240044497);
    q := Regs(a, b, c, d);
  }

  method Closing4(r: Regs, x: seq<word>, p: Regs) returns (q: Regs)
    requires |x| == 16 && p == Steps(56, r, x)
    ensures q == Steps(64, r, x)
  {
    hide Steps, FF, GG, HH, II;
    var a, b, c, d := p.a, p.b, p.c, p.d;
    OneLine(56, r, x, a, b, c, d, 8, 6, 1873313359);
    a := II(a, b, c, d, x[8], 6, 1873313359);
    OneLine(57, r, x, d, a, b, c, 15, 10, 4264355552);
    d := II(d, a, b, c, x[15], 10, 4264355552);
    OneLine(58, r, x, c, d, a, b, 6, 15, 2734768916);
    c := II(c, d, a, b, x[6], 15, 2734768916);
    OneLine(59, r, x, b, c, d, a, 13, 21, 1309151649);
    b := II(b, c, d, a, x[13], 21, 1309151649);
    OneLine(60, r, x, a, b, c, d, 4, 6, 4149444226);
    a := II(a, b, c, d, x[4], 6, 4149444226);
    OneLine(61, r, x, d, a, b, c, 11, 10, 3174756917);
    d := II(d, a, b, c, x[11], 10, 3174756917);
    OneLine(62, r, x, c, d, a, b, 2, 15, 718787259);
    c := II(c, d, a, b, x[2], 15, 718787259);
    OneLine(63, r, x, b, c, d, a, 9, 21, 3951481745);
    b := II(b, c, d, a, x[9], 21, 3951481745);
    q := Regs(a, b, c, d);
  }

  lemma NoSteps(r: Regs, x: seq<word>)
    requires |x| == 16
    ensures Steps(0, r, x) == r
  {
  }

  method Transform(buf: Regs, x: seq<word>) returns (q: Regs)
    requires |x| == 16
    ensures q == Compress(buf, x)
  {
    hide Steps, Plus;
    NoSteps(buf, x);
    q := Opening1(buf, x, buf);
    q := Closing1(buf, x, q);
    q := Opening2(buf, x, q);
    q := Closing2(buf, x, q);
    q := Opening3(buf, x, q);
    q := Closing3(buf, x, q);
    q := Opening4(buf, x, q);
    q := Closing4(buf, x, q);
    q := Regs(Plus(buf.a, q.a), Plus(buf.b, q.b), Plus(buf.c, q.c), Plus(buf.d, q.d));
  }
}
