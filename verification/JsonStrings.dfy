// The two passes of parse_string agree on the room they need, and the bytes
// written for a code point are its UTF-8 form.
module JsonStrings {
  import opened Bytes
  import opened JsonGrammar

  // ----- the second pass stays within what the first pass allocated -----

  // The bytes the second pass has written when it ends, in success or failure.
  function Written(s: seq<byte>, p: nat, close: nat): seq<byte>
    requires close < |s|
    decreases close - p
  {
    if p >= close then []
    else
      match UnescapeOne(s, p, close)
      case Fail => []
      case Done(t, next) => t + Written(s, next, close)
  }

  lemma {:induction false} UnescapeIsWritten(s: seq<byte>, p: nat, close: nat)
    requires close < |s|
    ensures Unescape(s, p, close).Some? ==> Unescape(s, p, close).value == Written(s, p, close)
    decreases close - p
  {
    if p < close {
      var r := UnescapeOne(s, p, close);
      if r.Done? {
        UnescapeIsWritten(s, r.next, close);
      }
    }
  }

  // The first pass can start again at q and reach the same closing quote.
  predicate Boundary(s: seq<byte>, q: nat, close: nat)
  {
    q <= close < |s| && FindClose(s, q) == Some(close)
  }

  // Where the first pass is once it has passed `target`, a byte late if
  // `target` lies inside one of its escapes.
  lemma {:induction false} FirstPassAt(s: seq<byte>, q: nat, close: nat, target: nat) returns (r: nat)
    requires Boundary(s, q, close) && q <= target <= close
    ensures target <= r <= target + 1 && Boundary(s, r, close)
    ensures Escapes(s, r, close) <= Escapes(s, q, close)
    ensures 2 * (Escapes(s, q, close) - Escapes(s, r, close)) <= r - q
    decreases target - q
  {
    if q == target {
      r := q;
    } else if s[q] == BACKSLASH {
      if q + 1 == target {
        r := q + 2;
      } else {
        r := FirstPassAt(s, q + 2, close, target);
      }
    } else {
      r := FirstPassAt(s, q + 1, close, target);
    }
  }

  // One round of the second pass, the first pass being at p or inside an escape
  // that covers p: what is written is paid for by the bytes passed over.
  lemma RoundFits(s: seq<byte>, p: nat, q: nat, close: nat) returns (r: nat)
    requires p < close && p <= q <= p + 1 && Boundary(s, q, close)
    requires UnescapeOne(s, p, close).Done?
    ensures var o := UnescapeOne(s, p, close);
            && (o.next <= close ==> o.next <= r <= o.next + 1)
            && (o.next > close ==> r == close)
            && Boundary(s, r, close)
            && |o.value| + Escapes(s, q, close) - Escapes(s, r, close) <= o.next - p
            && Escapes(s, r, close) <= Escapes(s, q, close)
  {
    var o := UnescapeOne(s, p, close);
    if o.next > close {
      assert q == close;
      r := close;
    } else if s[p] != BACKSLASH {
      r := p + 1;
    } else if s[p + 1] != LOWER_U {
      r := FirstPassAt(s, q, close, o.next);
    } else {
      r := FirstPassAt(s, q, close, o.next);
      LiteralFits(s, p, close);
    }
  }

  lemma LiteralFits(s: seq<byte>, p: nat, close: nat)
    requires p < close < |s| && s[p] == BACKSLASH && s[p + 1] == LOWER_U
    requires UnescapeOne(s, p, close).Done?
    ensures var o := UnescapeOne(s, p, close);
            (o.next == p + 6 && |o.value| <= 3) || (o.next == p + 12 && |o.value| == 4)
  {
  }

  lemma {:induction false} RestFits(s: seq<byte>, p: nat, q: nat, close: nat)
    requires (p <= close ==> p <= q <= p + 1) && (p > close ==> q == close && p == close + 1)
    requires Boundary(s, q, close)
    ensures |Written(s, p, close)| + Escapes(s, q, close) <= close + 1 - p
    decreases close - p
  {
    if p < close && UnescapeOne(s, p, close).Done? {
      var r := RoundFits(s, p, q, close);
      RestFits(s, UnescapeOne(s, p, close).next, r, close);
    } else {
      EscapesFit(s, q, close);
    }
  }

  lemma {:induction false} EscapesFit(s: seq<byte>, q: nat, close: nat)
    requires Boundary(s, q, close)
    ensures Escapes(s, q, close) <= close - q
  {
    var r := FirstPassAt(s, q, close, close);
  }

  // What parse_string allocates for the literal whose content is s[i..close].
  function Allocation(s: seq<byte>, i: nat, close: nat): int
    requires i <= close <= |s|
  {
    close - (i - 1) - Escapes(s, i, close) + 1
  }

  // Arbitrary bytes, well formed or not: the terminating NUL included, the
  // second pass writes no more than was allocated.
  lemma SecondPassFits(s: seq<byte>, i: nat, close: nat)
    requires Boundary(s, i, close)
    ensures |Written(s, i, close)| + 1 <= Allocation(s, i, close)
  {
    RestFits(s, i, i, close);
  }

  // Nothing behind the closing quote is read: cutting the input there changes
  // neither the bytes written nor the success nor where reading stops.
  lemma {:induction false} SecondPassReadsNoFurther(s: seq<byte>, p: nat, close: nat)
    requires close < |s|
    ensures Written(s[..close + 1], p, close) == Written(s, p, close)
    ensures Unescape(s[..close + 1], p, close) == Unescape(s, p, close)
    ensures EscapeStop(s[..close + 1], p, close) == EscapeStop(s, p, close)
    decreases close - p
  {
    if p < close {
      RoundReadsNoFurther(s, p, close);
      if UnescapeOne(s, p, close).Done? {
        SecondPassReadsNoFurther(s, UnescapeOne(s, p, close).next, close);
      }
    }
  }

  lemma RoundReadsNoFurther(s: seq<byte>, p: nat, close: nat)
    requires p < close < |s|
    ensures UnescapeOne(s[..close + 1], p, close) == UnescapeOne(s, p, close)
  {
    var t := s[..close + 1];
    assert forall k :: 0 <= k <= close ==> t[k] == s[k];
  }

  // ----- UTF-8 read back, section 3 of RFC 3629 -----

  // A Unicode scalar value.
  predicate IsScalar(c: nat) { c <= 0x10FFFF && !(0xD800 <= c <= 0xDFFF) }

  predicate IsTail(b: byte) { 0x80 <= b <= 0xBF }

  // The bits that b carries besides its marker.
  function Bits(b: byte, mark: byte): int { b as int - mark as int }

  // Decodes the first character, rejecting overlong forms and surrogates.
  function DecodeUtf8(t: seq<byte>): Parsed<nat>
  {
    if t == [] then Fail
    else if t[0] <= 0x7F then Done(t[0], 1)
    else if 0xC2 <= t[0] <= 0xDF && |t| >= 2 && IsTail(t[1]) then
      Done(Bits(t[0], 0xC0) * 0x40 + Bits(t[1], 0x80), 2)
    else if 0xE0 <= t[0] <= 0xEF && |t| >= 3 && IsTail(t[1]) && IsTail(t[2]) then
      var c := Bits(t[0], 0xE0) * 0x1000 + Bits(t[1], 0x80) * 0x40 + Bits(t[2], 0x80);
      if c >= 0x800 && IsScalar(c) then Done(c, 3) else Fail
    else if 0xF0 <= t[0] <= 0xF4 && |t| >= 4 && IsTail(t[1]) && IsTail(t[2]) && IsTail(t[3]) then
      var c := Bits(t[0], 0xF0) * 0x40000 + Bits(t[1], 0x80) * 0x1000 +
               Bits(t[2], 0x80) * 0x40 + Bits(t[3], 0x80);
      if 0x10000 <= c <= 0x10FFFF then Done(c, 4) else Fail
    else Fail
  }

  // What the encoder of utf16_literal_to_utf8 emits for a scalar value is its
  // one RFC 3629 encoding.
  lemma Utf8Decodes(c: nat, rest: seq<byte>)
    requires IsScalar(c)
    ensures DecodeUtf8(Utf8(c) + rest) == Done(c, |Utf8(c)|)
  {
    var t := Utf8(c) + rest;
    forall k | 0 <= k < |Utf8(c)| ensures t[k] == Utf8(c)[k] {}
    if c >= 0x10000 {
      SplitDigits(c);
      assert |t| >= 4 && t[0] == 0xF0 + c / 0x40000 && t[1] == 0x80 + c / 0x1000 % 0x40;
    } else if c >= 0x800 {
      SplitDigits(c);
      assert |t| >= 3 && t[0] == 0xE0 + c / 0x1000 && t[1] == 0x80 + c / 0x40 % 0x40;
    }
  }

  // c in base 64.
  lemma SplitDigits(c: nat)
    ensures c == c / 0x1000 * 0x1000 + c / 0x40 % 0x40 * 0x40 + c % 0x40
    ensures c / 0x1000 == c / 0x40000 * 0x40 + c / 0x1000 % 0x40
  {
    assert c / 0x1000 == c / 0x40 / 0x40;
    assert c / 0x40000 == c / 0x1000 / 0x40;
  }
}
