/** The UTF-8 encoder behind numeric character references. */
module Utf8 {

  function First(mark: int, x: int): int { mark + x }

  function Continuation(x: int): int { 0x80 + x % 64 }

  /** The bytes for a code point; nothing for values that need more than 21 bits. */
  function Encode(input: nat): (r: seq<int>)
    ensures forall i :: 0 <= i < |r| ==> 0 <= r[i] < 256
    ensures |r| <= 4 && (input < 0x80 ==> |r| == 1) && (input >= 0x200000 <==> r == [])
  {
    if input < 0x80 then [input]
    else if input < 0x800 then [First(0xC0, input / 64), Continuation(input)]
    else if input < 0x10000 then [First(0xE0, input / 64 / 64), Continuation(input / 64), Continuation(input)]
    else if input < 0x200000 then
      [First(0xF0, input / 64 / 64 / 64), Continuation(input / 64 / 64), Continuation(input / 64), Continuation(input)]
    else []
  }

  // ----- Bits of numbers -----

  function BitAnd(a: nat, b: nat): nat {
    if a == 0 || b == 0 then 0 else 2 * BitAnd(a / 2, b / 2) + if a % 2 == 1 && b % 2 == 1 then 1 else 0
  }

  function BitOr(a: nat, b: nat): nat {
    if a == 0 then b else if b == 0 then a
    else 2 * BitOr(a / 2, b / 2) + if a % 2 == 1 || b % 2 == 1 then 1 else 0
  }

  lemma BitByBit(a: nat, b: nat)
    ensures BitAnd(a, b) == 2 * BitAnd(a / 2, b / 2) + if a % 2 == 1 && b % 2 == 1 then 1 else 0
    ensures BitOr(a, b) == 2 * BitOr(a / 2, b / 2) + if a % 2 == 1 || b % 2 == 1 then 1 else 0
  {
    assert a == 0 ==> BitOr(a / 2, b / 2) == b / 2;
    assert b == 0 ==> BitOr(a / 2, b / 2) == a / 2;
  }

  function TwoTo(m: nat): (r: nat)
    ensures r > 0
  {
    if m == 0 then 1 else 2 * TwoTo(m - 1)
  }

  /** The value of the `m` lowest bits. */
  function Low(x: nat, m: nat): nat {
    if m == 0 then 0 else 2 * Low(x / 2, m - 1) + x % 2
  }

  function High(x: nat, m: nat): nat {
    if m == 0 then x else High(x / 2, m - 1)
  }

  lemma Doubled(x: nat, y: nat)
    ensures (2 * x) * y == 2 * (x * y)
  {
  }

  lemma {:induction false} LowRest(x: nat, m: nat)
    ensures Low(x, m) < TwoTo(m) && x == TwoTo(m) * High(x, m) + Low(x, m)
  {
    if m > 0 {
      LowRest(x / 2, m - 1);
      Doubled(TwoTo(m - 1), High(x / 2, m - 1));
    }
  }

  lemma LastBit(x: nat)
    ensures BitAnd(BitOr(x, 2), 2) == 2
  {
    BitByBit(x, 2);
    BitByBit(BitOr(x, 2), 2);
    BitByBit(x / 2, 1);
    BitByBit(BitOr(x / 2, 1), 1);
    assert BitAnd(BitOr(x / 2, 1) / 2, 0) == 0;
  }

  lemma OneMoreBit(x: nat, half: nat, low: nat)
    requires half > 0 && BitAnd(BitOr(x / 2, 2 * half), 3 * half - 1) == 2 * half + low
    ensures BitAnd(BitOr(x, 4 * half), 6 * half - 1) == 4 * half + 2 * low + x % 2
  {
    hide *;
    assert 4 * half / 2 == 2 * half && 4 * half % 2 == 0;
    assert (6 * half - 1) / 2 == 3 * half - 1 && (6 * half - 1) % 2 == 1;
    BitByBit(x, 4 * half);
    BitByBit(BitOr(x, 4 * half), 6 * half - 1);
  }

  /** The mask with the bit above `m` low bits unset, and the next one set, keeps the mark and those bits. */
  lemma {:induction false} MarkAndMask(x: nat, m: nat)
    ensures BitAnd(BitOr(x, 2 * TwoTo(m)), 3 * TwoTo(m) - 1) == 2 * TwoTo(m) + Low(x, m)
  {
    if m == 0 {
      LastBit(x);
    } else {
      hide BitAnd;
      hide BitOr;
      MarkAndMask(x / 2, m - 1);
      OneMoreBit(x, TwoTo(m - 1), Low(x / 2, m - 1));
    }
  }

  predicate LowBitsUnset(y: nat, m: nat) {
    m == 0 || (y % 2 == 0 && LowBitsUnset(y / 2, m - 1))
  }

  lemma {:induction false} OrDisjoint(x: nat, y: nat, m: nat)
    requires x < TwoTo(m) && LowBitsUnset(y, m)
    ensures BitOr(x, y) == x + y
  {
    if m > 0 {
      BitByBit(x, y);
      OrDisjoint(x / 2, y / 2, m - 1);
    }
  }

  const BYTE_MASK: nat := 0xBF
  const BYTE_MARK: nat := 0x80
  const FIRST_BYTE_MARK: seq<nat> := [0x00, 0x00, 0xC0, 0xE0, 0xF0, 0xF8, 0xFC]

  /** The masks of the encoder pick six low bits under a mark ... */
  lemma ContinuationIsMask(x: nat)
    ensures BitAnd(BitOr(x, BYTE_MARK), BYTE_MASK) == Continuation(x)
  {
    assert TwoTo(6) == 64;
    hide BitAnd;
    hide BitOr;
    hide Low;
    hide High;
    hide TwoTo;
    MarkAndMask(x, 6);
    LowRest(x, 6);
  }

  /** ... and a first byte whose mark lies above the remaining bits. */
  lemma FirstIsMask(x: nat, length: nat)
    requires 1 <= length <= 4 && x < [0x80, 0x20, 0x10, 0x08][length - 1]
    ensures BitOr(x, FIRST_BYTE_MARK[length]) == First(FIRST_BYTE_MARK[length], x)
  {
    match length
    case 1 =>
    case 2 => OrDisjoint(x, 0xC0, 5);
    case 3 => OrDisjoint(x, 0xE0, 4);
    case 4 => OrDisjoint(x, 0xF0, 3);
  }

  /** Fills the output from its last byte to its first, six bits a time. */
  method ConvertUTF32ToUTF8(value: nat) returns (output: seq<int>)
    ensures output == Encode(value)
  {
    var length;
    if value < 0x80 {
      length := 1;
    } else if value < 0x800 {
      length := 2;
    } else if value < 0x10000 {
      length := 3;
    } else if value < 0x200000 {
      length := 4;
    } else {
      return [];
    }
    output := [];
    var input := value;
    if length >= 4 {
      ContinuationIsMask(input);
      output := [BitAnd(BitOr(input, BYTE_MARK), BYTE_MASK)] + output;
      input := input / 64;
    }
    if length >= 3 {
      ContinuationIsMask(input);
      output := [BitAnd(BitOr(input, BYTE_MARK), BYTE_MASK)] + output;
      input := input / 64;
    }
    if length >= 2 {
      ContinuationIsMask(input);
      output := [BitAnd(BitOr(input, BYTE_MARK), BYTE_MASK)] + output;
      input := input / 64;
    }
    FirstIsMask(input, length);
    output := [BitOr(input, FIRST_BYTE_MARK[length])] + output;
  }

  predicate IsTail(b: int) { 0x80 <= b <= 0xBF }

  /** UTF8-octets as in the grammar of RFC 3629, section 4. */
  predicate WellFormed(s: seq<int>) {
    || (|s| == 1 && 0 <= s[0] <= 0x7F)
    || (|s| == 2 && 0xC2 <= s[0] <= 0xDF && IsTail(s[1]))
    || (|s| == 3 && s[0] == 0xE0 && 0xA0 <= s[1] <= 0xBF && IsTail(s[2]))
    || (|s| == 3 && (0xE1 <= s[0] <= 0xEC || 0xEE <= s[0] <= 0xEF) && IsTail(s[1]) && IsTail(s[2]))
    || (|s| == 3 && s[0] == 0xED && 0x80 <= s[1] <= 0x9F && IsTail(s[2]))
    || (|s| == 4 && s[0] == 0xF0 && 0x90 <= s[1] <= 0xBF && IsTail(s[2]) && IsTail(s[3]))
    || (|s| == 4 && 0xF1 <= s[0] <= 0xF3 && IsTail(s[1]) && IsTail(s[2]) && IsTail(s[3]))
    || (|s| == 4 && s[0] == 0xF4 && 0x80 <= s[1] <= 0x8F && IsTail(s[2]) && IsTail(s[3]))
  }

  /** Decoding as described in RFC 3629, section 3: the free bits of the octets, in order. */
  function CodePoint(s: seq<int>): int
    requires 1 <= |s| <= 4
  {
    match |s|
    case 1 => s[0]
    case 2 => (s[0] - 0xC0) * 64 + (s[1] - 0x80)
    case 3 => ((s[0] - 0xE0) * 64 + (s[1] - 0x80)) * 64 + (s[2] - 0x80)
    case _ => (((s[0] - 0xF0) * 64 + (s[1] - 0x80)) * 64 + (s[2] - 0x80)) * 64 + (s[3] - 0x80)
  }

  predicate Scalar(x: int) { 0 <= x < 0xD800 || 0xE000 <= x <= 0x10FFFF }

  /** Nothing is lost below 0x200000, so no two of those values share an encoding. */
  lemma Invertible(x: nat)
    requires x < 0x200000
    ensures CodePoint(Encode(x)) == x
  {
    SixBits(x);
    SixBits(x / 64);
    SixBits(x / 64 / 64);
  }

  lemma SixBits(x: nat)
    ensures x == x / 64 * 64 + x % 64 && 0 <= x % 64 < 64
  {
  }

  /** The encoder yields well-formed UTF-8 on exactly the scalar values, ... */
  lemma WellFormedIffScalar(x: nat)
    ensures WellFormed(Encode(x)) <==> Scalar(x)
  {
    SixBits(x);
    SixBits(x / 64);
    SixBits(x / 64 / 64);
  }

  /** ... and every well-formed sequence is the encoding of the scalar value it denotes. In particular
      the encoder always picks the shortest form. */
  lemma EveryWellFormed(s: seq<int>)
    requires WellFormed(s)
    ensures Scalar(CodePoint(s)) && Encode(CodePoint(s)) == s
  {
    match |s|
    case 1 =>
    case 2 => LowBits(s[0] - 0xC0, s[1] - 0x80);
    case 3 =>
      var high := (s[0] - 0xE0) * 64 + (s[1] - 0x80);
      LowBits(s[0] - 0xE0, s[1] - 0x80);
      LowBits(high, s[2] - 0x80);
    case 4 => FourBytes(s);
  }

  lemma FourBytes(s: seq<int>)
    requires |s| == 4 && WellFormed(s)
    ensures Scalar(CodePoint(s)) && Encode(CodePoint(s)) == s
  {
    var high := (s[0] - 0xF0) * 64 + (s[1] - 0x80);
    var higher := high * 64 + (s[2] - 0x80);
    LowBits(s[0] - 0xF0, s[1] - 0x80);
    LowBits(high, s[2] - 0x80);
    LowBits(higher, s[3] - 0x80);
  }

  lemma LowBits(high: nat, low: nat)
    requires low < 64
    ensures (high * 64 + low) / 64 == high && (high * 64 + low) % 64 == low
  {
  }
}
