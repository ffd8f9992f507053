/** Character data: escaped when printed, unescaped in place when a value is first read.
    A `char` below 256 stands for a byte; a C string ends at its first NUL. */
module XmlText {
  import Utf8

  const NUL := '\0'
  const CR := '\r'
  const LF := '\n'
  const BOM: string := [0xEF as char, 0xBB as char, 0xBF as char]

  /** What a pointer into a NUL-terminated buffer reads. */
  function Peek(s: string, i: nat): char {
    if i < |s| then s[i] else NUL
  }

  predicate StartsAt(s: string, p: nat, pattern: string) {
    p + |pattern| <= |s| && s[p..p + |pattern|] == pattern
  }

  lemma StartsAtBoth(s: string, p: nat, a: string, b: string)
    ensures StartsAt(s, p, a + b) <==> StartsAt(s, p, a) && StartsAt(s, p + |a|, b)
  {
    if StartsAt(s, p, a + b) {
      assert s[p..p + |a|] == s[p..p + |a + b|][..|a|];
      assert s[p + |a|..p + |a| + |b|] == s[p..p + |a + b|][|a|..];
    }
    if StartsAt(s, p, a) && StartsAt(s, p + |a|, b) {
      assert s[p..p + |a + b|] == s[p..p + |a|] + s[p + |a|..p + |a| + |b|];
    }
  }

  lemma StartsAtChars(s: string, p: nat, pattern: string)
    requires StartsAt(s, p, pattern)
    ensures forall k :: p <= k < p + |pattern| ==> s[k] == pattern[k - p]
  {
    forall k | p <= k < p + |pattern| ensures s[k] == pattern[k - p] {
      assert s[p..p + |pattern|][k - p] == s[k];
    }
  }

  lemma StartsAtSlice(s: string, p: nat, pattern: string)
    requires StartsAt(s, p, pattern)
    ensures p + |pattern| <= |s| && s[p..p + |pattern|] == pattern
  {
  }

  /** The string a caller sees: everything before the first NUL. */
  function CString(s: string): (r: string)
    ensures NUL !in r && |r| <= |s| && r == s[..|r|] && (|r| < |s| ==> s[|r|] == NUL)
    ensures NUL !in s ==> r == s
  {
    if s == "" || s[0] == NUL then "" else [s[0]] + CString(s[1..])
  }

  // ----- Entities -----

  datatype Entity = Entity(pattern: string, value: char)

  const ENTITIES: seq<Entity> := [
    Entity("quot", '"'), Entity("amp", '&'), Entity("apos", '\''), Entity("lt", '<'), Entity("gt", '>')]

  predicate EntityAt(s: string, p: nat, i: nat)
    requires i < |ENTITIES|
  {
    StartsAt(s, p + 1, ENTITIES[i].pattern) && Peek(s, p + |ENTITIES[i].pattern| + 1) == ';'
  }

  /** The first table entry, from `i` on, that the reference at `p` names; the table's size if none does. */
  function FindEntity(s: string, p: nat, i: nat): (r: nat)
    requires i <= |ENTITIES|
    ensures i <= r <= |ENTITIES|
    ensures r < |ENTITIES| ==> EntityAt(s, p, r)
    ensures forall j :: i <= j < r ==> !EntityAt(s, p, j)
    decreases |ENTITIES| - i
  {
    if i == |ENTITIES| || EntityAt(s, p, i) then i else FindEntity(s, p, i + 1)
  }

  predicate Flagged(c: char, restricted: bool) {
    c == '&' || c == '<' || c == '>' || (!restricted && (c == '"' || c == '\''))
  }

  function EscapeChar(c: char, restricted: bool): string {
    if !Flagged(c, restricted) then [c]
    else if c == '"' then "&quot;"
    else if c == '&' then "&amp;"
    else if c == '\'' then "&apos;"
    else if c == '<' then "&lt;"
    else "&gt;"
  }

  /** What the printer writes for a value: text is escaped with the restricted set, attributes with all five. */
  function Escape(s: string, restricted: bool): string {
    if s == "" then "" else EscapeChar(s[0], restricted) + Escape(s[1..], restricted)
  }

  /** Five bytes are escaped in attributes, three in text, and nothing else is. */
  lemma EscapedByName(restricted: bool)
    ensures Escape("&", restricted) == "&amp;" && Escape("<", restricted) == "&lt;" && Escape(">", restricted) == "&gt;"
    ensures Escape("\"", restricted) == (if restricted then "\"" else "&quot;")
    ensures Escape("'", restricted) == (if restricted then "'" else "&apos;")
    ensures forall c: char :: c != '&' && c != '<' && c != '>' && c != '"' && c != '\'' ==> Escape([c], restricted) == [c]
  {
    forall c: char ensures Escape([c], restricted) == EscapeChar(c, restricted) {
      assert [c][1..] == [];
    }
  }

  // ----- Character references -----

  const TWO_TO_THE_32 := 0x1_0000_0000

  /** Index of the first `c` from `p` on, or -1. */
  function IndexOf(s: string, c: char, p: nat): (r: int)
    ensures r == -1 || (p <= r < |s| && s[r] == c)
    ensures forall j :: p <= j < (if r == -1 then |s| else r) ==> s[j] != c
    decreases |s| - p
  {
    if p >= |s| then -1 else if s[p] == c then p else IndexOf(s, c, p + 1)
  }

  function DigitValue(c: char, base: nat): int {
    if '0' <= c <= '9' then c as int - '0' as int
    else if base == 16 && 'a' <= c <= 'f' then c as int - 'a' as int + 10
    else if base == 16 && 'A' <= c <= 'F' then c as int - 'A' as int + 10
    else -1
  }

  /** The sum of the digits that end at `q`, read backwards down to `stop`, in the machine's 32-bit
      multiplier arithmetic; -1 if something else is in between. */
  function DigitsBack(s: string, low: nat, q: int, stop: char, base: nat, mult: nat): (r: int)
    requires low <= q + 1 <= |s|
    ensures r >= -1
    decreases q + 1 - low
  {
    if q < low || s[q] == stop then 0
    else
      var digit := DigitValue(s[q], base);
      if digit < 0 then -1
      else
        var more := DigitsBack(s, low, q - 1, stop, base, mult * base % TWO_TO_THE_32);
        if more < 0 then -1 else mult * digit % TWO_TO_THE_32 + more
  }

  datatype CharRef = NoRef | CharRef(next: nat, bytes: string)

  function Chars(bytes: seq<int>): (r: string)
    requires forall i :: 0 <= i < |bytes| ==> 0 <= bytes[i] < 256
    ensures |r| == |bytes|
  {
    seq(|bytes|, i requires 0 <= i < |bytes| => bytes[i] as char)
  }

  /** The reference that starts with the ampersand at `p`. */
  function GetCharacterRef(s: string, p: nat): (r: CharRef)
    requires p < |s|
    ensures r.CharRef? ==> p < r.next <= |s| && |r.bytes| <= r.next - p
  {
    if Peek(s, p + 1) != '#' || Peek(s, p + 2) == NUL then CharRef(p + 1, "")
    else if Peek(s, p + 2) == 'x' then
      var semicolon := if Peek(s, p + 3) == NUL then -1 else IndexOf(s, ';', p + 3);
      if semicolon == -1 then NoRef
      else
        var ucs := DigitsBack(s, p + 3, semicolon - 1, 'x', 16, 1);
        if ucs < 0 then NoRef else CharRef(semicolon + 1, Chars(Utf8.Encode(ucs)))
    else
      var semicolon := IndexOf(s, ';', p + 2);
      if semicolon == -1 then NoRef
      else
        var ucs := DigitsBack(s, p + 2, semicolon - 1, '#', 10, 1);
        if ucs < 0 then NoRef else CharRef(semicolon + 1, Chars(Utf8.Encode(ucs)))
  }

  // ----- Unescaping -----

  /** Names are taken as they are; comments, CDATA and the like get their line ends normalised; text and
      attribute values also have their references replaced. */
  datatype Mode = AsIs | Newlines | NewlinesAndEntities

  datatype Piece = Piece(next: nat, bytes: string)

  /** One turn of the unescaping loop, with the read position at `p` and the write position at `q`: where it
      reads next, and what it writes. A reference that is not in the table moves the write position
      without writing: the byte that already stands there stays. */
  function NextPiece(raw: string, mode: Mode, p: nat, q: nat): (r: Piece)
    requires q <= p < |raw|
    ensures p < r.next <= |raw| && q + |r.bytes| <= r.next
  {
    if mode != AsIs && raw[p] == CR then Piece(if Peek(raw, p + 1) == LF then p + 2 else p + 1, [LF])
    else if mode != AsIs && raw[p] == LF then Piece(if Peek(raw, p + 1) == CR then p + 2 else p + 1, [LF])
    else if mode.NewlinesAndEntities? && raw[p] == '&' then
      if Peek(raw, p + 1) == '#' then
        match GetCharacterRef(raw, p)
        case NoRef => Piece(p + 1, [raw[p]])
        case CharRef(next, bytes) => Piece(next, bytes)
      else
        var i := FindEntity(raw, p, 0);
        if i < |ENTITIES| then Piece(p + |ENTITIES[i].pattern| + 2, [ENTITIES[i].value])
        else Piece(p + 1, [raw[q]])
    else Piece(p + 1, [raw[p]])
  }

  /** What has been written in the end, if `out` was written when the read position was at `p`. */
  function DecodeFrom(raw: string, mode: Mode, p: nat, out: string): (r: string)
    requires |out| <= p <= |raw|
    ensures |r| <= |raw|
    decreases |raw| - p
  {
    if p == |raw| then out
    else
      var piece := NextPiece(raw, mode, p, |out|);
      DecodeFrom(raw, mode, piece.next, out + piece.bytes)
  }

  /** The value of the bytes between a string's start and end. */
  function Decode(raw: string, mode: Mode): string {
    CString(DecodeFrom(raw, mode, 0, ""))
  }

  predicate Plain(s: string) {
    NUL !in s && CR !in s
  }

  /** The first two letters tell the table entries apart. */
  lemma NotEntity(s: string, p: nat, j: nat)
    requires j < |ENTITIES| && p + 2 < |s|
    requires s[p + 1] != ENTITIES[j].pattern[0] || s[p + 2] != ENTITIES[j].pattern[1]
    ensures !EntityAt(s, p, j)
  {
    if StartsAt(s, p + 1, ENTITIES[j].pattern) {
      StartsAtChars(s, p + 1, ENTITIES[j].pattern);
    }
  }

  lemma PatternFound(s: string, p: nat, i: nat)
    requires i < |ENTITIES| && StartsAt(s, p, "&" + ENTITIES[i].pattern + ";")
    ensures FindEntity(s, p, 0) == i && Peek(s, p + 1) != '#'
  {
    var pattern := ENTITIES[i].pattern;
    StartsAtBoth(s, p, "&" + pattern, ";");
    StartsAtBoth(s, p, "&", pattern);
    StartsAtChars(s, p, "&" + pattern + ";");
    assert EntityAt(s, p, i);
    forall j | 0 <= j < i ensures !EntityAt(s, p, j) {
      NotEntity(s, p, j);
    }
  }

  /** The escape of a flagged byte is read as one reference to its table entry. */
  lemma EscapedPiece(raw: string, p: nat, c: char, restricted: bool, q: nat)
    requires Flagged(c, restricted) && q <= p && StartsAt(raw, p, EscapeChar(c, restricted))
    ensures p < |raw| && NextPiece(raw, NewlinesAndEntities, p, q) == Piece(p + |EscapeChar(c, restricted)|, [c])
  {
    hide FindEntity;
    hide StartsAt;
    var i := if c == '"' then 0 else if c == '&' then 1 else if c == '\'' then 2 else if c == '<' then 3 else 4;
    assert EscapeChar(c, restricted) == "&" + ENTITIES[i].pattern + ";" && ENTITIES[i].value == c;
    StartsAtSlice(raw, p, EscapeChar(c, restricted));
    StartsAtChars(raw, p, EscapeChar(c, restricted));
    PatternFound(raw, p, i);
  }

  /** One escaped byte is decoded by itself, whatever stands before and after. */
  lemma PieceEscaped(raw: string, p: nat, c: char, restricted: bool, q: nat)
    requires q <= p && StartsAt(raw, p, EscapeChar(c, restricted)) && Plain(raw)
    ensures p < |raw| && NextPiece(raw, NewlinesAndEntities, p, q) == Piece(p + |EscapeChar(c, restricted)|, [c])
  {
    if Flagged(c, restricted) {
      EscapedPiece(raw, p, c, restricted, q);
    } else {
      assert raw[p..p + 1] == [c];
      assert raw[p] == c && c in raw;
      if c == LF && p + 1 < |raw| {
        assert raw[p + 1] in raw;
      }
    }
  }

  lemma {:induction false} DecodeEscapeFrom(raw: string, p: nat, s: string, restricted: bool, out: string)
    requires Plain(raw) && |out| <= p <= |raw| && raw[p..] == Escape(s, restricted)
    ensures DecodeFrom(raw, NewlinesAndEntities, p, out) == out + s
    decreases |s|
  {
    hide NextPiece;
    hide EscapeChar;
    if s == "" {
    } else {
      var first, rest := EscapeChar(s[0], restricted), Escape(s[1..], restricted);
      assert raw[p..] == first + rest;
      assert raw[p..p + |first|] == first;
      PieceEscaped(raw, p, s[0], restricted, |out|);
      assert raw[p + |first|..] == rest;
      DecodeEscapeFrom(raw, p + |first|, s[1..], restricted, out + [s[0]]);
      assert out + [s[0]] + s[1..] == out + s;
    }
  }

  /** Escaping leaves nothing in the output that would end the value early. */
  lemma {:induction false} EscapePlain(s: string, restricted: bool)
    requires Plain(s)
    ensures Plain(Escape(s, restricted)) && '<' !in Escape(s, restricted)
    ensures !restricted ==> '"' !in Escape(s, restricted)
    ensures |Escape(s, restricted)| >= |s|
  {
    if s != "" {
      EscapePlain(s[1..], restricted);
    }
  }

  /** Unescape undoes escape. */
  lemma DecodeEscape(s: string, restricted: bool)
    requires Plain(s)
    ensures Decode(Escape(s, restricted), NewlinesAndEntities) == s
  {
    hide DecodeFrom;
    EscapePlain(s, restricted);
    DecodeEscapeFrom(Escape(s, restricted), 0, s, restricted, "");
  }

  /** Line-end normalisation alone changes nothing that has no carriage return. */
  lemma {:induction false} DecodePlainFrom(raw: string, mode: Mode, p: nat, out: string)
    requires !mode.NewlinesAndEntities? && Plain(raw) && |out| <= p <= |raw|
    ensures DecodeFrom(raw, mode, p, out) == out + raw[p..]
    decreases |raw| - p
  {
    if p == |raw| {
      assert out + raw[p..] == out;
    } else {
      assert raw[p] in raw && (p + 1 < |raw| ==> raw[p + 1] in raw);
      DecodePlainFrom(raw, mode, p + 1, out + [raw[p]]);
      assert out + [raw[p]] + raw[p + 1..] == out + raw[p..];
    }
  }

  lemma DecodePlain(raw: string, mode: Mode)
    requires !mode.NewlinesAndEntities? && Plain(raw)
    ensures Decode(raw, mode) == raw
  {
    DecodePlainFrom(raw, mode, 0, "");
    assert "" + raw[0..] == raw;
    hide DecodeFrom;
  }

  /** A reference that is not in the table is not always kept: behind a shorter replacement it turns into
      a byte of the text that was replaced. */
  lemma UnknownReferenceIsLost()
    ensures Decode("&lt;&x;", NewlinesAndEntities) == "<lx;"
  {
    var raw := "&lt;&x;";
    assert raw[0..4] == "&" + ENTITIES[3].pattern + ";";
    PatternFound(raw, 0, 3);
    assert NextPiece(raw, NewlinesAndEntities, 0, 0) == Piece(4, "<");
    assert NextPiece(raw, NewlinesAndEntities, 4, 1) == Piece(5, "l") by {
      forall j | 0 <= j < |ENTITIES| ensures !EntityAt(raw, 4, j) {
        NotEntity(raw, 4, j);
      }
    }
    hide EntityAt;
    hide FindEntity;
    assert DecodeFrom(raw, NewlinesAndEntities, 5, "<l") == "<lx;";
    hide NextPiece;
    assert DecodeFrom(raw, NewlinesAndEntities, 4, "<") == "<lx;" by {
      assert "<" + "l" == "<l";
    }
    assert DecodeFrom(raw, NewlinesAndEntities, 0, "") == "<lx;" by {
      assert "" + "<" == "<";
    }
    assert CString("<lx;") == "<lx;";
  }

  // ----- The value of a character reference -----

  function Positional(digits: string, base: nat): nat
    requires forall c :: c in digits ==> DigitValue(c, base) >= 0
  {
    if digits == "" then 0
    else Positional(digits[..|digits| - 1], base) * base + DigitValue(digits[|digits| - 1], base)
  }

  lemma ModTimes(m: nat, d: nat)
    ensures m % TWO_TO_THE_32 * d % TWO_TO_THE_32 == m * d % TWO_TO_THE_32
  {
    var w := TWO_TO_THE_32;
    var k := m / w;
    assert m * d == m % w * d + w * (k * d);
    AddMultiple(m % w * d, k * d);
  }

  lemma AddMultiple(x: nat, k: nat)
    ensures (x + TWO_TO_THE_32 * k) % TWO_TO_THE_32 == x % TWO_TO_THE_32
    decreases k
  {
    if k > 0 {
      AddMultiple(x, k - 1);
      assert x + TWO_TO_THE_32 * k == x + TWO_TO_THE_32 * (k - 1) + TWO_TO_THE_32;
    }
  }

  ghost predicate WrapsTo(x: int, y: int) {
    0 <= x <= y && exists k: nat :: y == x + TWO_TO_THE_32 * k
  }

  lemma WrapsToSum(x: int, y: int, x': int, y': int)
    requires WrapsTo(x, y) && WrapsTo(x', y')
    ensures WrapsTo(x + x', y + y')
  {
    var k: nat :| y == x + TWO_TO_THE_32 * k;
    var k': nat :| y' == x' + TWO_TO_THE_32 * k';
    assert y + y' == x + x' + TWO_TO_THE_32 * (k + k');
  }

  lemma WrapsToMod(y: nat)
    ensures WrapsTo(y % TWO_TO_THE_32, y)
  {
    assert y == y % TWO_TO_THE_32 + TWO_TO_THE_32 * (y / TWO_TO_THE_32);
  }

  lemma DigitsBackStep(s: string, low: nat, q: nat, stop: char, base: nat, mult: nat)
    requires low <= q < |s| && s[q] != stop && DigitValue(s[q], base) >= 0
    ensures var more := DigitsBack(s, low, q - 1, stop, base, mult * base % TWO_TO_THE_32);
            DigitsBack(s, low, q, stop, base, mult)
            == if more < 0 then -1 else mult * DigitValue(s[q], base) % TWO_TO_THE_32 + more
  {
  }

  lemma PositionalStep(s: string, low: nat, high: nat, base: nat, m: nat)
    requires low < high <= |s| && forall c :: c in s[low..high] ==> DigitValue(c, base) >= 0
    ensures forall c :: c in s[low..high - 1] ==> DigitValue(c, base) >= 0
    ensures DigitValue(s[high - 1], base) >= 0
    ensures m * Positional(s[low..high], base)
            == m * base * Positional(s[low..high - 1], base) + m * DigitValue(s[high - 1], base)
  {
    var digits, less := s[low..high], s[low..high - 1];
    assert digits[|digits| - 1] == s[high - 1] && s[high - 1] in digits && digits[..|digits| - 1] == less;
    assert forall c :: c in less ==> c in digits;
    assert Positional(digits, base) == Positional(less, base) * base + DigitValue(s[high - 1], base);
    Distribute(m, Positional(less, base), base, DigitValue(s[high - 1], base));
  }

  lemma Distribute(m: int, x: int, base: int, d: int)
    ensures m * (x * base + d) == m * base * x + m * d
  {
  }

  lemma {:induction false} DigitsWrap(s: string, low: nat, high: nat, stop: char, base: nat, m: nat)
    requires low <= high <= |s| && (stop == 'x' || stop == '#')
    requires forall c :: c in s[low..high] ==> DigitValue(c, base) >= 0
    ensures WrapsTo(DigitsBack(s, low, high - 1, stop, base, m % TWO_TO_THE_32), m * Positional(s[low..high], base))
    decreases high
  {
    hide Positional;
    hide DigitsBack;
    hide WrapsTo;
    if high > low {
      var digit := DigitValue(s[high - 1], base);
      PositionalStep(s, low, high, base, m);
      NotStop(s[high - 1], base);
      DigitsBackStep(s, low, high - 1, stop, base, m % TWO_TO_THE_32);
      ModTimes(m, base);
      ModTimes(m, digit);
      DigitsWrap(s, low, high - 1, stop, base, m * base);
      WrapsToMod(m * digit);
      var more := DigitsBack(s, low, high - 2, stop, base, m * base % TWO_TO_THE_32);
      WrapsToSum(m * digit % TWO_TO_THE_32, m * digit, more, m * base * Positional(s[low..high - 1], base));
      WrapsNonNegative(more, m * base * Positional(s[low..high - 1], base));
    } else {
      NoDigits(s, low, stop, base, m);
    }
  }

  lemma NotStop(c: char, base: nat)
    requires DigitValue(c, base) >= 0
    ensures c != 'x' && c != '#' && c != ';' && c != NUL
  {
  }

  lemma WrapsNonNegative(x: int, y: int)
    requires WrapsTo(x, y)
    ensures x >= 0
  {
  }

  lemma NoDigits(s: string, low: nat, stop: char, base: nat, m: nat)
    requires low <= |s|
    ensures s[low..low] == [] && WrapsTo(DigitsBack(s, low, low - 1, stop, base, m % TWO_TO_THE_32),
                                         m * Positional(s[low..low], base))
  {
    assert 0 == 0 + TWO_TO_THE_32 * 0;
  }

  lemma WrapsSmall(x: int, y: int)
    requires WrapsTo(x, y) && y < TWO_TO_THE_32
    ensures x == y
  {
  }

  lemma ReferenceScan(s: string, p: nat, head: string, digits: string, base: nat)
    requires digits != "" && forall c :: c in digits ==> DigitValue(c, base) >= 0
    requires StartsAt(s, p, head + digits + ";")
    ensures StartsAt(s, p, head)
    ensures var low := p + |head|; var high := low + |digits|;
            && high < |s| && s[low..high] == digits && IndexOf(s, ';', low) == high
            && s[low] != NUL && s[low] != 'x'
  {
    hide StartsAt;
    hide DigitValue;
    var low := p + |head|;
    StartsAtBoth(s, p, head + digits, ";");
    StartsAtBoth(s, p, head, digits);
    StartsAtSlice(s, low, digits);
    StartsAtChars(s, low, digits);
    StartsAtSlice(s, low + |digits|, ";");
    StartsAtChars(s, low + |digits|, ";");
    forall j | low <= j < low + |digits| ensures s[j] != ';' && s[j] != NUL && s[j] != 'x' {
      assert digits[j - low] in digits;
      NotStop(s[j], base);
    }
    assert s[low + |digits|] == ';';
    var semicolon := IndexOf(s, ';', low);
    assert semicolon == low + |digits|;
  }

  /** The digits of a reference, read backwards, give their positional value if that fits 32 bits. */
  lemma DigitsValue(s: string, low: nat, high: nat, stop: char, base: nat)
    requires low <= high <= |s| && (stop == 'x' || stop == '#')
    requires forall c :: c in s[low..high] ==> DigitValue(c, base) >= 0
    requires Positional(s[low..high], base) < TWO_TO_THE_32
    ensures DigitsBack(s, low, high - 1, stop, base, 1) == Positional(s[low..high], base)
  {
    DigitsWrap(s, low, high, stop, base, 1);
    WrapsSmall(DigitsBack(s, low, high - 1, stop, base, 1), 1 * Positional(s[low..high], base));
  }

  /** A well-formed decimal reference stands for its positional value ... */
  lemma DecimalReference(s: string, p: nat, digits: string)
    requires digits != "" && forall c :: c in digits ==> DigitValue(c, 10) >= 0
    requires StartsAt(s, p, "&#" + digits + ";") && Positional(digits, 10) < TWO_TO_THE_32
    ensures GetCharacterRef(s, p) == CharRef(p + |digits| + 3, Chars(Utf8.Encode(Positional(digits, 10))))
  {
    hide Utf8.Encode;
    hide IndexOf;
    hide Positional;
    hide DigitsBack;
    hide StartsAt;
    hide DigitValue;
    hide FindEntity;
    ReferenceScan(s, p, "&#", digits, 10);
    StartsAtChars(s, p, "&#");
    DigitsValue(s, p + 2, p + 2 + |digits|, '#', 10);
    assert s[p + 1] == '#';
  }

  /** ... and so does a hexadecimal one. */
  lemma HexReference(s: string, p: nat, digits: string)
    requires digits != "" && forall c :: c in digits ==> DigitValue(c, 16) >= 0
    requires StartsAt(s, p, "&#x" + digits + ";") && Positional(digits, 16) < TWO_TO_THE_32
    ensures GetCharacterRef(s, p) == CharRef(p + |digits| + 4, Chars(Utf8.Encode(Positional(digits, 16))))
  {
    hide Utf8.Encode;
    hide IndexOf;
    hide Positional;
    hide DigitsBack;
    hide StartsAt;
    hide DigitValue;
    hide FindEntity;
    hide WrapsTo;
    hide Chars;
    ReferenceScan(s, p, "&#x", digits, 16);
    StartsAtChars(s, p, "&#x");
    DigitsValue(s, p + 3, p + 3 + |digits|, 'x', 16);
    assert s[p + 1] == '#' && s[p + 2] == 'x';
  }
}
