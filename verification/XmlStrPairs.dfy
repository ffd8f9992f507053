/** Lazy strings: reading a value unescapes it in place, in a buffer that all values share. */
module XmlStrPairs {
  import opened XmlText
  import opened XmlParse
  import Utf8

  // ----- Reading one string in place -----

  /** A string's range after it has been read: its decoded bytes and a NUL, then what was there before. */
  function Rewritten(raw: string, mode: Mode): (r: string)
    ensures |r| == |raw|
  {
    var written := DecodeFrom(raw, mode, 0, "");
    if |written| < |raw| then written + [NUL] + raw[|written| + 1..] else written
  }

  /** The buffer after a string has been read; the byte at its end has become a NUL. */
  function Flushed(buffer: string, pair: StrPair): (r: string)
    requires pair.start <= pair.end < |buffer|
    ensures |r| == |buffer|
  {
    buffer[..pair.start] + Rewritten(buffer[pair.start..pair.end], pair.mode) + [NUL] + buffer[pair.end + 1..]
  }

  /** From `from` on the array still holds the raw string. */
  ghost predicate Holds(a: array<char>, raw: string, start: nat, from: nat)
    requires start <= from && start + |raw| < a.Length
    reads a
  {
    && (forall k :: from <= k < start + |raw| ==> a[k] == raw[k - start])
    && a[start + |raw|] == NUL
  }

  lemma Reads(a: array<char>, raw: string, start: nat, from: nat, k: nat)
    requires start <= from <= k <= start + |raw| < a.Length && Holds(a, raw, start, from)
    ensures a[k] == Peek(raw, k - start)
  {
  }

  method FindSemicolon(a: array<char>, ghost raw: string, start: nat, from: nat) returns (q: nat)
    requires start <= from <= start + |raw| < a.Length && NUL !in raw && Holds(a, raw, start, from)
    ensures from <= q <= start + |raw| && (a[q] == NUL <==> q == start + |raw|)
    ensures IndexOf(raw, ';', from - start) == if q == start + |raw| then -1 else q - start
  {
    q := from;
    while a[q] != ';' && a[q] != NUL
      invariant from <= q <= start + |raw|
      invariant IndexOf(raw, ';', from - start) == IndexOf(raw, ';', q - start)
      decreases a.Length - q
    {
      q := q + 1;
    }
    if q < start + |raw| {
      assert raw[q - start] in raw;
    }
  }

  /** Adds up the digits in front of `high`, backwards to the byte that ends them. */
  method SumDigits(a: array<char>, ghost raw: string, start: nat, low: nat, high: nat, stop: char, base: nat)
    returns (ucs: int)
    requires start < low <= high <= start + |raw| < a.Length && Holds(a, raw, start, low - 1) && a[low - 1] == stop
    ensures ucs == DigitsBack(raw, low - start, high - 1 - start, stop, base, 1)
  {
    ucs := 0;
    var q, mult := high - 1, 1;
    while a[q] != stop
      invariant low - 1 <= q < high && 0 <= mult && 0 <= ucs
      invariant var rest := DigitsBack(raw, low - start, q - start, stop, base, mult);
                DigitsBack(raw, low - start, high - 1 - start, stop, base, 1) == if rest < 0 then -1 else ucs + rest
      decreases q
    {
      var digit := DigitValue(a[q], base);
      if digit < 0 {
        return -1;
      }
      ucs := ucs + mult * digit % TWO_TO_THE_32;
      mult := mult * base % TWO_TO_THE_32;
      q := q - 1;
    }
  }

  method CharacterRefAt(a: array<char>, ghost raw: string, start: nat, p: nat) returns (r: CharRef)
    requires start <= p < start + |raw| < a.Length && NUL !in raw && Holds(a, raw, start, p)
    ensures r == match GetCharacterRef(raw, p - start)
                 case NoRef => NoRef
                 case CharRef(next, bytes) => CharRef(start + next, bytes)
  {
    hide IndexOf;
    hide DigitsBack;
    hide Holds;
    hide Utf8.Encode;
    Reads(a, raw, start, p, p + 1);
    if a[p + 1] != '#' {
      return CharRef(p + 1, "");
    }
    InRange(raw, p - start);
    Reads(a, raw, start, p, p + 2);
    if a[p + 2] == NUL {
      return CharRef(p + 1, "");
    }
    InRange(raw, p + 1 - start);
    var low, stop, base := p + 2, '#', 10;
    if a[p + 2] == 'x' {
      Reads(a, raw, start, p, p + 3);
      if a[p + 3] == NUL {
        return NoRef;
      }
      low, stop, base := p + 3, 'x', 16;
    }
    HoldsLater(a, raw, start, p, low - 1);
    HoldsLater(a, raw, start, p, low);
    var semicolon := FindSemicolon(a, raw, start, low);
    if a[semicolon] == NUL {
      return NoRef;
    }
    var ucs := SumDigits(a, raw, start, low, semicolon, stop, base);
    if ucs < 0 {
      return NoRef;
    }
    var bytes := Utf8.ConvertUTF32ToUTF8(ucs);
    r := CharRef(semicolon + 1, Chars(bytes));
  }

  lemma HoldsLater(a: array<char>, raw: string, start: nat, from: nat, later: nat)
    requires start <= from <= later <= start + |raw| < a.Length && Holds(a, raw, start, from)
    ensures Holds(a, raw, start, later)
  {
  }

  /** A byte other than NUL lies inside the string, and so the next position does not pass its end. */
  lemma InRange(raw: string, i: nat)
    requires Peek(raw, i + 1) != NUL
    ensures i + 2 <= |raw|
  {
  }

  /** Compares the reference at `p` with a table entry. */
  method MatchesAt(a: array<char>, ghost raw: string, start: nat, p: nat, i: nat) returns (found: bool)
    requires start <= p < start + |raw| < a.Length && NUL !in raw && Holds(a, raw, start, p) && i < |ENTITIES|
    ensures found <==> EntityAt(raw, p - start, i)
  {
    var pattern := ENTITIES[i].pattern;
    var k := 0;
    while k < |pattern| && a[p + 1 + k] == pattern[k]
      invariant k <= |pattern| && p + 1 + k <= start + |raw|
      invariant forall j :: p + 1 - start <= j < p + 1 - start + k ==> raw[j] == pattern[j - (p + 1 - start)]
    {
      Reads(a, raw, start, p, p + 1 + k);
      PatternByte(i, k);
      k := k + 1;
    }
    Reads(a, raw, start, p, p + 1 + k);
    if k < |pattern| {
      Mismatch(raw, p - start, i, k);
      return false;
    }
    found := a[p + 1 + k] == ';';
    assert raw[p + 1 - start..p + 1 - start + k] == pattern;
  }

  /** The table entry that the reference at `p` names, or the table's size. */
  method EntityIndexAt(a: array<char>, ghost raw: string, start: nat, p: nat) returns (i: nat)
    requires start <= p < start + |raw| < a.Length && NUL !in raw && Holds(a, raw, start, p)
    ensures i == FindEntity(raw, p - start, 0)
  {
    hide EntityAt;
    i := 0;
    while i < |ENTITIES|
      invariant i <= |ENTITIES| && FindEntity(raw, p - start, 0) == FindEntity(raw, p - start, i)
    {
      var found := MatchesAt(a, raw, start, p, i);
      if found {
        return;
      }
      i := i + 1;
    }
  }

  lemma PatternByte(i: nat, k: nat)
    requires i < |ENTITIES| && k < |ENTITIES[i].pattern|
    ensures ENTITIES[i].pattern[k] != NUL
  {
  }

  lemma Mismatch(raw: string, p: nat, i: nat, k: nat)
    requires i < |ENTITIES| && k < |ENTITIES[i].pattern| && Peek(raw, p + 1 + k) != ENTITIES[i].pattern[k]
    ensures !EntityAt(raw, p, i)
  {
    if StartsAt(raw, p + 1, ENTITIES[i].pattern) {
      StartsAtChars(raw, p + 1, ENTITIES[i].pattern);
    }
  }

  /** One turn of the loop, read from the buffer. */
  method PieceAt(a: array<char>, ghost raw: string, start: nat, mode: Mode, p: nat, q: nat) returns (next: nat, bytes: string)
    requires start <= q <= p < start + |raw| < a.Length && NUL !in raw && Holds(a, raw, start, q)
    ensures start < next && NextPiece(raw, mode, p - start, q - start) == Piece(next - start, bytes)
  {
    hide GetCharacterRef;
    hide FindEntity;
    Reads(a, raw, start, q, p);
    Reads(a, raw, start, q, p + 1);
    Reads(a, raw, start, q, q);
    if mode != AsIs && a[p] == CR {
      next, bytes := if a[p + 1] == LF then p + 2 else p + 1, [LF];
    } else if mode != AsIs && a[p] == LF {
      next, bytes := if a[p + 1] == CR then p + 2 else p + 1, [LF];
    } else if mode.NewlinesAndEntities? && a[p] == '&' {
      if a[p + 1] == '#' {
        var r := CharacterRefAt(a, raw, start, p);
        if r.NoRef? {
          next, bytes := p + 1, [a[p]];
        } else {
          next, bytes := r.next, r.bytes;
        }
      } else {
        var i := EntityIndexAt(a, raw, start, p);
        if i < |ENTITIES| {
          next, bytes := p + |ENTITIES[i].pattern| + 2, [ENTITIES[i].value];
        } else {
          // the write position moves over a byte that stays as it is
          next, bytes := p + 1, [a[q]];
        }
      }
    } else {
      next, bytes := p + 1, [a[p]];
    }
  }

  method WriteBytes(a: array<char>, q: nat, bytes: string)
    requires q + |bytes| <= a.Length
    modifies a
    ensures a[..] == old(a[..])[..q] + bytes + old(a[..])[q + |bytes|..]
  {
    var i := 0;
    while i < |bytes|
      invariant 0 <= i <= |bytes|
      invariant a[..] == old(a[..])[..q] + bytes[..i] + old(a[..])[q + i..]
    {
      a[q + i] := bytes[i];
      i := i + 1;
    }
  }

  /** The buffer with `out` written from the start on, over the original bytes. */
  function Overwritten(before: string, pair: StrPair, out: string): (r: string)
    requires pair.start <= pair.end < |before| && pair.start + |out| <= pair.end
    ensures |r| == |before|
  {
    before[..pair.start] + out + before[pair.start + |out|..pair.end] + [NUL] + before[pair.end + 1..]
  }

  lemma OverwrittenHolds(a: array<char>, before: string, pair: StrPair, out: string)
    requires pair.start <= pair.end < |before| == a.Length && pair.start + |out| <= pair.end
    requires a[..] == Overwritten(before, pair, out)
    ensures Holds(a, before[pair.start..pair.end], pair.start, pair.start + |out|)
  {
    var over := Overwritten(before, pair, out);
    assert forall k :: 0 <= k < |before| ==> a[k] == over[k];
  }

  lemma OverwrittenMore(before: string, pair: StrPair, out: string, bytes: string)
    requires pair.start <= pair.end < |before| && pair.start + |out| + |bytes| <= pair.end
    ensures var over := Overwritten(before, pair, out); var q := pair.start + |out|;
            over[..q] + bytes + over[q + |bytes|..] == Overwritten(before, pair, out + bytes)
  {
  }

  lemma OverwrittenLast(before: string, pair: StrPair, out: string)
    requires pair.start <= pair.end < |before| && pair.start + |out| <= pair.end
    requires out == DecodeFrom(before[pair.start..pair.end], pair.mode, 0, "")
    ensures Overwritten(before, pair, out)[pair.start + |out| := NUL] == Flushed(before, pair)
  {
    hide DecodeFrom;
    var raw := before[pair.start..pair.end];
    if |out| < |raw| {
      assert raw[|out| + 1..] == before[pair.start + |out| + 1..pair.end];
    }
  }

  /** Reads a string for the first time: terminates it, and unescapes it where it stands. The write position
      never passes the read position. */
  method GetStr(a: array<char>, pair: StrPair)
    requires pair.start <= pair.end < a.Length && NUL !in a[pair.start..pair.end]
    modifies a
    ensures a[..] == Flushed(old(a[..]), pair)
  {
    hide *;
    ghost var before := a[..];
    ghost var raw := before[pair.start..pair.end];
    NothingWritten(before, pair);
    a[pair.end] := NUL;
    if pair.mode == AsIs {
      NamesStay(before, pair);
    } else {
      Unescape(a, before, pair);
    }
  }

  method Unescape(a: array<char>, ghost before: string, pair: StrPair)
    requires pair.start <= pair.end < |before| == a.Length && a[..] == Overwritten(before, pair, "")
    requires NUL !in before[pair.start..pair.end]
    modifies a
    ensures a[..] == Flushed(before, pair)
  {
    hide *;
    ghost var raw := before[pair.start..pair.end];
    ghost var out := "";
    var p, q := pair.start, pair.start;
    while p < pair.end
      invariant pair.start <= q <= p <= pair.end && q == pair.start + |out|
      invariant a[..] == Overwritten(before, pair, out)
      invariant DecodeFrom(raw, pair.mode, p - pair.start, out) == DecodeFrom(raw, pair.mode, 0, "")
    {
      OverwrittenHolds(a, before, pair, out);
      var next, bytes := PieceAt(a, raw, pair.start, pair.mode, p, q);
      DecodeStep(raw, pair.mode, p - pair.start, out);
      OverwrittenMore(before, pair, out, bytes);
      WriteBytes(a, q, bytes);
      out := out + bytes;
      p, q := next, q + |bytes|;
    }
    DecodeDone(raw, pair.mode, out);
    OverwrittenLast(before, pair, out);
    a[q] := NUL;
  }

  lemma NothingWritten(before: string, pair: StrPair)
    requires pair.start <= pair.end < |before|
    ensures before[pair.end := NUL] == Overwritten(before, pair, "")
  {
  }

  lemma NamesStay(before: string, pair: StrPair)
    requires pair.start <= pair.end < |before| && pair.mode == AsIs
    ensures before[pair.end := NUL] == Flushed(before, pair)
  {
    AsIsStays(before[pair.start..pair.end], 0, "");
  }

  lemma {:induction false} AsIsStays(raw: string, p: nat, out: string)
    requires |out| <= p <= |raw|
    ensures DecodeFrom(raw, AsIs, p, out) == out + raw[p..]
    decreases |raw| - p
  {
    if p < |raw| {
      AsIsStays(raw, p + 1, out + [raw[p]]);
    }
  }

  lemma DecodeStep(raw: string, mode: Mode, p: nat, out: string)
    requires |out| <= p < |raw|
    ensures var piece := NextPiece(raw, mode, p, |out|);
            && p < piece.next <= |raw| && |out + piece.bytes| <= piece.next
            && DecodeFrom(raw, mode, p, out) == DecodeFrom(raw, mode, piece.next, out + piece.bytes)
  {
  }

  lemma DecodeDone(raw: string, mode: Mode, out: string)
    requires |out| <= |raw|
    ensures DecodeFrom(raw, mode, |raw|, out) == out
  {
  }

  /** The string that starts at a position of the buffer, as a caller reads it. */
  function StringAt(buffer: string, start: nat): string
    requires start <= |buffer|
  {
    CString(buffer[start..])
  }

  /** What is read is the decoded value ... */
  lemma ReadsValue(buffer: string, pair: StrPair)
    requires pair.start <= pair.end < |buffer|
    ensures StringAt(Flushed(buffer, pair), pair.start) == Decode(buffer[pair.start..pair.end], pair.mode)
  {
    hide DecodeFrom;
    var raw := buffer[pair.start..pair.end];
    var written := DecodeFrom(raw, pair.mode, 0, "");
    var after := Flushed(buffer, pair)[pair.start..];
    assert |written| < |raw| ==> after[|written|] == NUL;
    assert |written| == |raw| ==> after[|raw|] == NUL;
    assert after[..|written|] == written;
    CStringPrefix(after, |written|);
    CStringPrefix(written + [NUL], |written|);
    assert (written + [NUL])[..|written|] == written;
    CStringWhole(written);
  }

  /** A C string looks no further than the first NUL. */
  lemma {:induction false} CStringPrefix(s: string, n: nat)
    requires n < |s| && s[n] == NUL
    ensures CString(s) == CString(s[..n])
    decreases n
  {
    if n > 0 && s[0] != NUL {
      assert s[1..][..n - 1] == s[..n][1..];
      CStringPrefix(s[1..], n - 1);
    }
  }

  lemma {:induction false} CStringWhole(s: string)
    ensures CString(s + [NUL]) == CString(s)
  {
    CStringPrefix(s + [NUL], |s|);
    assert (s + [NUL])[..|s|] == s;
  }

  /** ... and nothing outside the closed range of the string changes. */
  lemma FlushedElsewhere(buffer: string, pair: StrPair, lo: nat, hi: nat)
    requires pair.start <= pair.end < |buffer| && lo <= hi <= |buffer| && (hi <= pair.start || pair.end < lo)
    ensures Flushed(buffer, pair)[lo..hi] == buffer[lo..hi]
  {
    hide Rewritten;
    var after := Flushed(buffer, pair);
    assert forall k :: 0 <= k < pair.start ==> after[k] == buffer[k];
    assert forall k :: pair.end < k < |buffer| ==> after[k] == buffer[k];
    assert forall k :: lo <= k < hi ==> after[k] == buffer[k];
  }

  // ----- Reading many strings, in any order -----

  predicate Apart(a: StrPair, b: StrPair) {
    a.end < b.start || b.end < a.start
  }

  predicate AllApart(pairs: seq<StrPair>) {
    forall i, j :: 0 <= i < j < |pairs| ==> Apart(pairs[i], pairs[j])
  }

  predicate AllInside(pairs: seq<StrPair>, size: nat) {
    forall i :: 0 <= i < |pairs| ==> pairs[i].start <= pairs[i].end < size
  }

  function ReadAll(buffer: string, order: seq<StrPair>): (r: string)
    requires AllInside(order, |buffer|)
    ensures |r| == |buffer|
  {
    if order == [] then buffer
    else Flushed(ReadAll(buffer, order[..|order| - 1]), order[|order| - 1])
  }

  /** Reads leave a range they do not touch as it was. */
  lemma {:induction false} ReadAllElsewhere(buffer: string, order: seq<StrPair>, lo: nat, hi: nat)
    requires AllInside(order, |buffer|) && lo <= hi <= |buffer|
    requires forall i :: 0 <= i < |order| ==> hi <= order[i].start || order[i].end < lo
    ensures ReadAll(buffer, order)[lo..hi] == buffer[lo..hi]
  {
    hide Flushed;
    if order != [] {
      var before, last := order[..|order| - 1], order[|order| - 1];
      ReadAllElsewhere(buffer, before, lo, hi);
      FlushedElsewhere(ReadAll(buffer, before), last, lo, hi);
    }
  }

  /** Whatever the order of the reads, every string that has been read has the value its bytes had at the
      start; so has a string that is read later. */
  lemma {:induction false} ReadInAnyOrder(buffer: string, order: seq<StrPair>, i: nat)
    requires AllInside(order, |buffer|) && AllApart(order) && i < |order|
    ensures StringAt(ReadAll(buffer, order), order[i].start)
            == Decode(buffer[order[i].start..order[i].end], order[i].mode)
    decreases |order|
  {
    hide Flushed;
    hide Decode;
    var before, last := order[..|order| - 1], order[|order| - 1];
    var pair, state := order[i], ReadAll(buffer, before);
    if i == |order| - 1 {
      ReadAllElsewhere(buffer, before, last.start, last.end);
      ReadsValue(state, last);
    } else {
      ReadInAnyOrder(buffer, before, i);
      assert Apart(pair, last);
      FlushedElsewhere(state, last, pair.start, pair.end + 1);
      TerminatedAt(buffer, before, i);
      SameString(state, Flushed(state, last), pair.start, pair.end);
    }
  }

  /** Once read, a string is terminated within its own range. */
  lemma {:induction false} TerminatedAt(buffer: string, order: seq<StrPair>, i: nat)
    requires AllInside(order, |buffer|) && AllApart(order) && i < |order|
    ensures ReadAll(buffer, order)[order[i].end] == NUL
    decreases |order|
  {
    hide Rewritten;
    var before, last := order[..|order| - 1], order[|order| - 1];
    if i < |order| - 1 {
      TerminatedAt(buffer, before, i);
      assert Apart(order[i], last);
      FlushedElsewhere(ReadAll(buffer, before), last, order[i].end, order[i].end + 1);
      assert ReadAll(buffer, order)[order[i].end..order[i].end + 1][0]
          == ReadAll(buffer, before)[order[i].end..order[i].end + 1][0];
    }
  }

  lemma SameString(a: string, b: string, start: nat, end: nat)
    requires start <= end < |a| == |b| && a[start..end + 1] == b[start..end + 1] && a[end] == NUL
    ensures StringAt(a, start) == StringAt(b, start)
  {
    var n := end - start;
    assert a[start..end + 1][n] == a[end] && b[start..end + 1][n] == b[end];
    CStringPrefix(a[start..], n);
    CStringPrefix(b[start..], n);
    assert a[start..][..n] == a[start..end + 1][..n];
    assert b[start..][..n] == b[start..end + 1][..n];
  }

  // ----- The strings of a parsed document -----

  /** All strings of a tree, in document order. */
  function AttributePairs(attributes: seq<RawAttribute>): seq<StrPair> {
    if attributes == [] then [] else [attributes[0].name, attributes[0].value] + AttributePairs(attributes[1..])
  }

  function Pairs(n: Node): seq<StrPair> {
    match n
    case Element(name, attributes, children) => [name] + AttributePairs(attributes) + ListPairs(children)
    case Text(value, _) => [value]
    case Comment(value) => [value]
    case Declaration(value) => [value]
    case Unknown(value) => [value]
  }

  function ListPairs(ns: seq<Node>): seq<StrPair> {
    if ns == [] then [] else Pairs(ns[0]) + ListPairs(ns[1..])
  }

  /** Ranges in order, without a byte in common even at their ends, from position `p` to position `next`. The
      byte at `next` is only in one of them if it is the `<` that ends a text; then no later range has it. */
  predicate Laid(s: string, p: nat, next: nat, pairs: seq<StrPair>) {
    && p <= next <= |s|
    && (forall i :: 0 <= i < |pairs| ==> p <= pairs[i].start <= pairs[i].end <= next)
    && (forall i :: 0 <= i < |pairs| ==> Peek(s, p) == '<' ==> p < pairs[i].start)
    && (forall i :: 0 <= i < |pairs| ==> pairs[i].end == next ==> Peek(s, next) == '<')
    && (forall i, j :: 0 <= i < j < |pairs| ==> pairs[i].end < pairs[j].start)
  }

  lemma LaidTogether(s: string, p: nat, q: nat, r: nat, a: seq<StrPair>, b: seq<StrPair>)
    requires Laid(s, p, q, a) && Laid(s, q, r, b)
    ensures Laid(s, p, r, a + b)
  {
    forall i, j | 0 <= i < j < |a + b| ensures (a + b)[i].end < (a + b)[j].start {
      if i < |a| <= j {
        assert a[i].end <= q <= b[j - |a|].start;
      }
    }
  }

  lemma OneAttributeLaid(s: string, p: nat, a: RawAttribute, next: nat)
    requires p < |s| && IsNameStartChar(s[p]) && ParseAttribute(s, p) == AttributeOk(a, next)
    ensures next <= |s| && Laid(s, p, next, [a.name, a.value])
  {
  }

  /** Fewer bytes to cover on the left. */
  lemma LaidFrom(s: string, p: nat, q: nat, next: nat, pairs: seq<StrPair>)
    requires p <= q && Laid(s, q, next, pairs) && (Peek(s, p) == '<' ==> p < q)
    ensures Laid(s, p, next, pairs)
  {
  }

  lemma {:induction false} AttributesLaid(s: string, p: nat, before: seq<RawAttribute>)
    requires p <= |s| && ParseAttributes(s, p, before).AttributesOk?
    ensures before <= ParseAttributes(s, p, before).attributes
    ensures var r := ParseAttributes(s, p, before); var pairs := AttributePairs(r.attributes[|before|..]);
            && p < r.next && Laid(s, p, r.next, pairs)
            && (!IsNameStartChar(Peek(s, p)) ==> forall i :: 0 <= i < |pairs| ==> p < pairs[i].start)
    decreases |s| - p
  {
    hide ParseAttribute;
    hide Laid;
    hide HasName;
    var r := ParseAttributes(s, p, before);
    var q := SkipWhiteSpace(s, p);
    if IsNameStartChar(s[q]) {
      var one := ParseAttribute(s, q);
      var a := one.attribute;
      OneAttributeLaid(s, q, a, one.next);
      LaidFrom(s, p, q, one.next, [a.name, a.value]);
      AttributesLaid(s, one.next, before + [a]);
      var more := r.attributes[|before| + 1..];
      assert r.attributes[|before + [a]|..] == more;
      LaidTogether(s, p, one.next, r.next, [a.name, a.value], AttributePairs(more));
      assert r.attributes[|before|] == a;
      assert r.attributes[|before|..] == [a] + more;
      LaidStarts(s, q, one.next, r.next, [a.name, a.value], AttributePairs(more));
    } else {
      assert r.attributes[|before|..] == [];
      LaidEmpty(s, p);
      LaidTo(s, p, p, r.next, []);
    }
  }

  lemma LaidStarts(s: string, p: nat, q: nat, r: nat, a: seq<StrPair>, b: seq<StrPair>)
    requires Laid(s, p, q, a) && Laid(s, q, r, b)
    ensures forall i :: 0 <= i < |a + b| ==> p <= (a + b)[i].start
  {
  }

  lemma TextLaid(s: string, p: nat)
    requires p < |s| && s[p] != '<' && ParseLeaf(s, p, TextKind).LeafOk?
    ensures var r := ParseLeaf(s, p, TextKind); Laid(s, p, r.next, Pairs(r.leaf))
  {
    var end := Find(s, p, "<");
    StartsAtChars(s, end, "<");
    assert s[end] == '<';
  }

  lemma DelimitedLaid(s: string, p: nat, kind: Kind)
    requires !kind.ElementKind? && !kind.TextKind? && p <= |s| && ParseLeaf(s, p, kind).LeafOk?
    ensures var r := ParseLeaf(s, p, kind); forall q :: 0 <= q < p ==> Laid(s, q, r.next, Pairs(r.leaf))
  {
    hide Find;
    var end := Find(s, p, Terminator(kind));
    StartsAtSlice(s, end, Terminator(kind));
  }

  lemma LeafLaid(s: string, p: nat, q: nat, kind: Kind)
    requires q == SkipWhiteSpace(s, p) && q < |s| && kind == Identify(s, q) && !kind.ElementKind?
    requires q + |Header(kind)| <= |s| && (kind.TextKind? ==> s[p] != '<')
    requires ParseLeaf(s, if kind.TextKind? then p else q + |Header(kind)|, kind).LeafOk?
    ensures var r := ParseLeaf(s, if kind.TextKind? then p else q + |Header(kind)|, kind);
            Laid(s, p, r.next, Pairs(r.leaf))
  {
    hide Laid;
    hide ParseLeaf;
    hide Identify;
    if kind.TextKind? {
      TextLaid(s, p);
    } else {
      DelimitedLaid(s, q + |Header(kind)|, kind);
    }
  }

  lemma {:induction false} NodeLaid(s: string, p: nat, depth: nat, isDocument: bool, before: seq<Node>)
    requires p <= |s| && NextNode(s, p, depth, isDocument, before).Go?
    ensures var r := NextNode(s, p, depth, isDocument, before); Laid(s, p, r.next, Pairs(r.node))
    decreases |s| - p, 1
  {
    hide ParseLeaf;
    hide ParseElement;
    hide Identify;
    hide Laid;
    var q := SkipWhiteSpace(s, p);
    var kind := Identify(s, q);
    LeafStart(s, p, q);
    if kind.ElementKind? {
      ElementLaid(s, q + 1, depth);
      var r := NextNode(s, p, depth, isDocument, before);
      LaidFrom(s, p, q + 1, r.next, Pairs(r.node));
    } else {
      LeafLaid(s, p, q, kind);
    }
  }

  lemma {:induction false} ListLaid(s: string, p: nat, depth: nat, isDocument: bool, before: seq<Node>) returns (end: nat)
    requires p <= |s| && !ParseNodes(s, p, depth, isDocument, before).end.Error?
    ensures var r := ParseNodes(s, p, depth, isDocument, before);
            && before <= r.nodes && (r.end.AtEndTag? ==> end < r.end.next)
            && Laid(s, p, end, ListPairs(r.nodes[|before|..]))
    decreases |s| - p, 2
  {
    hide NextNode;
    hide Laid;
    hide Pairs;
    var r := ParseNodes(s, p, depth, isDocument, before);
    var step := NextNode(s, p, depth, isDocument, before);
    if step.Go? {
      NodeLaid(s, p, depth, isDocument, before);
      end := ListLaid(s, step.next, depth, isDocument, before + [step.node]);
      var more := r.nodes[|before| + 1..];
      assert r.nodes[|before + [step.node]|..] == more;
      LaidTogether(s, p, step.next, end, Pairs(step.node), ListPairs(more));
      assert r.nodes[|before|] == step.node;
      assert r.nodes[|before|..] == [step.node] + more;
    } else {
      end := p;
      assert r.nodes[|before|..] == [];
      LaidEmpty(s, p);
    }
  }

  lemma LaidEmpty(s: string, p: nat)
    requires p <= |s|
    ensures Laid(s, p, p, [])
  {
  }

  lemma {:induction false} ElementLaid(s: string, p: nat, depth: nat)
    requires p <= |s| && ParseElement(s, p, depth).ElementOk?
    ensures var r := ParseElement(s, p, depth);
            Laid(s, p, r.next, [r.name] + AttributePairs(r.attributes) + ListPairs(r.children))
    decreases |s| - p, 0
  {
    hide ParseAttributes;
    hide ParseNodes;
    hide Laid;
    var r := ParseElement(s, p, depth);
    var nameEnd := r.name.end;
    var tag := ParseAttributes(s, nameEnd, []);
    AttributesLaid(s, nameEnd, []);
    assert r.attributes[0..] == r.attributes;
    TagLaid(s, p, r.name, tag.next, AttributePairs(r.attributes));
    if r.endTag.Tag? {
      var list := ParseNodes(s, tag.next, depth + 1, false, []);
      var end := ListLaid(s, tag.next, depth + 1, false, []);
      assert list.nodes[0..] == list.nodes;
      LaidTogether(s, p, tag.next, end, [r.name] + AttributePairs(r.attributes), ListPairs(list.nodes));
      LaidTo(s, p, end, r.next, [r.name] + AttributePairs(r.attributes) + ListPairs(list.nodes));
    } else {
      assert [r.name] + AttributePairs(r.attributes) + ListPairs([]) == [r.name] + AttributePairs(r.attributes);
    }
  }

  lemma TagLaid(s: string, p: nat, name: StrPair, next: nat, pairs: seq<StrPair>)
    requires p <= name.start < name.end < next <= |s| && (Peek(s, p) == '<' ==> p < name.start)
    requires Laid(s, name.end, next, pairs)
    requires forall i :: 0 <= i < |pairs| ==> name.end < pairs[i].start
    ensures Laid(s, p, next, [name] + pairs)
  {
  }

  lemma LaidTo(s: string, p: nat, end: nat, next: nat, pairs: seq<StrPair>)
    requires Laid(s, p, end, pairs) && end < next <= |s|
    ensures Laid(s, p, next, pairs)
  {
  }

  // ----- The document -----

  /** No two strings of a parsed document share a byte, the terminating ones included. */
  lemma DocumentLaid(text: string)
    requires ParseDocument(text).Parsed?
    ensures var pairs := ListPairs(ParseDocument(text).nodes);
            AllApart(pairs) && AllInside(pairs, |CString(text)| + 1)
  {
    hide ParseNodes;
    hide ListPairs;
    var s := CString(text);
    var p := SkipWhiteSpace(s, 0);
    var start := if StartsAt(s, p, BOM) then p + 3 else p;
    var end := ListLaid(s, start, 1, true, []);
    var nodes := ParseNodes(s, start, 1, true, []).nodes;
    assert nodes[0..] == nodes;
  }

  /** The strings picked out by a list of indices. */
  function Picked(pairs: seq<StrPair>, picks: seq<nat>): (r: seq<StrPair>)
    requires forall i :: 0 <= i < |picks| ==> picks[i] < |pairs|
    ensures |r| == |picks| && forall i :: 0 <= i < |picks| ==> r[i] == pairs[picks[i]]
  {
    seq(|picks|, i requires 0 <= i < |picks| => pairs[picks[i]])
  }

  /** Any strings of a parsed document, read in any order from the one buffer they share, give the values
      their bytes had when parsing ended. */
  lemma LazyReads(text: string, picks: seq<nat>, i: nat)
    requires ParseDocument(text).Parsed? && i < |picks|
    requires forall k :: 0 <= k < |picks| ==> picks[k] < |ListPairs(ParseDocument(text).nodes)|
    requires forall k, l :: 0 <= k < l < |picks| ==> picks[k] != picks[l]
    ensures var s := CString(text);
            var order := Picked(ListPairs(ParseDocument(text).nodes), picks);
            && AllInside(order, |s| + 1)
            && StringAt(ReadAll(s + [NUL], order), order[i].start) == Decode(Slice(s, order[i]), order[i].mode)
  {
    hide ParseDocument;
    hide ListPairs;
    hide ReadAll;
    hide Decode;
    var s := CString(text);
    var pairs := ListPairs(ParseDocument(text).nodes);
    var order := Picked(pairs, picks);
    DocumentLaid(text);
    forall k, l | 0 <= k < l < |order| ensures Apart(order[k], order[l]) {
      assert picks[k] < picks[l] || picks[l] < picks[k];
    }
    ReadInAnyOrder(s + [NUL], order, i);
    assert (s + [NUL])[order[i].start..order[i].end] == s[order[i].start..order[i].end];
  }
}
