/** What character data means: the bytes, line ends and references it is written with, and that unescaping gives what
    they stand for. */
module XmlTokens {
  import opened XmlText
  import Utf8

  datatype LineEnd = CrLf | LfCr | JustCr | JustLf

  datatype Token =
    | Byte(c: char)
    | Break(end: LineEnd)
    | Named(name: string)
    | Decimal(digits: string)
    | Hex(digits: string)

  /** How a token is written. */
  function Written(t: Token): string {
    match t
    case Byte(c) => [c]
    case Break(CrLf) => "\r\n"
    case Break(LfCr) => "\n\r"
    case Break(JustCr) => "\r"
    case Break(JustLf) => "\n"
    case Named(name) => "&" + name + ";"
    case Decimal(digits) => "&#" + digits + ";"
    case Hex(digits) => "&#x" + digits + ";"
  }

  /** What it stands for: every line end for a line feed. */
  function Meaning(t: Token): string
    requires IsToken(t)
  {
    match t
    case Byte(c) => [c]
    case Break(_) => "\n"
    case Named(name) =>
      if name == "amp" then "&" else if name == "lt" then "<" else if name == "gt" then ">"
      else if name == "quot" then "\"" else "'"
    case Decimal(digits) => Chars(Utf8.Encode(Positional(digits, 10)))
    case Hex(digits) => Chars(Utf8.Encode(Positional(digits, 16)))
  }

  predicate IsToken(t: Token) {
    match t
    case Byte(c) => c != '\r' && c != '\n'
    case Break(_) => true
    case Named(name) => name == "amp" || name == "lt" || name == "gt" || name == "quot" || name == "apos"
    case Decimal(digits) =>
      digits != "" && (forall c :: c in digits ==> DigitValue(c, 10) >= 0) && Positional(digits, 10) < 0x1_0000_0000
    case Hex(digits) =>
      digits != "" && (forall c :: c in digits ==> DigitValue(c, 16) >= 0) && Positional(digits, 16) < 0x1_0000_0000
  }

  /** Where references are not replaced there are none; where they are an ampersand starts one. */
  predicate InMode(t: Token, mode: Mode) {
    IsToken(t) && if mode.NewlinesAndEntities? then t != Byte('&') else t.Byte? || t.Break?
  }

  /** Two line ends in a row that would be read as one. */
  predicate Merge(t: Token, next: Token) {
    || (t == Break(JustCr) && next.Break? && (next.end.JustLf? || next.end.LfCr?))
    || (t == Break(JustLf) && next.Break? && (next.end.JustCr? || next.end.CrLf?))
  }

  predicate Readable(ts: seq<Token>, mode: Mode) {
    && (forall i :: 0 <= i < |ts| ==> InMode(ts[i], mode))
    && forall i :: 0 <= i < |ts| - 1 ==> !Merge(ts[i], ts[i + 1])
  }

  function WrittenAll(ts: seq<Token>): string {
    if ts == [] then "" else Written(ts[0]) + WrittenAll(ts[1..])
  }

  predicate AreTokens(ts: seq<Token>) {
    forall i :: 0 <= i < |ts| ==> IsToken(ts[i])
  }

  function MeaningAll(ts: seq<Token>): string
    requires AreTokens(ts)
  {
    if ts == [] then "" else Meaning(ts[0]) + MeaningAll(ts[1..])
  }

  lemma Consed(t: Token, ts: seq<Token>)
    requires IsToken(t) && AreTokens(ts)
    ensures AreTokens([t] + ts)
    ensures WrittenAll([t] + ts) == Written(t) + WrittenAll(ts) && MeaningAll([t] + ts) == Meaning(t) + MeaningAll(ts)
  {
    assert ([t] + ts)[1..] == ts;
  }

  /** What follows a token does not change how it is read. */
  predicate Apart(raw: string, p: nat, t: Token) {
    && (t == Break(JustCr) ==> Peek(raw, p + 1) != '\n')
    && (t == Break(JustLf) ==> Peek(raw, p + 1) != '\r')
  }

  lemma NamedRead(raw: string, p: nat, q: nat, name: string)
    requires IsToken(Named(name)) && q <= p && StartsAt(raw, p, Written(Named(name)))
    ensures p < |raw| && NextPiece(raw, NewlinesAndEntities, p, q) == Piece(p + |name| + 2, Meaning(Named(name)))
  {
    var i := if name == "quot" then 0 else if name == "amp" then 1 else if name == "apos" then 2
             else if name == "lt" then 3 else 4;
    assert ENTITIES[i].pattern == name;
    StartsAtChars(raw, p, Written(Named(name)));
    assert raw[p] == '&';
    PatternFound(raw, p, i);
  }

  lemma BreakRead(raw: string, mode: Mode, p: nat, q: nat, end: LineEnd)
    requires !mode.AsIs? && q <= p && StartsAt(raw, p, Written(Break(end))) && Apart(raw, p, Break(end))
    ensures p < |raw| && NextPiece(raw, mode, p, q) == Piece(p + |Written(Break(end))|, "\n")
  {
    StartsAtChars(raw, p, Written(Break(end)));
    assert raw[p] == Written(Break(end))[0];
    if end.CrLf? || end.LfCr? {
      assert raw[p + 1] == Written(Break(end))[1];
    }
  }

  lemma TokenRead(raw: string, mode: Mode, p: nat, q: nat, t: Token)
    requires !mode.AsIs? && InMode(t, mode) && q <= p && StartsAt(raw, p, Written(t)) && Apart(raw, p, t)
    ensures p < |raw| && NextPiece(raw, mode, p, q) == Piece(p + |Written(t)|, Meaning(t))
  {
    match t
    case Byte(c) =>
      StartsAtChars(raw, p, [c]);
      assert raw[p] == c;
    case Break(end) => BreakRead(raw, mode, p, q, end);
    case Named(name) => NamedRead(raw, p, q, name);
    case Decimal(digits) =>
      StartsAtChars(raw, p, Written(t));
      assert raw[p] == '&' && raw[p + 1] == '#';
      DecimalReference(raw, p, digits);
    case Hex(digits) =>
      StartsAtChars(raw, p, Written(t));
      assert raw[p] == '&' && raw[p + 1] == '#';
      HexReference(raw, p, digits);
  }

  // ----- Whole strings -----

  lemma Associative(a: string, b: string, c: string)
    ensures (a + b) + c == a + (b + c)
  {
  }

  lemma FirstWritten(t: Token)
    requires IsToken(t)
    ensures Written(t) != ""
    ensures Written(t)[0] == '\r' <==> t.Break? && (t.end.JustCr? || t.end.CrLf?)
    ensures Written(t)[0] == '\n' <==> t.Break? && (t.end.JustLf? || t.end.LfCr?)
  {
  }

  lemma HeadStands(raw: string, p: nat, ts: seq<Token>, mode: Mode)
    requires Readable(ts, mode) && ts != [] && p <= |raw| && raw[p..] == WrittenAll(ts)
    ensures StartsAt(raw, p, Written(ts[0])) && Apart(raw, p, ts[0])
    ensures p + |Written(ts[0])| <= |raw| && raw[p + |Written(ts[0])|..] == WrittenAll(ts[1..])
  {
    var w, rest := Written(ts[0]), WrittenAll(ts[1..]);
    assert raw[p..] == w + rest;
    assert raw[p..p + |w|] == raw[p..][..|w|] == w;
    assert raw[p + |w|..] == raw[p..][|w|..] == rest;
    if |ts| > 1 {
      FirstWritten(ts[1]);
      assert rest == Written(ts[1]) + WrittenAll(ts[1..][1..]);
      assert p + |w| < |raw| && raw[p + |w|] == rest[0] == Written(ts[1])[0];
      assert !Merge(ts[0], ts[0 + 1]);
    }
  }

  lemma RestReadable(ts: seq<Token>, mode: Mode)
    requires Readable(ts, mode) && ts != []
    ensures Readable(ts[1..], mode)
  {
    forall i | 0 <= i < |ts[1..]| - 1 ensures !Merge(ts[1..][i], ts[1..][i + 1]) {
      assert !Merge(ts[i + 1], ts[i + 2]);
    }
  }

  lemma DecodeTurn(raw: string, mode: Mode, p: nat, out: string, piece: Piece)
    requires |out| <= p < |raw| && NextPiece(raw, mode, p, |out|) == piece
    ensures |out + piece.bytes| <= piece.next <= |raw|
    ensures DecodeFrom(raw, mode, p, out) == DecodeFrom(raw, mode, piece.next, out + piece.bytes)
  {
    hide NextPiece;
    assert |out + piece.bytes| == |out| + |piece.bytes|;
  }

  lemma {:induction false} ReadFrom(raw: string, mode: Mode, p: nat, ts: seq<Token>, out: string)
    requires !mode.AsIs? && Readable(ts, mode) && AreTokens(ts) && |out| <= p <= |raw| && raw[p..] == WrittenAll(ts)
    ensures DecodeFrom(raw, mode, p, out) == out + MeaningAll(ts)
    decreases |ts|
  {
    if ts == [] {
      assert p == |raw| && out + "" == out;
    } else {
      var t, rest := ts[0], ts[1..];
      HeadStands(raw, p, ts, mode);
      RestReadable(ts, mode);
      assert InMode(t, mode) && ts == [t] + rest && AreTokens(rest);
      hide *;
      Consed(t, rest);
      TokenRead(raw, mode, p, |out|, t);
      var next, more := p + |Written(t)|, out + Meaning(t);
      DecodeTurn(raw, mode, p, out, Piece(next, Meaning(t)));
      ReadFrom(raw, mode, next, rest, more);
      Associative(out, Meaning(t), MeaningAll(rest));
    }
  }

  /** Whatever a string is written with, unescaping gives what it stands for; a caller sees it up to the first NUL. */
  lemma TokensRead(ts: seq<Token>, mode: Mode)
    requires !mode.AsIs? && Readable(ts, mode) && AreTokens(ts)
    ensures DecodeFrom(WrittenAll(ts), mode, 0, "") == MeaningAll(ts)
    ensures NUL !in MeaningAll(ts) ==> Decode(WrittenAll(ts), mode) == MeaningAll(ts)
  {
    ReadFrom(WrittenAll(ts), mode, 0, ts, "");
    assert "" + MeaningAll(ts) == MeaningAll(ts);
  }

  /** Names, and all else that is to be taken as it is, are. */
  lemma {:induction false} TakenAsIs(raw: string, p: nat, out: string)
    requires |out| <= p <= |raw|
    ensures DecodeFrom(raw, AsIs, p, out) == out + raw[p..]
    decreases |raw| - p
  {
    if p < |raw| {
      TakenAsIs(raw, p + 1, out + [raw[p]]);
      assert out + [raw[p]] + raw[p + 1..] == out + raw[p..];
    }
  }

  // ----- Every string without references -----

  /** How a string without references is written. */
  function Head(raw: string): (t: Token)
    requires raw != ""
    ensures IsToken(t) && 0 < |Written(t)| <= |raw| && (t.Byte? || t.Break?)
  {
    if raw[0] == '\r' then if |raw| > 1 && raw[1] == '\n' then Break(CrLf) else Break(JustCr)
    else if raw[0] == '\n' then if |raw| > 1 && raw[1] == '\r' then Break(LfCr) else Break(JustLf)
    else Byte(raw[0])
  }

  function Tokens(raw: string): (ts: seq<Token>)
    ensures AreTokens(ts) && (raw == "" <==> ts == []) && forall i :: 0 <= i < |ts| ==> ts[i].Byte? || ts[i].Break?
  {
    if raw == "" then [] else [Head(raw)] + Tokens(raw[|Written(Head(raw))|..])
  }

  lemma HeadFits(raw: string)
    requires raw != ""
    ensures var n := |Written(Head(raw))|;
            && raw[..n] == Written(Head(raw)) && raw == Written(Head(raw)) + raw[n..]
            && (n < |raw| ==> !Merge(Head(raw), Head(raw[n..])))
            && ('&' !in raw ==> Head(raw) != Byte('&') && '&' !in raw[n..])
  {
    var n := |Written(Head(raw))|;
    assert raw[..n] == Written(Head(raw));
    assert raw == raw[..n] + raw[n..];
  }

  lemma {:induction false} Tokenised(raw: string, mode: Mode)
    requires mode.NewlinesAndEntities? ==> '&' !in raw
    ensures WrittenAll(Tokens(raw)) == raw && Readable(Tokens(raw), mode)
  {
    if raw != "" {
      var t := Head(raw);
      var rest := raw[|Written(t)|..];
      HeadFits(raw);
      Tokenised(rest, mode);
      assert Tokens(raw) == [t] + Tokens(rest) && (rest != "" ==> Tokens(rest)[0] == Head(rest));
      assert InMode(t, mode);
      hide Tokens;
      hide Head;
      hide Written;
      hide Merge;
      Consed(t, Tokens(rest));
      Prepended(t, Tokens(rest), mode);
    }
  }

  lemma Prepended(t: Token, ts: seq<Token>, mode: Mode)
    requires Readable(ts, mode) && InMode(t, mode) && (ts != [] ==> !Merge(t, ts[0]))
    ensures Readable([t] + ts, mode)
  {
    var all := [t] + ts;
    forall i | 0 <= i < |all| - 1 ensures !Merge(all[i], all[i + 1]) {
      assert i > 0 ==> !Merge(ts[i - 1], ts[i]);
    }
  }

  lemma {:induction false} NoCarriageReturn(ts: seq<Token>)
    requires AreTokens(ts) && forall i :: 0 <= i < |ts| ==> !ts[i].Decimal? && !ts[i].Hex?
    ensures '\r' !in MeaningAll(ts)
  {
    if ts != [] {
      NoCarriageReturn(ts[1..]);
    }
  }

  /** So of a string without references every byte but the line ends is kept, and each line end becomes a line feed. */
  lemma LinesNormalised(raw: string, mode: Mode)
    requires !mode.AsIs? && (mode.NewlinesAndEntities? ==> '&' !in raw) && NUL !in raw
    ensures Decode(raw, mode) == MeaningAll(Tokens(raw)) && '\r' !in Decode(raw, mode)
  {
    Tokenised(raw, mode);
    NoNul(raw);
    TokensRead(Tokens(raw), mode);
    NoCarriageReturn(Tokens(raw));
  }

  lemma {:induction false} NoNul(raw: string)
    requires NUL !in raw
    ensures NUL !in MeaningAll(Tokens(raw))
  {
    if raw != "" {
      var t := Head(raw);
      var rest := raw[|Written(t)|..];
      NoNul(rest);
      assert t.Byte? ==> t.c == raw[0];
      Consed(t, Tokens(rest));
    }
  }

  // ----- Lines -----

  function Joined(lines: seq<string>, end: string): string
    requires lines != []
  {
    if |lines| == 1 then lines[0] else lines[0] + end + Joined(lines[1..], end)
  }

  predicate IsLine(line: string) {
    '\r' !in line && '\n' !in line && '&' !in line && NUL !in line
  }

  function Bytes(line: string): (ts: seq<Token>)
    ensures |ts| == |line| && forall i :: 0 <= i < |ts| ==> ts[i] == Byte(line[i])
  {
    seq(|line|, i requires 0 <= i < |line| => Byte(line[i]))
  }

  lemma {:induction false} BytesWritten(line: string, ts: seq<Token>, mode: Mode)
    requires IsLine(line) && AreTokens(ts) && Readable(ts, mode)
    ensures AreTokens(Bytes(line) + ts) && Readable(Bytes(line) + ts, mode)
    ensures WrittenAll(Bytes(line) + ts) == line + WrittenAll(ts)
    ensures MeaningAll(Bytes(line) + ts) == line + MeaningAll(ts)
  {
    if line == "" {
      assert Bytes(line) + ts == ts;
      assert line + WrittenAll(ts) == WrittenAll(ts) && line + MeaningAll(ts) == MeaningAll(ts);
    } else {
      var t, rest := Byte(line[0]), line[1..];
      assert IsLine(rest) && InMode(t, mode) && IsToken(t);
      assert Written(t) == [line[0]] && Meaning(t) == [line[0]];
      assert Bytes(line) + ts == [t] + (Bytes(rest) + ts) && line == [line[0]] + rest;
      assert forall next :: !Merge(t, next);
      hide *;
      BytesWritten(rest, ts, mode);
      Consed(t, Bytes(rest) + ts);
      Prepended(t, Bytes(rest) + ts, mode);
      Associative([line[0]], rest, WrittenAll(ts));
      Associative([line[0]], rest, MeaningAll(ts));
    }
  }

  /** Lines that end in the same way. */
  function LineTokens(lines: seq<string>, end: LineEnd): seq<Token>
    requires lines != []
  {
    if |lines| == 1 then Bytes(lines[0]) else Bytes(lines[0]) + ([Break(end)] + LineTokens(lines[1..], end))
  }

  lemma BreakFirst(line: string, ts: seq<Token>, end: LineEnd, mode: Mode)
    requires IsLine(line) && AreTokens(ts) && Readable(ts, mode) && (ts != [] ==> ts[0].Byte? || ts[0] == Break(end))
    ensures var all := Bytes(line) + ([Break(end)] + ts);
            && AreTokens(all) && Readable(all, mode) && (all[0].Byte? || all[0] == Break(end))
            && WrittenAll(all) == line + Written(Break(end)) + WrittenAll(ts)
            && MeaningAll(all) == line + "\n" + MeaningAll(ts)
  {
    assert InMode(Break(end), mode) && (ts != [] ==> !Merge(Break(end), ts[0])) && Meaning(Break(end)) == "\n";
    assert line != "" ==> Bytes(line)[0].Byte?;
    assert line == "" ==> Bytes(line) == [];
    hide *;
    Consed(Break(end), ts);
    Prepended(Break(end), ts, mode);
    BytesWritten(line, [Break(end)] + ts, mode);
    Associative(line, Written(Break(end)), WrittenAll(ts));
    Associative(line, "\n", MeaningAll(ts));
  }

  lemma {:induction false} LinesWritten(lines: seq<string>, end: LineEnd, mode: Mode)
    requires lines != [] && forall i :: 0 <= i < |lines| ==> IsLine(lines[i])
    ensures var ts := LineTokens(lines, end);
            && AreTokens(ts) && Readable(ts, mode) && (ts != [] ==> ts[0].Byte? || ts[0] == Break(end))
            && WrittenAll(ts) == Joined(lines, Written(Break(end)))
            && MeaningAll(ts) == Joined(lines, "\n") && NUL !in Joined(lines, "\n")
  {
    if |lines| == 1 {
      assert Readable([], mode) && AreTokens([]) && WrittenAll([]) == "" && MeaningAll([]) == "";
      BytesWritten(lines[0], [], mode);
      assert Bytes(lines[0]) + [] == Bytes(lines[0]) && lines[0] + "" == lines[0];
    } else {
      LinesWritten(lines[1..], end, mode);
      assert NUL !in lines[0];
      hide IsLine;
      hide Readable;
      hide AreTokens;
      hide WrittenAll;
      hide MeaningAll;
      hide Written;
      BreakFirst(lines[0], LineTokens(lines[1..], end), end, mode);
    }
  }

  /** Lines joined by any one kind of line end are read as the same lines joined by line feeds. */
  lemma LinesRead(lines: seq<string>, end: LineEnd, mode: Mode)
    requires !mode.AsIs? && lines != [] && forall i :: 0 <= i < |lines| ==> IsLine(lines[i])
    ensures Decode(Joined(lines, Written(Break(end))), mode) == Joined(lines, "\n")
  {
    LinesWritten(lines, end, mode);
    TokensRead(LineTokens(lines, end), mode);
  }

  // ----- Digits -----

  /** The digits of references: ten, or sixteen in either case, and no others. */
  lemma DigitsMean(c: char)
    ensures DigitValue(c, 10) == if c in "0123456789" then c as int - 48 else -1
    ensures forall d :: 0 <= d < 16 ==> DigitValue("0123456789abcdef"[d], 16) == d && DigitValue("0123456789ABCDEF"[d], 16) == d
    ensures c !in "0123456789abcdefABCDEF" ==> DigitValue(c, 16) == -1
  {
  }
}
