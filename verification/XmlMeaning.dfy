/** What unescaping is meant to give, and exactly when the loop over the shared buffer gives it. */
module XmlMeaning {
  import opened XmlText

  /** The intended value from `p` on: every turn writes what it reads, an unknown reference as it stands. */
  function Meant(raw: string, mode: Mode, p: nat): (r: string)
    requires p <= |raw|
    ensures |r| <= |raw| - p
    decreases |raw| - p
  {
    if p == |raw| then ""
    else
      var piece := NextPiece(raw, mode, p, p);
      piece.bytes + Meant(raw, mode, piece.next)
  }

  /** An ampersand that starts neither a character reference nor one of the table's entities. */
  predicate Unknown(raw: string, mode: Mode, p: nat)
    requires p < |raw|
  {
    mode.NewlinesAndEntities? && raw[p] == '&' && Peek(raw, p + 1) != '#' && FindEntity(raw, p, 0) == |ENTITIES|
  }

  /** Scanning from read position `p` and write position `q`, each unknown reference finds an ampersand at the
      write position, which may by then lie behind it. */
  predicate Unspoiled(raw: string, mode: Mode, p: nat, q: nat)
    requires q <= p <= |raw|
    decreases |raw| - p
  {
    p == |raw| ||
    var piece := NextPiece(raw, mode, p, q);
    && (Unknown(raw, mode, p) ==> raw[q] == '&')
    && Unspoiled(raw, mode, piece.next, q + |piece.bytes|)
  }

  /** The write position decides over the byte of an unknown reference and over nothing else. */
  lemma PieceMeant(raw: string, mode: Mode, p: nat, q: nat)
    requires q <= p < |raw|
    ensures var written, meant := NextPiece(raw, mode, p, q), NextPiece(raw, mode, p, p);
            && written.next == meant.next && |written.bytes| == |meant.bytes|
            && (written.bytes == meant.bytes <==> (Unknown(raw, mode, p) ==> raw[q] == '&'))
  {
    hide FindEntity;
    hide GetCharacterRef;
  }

  lemma {:induction false} DecodeExtends(raw: string, mode: Mode, p: nat, out: string)
    requires |out| <= p <= |raw|
    ensures out <= DecodeFrom(raw, mode, p, out)
    decreases |raw| - p
  {
    hide NextPiece;
    if p < |raw| {
      var piece := NextPiece(raw, mode, p, |out|);
      DecodeExtends(raw, mode, piece.next, out + piece.bytes);
    }
  }

  /** Two continuations of `out` by equally many bytes. */
  lemma Compared(out: string, a: string, b: string, decoded: string, rest: string)
    requires |a| == |b| && out + a <= decoded
    ensures a != b ==> decoded != out + (b + rest)
    ensures a == b ==> out + (b + rest) == out + a + rest
  {
    assert decoded[|out|..|out| + |a|] == a;
    assert (out + (b + rest))[|out|..|out| + |b|] == b;
  }

  lemma Turn(raw: string, mode: Mode, p: nat, out: string)
    requires |out| <= p < |raw|
    ensures var written, meant := NextPiece(raw, mode, p, |out|), NextPiece(raw, mode, p, p);
            && p < written.next == meant.next <= |raw| && |written.bytes| == |meant.bytes|
            && |out + written.bytes| <= written.next
            && DecodeFrom(raw, mode, p, out) == DecodeFrom(raw, mode, written.next, out + written.bytes)
            && Meant(raw, mode, p) == meant.bytes + Meant(raw, mode, meant.next)
            && (Unspoiled(raw, mode, p, |out|) <==>
                  written.bytes == meant.bytes && Unspoiled(raw, mode, written.next, |out + written.bytes|))
  {
    PieceMeant(raw, mode, p, |out|);
    hide NextPiece;
    hide Unknown;
    var written := NextPiece(raw, mode, p, |out|);
    assert |out + written.bytes| == |out| + |written.bytes|;
    assert |out| + |written.bytes| <= written.next;
  }

  lemma {:induction false} DecodeIffUnspoiled(raw: string, mode: Mode, p: nat, out: string)
    requires |out| <= p <= |raw|
    ensures DecodeFrom(raw, mode, p, out) == out + Meant(raw, mode, p) <==> Unspoiled(raw, mode, p, |out|)
    decreases |raw| - p
  {
    if p < |raw| {
      Turn(raw, mode, p, out);
      hide *;
      var written, meant := NextPiece(raw, mode, p, |out|), NextPiece(raw, mode, p, p);
      DecodeIffUnspoiled(raw, mode, written.next, out + written.bytes);
      DecodeExtends(raw, mode, written.next, out + written.bytes);
      Compared(out, written.bytes, meant.bytes, DecodeFrom(raw, mode, p, out), Meant(raw, mode, meant.next));
    }
  }

  /** The loop writes the intended bytes exactly when no unknown reference is spoiled. */
  lemma DecodesAsMeant(raw: string, mode: Mode)
    ensures DecodeFrom(raw, mode, 0, "") == Meant(raw, mode, 0) <==> Unspoiled(raw, mode, 0, 0)
  {
    DecodeIffUnspoiled(raw, mode, 0, "");
  }

  // ----- What a caller sees -----

  /** The same scan, up to the first turn that writes a NUL: what comes behind it is not seen. */
  predicate SeenUnspoiled(raw: string, mode: Mode, p: nat, q: nat)
    requires q <= p <= |raw|
    decreases |raw| - p
  {
    p == |raw| ||
    var piece := NextPiece(raw, mode, p, q);
    && (Unknown(raw, mode, p) ==> raw[q] == '&')
    && (NUL in piece.bytes || SeenUnspoiled(raw, mode, piece.next, q + |piece.bytes|))
  }

  lemma {:induction false} EndsAtNul(s: string, more: string)
    ensures NUL in s ==> CString(s + more) == CString(s)
    ensures NUL !in s ==> CString(s + more) == s + CString(more)
  {
    if s == "" {
      assert s + more == more;
    } else {
      assert (s + more)[1..] == s[1..] + more;
      EndsAtNul(s[1..], more);
    }
  }

  lemma UnknownIsPlain(raw: string, mode: Mode, p: nat, q: nat)
    requires NUL !in raw && q <= p < |raw| && Unknown(raw, mode, p)
    ensures NextPiece(raw, mode, p, q).bytes == [raw[q]] && raw[q] != NUL
  {
    assert raw[q] in raw;
  }

  /** What is seen of two continuations of `out` by equally many bytes. */
  lemma SeenCompared(out: string, a: string, b: string, decoded: string, rest: string)
    requires |a| == |b| && out + a <= decoded && NUL !in out && (a == b || NUL !in a)
    ensures a != b ==> CString(decoded) != CString(out + (b + rest))
    ensures a == b && NUL in a ==> CString(decoded) == CString(out + (b + rest))
    ensures a == b ==> out + (b + rest) == out + a + rest
  {
    var n := |out| + |a|;
    assert decoded == out + a + decoded[n..] && out + (b + rest) == out + b + rest;
    EndsAtNul(out + a, decoded[n..]);
    EndsAtNul(out + b, rest);
    if a != b {
      assert CString(decoded) == out + a + CString(decoded[n..]);
      assert CString(decoded)[|out|..n] == a;
      EndsAtNul(out, b + rest);
      CStringBegins(out, b, rest, a);
    }
  }

  lemma CStringBegins(out: string, b: string, rest: string, a: string)
    requires |a| == |b| && a != b && NUL !in out && NUL !in a
    ensures |CString(out + (b + rest))| < |out + a| || CString(out + (b + rest))[|out|..|out + a|] != a
  {
    var seen, all := CString(out + (b + rest)), out + (b + rest);
    if |seen| >= |out + a| {
      assert seen[|out|..|out + a|] == all[|out|..|out + a|] == b;
    }
  }

  lemma SeenTurn(raw: string, mode: Mode, p: nat, q: nat)
    requires NUL !in raw && q <= p < |raw|
    ensures var written, meant := NextPiece(raw, mode, p, q), NextPiece(raw, mode, p, p);
            && (SeenUnspoiled(raw, mode, p, q) <==>
                  written.bytes == meant.bytes
                  && (NUL in written.bytes || SeenUnspoiled(raw, mode, written.next, q + |written.bytes|)))
            && (written.bytes != meant.bytes ==> NUL !in written.bytes)
  {
    hide NextPiece;
    hide Unknown;
    PieceMeant(raw, mode, p, q);
    if Unknown(raw, mode, p) {
      UnknownIsPlain(raw, mode, p, q);
    }
  }

  ghost predicate SeenAsMeant(raw: string, mode: Mode, p: nat, out: string)
    requires |out| <= p <= |raw|
  {
    CString(DecodeFrom(raw, mode, p, out)) == CString(out + Meant(raw, mode, p))
  }

  /** A turn that differs is seen, one that writes a NUL hides all that follows, any other changes nothing. */
  lemma SeenStep(raw: string, mode: Mode, p: nat, out: string)
    requires NUL !in raw && NUL !in out && |out| <= p < |raw|
    ensures var written, meant := NextPiece(raw, mode, p, |out|), NextPiece(raw, mode, p, p);
            && |out + written.bytes| <= written.next <= |raw| && p < written.next
            && (SeenAsMeant(raw, mode, p, out) <==>
                  written.bytes == meant.bytes
                  && (NUL in written.bytes || SeenAsMeant(raw, mode, written.next, out + written.bytes)))
  {
    Turn(raw, mode, p, out);
    SeenTurn(raw, mode, p, |out|);
    hide NextPiece;
    hide DecodeFrom;
    hide Meant;
    hide CString;
    hide Unknown;
    hide Unspoiled;
    hide SeenUnspoiled;
    var written, meant := NextPiece(raw, mode, p, |out|), NextPiece(raw, mode, p, p);
    DecodeExtends(raw, mode, written.next, out + written.bytes);
    SeenCompared(out, written.bytes, meant.bytes, DecodeFrom(raw, mode, p, out), Meant(raw, mode, meant.next));
  }

  lemma SeenAtEnd(raw: string, mode: Mode, out: string)
    requires |out| <= |raw|
    ensures SeenAsMeant(raw, mode, |raw|, out) && SeenUnspoiled(raw, mode, |raw|, |out|)
  {
    assert out + "" == out;
  }

  lemma {:induction false} SeenIffUnspoiled(raw: string, mode: Mode, p: nat, out: string)
    requires NUL !in raw && NUL !in out && |out| <= p <= |raw|
    ensures SeenAsMeant(raw, mode, p, out) <==> SeenUnspoiled(raw, mode, p, |out|)
    decreases |raw| - p
  {
    hide *;
    if p == |raw| {
      SeenAtEnd(raw, mode, out);
    } else {
      SeenStep(raw, mode, p, out);
      SeenTurn(raw, mode, p, |out|);
      var written := NextPiece(raw, mode, p, |out|);
      if NUL !in written.bytes {
        NulFree(out, written.bytes);
        SeenIffUnspoiled(raw, mode, written.next, out + written.bytes);
      }
    }
  }

  lemma NulFree(a: string, b: string)
    requires NUL !in a && NUL !in b
    ensures NUL !in a + b && |a + b| == |a| + |b|
  {
  }

  /** A caller gets the intended string exactly when no unknown reference in front of a written NUL is spoiled. */
  lemma ReadAsMeant(raw: string, mode: Mode)
    requires NUL !in raw
    ensures Decode(raw, mode) == CString(Meant(raw, mode, 0)) <==> SeenUnspoiled(raw, mode, 0, 0)
  {
    SeenIffUnspoiled(raw, mode, 0, "");
    assert "" + Meant(raw, mode, 0) == Meant(raw, mode, 0);
  }

  // ----- Conditions that are easy to see -----

  /** No unknown reference stands behind a turn that wrote less than it read. */
  predicate InStep(raw: string, mode: Mode, p: nat, q: nat)
    requires q <= p <= |raw|
    decreases |raw| - p
  {
    p == |raw| ||
    var piece := NextPiece(raw, mode, p, q);
    (Unknown(raw, mode, p) ==> p == q) && InStep(raw, mode, piece.next, q + |piece.bytes|)
  }

  lemma {:induction false} InStepUnspoiled(raw: string, mode: Mode, p: nat, q: nat)
    requires q <= p <= |raw| && InStep(raw, mode, p, q)
    ensures Unspoiled(raw, mode, p, q)
    decreases |raw| - p
  {
    hide NextPiece;
    if p < |raw| {
      var piece := NextPiece(raw, mode, p, q);
      InStepUnspoiled(raw, mode, piece.next, q + |piece.bytes|);
    }
  }

  lemma {:induction false} KnownUnspoiled(raw: string, mode: Mode, p: nat, q: nat)
    requires q <= p <= |raw| && forall i :: p <= i < |raw| ==> !Unknown(raw, mode, i)
    ensures Unspoiled(raw, mode, p, q)
    decreases |raw| - p
  {
    hide NextPiece;
    hide Unknown;
    if p < |raw| {
      var piece := NextPiece(raw, mode, p, q);
      KnownUnspoiled(raw, mode, piece.next, q + |piece.bytes|);
    }
  }

  /** So it is enough that no reference is unknown, or that those that are have nothing shortened before them. */
  lemma EasilyMeant(raw: string, mode: Mode)
    requires (forall i :: 0 <= i < |raw| ==> !Unknown(raw, mode, i)) || InStep(raw, mode, 0, 0)
    ensures DecodeFrom(raw, mode, 0, "") == Meant(raw, mode, 0) && Decode(raw, mode) == CString(Meant(raw, mode, 0))
  {
    DecodesAsMeant(raw, mode);
    if InStep(raw, mode, 0, 0) {
      InStepUnspoiled(raw, mode, 0, 0);
    } else {
      KnownUnspoiled(raw, mode, 0, 0);
    }
  }
}
