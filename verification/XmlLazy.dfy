/** The strings of a parsed document as their owners use them: each is read as often and in whatever order the
    callers like, and unescaped in the shared buffer when it is first read. */
module XmlLazy {
  import opened XmlText
  import opened XmlParse
  import opened XmlStrPairs

  /** Follows a C string to its end. */
  method CStringAt(a: array<char>, start: nat) returns (value: string)
    requires start <= a.Length
    ensures value == StringAt(a[..], start)
  {
    value := [];
    var p := start;
    while p < a.Length && a[p] != NUL
      invariant start <= p <= a.Length && value == a[start..p]
      invariant forall k :: start <= k < p ==> a[k] != NUL
    {
      value := value + [a[p]];
      p := p + 1;
    }
    StringEnds(a[..], start, p);
    assert a[..][start..p] == a[start..p];
  }

  lemma {:induction false} StringEnds(buffer: string, start: nat, end: nat)
    requires start <= end <= |buffer| && (forall k :: start <= k < end ==> buffer[k] != NUL)
    requires end < |buffer| ==> buffer[end] == NUL
    ensures StringAt(buffer, start) == buffer[start..end]
    decreases end - start
  {
    var s := buffer[start..];
    if start < end {
      StringEnds(buffer, start + 1, end);
      assert s[1..] == buffer[start + 1..] && buffer[start..end] == [buffer[start]] + buffer[start + 1..end];
    }
  }

  /** The strings that have been read so far are those whose flag is down. */
  ghost predicate ReadSoFar(pairs: seq<StrPair>, needsFlush: seq<bool>, order: seq<StrPair>) {
    && |needsFlush| == |pairs| && AllApart(pairs) && AllApart(order)
    && (forall x :: x in order ==> x in pairs)
    && (forall i :: 0 <= i < |pairs| ==> (pairs[i] in order <==> !needsFlush[i]))
  }

  /** Strings of which no two share a byte, none of which holds a NUL. */
  ghost predicate Readable(before: string, pairs: seq<StrPair>) {
    && AllInside(pairs, |before|) && AllApart(pairs)
    && forall i :: 0 <= i < |pairs| ==> NUL !in before[pairs[i].start..pairs[i].end]
  }

  lemma DifferentApart(pairs: seq<StrPair>, i: nat, j: nat)
    requires AllApart(pairs) && i < |pairs| && j < |pairs| && i != j
    ensures Apart(pairs[i], pairs[j])
  {
    assert i < j || j < i;
  }

  lemma InsideToo(before: string, pairs: seq<StrPair>, order: seq<StrPair>)
    requires AllInside(pairs, |before|) && forall x :: x in order ==> x in pairs
    ensures AllInside(order, |before|)
  {
    forall k | 0 <= k < |order| ensures order[k].start <= order[k].end < |before| {
      assert order[k] in pairs;
      var j :| 0 <= j < |pairs| && pairs[j] == order[k];
    }
  }

  /** What has been read lies apart from what has not. */
  lemma UnreadApart(pairs: seq<StrPair>, needsFlush: seq<bool>, order: seq<StrPair>, i: nat, k: nat)
    requires ReadSoFar(pairs, needsFlush, order) && i < |pairs| && needsFlush[i] && k < |order|
    ensures Apart(order[k], pairs[i])
  {
    assert order[k] in pairs;
    var j :| 0 <= j < |pairs| && pairs[j] == order[k];
    DifferentApart(pairs, j, i);
  }

  lemma FlagDown(before: string, pairs: seq<StrPair>, needsFlush: seq<bool>, order: seq<StrPair>, i: nat)
    requires AllInside(pairs, |before|) && ReadSoFar(pairs, needsFlush, order) && i < |pairs| && needsFlush[i]
    ensures ReadSoFar(pairs, needsFlush[i := false], order + [pairs[i]])
  {
    var more, flags := order + [pairs[i]], needsFlush[i := false];
    forall k, l | 0 <= k < l < |more| ensures Apart(more[k], more[l]) {
      if l == |order| {
        UnreadApart(pairs, needsFlush, order, i, k);
      }
    }
    forall j | 0 <= j < |pairs| ensures pairs[j] in more <==> !flags[j] {
      if j != i {
        DifferentApart(pairs, i, j);
        assert pairs[j].start <= pairs[j].end;
        assert pairs[j] in more <==> pairs[j] in order;
      }
    }
  }

  lemma ReadOneMore(before: string, pairs: seq<StrPair>, needsFlush: seq<bool>, order: seq<StrPair>, i: nat)
    requires Readable(before, pairs) && ReadSoFar(pairs, needsFlush, order) && i < |pairs| && needsFlush[i]
    ensures ReadSoFar(pairs, needsFlush[i := false], order + [pairs[i]])
    ensures pairs[i].start <= pairs[i].end < |before|
    ensures AllInside(order, |before|) && AllInside(order + [pairs[i]], |before|)
    ensures ReadAll(before, order + [pairs[i]]) == Flushed(ReadAll(before, order), pairs[i])
    ensures ReadAll(before, order)[pairs[i].start..pairs[i].end] == before[pairs[i].start..pairs[i].end]
  {
    var more, x := order + [pairs[i]], pairs[i];
    FlagDown(before, pairs, needsFlush, order, i);
    InsideToo(before, pairs, order);
    assert more[..|more| - 1] == order;
    forall k | 0 <= k < |order| ensures Apart(order[k], x) {
      UnreadApart(pairs, needsFlush, order, i, k);
    }
    hide ReadSoFar;
    hide Flushed;
    ReadAllElsewhere(before, order, x.start, x.end);
  }

  lemma ValueRead(before: string, pairs: seq<StrPair>, needsFlush: seq<bool>, order: seq<StrPair>, i: nat)
    requires Readable(before, pairs) && ReadSoFar(pairs, needsFlush, order) && i < |pairs| && !needsFlush[i]
    ensures AllInside(order, |before|)
    ensures StringAt(ReadAll(before, order), pairs[i].start) == Decode(before[pairs[i].start..pairs[i].end], pairs[i].mode)
  {
    InsideToo(before, pairs, order);
    var k :| 0 <= k < |order| && order[k] == pairs[i];
    ReadInAnyOrder(before, order, k);
  }

  /** The strings of one document. */
  class LazyStrings {
    const buffer: array<char>
    const pairs: seq<StrPair>
    var needsFlush: seq<bool>
    ghost const before: string
    ghost var order: seq<StrPair>

    ghost predicate Valid()
      reads this, buffer
    {
      && Readable(before, pairs) && ReadSoFar(pairs, needsFlush, order)
      && AllInside(order, |before|) && buffer[..] == ReadAll(before, order)
    }

    /** A document that has just been parsed: nothing has been read. */
    constructor (text: string)
      requires ParseDocument(text).Parsed?
      ensures Valid() && fresh(buffer)
      ensures pairs == ListPairs(ParseDocument(text).nodes) && before == CString(text) + [NUL]
    {
      var s := CString(text) + [NUL];
      var found := ListPairs(ParseDocument(text).nodes);
      buffer := new char[|s|](i requires 0 <= i < |s| => s[i]);
      pairs, before, order := found, s, [];
      needsFlush := seq(|found|, _ => true);
      new;
      Unread(text);
      hide ListPairs;
      hide ParseDocument;
      assert buffer[..] == s;
    }

    /** The value of a string, unescaped in place by the first call. */
    method GetStr(i: nat) returns (value: string)
      requires Valid() && i < |pairs|
      modifies this`needsFlush, this`order, buffer
      ensures Valid()
      ensures value == Decode(before[pairs[i].start..pairs[i].end], pairs[i].mode)
    {
      hide Readable;
      hide ReadSoFar;
      hide ReadAll;
      hide StringAt;
      hide Decode;
      Bounds(i);
      if needsFlush[i] {
        ReadOneMore(before, pairs, needsFlush, order, i);
        assert buffer[pairs[i].start..pairs[i].end] == buffer[..][pairs[i].start..pairs[i].end];
        XmlStrPairs.GetStr(buffer, pairs[i]);
        order := order + [pairs[i]];
        needsFlush := needsFlush[i := false];
      }
      ValueRead(before, pairs, needsFlush, order, i);
      value := CStringAt(buffer, pairs[i].start);
    }

    lemma Bounds(i: nat)
      requires Valid() && i < |pairs|
      ensures pairs[i].start <= pairs[i].end < |before| == buffer.Length && |needsFlush| == |pairs|
      ensures NUL !in before[pairs[i].start..pairs[i].end]
    {
      assert |buffer[..]| == |ReadAll(before, order)|;
    }
  }

  lemma Unread(text: string)
    requires ParseDocument(text).Parsed?
    ensures var pairs := ListPairs(ParseDocument(text).nodes);
            && Readable(CString(text) + [NUL], pairs) && ReadSoFar(pairs, seq(|pairs|, _ => true), [])
  {
    hide ParseDocument;
    hide ListPairs;
    DocumentLaid(text);
    var s, pairs := CString(text), ListPairs(ParseDocument(text).nodes);
    forall i | 0 <= i < |pairs| ensures NUL !in (s + [NUL])[pairs[i].start..pairs[i].end] {
      assert (s + [NUL])[pairs[i].start..pairs[i].end] == s[pairs[i].start..pairs[i].end];
    }
  }

  /** The value that a string's bytes had when parsing ended. */
  ghost function Parsed(text: string, i: nat): string
    requires ParseDocument(text).Parsed? && i < |ListPairs(ParseDocument(text).nodes)|
  {
    var pair := ListPairs(ParseDocument(text).nodes)[i];
    Decode(Slice(CString(text), pair), pair.mode)
  }

  lemma ParsedIs(text: string, i: nat)
    requires ParseDocument(text).Parsed? && i < |ListPairs(ParseDocument(text).nodes)|
    ensures var pair := ListPairs(ParseDocument(text).nodes)[i]; var s := CString(text) + [NUL];
            pair.start <= pair.end < |s| && Parsed(text, i) == Decode(s[pair.start..pair.end], pair.mode)
  {
    hide ListPairs;
    hide ParseDocument;
    hide Decode;
    hide CString;
    hide Slice;
    DocumentLaid(text);
    WithNul(CString(text), ListPairs(ParseDocument(text).nodes)[i]);
  }

  lemma WithNul(s: string, pair: StrPair)
    requires pair.start <= pair.end <= |s|
    ensures (s + [NUL])[pair.start..pair.end] == Slice(s, pair)
  {
    assert (s + [NUL])[pair.start..pair.end] == s[pair.start..pair.end];
  }

  /** Any selection of a document's strings, in any order and with repetitions. */
  method ReadSelection(text: string, picks: seq<nat>) returns (values: seq<string>)
    requires ParseDocument(text).Parsed?
    requires forall k :: 0 <= k < |picks| ==> picks[k] < |ListPairs(ParseDocument(text).nodes)|
    ensures |values| == |picks| && forall k :: 0 <= k < |picks| ==> values[k] == Parsed(text, picks[k])
  {
    hide *;
    var strings := new LazyStrings(text);
    values := [];
    while |values| < |picks|
      invariant strings.Valid() && fresh(strings) && fresh(strings.buffer) && |values| <= |picks|
      invariant forall k :: 0 <= k < |values| ==> values[k] == Parsed(text, picks[k])
    {
      ParsedIs(text, picks[|values|]);
      var value := strings.GetStr(picks[|values|]);
      values := values + [value];
    }
  }
}
