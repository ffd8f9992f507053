/** Parsing what was printed gives back the document. */
module XmlRoundTrip {
  import opened XmlText
  import opened XmlPrint
  import P = XmlParse

  // ----- The values of a parsed tree -----

  function Str(s: string, pair: P.StrPair): string {
    Decode(P.Slice(s, pair), pair.mode)
  }

  function AttributeValue(s: string, a: P.RawAttribute): Attribute {
    Attribute(Str(s, a.name), Str(s, a.value))
  }

  function AttributeValues(s: string, attributes: seq<P.RawAttribute>): (r: seq<Attribute>)
    ensures |r| == |attributes|
  {
    if attributes == [] then [] else [AttributeValue(s, attributes[0])] + AttributeValues(s, attributes[1..])
  }

  function Value(s: string, n: P.Node): Xml {
    match n
    case Element(name, attributes, children) =>
      Element(Str(s, name), AttributeValues(s, attributes), Values(s, children))
    case Text(value, cdata) => Text(Str(s, value), cdata)
    case Comment(value) => Comment(Str(s, value))
    case Declaration(value) => Declaration(Str(s, value))
    case Unknown(value) => Unknown(Str(s, value))
  }

  function Values(s: string, ns: seq<P.Node>): seq<Xml> {
    if ns == [] then [] else [Value(s, ns[0])] + Values(s, ns[1..])
  }

  // ----- Canonical documents -----

  predicate IsName(name: string) {
    name != "" && P.IsNameStartChar(name[0]) && forall c :: c in name ==> P.IsNameChar(c)
  }

  predicate CanonicalAttributes(attributes: seq<Attribute>) {
    && (forall i :: 0 <= i < |attributes| ==> IsName(attributes[i].name) && Plain(attributes[i].value))
    && (forall i, j :: 0 <= i < j < |attributes| ==> attributes[i].name != attributes[j].name)
  }

  predicate Contains(s: string, pattern: string) {
    exists i :: 0 <= i < |s| && StartsAt(s, i, pattern)
  }

  predicate HasInk(s: string) {
    exists i :: 0 <= i < |s| && !P.IsWhiteSpace(s[i])
  }

  predicate PlainText(n: Xml) { n.Text? && !n.cdata }

  /** A node that can stand in a list at nesting depth `depth`. */
  predicate CanonicalNode(n: Xml, depth: nat) {
    match n
    case Element(name, attributes, children) =>
      && IsName(name) && CanonicalAttributes(attributes)
      && (children != [] ==> depth + 1 < P.MAX_ELEMENT_DEPTH && CanonicalList(children, depth + 1, false))
    case Text(value, cdata) => Plain(value) && if cdata then !Contains(value, "]]>") else HasInk(value)
    case Comment(value) => Plain(value) && !Contains(value, "-->")
    case Declaration(value) => Plain(value) && !Contains(value, "?>")
    case Unknown(value) =>
      Plain(value) && !Contains(value, ">") && !StartsAt(value, 0, "--") && !StartsAt(value, 0, "[CDATA[")
  }

  /** No two plain texts side by side; none in the document itself; declarations only there, before all else. */
  predicate CanonicalList(ns: seq<Xml>, depth: nat, isDocument: bool) {
    && (forall i :: 0 <= i < |ns| ==> CanonicalNode(ns[i], depth))
    && (forall i :: 0 <= i < |ns| - 1 ==> !(PlainText(ns[i]) && PlainText(ns[i + 1])))
    && (forall i :: 0 <= i < |ns| ==> isDocument ==> !PlainText(ns[i]))
    && (forall i :: 0 <= i < |ns| ==> ns[i].Declaration? ==> isDocument)
    && (forall i, j :: 0 <= i < j < |ns| ==> ns[j].Declaration? ==> ns[i].Declaration?)
  }

  predicate Canonical(nodes: seq<Xml>) {
    nodes != [] && CanonicalList(nodes, 1, true)
  }

  // ----- Terminated strings -----

  lemma FindFirst(s: string, p: nat, at: nat, endTag: string)
    requires p <= at && endTag != "" && StartsAt(s, at, endTag)
    requires forall j :: p <= j < at ==> !StartsAt(s, j, endTag)
    ensures P.Find(s, p, endTag) == at
  {
  }

  lemma SliceOfSlice(s: string, a: nat, b: nat, c: nat, d: nat)
    requires a <= b <= |s| && c <= d <= b - a
    ensures s[a..b][c..d] == s[a + c..a + d]
  {
    var inner, outer := s[a..b][c..d], s[a + c..a + d];
    assert forall k :: 0 <= k < d - c ==> inner[k] == outer[k];
  }

  lemma NotStarts(s: string, p: nat, pattern: string, k: nat)
    requires k < |pattern| && p + k < |s| && s[p + k] != pattern[k]
    ensures !StartsAt(s, p, pattern)
  {
    if StartsAt(s, p, pattern) {
      StartsAtChars(s, p, pattern);
    }
  }

  lemma StartsInside(s: string, p: nat, value: string, j: nat, pattern: string)
    requires StartsAt(s, p, value) && StartsAt(s, j, pattern) && p <= j && j + |pattern| <= p + |value| && pattern != ""
    ensures Contains(value, pattern)
  {
    SliceOfSlice(s, p, p + |value|, j - p, j - p + |pattern|);
    assert StartsAt(value, j - p, pattern);
  }

  lemma StraddleClash(s: string, at: nat, j: nat, endTag: string)
    requires endTag != "" && j < at < j + |endTag| && at + |endTag| <= |s|
    requires forall k :: j <= k < j + |endTag| ==> s[k] == endTag[k - j]
    requires forall k :: at <= k < at + |endTag| ==> s[k] == endTag[k - at]
    ensures endTag[|endTag| - 1 - (at - j)] == endTag[|endTag| - 1]
  {
    var last := j + |endTag| - 1;
    assert s[last] == endTag[last - j] && s[last] == endTag[last - at];
  }

  /** A terminator whose last byte occurs nowhere else in it is found right behind a value free of it. */
  lemma FindBehind(s: string, p: nat, value: string, endTag: string)
    requires endTag != "" && StartsAt(s, p, value + endTag) && !Contains(value, endTag)
    requires forall i :: 0 <= i < |endTag| - 1 ==> endTag[i] != endTag[|endTag| - 1]
    ensures P.Find(s, p, endTag) == p + |value| && s[p..p + |value|] == value
  {
    StartsAtBoth(s, p, value, endTag);
    StartsAtSlice(s, p, value);
    forall j | p <= j < p + |value| ensures !StartsAt(s, j, endTag) {
      if StartsAt(s, j, endTag) {
        StartsAtChars(s, j, endTag);
        if j + |endTag| <= p + |value| {
          StartsInside(s, p, value, j, endTag);
        } else {
          StartsAtChars(s, p + |value|, endTag);
          StraddleClash(s, p + |value|, j, endTag);
        }
      }
    }
    FindFirst(s, p, p + |value|, endTag);
  }

  lemma CharAt(s: string, i: nat, c: char)
    requires StartsAt(s, i, [c])
    ensures i < |s| && s[i] == c
  {
    assert s[i..i + 1][0] == c;
  }

  lemma FindChar(s: string, p: nat, value: string, c: char)
    requires StartsAt(s, p, value + [c]) && c !in value
    ensures P.Find(s, p, [c]) == p + |value| && s[p..p + |value|] == value
  {
    if Contains(value, [c]) {
      var i :| 0 <= i < |value| && StartsAt(value, i, [c]);
      CharAt(value, i, c);
    }
    FindBehind(s, p, value, [c]);
  }

  // ----- Leaves -----

  predicate Delimited(kind: P.Kind) {
    kind.DeclarationKind? || kind.CommentKind? || kind.CDataKind? || kind.UnknownKind?
  }

  /** Nothing in an unknown's content may make it look like a comment or CDATA. */
  predicate NotDisguised(kind: P.Kind, value: string) {
    kind.UnknownKind? ==> !StartsAt(value, 0, "--") && !StartsAt(value, 0, "[CDATA[")
  }

  lemma HeaderIdentified(s: string, p: nat, kind: P.Kind, value: string)
    requires Delimited(kind) && StartsAt(s, p, P.Header(kind) + value + P.Terminator(kind)) && NotDisguised(kind, value)
    ensures P.Identify(s, p) == kind
  {
    var header := P.Header(kind);
    StartsAtBoth(s, p, header + value, P.Terminator(kind));
    StartsAtBoth(s, p, header, value);
    StartsAtChars(s, p, header);
    assert s[p + 1] == header[1];
    if !kind.DeclarationKind? {
      NotStarts(s, p, "<?", 1);
    }
    if kind.UnknownKind? {
      NotDisguise(s, p, value, "--");
      NotDisguise(s, p, value, "[CDATA[");
    } else if kind.CDataKind? {
      assert s[p + 2] == header[2];
      NotStarts(s, p, "<!--", 2);
    }
  }

  /** Content behind `<!` that reads like another header starts with the rest of that header. */
  lemma NotDisguise(s: string, p: nat, value: string, tail: string)
    requires StartsAt(s, p, "<!" + value + ">") && !StartsAt(value, 0, tail) && '>' !in tail
    ensures !StartsAt(s, p, "<!" + tail)
  {
    var all := "<!" + value + ">";
    StartsAtChars(s, p, all);
    StartsAtSlice(s, p, all);
    if |value| < |tail| && value == tail[..|value|] {
      assert s[p + 2 + |value|] == all[2 + |value|];
      assert tail[|value|] in tail;
      NotStarts(s, p, "<!" + tail, 2 + |value|);
    } else {
      var k := FirstDifference(value, tail);
      assert s[p + 2 + k] == all[2 + k];
      NotStarts(s, p, "<!" + tail, 2 + k);
    }
  }

  lemma FirstDifference(value: string, tail: string) returns (k: nat)
    requires !StartsAt(value, 0, tail) && !(|value| < |tail| && value == tail[..|value|])
    ensures k < |value| && k < |tail| && value[k] != tail[k]
  {
    k := 0;
    while k < |value| && k < |tail| && value[k] == tail[k]
      invariant k <= |value| && k <= |tail| && value[..k] == tail[..k]
    {
      k := k + 1;
    }
  }

  /** A delimited leaf is read back whole. */
  lemma LeafRead(s: string, p: nat, kind: P.Kind, value: string)
    requires Delimited(kind) && StartsAt(s, p, P.Header(kind) + value + P.Terminator(kind))
    requires Plain(value) && !Contains(value, P.Terminator(kind)) && NotDisguised(kind, value)
    ensures var start := p + |P.Header(kind)|; var end := start + |value|;
            && s[p] == '<' && P.Identify(s, p) == kind
            && P.ParseLeaf(s, start, kind) == P.LeafOk(P.Leaf(kind, start, end), end + |P.Terminator(kind)|)
            && Str(s, P.StrPair(start, end, Newlines)) == value
  {
    hide StartsAt;
    hide Contains;
    hide Decode;
    hide P.Identify;
    hide P.Find;
    var header, end := P.Header(kind), P.Terminator(kind);
    HeaderIdentified(s, p, kind, value);
    assert header + value + end == header + (value + end);
    StartsAtBoth(s, p, header, value + end);
    HeaderByte(s, p, kind);
    TerminatorEnds(kind);
    FindBehind(s, p + |header|, value, end);
    StartsAtBoth(s, p + |header|, value, end);
    StartsAtSlice(s, p + |header|, value);
    DecodePlain(value, Newlines);
  }

  lemma HeaderByte(s: string, p: nat, kind: P.Kind)
    requires Delimited(kind) && StartsAt(s, p, P.Header(kind))
    ensures p + |P.Header(kind)| <= |s| && s[p] == '<'
  {
    StartsAtChars(s, p, P.Header(kind));
    assert s[p] == P.Header(kind)[0];
  }

  lemma TerminatorEnds(kind: P.Kind)
    ensures var end := P.Terminator(kind); forall i :: 0 <= i < |end| - 1 ==> end[i] != end[|end| - 1]
  {
  }

  // ----- Text -----

  lemma EscapeInk(s: string, restricted: bool)
    requires HasInk(s)
    ensures HasInk(Escape(s, restricted))
  {
    var e := EscapeChar(s[0], restricted);
    var rest := Escape(s[1..], restricted);
    if !P.IsWhiteSpace(s[0]) {
      assert !P.IsWhiteSpace(e[0]) && (e + rest)[0] == e[0];
    } else {
      var i :| 0 <= i < |s| && !P.IsWhiteSpace(s[i]);
      assert s[1..][i - 1] == s[i];
      EscapeInk(s[1..], restricted);
      var j :| 0 <= j < |rest| && !P.IsWhiteSpace(rest[j]);
      assert (e + rest)[|e| + j] == rest[j];
    }
  }

  /** Escaped text in front of a tag is read back whole, white space included. */
  lemma TextRead(s: string, p: nat, value: string)
    requires Plain(value) && HasInk(value) && StartsAt(s, p, Escape(value, true) + "<")
    requires p + |Escape(value, true)| + 1 < |s|
    ensures var end := p + |Escape(value, true)|; var q := P.SkipWhiteSpace(s, p);
            && q < |s| && P.Identify(s, q) == P.TextKind && p < |s| && s[p] != '<'
            && P.ParseLeaf(s, p, P.TextKind) == P.LeafOk(P.Leaf(P.TextKind, p, end), end)
            && Str(s, P.StrPair(p, end, NewlinesAndEntities)) == value
  {
    hide StartsAt;
    hide Escape;
    hide P.Identify;
    hide P.Find;
    hide Decode;
    var e := Escape(value, true);
    EscapePlain(value, true);
    EscapeInk(value, true);
    StartsAtBoth(s, p, e, "<");
    StartsAtSlice(s, p, e);
    InkReached(s, p, e);
    var q := P.SkipWhiteSpace(s, p);
    NoTagAt(s, q);
    FindChar(s, p, e, '<');
    DecodeEscape(value, true);
  }

  /** Skipping white space stops within content that has some other byte; none of it is a tag. */
  lemma InkReached(s: string, p: nat, e: string)
    requires StartsAt(s, p, e) && HasInk(e) && '<' !in e
    ensures var q := P.SkipWhiteSpace(s, p); q < |s| && s[q] != '<' && p < |s| && s[p] != '<'
  {
    StartsAtSlice(s, p, e);
    StartsAtChars(s, p, e);
    var i :| 0 <= i < |e| && !P.IsWhiteSpace(e[i]);
    var q := P.SkipWhiteSpace(s, p);
    assert s[p + i] == e[i];
    assert q <= p + i;
    assert s[q] == e[q - p] && e[q - p] in e;
    assert s[p] == e[0] && e[0] in e;
  }

  lemma NoTagAt(s: string, q: nat)
    requires q < |s| && s[q] != '<'
    ensures P.Identify(s, q) == P.TextKind
  {
    NotStarts(s, q, "<?", 0);
    NotStarts(s, q, "<!--", 0);
    NotStarts(s, q, "<![CDATA[", 0);
    NotStarts(s, q, "<!", 0);
    NotStarts(s, q, "<", 0);
  }

  // ----- Tags -----

  lemma NameFirst(name: string)
    requires IsName(name)
    ensures !P.IsWhiteSpace(name[0]) && name[0] != '/' && name[0] != '<' && Plain(name)
  {
    assert name[0] in name;
    forall c | c in name ensures c != NUL && c != CR {
      assert P.IsNameChar(c);
    }
  }

  /** A name in front of a byte that cannot continue it. */
  lemma NameRead(s: string, p: nat, name: string, next: char)
    requires IsName(name) && StartsAt(s, p, name + [next]) && !P.IsNameChar(next)
    ensures p + |name| < |s| && s[p] == name[0] && s[p + |name|] == next
    ensures P.NameEnd(s, p + 1) == p + |name| && P.SkipWhiteSpace(s, p) == p
    ensures P.Slice(s, P.StrPair(p, p + |name|, AsIs)) == name && Str(s, P.StrPair(p, p + |name|, AsIs)) == name
  {
    StartsAtBoth(s, p, name, [next]);
    StartsAtSlice(s, p, name);
    CharAt(s, p + |name|, next);
    StartsAtChars(s, p, name);
    NameFirst(name);
    assert s[p] == name[0];
    forall j | p <= j < p + |name| ensures P.IsNameChar(s[j]) {
      assert s[j] == name[j - p] && name[j - p] in name;
    }
    NameEndAt(s, p + 1, p + |name|);
    DecodePlain(name, AsIs);
  }

  lemma {:induction false} NameEndAt(s: string, p: nat, end: nat)
    requires p <= end < |s| && !P.IsNameChar(s[end]) && forall j :: p <= j < end ==> P.IsNameChar(s[j])
    ensures P.NameEnd(s, p) == end
    decreases end - p
  {
    if p < end {
      NameEndAt(s, p + 1, end);
    }
  }

  function RawAttribute(p: nat, a: Attribute): P.RawAttribute {
    var end := p + |a.name|;
    P.RawAttribute(P.StrPair(p, end, AsIs), P.StrPair(end + 2, end + 2 + |Escape(a.value, false)|, NewlinesAndEntities))
  }

  function PrintAttribute(a: Attribute): string {
    a.name + "=\"" + Escape(a.value, false) + "\""
  }

  /** One attribute is read back. */
  lemma AttributeRead(s: string, p: nat, a: Attribute)
    requires IsName(a.name) && Plain(a.value) && StartsAt(s, p, PrintAttribute(a))
    ensures p < |s| && P.IsNameStartChar(s[p])
    ensures P.ParseAttribute(s, p) == P.AttributeOk(RawAttribute(p, a), p + |PrintAttribute(a)|)
    ensures AttributeValue(s, RawAttribute(p, a)) == a && P.Slice(s, RawAttribute(p, a).name) == a.name
  {
    hide StartsAt;
    hide P.Find;
    hide P.NameEnd;
    hide Escape;
    hide Decode;
    var e, end := Escape(a.value, false), p + |a.name|;
    assert PrintAttribute(a) == a.name + ['='] + (['"'] + (e + ['"']));
    StartsAtBoth(s, p, a.name + ['='], ['"'] + (e + ['"']));
    StartsAtBoth(s, end + 1, ['"'], e + ['"']);
    NameRead(s, p, a.name, '=');
    OneByte(s, end + 1, '"');
    EscapePlain(a.value, false);
    FindChar(s, end + 2, e, '"');
    StartsAtBoth(s, end + 2, e, ['"']);
    StartsAtSlice(s, end + 2, e);
    DecodeEscape(a.value, false);
    assert P.SkipWhiteSpace(s, end) == end && P.SkipWhiteSpace(s, end + 1) == end + 1;
    assert [s[end + 1]] == ['"'];
  }

  lemma OneByte(s: string, p: nat, c: char)
    requires StartsAt(s, p, [c])
    ensures p < |s| && s[p] == c
  {
    CharAt(s, p, c);
  }

  predicate CloseTag(close: string) {
    close == ">" || close == "/>"
  }

  lemma TagEnd(s: string, p: nat, close: string, before: seq<P.RawAttribute>)
    requires CloseTag(close) && StartsAt(s, p, close)
    ensures p < |s| && !P.IsNameChar(s[p])
    ensures P.ParseAttributes(s, p, before) == P.AttributesOk(before, p + |close|, close == "/>")
  {
    StartsAtChars(s, p, close);
    StartsAtSlice(s, p, close);
    assert s[p] == close[0];
    if close == "/>" {
      assert s[p + 1] == close[1];
    }
  }

  predicate NewNames(s: string, before: seq<P.RawAttribute>, attributes: seq<Attribute>) {
    forall i, j :: 0 <= i < |before| && 0 <= j < |attributes| ==> P.Slice(s, before[i].name) != attributes[j].name
  }

  /** All the attributes of a tag, up to its end, are read back. */
  lemma {:induction false} AttributesRead(s: string, p: nat, attributes: seq<Attribute>, close: string,
                                          before: seq<P.RawAttribute>)
    returns (raws: seq<P.RawAttribute>)
    requires CanonicalAttributes(attributes) && CloseTag(close) && NewNames(s, before, attributes)
    requires StartsAt(s, p, PrintAttributes(attributes) + close)
    ensures p < |s| && !P.IsNameChar(s[p])
    ensures P.ParseAttributes(s, p, before)
            == P.AttributesOk(before + raws, p + |PrintAttributes(attributes)| + |close|, close == "/>")
    ensures AttributeValues(s, raws) == attributes
    decreases |attributes|
  {
    hide *;
    if attributes == [] {
      raws := [];
      NoAttributes(s);
      assert PrintAttributes(attributes) + close == close && before + raws == before;
      TagEnd(s, p, close, before);
    } else {
      var a, rest := attributes[0], attributes[1..];
      var tail := PrintAttributes(rest) + close;
      var size := |PrintAttribute(a)|;
      PrintAttributesHead(attributes, close);
      StartsAtBoth(s, p, [' '], PrintAttribute(a) + tail);
      OneByte(s, p, ' ');
      StartsAtBoth(s, p + 1, PrintAttribute(a), tail);
      FirstCanonical(attributes);
      AttributeRead(s, p + 1, a);
      var raw := RawAttribute(p + 1, a);
      SpaceThenName(s, p);
      NewNamesNext(s, before, attributes, raw);
      var more := AttributesRead(s, p + 1 + size, rest, close, before + [raw]);
      raws := [raw] + more;
      assert before + raws == before + [raw] + more;
      AttributeValuesHead(s, raw, more);
      NotDuplicate(s, before, attributes, raw);
      ParseAttributesNext(s, p, before, raw, p + 1 + size);
    }
  }

  lemma NoAttributes(s: string)
    ensures AttributeValues(s, []) == [] && PrintAttributes([]) == ""
  {
  }

  lemma FirstCanonical(attributes: seq<Attribute>)
    requires attributes != [] && CanonicalAttributes(attributes)
    ensures IsName(attributes[0].name) && Plain(attributes[0].value)
  {
  }

  lemma PrintAttributesHead(attributes: seq<Attribute>, close: string)
    requires attributes != []
    ensures PrintAttributes(attributes) + close
            == [' '] + (PrintAttribute(attributes[0]) + (PrintAttributes(attributes[1..]) + close))
    ensures |PrintAttributes(attributes)| == 1 + |PrintAttribute(attributes[0])| + |PrintAttributes(attributes[1..])|
  {
    var a, rest := attributes[0], PrintAttributes(attributes[1..]);
    var e := Escape(a.value, false);
    assert PrintAttributes(attributes) == " " + a.name + "=\"" + e + "\"" + rest;
    GroupAttribute(a.name, e, rest, close);
  }

  lemma GroupAttribute(name: string, e: string, rest: string, close: string)
    ensures " " + name + "=\"" + e + "\"" + rest + close == [' '] + ((name + "=\"" + e + "\"") + (rest + close))
  {
  }

  lemma SpaceThenName(s: string, p: nat)
    requires p + 1 < |s| && s[p] == ' ' && P.IsNameStartChar(s[p + 1])
    ensures P.SkipWhiteSpace(s, p) == p + 1 && !P.IsNameChar(s[p])
  {
    assert P.SkipWhiteSpace(s, p + 1) == p + 1;
  }

  lemma NewNamesNext(s: string, before: seq<P.RawAttribute>, attributes: seq<Attribute>, raw: P.RawAttribute)
    requires attributes != [] && CanonicalAttributes(attributes) && NewNames(s, before, attributes)
    requires P.Slice(s, raw.name) == attributes[0].name
    ensures CanonicalAttributes(attributes[1..]) && NewNames(s, before + [raw], attributes[1..])
  {
  }

  lemma NotDuplicate(s: string, before: seq<P.RawAttribute>, attributes: seq<Attribute>, raw: P.RawAttribute)
    requires attributes != [] && NewNames(s, before, attributes) && P.Slice(s, raw.name) == attributes[0].name
    ensures !P.HasName(s, before, raw.name)
  {
  }

  lemma ParseAttributesNext(s: string, p: nat, before: seq<P.RawAttribute>, raw: P.RawAttribute, next: nat)
    requires p + 1 < |s| && P.SkipWhiteSpace(s, p) == p + 1 && P.IsNameStartChar(s[p + 1])
    requires P.ParseAttribute(s, p + 1) == P.AttributeOk(raw, next) && !P.HasName(s, before, raw.name)
    ensures next <= |s| && P.ParseAttributes(s, p, before) == P.ParseAttributes(s, next, before + [raw])
  {
  }

  lemma AttributeValuesHead(s: string, raw: P.RawAttribute, more: seq<P.RawAttribute>)
    ensures AttributeValues(s, [raw] + more) == [AttributeValue(s, raw)] + AttributeValues(s, more)
  {
    assert ([raw] + more)[1..] == more;
  }

  // ----- Elements and lists -----

  lemma ElementHere(s: string, p: nat)
    requires p + 1 < |s| && s[p] == '<' && s[p + 1] != '?' && s[p + 1] != '!'
    ensures P.SkipWhiteSpace(s, p) == p && P.Identify(s, p) == P.ElementKind
  {
    NotStarts(s, p, "<?", 1);
    NotStarts(s, p, "<!--", 1);
    NotStarts(s, p, "<![CDATA[", 1);
    NotStarts(s, p, "<!", 1);
    assert s[p..p + 1] == "<";
  }

  /** An end tag ends the list it is met in. */
  lemma EndTagRead(s: string, p: nat, name: string, depth: nat, before: seq<P.Node>)
    requires IsName(name) && StartsAt(s, p, "</" + name + ">")
    ensures var tag := P.StrPair(p + 2, p + 2 + |name|, AsIs);
            && P.Slice(s, tag) == name && p + |name| + 3 <= |s|
            && P.ParseNodes(s, p, depth, false, before) == P.NodesResult(before, P.AtEndTag(tag, p + |name| + 3))
  {
    hide StartsAt;
    hide P.Identify;
    hide P.NameEnd;
    hide P.ParseAttributes;
    hide P.ParseNodes;
    hide P.SkipWhiteSpace;
    hide P.Slice;
    hide Decode;
    assert "</" + name + ">" == "</" + (name + ['>']);
    StartsAtBoth(s, p, "</", name + ['>']);
    StartsAtBoth(s, p + 2, name, ['>']);
    EndTagContinues(s, p, name);
    SlashHere(s, p);
    NameRead(s, p + 2, name, '>');
    var empty: seq<P.RawAttribute> := [];
    TagEnd(s, p + 2 + |name|, ">", empty);
    P.Turn(s, p, depth, false, before);
  }

  lemma SlashHere(s: string, p: nat)
    requires StartsAt(s, p, "</")
    ensures p + 1 < |s| && s[p] == '<' && s[p + 1] == '/'
    ensures P.SkipWhiteSpace(s, p) == p && P.Identify(s, p) == P.ElementKind && P.SkipWhiteSpace(s, p + 1) == p + 1
  {
    StartsAtChars(s, p, "</");
    assert s[p] == '<' && s[p + 1] == '/';
    ElementHere(s, p);
  }

  predicate Continues(s: string, p: nat) {
    p + 1 < |s| && s[p] == '<'
  }

  /** All nodes but plain text start with a tag that has more than one byte. */
  lemma PrintedTag(n: Xml)
    requires !PlainText(n)
    ensures |PrintNode(n)| >= 2 && PrintNode(n)[0] == '<'
  {
  }

  ghost predicate TextContinues(s: string, p: nat, ns: seq<Xml>) {
    ns != [] && PlainText(ns[|ns| - 1]) ==> Continues(s, p + |PrintNodes(ns)|)
  }

  ghost predicate DeclarationsFirst(ns: seq<Xml>, isDocument: bool, before: seq<P.Node>) {
    ns != [] && ns[0].Declaration? ==> isDocument && forall i :: 0 <= i < |before| ==> before[i].Declaration?
  }

  lemma LeafNodeRead(s: string, p: nat, kind: P.Kind, value: string, depth: nat, isDocument: bool, before: seq<P.Node>)
    returns (raw: P.Node)
    requires Delimited(kind) && StartsAt(s, p, P.Header(kind) + value + P.Terminator(kind))
    requires Plain(value) && !Contains(value, P.Terminator(kind)) && NotDisguised(kind, value)
    requires kind.DeclarationKind? ==> P.WellLocated(isDocument, before)
    ensures var start := p + |P.Header(kind)|; var end := start + |value|;
            && p < |s| && raw == P.Leaf(kind, start, end) && Str(s, P.StrPair(start, end, Newlines)) == value
            && P.NextNode(s, p, depth, isDocument, before) == P.Go(raw, end + |P.Terminator(kind)|)
  {
    hide StartsAt;
    hide P.Identify;
    hide P.ParseLeaf;
    hide Decode;
    hide Contains;
    LeafRead(s, p, kind, value);
    StartsAtSlice(s, p, P.Header(kind) + value + P.Terminator(kind));
    assert P.SkipWhiteSpace(s, p) == p;
    raw := P.Leaf(kind, p + |P.Header(kind)|, p + |P.Header(kind)| + |value|);
  }

  lemma TextNodeRead(s: string, p: nat, value: string, depth: nat, isDocument: bool, before: seq<P.Node>)
    returns (raw: P.Node)
    requires Plain(value) && HasInk(value) && StartsAt(s, p, Escape(value, true))
    requires Continues(s, p + |Escape(value, true)|)
    ensures var end := p + |Escape(value, true)|;
            && p < |s| && raw == P.Leaf(P.TextKind, p, end) && Str(s, P.StrPair(p, end, NewlinesAndEntities)) == value
            && P.NextNode(s, p, depth, isDocument, before) == P.Go(raw, end)
  {
    hide StartsAt;
    hide P.Identify;
    hide P.ParseLeaf;
    hide Decode;
    var e := Escape(value, true);
    LessThanStarts(s, p + |e|);
    StartsAtBoth(s, p, e, "<");
    TextRead(s, p, value);
    raw := P.Leaf(P.TextKind, p, p + |e|);
  }

  lemma LessThanStarts(s: string, p: nat)
    requires Continues(s, p)
    ensures StartsAt(s, p, "<")
  {
    assert s[p..p + 1] == "<";
  }

  /** A node is read back, wherever it stands. */
  lemma {:induction false} NodeRead(s: string, p: nat, n: Xml, depth: nat, isDocument: bool, before: seq<P.Node>)
    returns (raw: P.Node)
    requires StartsAt(s, p, PrintNode(n)) && CanonicalNode(n, depth)
    requires PlainText(n) ==> Continues(s, p + |PrintNode(n)|)
    requires n.Declaration? ==> P.WellLocated(isDocument, before)
    ensures p < |s| && P.NextNode(s, p, depth, isDocument, before) == P.Go(raw, p + |PrintNode(n)|)
    ensures Value(s, raw) == n
    decreases n, 0
  {
    hide StartsAt;
    hide P.NextNode;
    hide Contains;
    hide Decode;
    hide CanonicalList;
    hide CanonicalAttributes;
    hide PrintNodes;
    hide PrintAttributes;
    hide Escape;
    hide Values;
    hide AttributeValues;
    match n
    case Element(name, attributes, children) =>
      raw := ElementRead(s, p, name, attributes, children, depth, isDocument, before);
    case Text(value, cdata) =>
      if cdata {
        raw := LeafNodeRead(s, p, P.CDataKind, value, depth, isDocument, before);
      } else {
        raw := TextNodeRead(s, p, value, depth, isDocument, before);
      }
    case Comment(value) => raw := LeafNodeRead(s, p, P.CommentKind, value, depth, isDocument, before);
    case Declaration(value) => raw := LeafNodeRead(s, p, P.DeclarationKind, value, depth, isDocument, before);
    case Unknown(value) => raw := LeafNodeRead(s, p, P.UnknownKind, value, depth, isDocument, before);
  }

  function CloseOf(children: seq<Xml>): string {
    if children == [] then "/>" else ">"
  }

  function BodyOf(name: string, children: seq<Xml>): string {
    if children == [] then "" else PrintNodes(children) + "</" + name + ">"
  }

  lemma {:induction false} ElementRead(s: string, p: nat, name: string, attributes: seq<Attribute>, children: seq<Xml>,
                                       depth: nat, isDocument: bool, before: seq<P.Node>)
    returns (raw: P.Node)
    requires StartsAt(s, p, PrintNode(Element(name, attributes, children)))
    requires CanonicalNode(Element(name, attributes, children), depth)
    ensures p < |s|
    ensures P.NextNode(s, p, depth, isDocument, before) == P.Go(raw, p + |PrintNode(Element(name, attributes, children))|)
    ensures Value(s, raw) == Element(name, attributes, children)
    decreases children, 2
  {
    hide *;
    var close, body, attrs := CloseOf(children), BodyOf(name, children), PrintAttributes(attributes);
    PrintedElement(name, attributes, children, depth);
    StartsAtBoth(s, p, "<", name + ((attrs + close) + body));
    StartsAtBoth(s, p + 1, name, (attrs + close) + body);
    var nameEnd := p + 1 + |name|;
    StartsAtBoth(s, nameEnd, attrs + close, body);
    StartsAtSlice(s, nameEnd, attrs + close);
    var empty: seq<P.RawAttribute> := [];
    NoNames(s, attributes);
    var raws := AttributesRead(s, nameEnd, attributes, close, empty);
    assert empty + raws == raws;
    OneByte(s, p, '<');
    TagName(s, p + 1, name);
    var next := nameEnd + |attrs| + |close|;
    var kids := BodyRead(s, next, name, children, depth);
    var pair := P.StrPair(p + 1, nameEnd, AsIs);
    var after := next + |body|;
    raw := P.Element(pair, raws, kids);
    if children == [] {
      SealedElement(s, p, nameEnd, raws, next, depth, isDocument, before);
    } else {
      var tag := P.StrPair(after - 1 - |name|, after - 1, AsIs);
      OpenElement(s, p, nameEnd, raws, next, kids, tag, after, depth, isDocument, before);
    }
    ElementValue(s, pair, raws, kids);
  }

  lemma PrintedElement(name: string, attributes: seq<Attribute>, children: seq<Xml>, depth: nat)
    requires CanonicalNode(Element(name, attributes, children), depth)
    ensures PrintNode(Element(name, attributes, children))
            == "<" + (name + ((PrintAttributes(attributes) + CloseOf(children)) + BodyOf(name, children)))
    ensures CloseTag(CloseOf(children)) && (CloseOf(children) == "/>" <==> children == [])
    ensures IsName(name) && CanonicalAttributes(attributes)
    ensures children == [] ==> BodyOf(name, children) == ""
    ensures children != [] ==> depth + 1 < P.MAX_ELEMENT_DEPTH && CanonicalList(children, depth + 1, false)
  {
    hide PrintNodes;
    hide PrintAttributes;
    hide CanonicalList;
    hide CanonicalAttributes;
    var attrs, close, body := PrintAttributes(attributes), CloseOf(children), BodyOf(name, children);
    if children != [] {
      assert ">" + PrintNodes(children) + "</" + name + ">" == close + body;
    }
    assert PrintNode(Element(name, attributes, children)) == "<" + name + attrs + (close + body);
    Regroup("<", name, attrs, close, body);
  }

  lemma Regroup(a: string, b: string, c: string, d: string, e: string)
    ensures a + b + c + (d + e) == a + (b + ((c + d) + e))
  {
  }

  lemma NoNames(s: string, attributes: seq<Attribute>)
    ensures NewNames(s, [], attributes)
  {
  }

  lemma ElementValue(s: string, name: P.StrPair, raws: seq<P.RawAttribute>, kids: seq<P.Node>)
    ensures Value(s, P.Element(name, raws, kids)) == Element(Str(s, name), AttributeValues(s, raws), Values(s, kids))
  {
  }

  predicate NameHere(s: string, p: nat, nameEnd: nat) {
    && p + 1 < nameEnd <= |s| && P.SkipWhiteSpace(s, p) == p && P.Identify(s, p) == P.ElementKind
    && P.SkipWhiteSpace(s, p + 1) == p + 1 && s[p + 1] != '/' && P.IsNameStartChar(s[p + 1])
    && P.NameEnd(s, p + 2) == nameEnd
  }

  lemma SealedElement(s: string, p: nat, nameEnd: nat, raws: seq<P.RawAttribute>, next: nat,
                      depth: nat, isDocument: bool, before: seq<P.Node>)
    requires NameHere(s, p, nameEnd) && next <= |s| && P.ParseAttributes(s, nameEnd, []) == P.AttributesOk(raws, next, true)
    ensures P.NextNode(s, p, depth, isDocument, before) == P.Go(P.Element(P.StrPair(p + 1, nameEnd, AsIs), raws, []), next)
  {
    hide P.ParseNodes;
    hide P.ParseAttributes;
  }

  lemma OpenElement(s: string, p: nat, nameEnd: nat, raws: seq<P.RawAttribute>, next: nat, kids: seq<P.Node>,
                    tag: P.StrPair, after: nat, depth: nat, isDocument: bool, before: seq<P.Node>)
    requires NameHere(s, p, nameEnd) && next < |s| && P.ParseAttributes(s, nameEnd, []) == P.AttributesOk(raws, next, false)
    requires depth + 1 < P.MAX_ELEMENT_DEPTH
    requires P.ParseNodes(s, next, depth + 1, false, []) == P.NodesResult(kids, P.AtEndTag(tag, after))
    requires P.Slice(s, tag) == P.Slice(s, P.StrPair(p + 1, nameEnd, AsIs))
    ensures P.NextNode(s, p, depth, isDocument, before)
            == P.Go(P.Element(P.StrPair(p + 1, nameEnd, AsIs), raws, kids), after)
  {
    hide P.ParseNodes;
    hide P.ParseAttributes;
    hide P.Slice;
    assert P.ParseElement(s, p + 1, depth)
        == P.ElementOk(P.StrPair(p + 1, nameEnd, AsIs), raws, kids, P.Open, P.Tag(tag), after);
  }

  /** A name in front of whatever byte stands behind it, if that cannot continue it. */
  lemma TagName(s: string, p: nat, name: string)
    requires 0 < p <= |s| && s[p - 1] == '<'
    requires IsName(name) && StartsAt(s, p, name) && p + |name| < |s| && !P.IsNameChar(s[p + |name|])
    ensures NameHere(s, p - 1, p + |name|)
    ensures P.Slice(s, P.StrPair(p, p + |name|, AsIs)) == name && Str(s, P.StrPair(p, p + |name|, AsIs)) == name
  {
    var next := s[p + |name|];
    assert s[p + |name|..p + |name| + 1] == [next];
    StartsAtBoth(s, p, name, [next]);
    NameRead(s, p, name, next);
    NameFirst(name);
    assert name[0] in name;
    ElementHere(s, p - 1);
  }

  /** What follows a start tag: nothing if it was sealed, or the children and the end tag. */
  lemma {:induction false} BodyRead(s: string, p: nat, name: string, children: seq<Xml>, depth: nat)
    returns (kids: seq<P.Node>)
    requires p <= |s| && StartsAt(s, p, BodyOf(name, children)) && IsName(name)
    requires children != [] ==> depth + 1 < P.MAX_ELEMENT_DEPTH && CanonicalList(children, depth + 1, false)
    ensures Values(s, kids) == children
    ensures children == [] ==> kids == []
    ensures children != [] ==>
              var after := p + |BodyOf(name, children)|;
              var tag := P.StrPair(after - 1 - |name|, after - 1, AsIs);
              && p < |s| && after <= |s| && P.Slice(s, tag) == name
              && P.ParseNodes(s, p, depth + 1, false, []) == P.NodesResult(kids, P.AtEndTag(tag, after))
    decreases children, 1
  {
    hide *;
    if children == [] {
      kids := [];
      NothingRead(s);
    } else {
      var printed, endTag := PrintNodes(children), "</" + name + ">";
      BodyParts(name, children);
      StartsAtBoth(s, p, printed, endTag);
      EndTagContinues(s, p + |printed|, name);
      TagBehindText(s, p, children);
      var empty: seq<P.Node> := [];
      NoDeclarations(children, depth + 1);
      kids := ListRead(s, p, children, depth + 1, false, empty);
      assert empty + kids == kids;
      EndTagRead(s, p + |printed|, name, depth + 1, kids);
    }
  }

  lemma BodyParts(name: string, children: seq<Xml>)
    requires children != []
    ensures BodyOf(name, children) == PrintNodes(children) + ("</" + name + ">")
  {
    hide PrintNodes;
  }

  lemma TagBehindText(s: string, p: nat, ns: seq<Xml>)
    requires Continues(s, p + |PrintNodes(ns)|)
    ensures TextContinues(s, p, ns)
  {
  }

  lemma NoDeclarations(ns: seq<Xml>, depth: nat)
    requires CanonicalList(ns, depth, false)
    ensures DeclarationsFirst(ns, false, [])
  {
  }

  lemma EndTagContinues(s: string, p: nat, name: string)
    requires StartsAt(s, p, "</" + name + ">")
    ensures Continues(s, p) && p + |name| + 3 <= |s|
  {
    StartsAtChars(s, p, "</" + name + ">");
    assert s[p] == ("</" + name + ">")[0];
  }

  /** A list of nodes is read back up to where it was printed. */
  lemma {:induction false} ListRead(s: string, p: nat, ns: seq<Xml>, depth: nat, isDocument: bool, before: seq<P.Node>)
    returns (raws: seq<P.Node>)
    requires StartsAt(s, p, PrintNodes(ns)) && CanonicalList(ns, depth, isDocument)
    requires TextContinues(s, p, ns) && DeclarationsFirst(ns, isDocument, before)
    ensures p + |PrintNodes(ns)| <= |s|
    ensures P.ParseNodes(s, p, depth, isDocument, before)
            == P.ParseNodes(s, p + |PrintNodes(ns)|, depth, isDocument, before + raws)
    ensures Values(s, raws) == ns
    decreases ns, 0
  {
    hide *;
    StartsAtSlice(s, p, PrintNodes(ns));
    if ns == [] {
      raws := [];
      assert before + raws == before;
      NothingRead(s);
    } else {
      var n, rest := ns[0], ns[1..];
      PrintNodesHead(ns);
      StartsAtBoth(s, p, PrintNode(n), PrintNodes(rest));
      TextThenTag(s, p, ns, depth, isDocument);
      CanonicalHead(ns, depth, isDocument, before);
      var raw := NodeRead(s, p, n, depth, isDocument, before);
      RestCanonical(s, ns, depth, isDocument, before, raw);
      P.Turn(s, p, depth, isDocument, before);
      var more := ListRead(s, p + |PrintNode(n)|, rest, depth, isDocument, before + [raw]);
      raws := [raw] + more;
      assert before + raws == before + [raw] + more;
      ValuesHead(s, raw, more);
    }
  }

  lemma NothingRead(s: string)
    ensures Values(s, []) == [] && PrintNodes([]) == ""
  {
  }

  lemma PrintNodesHead(ns: seq<Xml>)
    requires ns != []
    ensures PrintNodes(ns) == PrintNode(ns[0]) + PrintNodes(ns[1..])
  {
  }

  lemma ValuesHead(s: string, raw: P.Node, more: seq<P.Node>)
    ensures Values(s, [raw] + more) == [Value(s, raw)] + Values(s, more)
  {
    assert ([raw] + more)[1..] == more;
  }

  lemma CanonicalHead(ns: seq<Xml>, depth: nat, isDocument: bool, before: seq<P.Node>)
    requires ns != [] && CanonicalList(ns, depth, isDocument) && DeclarationsFirst(ns, isDocument, before)
    ensures CanonicalNode(ns[0], depth) && (ns[0].Declaration? ==> P.WellLocated(isDocument, before))
  {
  }

  lemma TextThenTag(s: string, p: nat, ns: seq<Xml>, depth: nat, isDocument: bool)
    requires ns != [] && StartsAt(s, p, PrintNodes(ns)) && TextContinues(s, p, ns) && CanonicalList(ns, depth, isDocument)
    ensures PlainText(ns[0]) ==> Continues(s, p + |PrintNode(ns[0])|)
    ensures TextContinues(s, p + |PrintNode(ns[0])|, ns[1..])
  {
    var n, rest := ns[0], ns[1..];
    if PlainText(n) && rest != [] {
      assert !PlainText(ns[1]) && rest[0] == ns[1];
      PrintedTag(rest[0]);
      StartsAtBoth(s, p, PrintNode(n), PrintNodes(rest));
      StartsAtChars(s, p + |PrintNode(n)|, PrintNodes(rest));
      StartsAtSlice(s, p + |PrintNode(n)|, PrintNodes(rest));
      assert s[p + |PrintNode(n)|] == PrintNodes(rest)[0];
    }
  }

  lemma RestCanonical(s: string, ns: seq<Xml>, depth: nat, isDocument: bool, before: seq<P.Node>, raw: P.Node)
    requires ns != [] && CanonicalList(ns, depth, isDocument) && DeclarationsFirst(ns, isDocument, before)
    requires Value(s, raw) == ns[0]
    ensures CanonicalList(ns[1..], depth, isDocument) && DeclarationsFirst(ns[1..], isDocument, before + [raw])
  {
    var rest := ns[1..];
    if rest != [] && rest[0].Declaration? {
      assert rest[0] == ns[1];
      assert ns[0].Declaration?;
    }
  }

  // ----- The document -----

  lemma {:induction false} AttributesPlain(attributes: seq<Attribute>)
    requires CanonicalAttributes(attributes)
    ensures NUL !in PrintAttributes(attributes)
  {
    if attributes != [] {
      NameFirst(attributes[0].name);
      EscapePlain(attributes[0].value, false);
      AttributesPlain(attributes[1..]);
    }
  }

  lemma {:induction false} PrintedPlain(n: Xml, depth: nat)
    requires CanonicalNode(n, depth)
    ensures NUL !in PrintNode(n)
    decreases n, 0
  {
    match n
    case Element(name, attributes, children) =>
      NameFirst(name);
      AttributesPlain(attributes);
      if children != [] {
        ListPlain(children, depth + 1);
      }
    case Text(value, cdata) => EscapePlain(value, true);
    case _ =>
  }

  lemma {:induction false} ListPlain(ns: seq<Xml>, depth: nat)
    requires forall i :: 0 <= i < |ns| ==> CanonicalNode(ns[i], depth)
    ensures NUL !in PrintNodes(ns)
    decreases ns, 0
  {
    if ns != [] {
      PrintedPlain(ns[0], depth);
      ListPlain(ns[1..], depth);
    }
  }

  /** The round trip: printing a canonical document and parsing the bytes gives back the byte order mark,
      the nodes, their names, the attributes in order, and every value. */
  lemma RoundTrip(bom: bool, nodes: seq<Xml>)
    requires Canonical(nodes)
    ensures var text := Printed(bom, nodes);
            var r := P.ParseDocument(text);
            r.Parsed? && r.bom == bom && Values(text, r.nodes) == nodes
  {
    hide PrintNodes;
    hide CanonicalList;
    hide P.ParseNodes;
    hide Values;
    var text, printed := Printed(bom, nodes), PrintNodes(nodes);
    DocumentShape(nodes);
    assert CString(text) == text;
    var start := if bom then 3 else 0;
    assert text[start..] == printed;
    assert StartsAt(text, start, printed);
    FirstBytes(text, bom);
    var empty: seq<P.Node> := [];
    var raws := ListRead(text, start, nodes, 1, true, empty);
    P.AtInputEnd(text, 1, true, empty + raws);
    assert empty + raws == raws;
  }

  lemma DocumentShape(nodes: seq<Xml>)
    requires Canonical(nodes)
    ensures NUL !in PrintNodes(nodes) && |PrintNodes(nodes)| >= 2 && PrintNodes(nodes)[0] == '<'
    ensures forall s, p :: TextContinues(s, p, nodes)
    ensures DeclarationsFirst(nodes, true, [])
  {
    ListPlain(nodes, 1);
    PrintedTag(nodes[0]);
  }

  lemma FirstBytes(text: string, bom: bool)
    requires bom ==> |text| >= 3 && text[..3] == BOM
    requires !bom ==> text != "" && text[0] == '<'
    ensures P.SkipWhiteSpace(text, 0) == 0 && (StartsAt(text, 0, BOM) <==> bom)
  {
    if bom {
      assert text[0..3] == text[..3];
      assert text[0] == BOM[0];
    } else {
      NotStarts(text, 0, BOM, 0);
    }
  }
}
