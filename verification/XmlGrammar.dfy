/** The language that the parser accepts, as a grammar over the bytes, and that it accepts exactly that. */
module XmlGrammar {
  import opened XmlText
  import opened XmlParse

  // ----- White space and names -----

  predicate IsBlank(c: char) {
    c as int == 32 || 9 <= c as int <= 13
  }

  predicate StartsName(c: char) {
    c as int >= 128 || 65 <= c as int <= 90 || 97 <= c as int <= 122 || c as int == 58 || c as int == 95
  }

  predicate InName(c: char) {
    StartsName(c) || 48 <= c as int <= 57 || c as int == 46 || c as int == 45
  }

  /** White space only, or nothing. */
  predicate Blank(s: string, p: nat, q: nat) {
    p <= q <= |s| && forall j :: p <= j < q ==> IsBlank(s[j])
  }

  /** A name, as long as it goes. */
  predicate NameAt(s: string, name: StrPair) {
    && name.mode.AsIs? && name.start < name.end <= |s| && StartsName(s[name.start])
    && (forall j :: name.start < j < name.end ==> InName(s[j]))
    && (name.end < |s| ==> !InName(s[name.end]))
  }

  lemma CharsMean(c: char)
    ensures IsWhiteSpace(c) == IsBlank(c) && IsNameStartChar(c) == StartsName(c) && IsNameChar(c) == InName(c)
  {
  }

  /** How the parser finds the end of white space and of a name. */
  predicate Gap(s: string, p: nat, q: nat) {
    p <= |s| && q == SkipWhiteSpace(s, p)
  }

  predicate NameTo(s: string, name: StrPair) {
    && name.mode.AsIs? && name.start < |s| && IsNameStartChar(s[name.start]) && name.end == NameEnd(s, name.start + 1)
  }

  lemma Skipped(s: string, p: nat, q: nat)
    requires p <= |s|
    ensures Gap(s, p, q) <==> Blank(s, p, q) && (q < |s| ==> !IsBlank(s[q]))
  {
    forall j | 0 <= j < |s| ensures IsWhiteSpace(s[j]) == IsBlank(s[j]) {
      CharsMean(s[j]);
    }
    hide SkipWhiteSpace;
    hide IsWhiteSpace;
    hide IsBlank;
  }

  lemma Named(s: string, name: StrPair)
    ensures NameAt(s, name) <==> NameTo(s, name)
  {
    forall j | 0 <= j < |s| ensures IsNameChar(s[j]) == InName(s[j]) && IsNameStartChar(s[j]) == StartsName(s[j]) {
      CharsMean(s[j]);
    }
    hide NameEnd;
    hide IsNameChar;
    hide InName;
    hide IsNameStartChar;
    hide StartsName;
  }

  // ----- Attributes -----

  predicate IsQuote(c: char) { c as int == 34 || c as int == 39 }

  /** Between two equal quotes, and without that quote inside. */
  predicate QuotedAt(s: string, quote: nat, value: StrPair) {
    && value.mode.NewlinesAndEntities? && value.start == quote + 1 <= value.end < |s|
    && IsQuote(s[quote]) && s[value.end] == s[quote]
    && forall j :: value.start <= j < value.end ==> s[j] != s[quote]
  }

  /** A name, an equals sign and a quoted value, with any white space around the sign. */
  ghost predicate AttributeAt(s: string, a: RawAttribute, next: nat) {
    && NameAt(s, a.name) && next == a.value.end + 1
    && exists equals: nat :: Assigned(s, a, equals)
  }

  predicate Assigned(s: string, a: RawAttribute, equals: nat) {
    && Blank(s, a.name.end, equals) && equals < |s| && s[equals] == '='
    && a.value.start > 0 && Blank(s, equals + 1, a.value.start - 1) && QuotedAt(s, a.value.start - 1, a.value)
  }

  /** How the parser finds the end of a quoted value. */
  predicate QuoteTo(s: string, quote: nat, value: StrPair) {
    && value.mode.NewlinesAndEntities? && value.start == quote + 1 && quote < |s| && IsQuote(s[quote])
    && value.end == Find(s, quote + 1, [s[quote]])
  }

  lemma FoundQuote(s: string, quote: nat, value: StrPair)
    ensures QuotedAt(s, quote, value) <==> QuoteTo(s, quote, value)
  {
    if quote < |s| {
      forall j | 0 <= j ensures StartsAt(s, j, [s[quote]]) <==> j < |s| && s[j] == s[quote] {
        OneByte(s, j, s[quote]);
      }
    }
    hide Find;
    hide StartsAt;
    hide IsQuote;
  }

  lemma OneByte(s: string, j: nat, c: char)
    ensures StartsAt(s, j, [c]) <==> j < |s| && s[j] == c
  {
    if j < |s| {
      assert s[j..j + 1] == [s[j]];
    }
  }

  /** An attribute, as the parser finds it. */
  predicate Found(s: string, a: RawAttribute, equals: nat) {
    && NameTo(s, a.name) && Gap(s, a.name.end, equals) && equals < |s| && s[equals] == '='
    && a.value.start > 0 && Gap(s, equals + 1, a.value.start - 1) && QuoteTo(s, a.value.start - 1, a.value)
  }

  lemma FoundMeans(s: string, a: RawAttribute, equals: nat)
    ensures Found(s, a, equals) <==> NameAt(s, a.name) && Assigned(s, a, equals)
  {
    Named(s, a.name);
    if a.name.end <= |s| {
      Skipped(s, a.name.end, equals);
    }
    if a.value.start > 0 {
      if equals < |s| {
        Skipped(s, equals + 1, a.value.start - 1);
      }
      FoundQuote(s, a.value.start - 1, a.value);
    }
    hide Gap;
    hide Blank;
    hide NameTo;
    hide NameAt;
    hide QuoteTo;
    hide QuotedAt;
  }

  lemma AttributeFound(s: string, p: nat, a: RawAttribute, next: nat) returns (equals: nat)
    requires p < |s| && IsNameStartChar(s[p]) && ParseAttribute(s, p) == AttributeOk(a, next)
    ensures a.name.start == p && Found(s, a, equals) && next == a.value.end + 1
  {
    equals := SkipWhiteSpace(s, a.name.end);
    hide SkipWhiteSpace;
    hide Find;
    hide NameEnd;
    hide IsNameStartChar;
  }

  lemma FoundIsRead(s: string, a: RawAttribute, equals: nat)
    requires Found(s, a, equals)
    ensures ParseAttribute(s, a.name.start) == AttributeOk(a, a.value.end + 1)
  {
    hide SkipWhiteSpace;
    hide Find;
    hide NameEnd;
    hide IsNameStartChar;
  }

  /** The parser accepts exactly these, with exactly the ranges of name and value. */
  lemma AttributeExactly(s: string, p: nat, a: RawAttribute, next: nat)
    requires p < |s| && IsNameStartChar(s[p])
    ensures ParseAttribute(s, p) == AttributeOk(a, next) <==> a.name.start == p && AttributeAt(s, a, next)
  {
    hide ParseAttribute;
    hide Found;
    hide NameAt;
    hide Assigned;
    hide IsNameStartChar;
    if ParseAttribute(s, p) == AttributeOk(a, next) {
      var equals := AttributeFound(s, p, a, next);
      FoundMeans(s, a, equals);
    }
    if a.name.start == p && AttributeAt(s, a, next) {
      var equals: nat :| Assigned(s, a, equals);
      FoundMeans(s, a, equals);
      FoundIsRead(s, a, equals);
    }
  }

  // ----- Tags -----

  /** White space and the end of a tag. */
  ghost predicate TagEnd(s: string, p: nat, next: nat, isSealed: bool) {
    if isSealed then 2 <= next <= |s| && Blank(s, p, next - 2) && s[next - 2] == '/' && s[next - 1] == '>'
    else 1 <= next <= |s| && Blank(s, p, next - 1) && s[next - 1] == '>'
  }

  /** Attributes, any white space in front of each, and the end of the tag. */
  ghost predicate TagRest(s: string, p: nat, attributes: seq<RawAttribute>, next: nat, isSealed: bool)
    decreases attributes
  {
    if attributes == [] then TagEnd(s, p, next, isSealed)
    else Blank(s, p, attributes[0].name.start) && AttributeAt(s, attributes[0], attributes[0].value.end + 1)
         && TagRest(s, attributes[0].value.end + 1, attributes[1..], next, isSealed)
  }

  predicate Different(s: string, attributes: seq<RawAttribute>) {
    forall i, j :: 0 <= i < j < |attributes| ==> Slice(s, attributes[i].name) != Slice(s, attributes[j].name)
  }

  lemma OneMoreDifferent(s: string, before: seq<RawAttribute>, a: RawAttribute)
    requires Different(s, before)
    ensures Different(s, before + [a]) <==> !HasName(s, before, a.name)
  {
    var all := before + [a];
    if Different(s, all) {
      forall i | 0 <= i < |before| ensures Slice(s, before[i].name) != Slice(s, a.name) {
        assert all[i] == before[i] && all[|before|] == a;
      }
    }
  }

  lemma EarlierDifferent(s: string, before: seq<RawAttribute>, more: seq<RawAttribute>)
    requires Different(s, before + more)
    ensures Different(s, before)
  {
    forall i, j | 0 <= i < j < |before| ensures Slice(s, before[i].name) != Slice(s, before[j].name) {
      assert (before + more)[i] == before[i] && (before + more)[j] == before[j];
    }
  }

  lemma OneFurther(before: seq<RawAttribute>, attributes: seq<RawAttribute>)
    requires attributes != []
    ensures (before + [attributes[0]]) + attributes[1..] == before + attributes
  {
  }

  lemma WhereGapEnds(s: string, p: nat) returns (q: nat)
    requires p <= |s|
    ensures Gap(s, p, q) && p <= q <= |s|
  {
    q := SkipWhiteSpace(s, p);
  }

  /** One turn of the attribute loop. */
  lemma TagTurn(s: string, p: nat, q: nat, before: seq<RawAttribute>)
    requires Gap(s, p, q)
    ensures var r := ParseAttributes(s, p, before);
            if q >= |s| then r == AttributesFail(ParsingElement)
            else if StartsName(s[q]) then
              && IsNameStartChar(s[q]) && var found := ParseAttribute(s, q);
              if found.AttributeFail? || HasName(s, before, found.attribute.name)
              then r == AttributesFail(ParsingAttribute)
              else r == ParseAttributes(s, found.next, before + [found.attribute])
            else if s[q] == '>' then r == AttributesOk(before, q + 1, false)
            else if s[q] == '/' && q + 1 < |s| && s[q + 1] == '>' then r == AttributesOk(before, q + 2, true)
            else r == AttributesFail(ParsingElement)
  {
    if q < |s| {
      CharsMean(s[q]);
    }
    hide SkipWhiteSpace;
    hide ParseAttribute;
    hide HasName;
    hide StartsName;
    hide IsNameStartChar;
  }

  lemma {:induction false} TagSound(s: string, p: nat, before: seq<RawAttribute>) returns (attributes: seq<RawAttribute>)
    requires p <= |s| && Different(s, before) && ParseAttributes(s, p, before).AttributesOk?
    ensures var r := ParseAttributes(s, p, before);
            && r.attributes == before + attributes && Different(s, r.attributes)
            && TagRest(s, p, attributes, r.next, r.isSealed)
    decreases |s| - p
  {
    var q := WhereGapEnds(s, p);
    Skipped(s, p, q);
    TagTurn(s, p, q, before);
    hide ParseAttributes;
    hide ParseAttribute;
    hide Gap;
    hide Different;
    hide HasName;
    hide AttributeAt;
    hide StartsName;
    hide IsNameStartChar;
    if StartsName(s[q]) {
      var a := ParseAttribute(s, q);
      AttributeExactly(s, q, a.attribute, a.next);
      OneMoreDifferent(s, before, a.attribute);
      AttributeEnd(s, a.attribute, a.next);
      var rest := TagSound(s, a.next, before + [a.attribute]);
      attributes := [a.attribute] + rest;
      hide Blank;
      assert attributes[1..] == rest;
      OneFurther(before, attributes);
    } else {
      attributes := [];
      assert before + [] == before;
    }
  }

  lemma AttributeEnd(s: string, a: RawAttribute, next: nat)
    requires AttributeAt(s, a, next)
    ensures next == a.value.end + 1 <= |s| && a.name.start < |s| && StartsName(s[a.name.start]) && !IsBlank(s[a.name.start])
  {
    var equals: nat :| Assigned(s, a, equals);
  }

  lemma {:induction false} TagComplete(s: string, p: nat, before: seq<RawAttribute>, attributes: seq<RawAttribute>,
                                       next: nat, isSealed: bool)
    requires Different(s, before + attributes) && TagRest(s, p, attributes, next, isSealed)
    ensures p <= |s| && ParseAttributes(s, p, before) == AttributesOk(before + attributes, next, isSealed)
    decreases |attributes|
  {
    hide ParseAttributes;
    hide ParseAttribute;
    hide Gap;
    hide Different;
    hide HasName;
    hide AttributeAt;
    hide IsNameStartChar;
    if attributes == [] {
      assert before + [] == before;
      var q := if isSealed then next - 2 else next - 1;
      Skipped(s, p, q);
      TagTurn(s, p, q, before);
    } else {
      var a := attributes[0];
      var q := a.name.start;
      AttributeEnd(s, a, a.value.end + 1);
      Skipped(s, p, q);
      TagTurn(s, p, q, before);
      hide Blank;
      hide StartsName;
      hide IsBlank;
      AttributeExactly(s, q, a, a.value.end + 1);
      OneFurther(before, attributes);
      EarlierDifferent(s, before + [a], attributes[1..]);
      EarlierDifferent(s, before, [a]);
      OneMoreDifferent(s, before, a);
      TagComplete(s, a.value.end + 1, before + [a], attributes[1..], next, isSealed);
    }
  }

  // ----- Nodes -----

  /** White space, a header, and bytes up to the first terminator. */
  ghost predicate LeafAt(s: string, p: nat, header: string, terminator: string, value: StrPair, next: nat) {
    && |header| <= value.start <= value.end && value.mode.Newlines?
    && Blank(s, p, value.start - |header|) && StartsAt(s, value.start - |header|, header)
    && First(s, value.start, value.end, terminator) && next == value.end + |terminator|
  }

  /** The first place from `p` on where the terminator stands. */
  predicate First(s: string, p: nat, end: nat, terminator: string) {
    p <= end && StartsAt(s, end, terminator) && forall j :: p <= j < end ==> !StartsAt(s, j, terminator)
  }

  lemma FirstMeans(s: string, p: nat, end: nat, terminator: string)
    requires terminator != ""
    ensures First(s, p, end, terminator) <==> Find(s, p, terminator) == end
  {
    assert StartsAt(s, end, terminator) ==> end < |s|;
    hide Find;
    hide StartsAt;
  }

  /** Bytes up to the next tag, not all white space, and a tag that is not the last byte. */
  ghost predicate TextAt(s: string, p: nat, value: StrPair, next: nat) {
    && value.mode.NewlinesAndEntities? && value.start == p < value.end == next && next + 1 < |s| && s[next] == '<'
    && (forall j :: p <= j < next ==> s[j] != '<') && !Blank(s, p, next)
  }

  /** White space and a tag; white space may also stand in front of the slash or the name, but not between them. */
  ghost predicate TagAt(s: string, p: nat, slash: bool, name: StrPair, attributes: seq<RawAttribute>, next: nat,
                        isSealed: bool) {
    && (exists less: nat :: Opened(s, p, less, slash, name))
    && NameAt(s, name) && TagRest(s, name.end, attributes, next, isSealed) && Different(s, attributes)
  }

  predicate Opened(s: string, p: nat, less: nat, slash: bool, name: StrPair) {
    && Blank(s, p, less) && less + (if slash then 1 else 0) < name.start <= |s| && s[less] == '<'
    && (if slash then Blank(s, less + 1, name.start - 1) && s[name.start - 1] == '/' else Blank(s, less + 1, name.start))
  }

  /** The name, where an end tag stands; it may have attributes, which are dropped. */
  ghost predicate EndTagAt(s: string, p: nat, name: StrPair, next: nat) {
    exists attributes :: TagAt(s, p, true, name, attributes, next, false)
  }

  /** An end tag with the same name as the start tag. */
  ghost predicate ClosedBy(s: string, e: nat, name: StrPair, tag: StrPair, next: nat) {
    EndTagAt(s, e, tag, next) && Slice(s, tag) == Slice(s, name)
  }

  predicate NoDeclaration(nodes: seq<Node>) {
    forall i :: 0 <= i < |nodes| ==> !nodes[i].Declaration?
  }

  /** Declarations come first. */
  predicate DeclarationsFirst(nodes: seq<Node>) {
    forall i :: 0 < i < |nodes| && nodes[i].Declaration? ==> nodes[i - 1].Declaration?
  }

  ghost predicate LeafNodeAt(s: string, p: nat, n: Node, next: nat)
    requires !n.Element?
  {
    match n
    case Text(value, cdata) => if cdata then LeafAt(s, p, "<![CDATA[", "]]>", value, next) else TextAt(s, p, value, next)
    case Comment(value) => LeafAt(s, p, "<!--", "-->", value, next)
    case Declaration(value) => LeafAt(s, p, "<?", "?>", value, next)
    case Unknown(value) =>
      LeafAt(s, p, "<!", ">", value, next) && NotSpecial(s, value.start - 2)
  }

  /** Neither a comment nor a CDATA section. */
  predicate NotSpecial(s: string, q: int) {
    q >= 0 && !StartsAt(s, q, "<!--") && !StartsAt(s, q, "<![CDATA[")
  }

  /** What stands at `p`, in a list at nesting depth `depth`. A sealed tag may have a slash in front of its name. */
  ghost predicate NodeAt(s: string, p: nat, depth: nat, n: Node, next: nat)
    decreases n
  {
    match n
    case Element(name, attributes, children) =>
      || (children == [] && exists slash :: TagAt(s, p, slash, name, attributes, next, true))
      || (depth + 1 < 100 && NoDeclaration(children)
          && exists m: nat, e: nat, tag :: TagAt(s, p, false, name, attributes, m, false)
               && ListAt(s, m, depth + 1, children, e) && ClosedBy(s, e, name, tag, next))
    case _ => LeafNodeAt(s, p, n, next)
  }

  /** Nodes one behind another. */
  ghost predicate ListAt(s: string, p: nat, depth: nat, nodes: seq<Node>, e: nat)
    decreases nodes
  {
    if nodes == [] then e == p
    else exists m: nat :: NodeAt(s, p, depth, nodes[0], m) && ListAt(s, m, depth, nodes[1..], e)
  }

  /** What stands behind the last node: nothing but white space, or an end tag. */
  ghost predicate EndsAt(s: string, e: nat, end: ListEnd) {
    match end
    case EndOfInput => Blank(s, e, |s|)
    case AtEndTag(tag, next) => EndTagAt(s, e, tag, next)
    case Error(_) => false
  }

  /** White space and, if the document has one, the byte order mark, and at least one byte more. */
  predicate Front(s: string, bom: bool, start: nat) {
    var p := if bom then start - 3 else start;
    && p >= 0 && Blank(s, 0, p) && start < |s| && !IsBlank(s[p])
    && (StartsAt(s, p, [0xEF as char, 0xBB as char, 0xBF as char]) <==> bom)
  }

  /** The document that a text is, if it is one: its nodes, and then the end of the text or an end tag. */
  ghost predicate DocumentIs(text: string, bom: bool, nodes: seq<Node>) {
    exists start: nat, e: nat, end ::
      && Front(CString(text), bom, start) && ListAt(CString(text), start, 1, nodes, e)
      && DeclarationsFirst(nodes) && EndsAt(CString(text), e, end)
  }

  // ----- What the parser returns follows the grammar -----

  lemma HeaderSound(s: string, q: nat)
    requires q < |s|
    ensures var kind := Identify(s, q);
            && StartsAt(s, q, Header(kind))
            && (kind.UnknownKind? ==> !StartsAt(s, q, "<!--") && !StartsAt(s, q, "<![CDATA["))
            && (kind.TextKind? <==> s[q] != '<')
  {
    hide StartsAt;
    OneByte(s, q, '<');
    assert StartsAt(s, q, "<?") || StartsAt(s, q, "<!") || StartsAt(s, q, "<!--") || StartsAt(s, q, "<![CDATA[")
           ==> StartsAt(s, q, "<") by { FirstByte(s, q); }
    assert StartsAt(s, q, "") by { Nothing(s, q); }
  }

  lemma Nothing(s: string, q: nat)
    requires q <= |s|
    ensures StartsAt(s, q, "")
  {
  }

  lemma FirstByte(s: string, q: nat)
    ensures StartsAt(s, q, "<?") || StartsAt(s, q, "<!") || StartsAt(s, q, "<!--") || StartsAt(s, q, "<![CDATA[")
            ==> StartsAt(s, q, "<")
  {
    StartsAtBoth(s, q, "<", "?");
    StartsAtBoth(s, q, "<", "!");
    StartsAtBoth(s, q, "<", "!--");
    StartsAtBoth(s, q, "<", "![CDATA[");
    assert "<" + "?" == "<?" && "<" + "!" == "<!" && "<" + "!--" == "<!--" && "<" + "![CDATA[" == "<![CDATA[";
  }

  lemma NotBlank(s: string, p: nat, q: nat, next: nat)
    requires p <= q < next <= |s| && !IsBlank(s[q])
    ensures !Blank(s, p, next)
  {
  }

  /** Text ends at the next `<`. */
  lemma TextMeans(s: string, p: nat, q: nat, next: nat)
    requires Gap(s, p, q) && q < |s| && s[q] != '<' && next + 1 < |s|
    ensures Find(s, p, "<") == next <==> TextAt(s, p, StrPair(p, next, NewlinesAndEntities), next)
  {
    Skipped(s, p, q);
    FirstMeans(s, p, next, "<");
    forall j | 0 <= j < |s| ensures StartsAt(s, j, "<") <==> s[j] == '<' {
      OneByte(s, j, '<');
    }
    hide Find;
    hide StartsAt;
    hide Gap;
    if First(s, p, next, "<") {
      assert s[q] != '<' && forall j :: p <= j < q ==> IsBlank(s[j]);
      assert next > q;
      NotBlank(s, p, q, next);
    }
  }

  /** The turn of a list at the end of the input. */
  lemma LastTurn(s: string, p: nat, depth: nat, isDocument: bool, before: seq<Node>)
    requires Gap(s, p, |s|)
    ensures NextNode(s, p, depth, isDocument, before) == Stop(EndOfInput)
  {
    hide SkipWhiteSpace;
  }

  /** The turn of a list at a leaf. */
  lemma LeafTurn(s: string, p: nat, q: nat, depth: nat, isDocument: bool, before: seq<Node>)
    requires Gap(s, p, q) && q < |s| && !Identify(s, q).ElementKind?
    ensures var kind := Identify(s, q);
            var start := if kind.TextKind? then p else q + |Header(kind)|;
            var end := Find(s, start, Terminator(kind));
            var turn := NextNode(s, p, depth, isDocument, before);
            && (turn.Stop? ==> turn.end.Error?)
            && (turn.Go? <==> end != -1 && (kind.TextKind? ==> end + 1 < |s|)
                              && (kind.DeclarationKind? ==> WellLocated(isDocument, before)))
            && (turn.Go? ==> turn == Go(Leaf(kind, start, end), if kind.TextKind? then end else end + |Terminator(kind)|))
  {
    LeafStart(s, p, q);
    hide SkipWhiteSpace;
    hide Identify;
    hide StartsAt;
    hide Find;
    hide WellLocated;
    hide ParseElement;
    hide Leaf;
    hide Header;
  }

  /** The turn of a list at an element. */
  lemma ElementTurn(s: string, p: nat, q: nat, depth: nat, isDocument: bool, before: seq<Node>)
    requires Gap(s, p, q) && q < |s| && Identify(s, q) == ElementKind
    ensures var r := ParseElement(s, q + 1, depth);
            var turn := NextNode(s, p, depth, isDocument, before);
            && (r.ElementFail? ==> turn == Stop(Error(r.error)))
            && (r.ElementOk? && r.closing.Closing? ==> turn == Stop(AtEndTag(r.name, r.next)))
            && (r.ElementOk? && !r.closing.Closing? ==>
                  if r.endTag.NoTag? && r.closing.Open? then turn == Stop(Error(MismatchedElement))
                  else if r.endTag.Tag? && Slice(s, r.endTag.name) != Slice(s, r.name) then turn == Stop(Error(MismatchedElement))
                  else turn == Go(Element(r.name, r.attributes, r.children), r.next))
  {
    hide SkipWhiteSpace;
    hide Identify;
    hide ParseElement;
    hide ParseLeaf;
    hide Slice;
  }

  lemma DelimitedSound(s: string, p: nat, q: nat, kind: Kind, end: nat)
    requires Gap(s, p, q) && q < |s| && Identify(s, q) == kind && !kind.ElementKind? && !kind.TextKind?
    requires Find(s, q + |Header(kind)|, Terminator(kind)) == end
    ensures LeafNodeAt(s, p, Leaf(kind, q + |Header(kind)|, end), end + |Terminator(kind)|)
  {
    Skipped(s, p, q);
    HeaderSound(s, q);
    FirstMeans(s, q + |Header(kind)|, end, Terminator(kind));
    hide Gap;
    hide Identify;
    hide StartsAt;
    hide Blank;
    hide First;
    hide IsBlank;
  }

  lemma LeafSound(s: string, p: nat, q: nat, depth: nat, isDocument: bool, before: seq<Node>)
    requires Gap(s, p, q) && q < |s| && !Identify(s, q).ElementKind?
    requires NextNode(s, p, depth, isDocument, before).Go?
    ensures var r := NextNode(s, p, depth, isDocument, before);
            !r.node.Element? && LeafNodeAt(s, p, r.node, r.next)
            && (r.node.Declaration? ==> WellLocated(isDocument, before))
  {
    var kind := Identify(s, q);
    HeaderSound(s, q);
    LeafTurn(s, p, q, depth, isDocument, before);
    hide Gap;
    hide Identify;
    hide StartsAt;
    hide NextNode;
    hide WellLocated;
    if kind.TextKind? {
      TextMeans(s, p, q, Find(s, p, Terminator(kind)));
      hide TextAt;
    } else {
      DelimitedSound(s, p, q, kind, Find(s, q + |Header(kind)|, Terminator(kind)));
      hide LeafNodeAt;
      hide Header;
      hide Terminator;
    }
  }

  lemma {:induction false} NextSound(s: string, p: nat, depth: nat, isDocument: bool, before: seq<Node>)
    requires p <= |s|
    ensures var r := NextNode(s, p, depth, isDocument, before);
            if r.Go? then NodeAt(s, p, depth, r.node, r.next) && (r.node.Declaration? ==> WellLocated(isDocument, before))
            else !r.end.Error? ==> EndsAt(s, p, r.end)
    decreases |s| - p, 1
  {
    var q := WhereGapEnds(s, p);
    Skipped(s, p, q);
    hide Gap;
    hide NextNode;
    hide ParseElement;
    hide WellLocated;
    hide NodeAt;
    hide EndTagAt;
    hide Blank;
    hide Identify;
    if q >= |s| {
      LastTurn(s, p, depth, isDocument, before);
    } else {
      HeaderSound(s, q);
      if Identify(s, q).ElementKind? {
        ElementTurn(s, p, q, depth, isDocument, before);
        if ParseElement(s, q + 1, depth).ElementOk? {
          ElementSound(s, p, q, depth);
        }
      } else {
        LeafTurn(s, p, q, depth, isDocument, before);
        if NextNode(s, p, depth, isDocument, before).Go? {
          LeafSound(s, p, q, depth, isDocument, before);
        }
      }
    }
  }

  /** What a list may hold. */
  predicate Located(isDocument: bool, nodes: seq<Node>) {
    if isDocument then DeclarationsFirst(nodes) else NoDeclaration(nodes)
  }

  lemma OneMoreLocated(isDocument: bool, before: seq<Node>, n: Node)
    requires Located(isDocument, before)
    ensures Located(isDocument, before + [n]) <==> n.Declaration? ==> WellLocated(isDocument, before)
  {
    var all := before + [n];
    assert all[|before|] == n && forall i :: 0 <= i < |before| ==> all[i] == before[i];
    if isDocument && before != [] && before[|before| - 1].Declaration? {
      FirstToo(before, |before| - 1);
    }
  }

  lemma FirstToo(nodes: seq<Node>, i: nat)
    requires DeclarationsFirst(nodes) && i < |nodes| && nodes[i].Declaration?
    ensures nodes[0].Declaration?
  {
    if i > 0 {
      FirstToo(nodes, i - 1);
    }
  }

  /** How `ParseElement` finds a name behind the `<` at `less`. */
  predicate Lead(s: string, less: nat, slash: bool, name: StrPair) {
    && NameTo(s, name) && less < |s|
    && if slash then name.start > 0 && s[name.start - 1] == '/' && Gap(s, less + 1, name.start - 1)
       else Gap(s, less + 1, name.start)
  }

  lemma LeadMeans(s: string, p: nat, less: nat, slash: bool, name: StrPair)
    requires less < |s| && Blank(s, p, less) && s[less] == '<'
    ensures Lead(s, less, slash, name) <==> NameAt(s, name) && Opened(s, p, less, slash, name)
  {
    Named(s, name);
    if slash {
      if name.start > 0 {
        Skipped(s, less + 1, name.start - 1);
        assert !IsBlank('/');
      }
    } else {
      Skipped(s, less + 1, name.start);
      NameNotBlank(s, name);
    }
    hide Gap;
    hide NameAt;
    hide NameTo;
  }

  lemma NameNotBlank(s: string, name: StrPair)
    ensures NameAt(s, name) ==> !IsBlank(s[name.start]) && s[name.start] != '?' && s[name.start] != '!'
  {
  }

  lemma LeadFound(s: string, less: nat, depth: nat) returns (slash: bool)
    requires less < |s| && ParseElement(s, less + 1, depth).ElementOk?
    ensures var r := ParseElement(s, less + 1, depth);
            Lead(s, less, slash, r.name) && (r.closing.Closing? ==> slash) && (r.closing.Open? ==> !slash)
  {
    slash := Peek(s, SkipWhiteSpace(s, less + 1)) == '/';
    hide SkipWhiteSpace;
    hide NameEnd;
    hide ParseAttributes;
    hide ParseNodes;
    hide IsNameStartChar;
  }

  /** What `ParseElement` has read behind the name. */
  lemma ElementParts(s: string, less: nat, depth: nat)
    requires less < |s| && ParseElement(s, less + 1, depth).ElementOk?
    ensures var r := ParseElement(s, less + 1, depth);
            && less < r.name.end <= |s| && ParseAttributes(s, r.name.end, []).AttributesOk?
            && var tag := ParseAttributes(s, r.name.end, []);
            && r.attributes == tag.attributes && (r.closing.Closed? <==> tag.isSealed)
            && (r.endTag.NoTag? ==> r.children == [] && r.next == tag.next)
            && (r.endTag.Tag? ==>
                && r.closing.Open? && tag.next < r.next && depth + 1 < 100
                && ParseNodes(s, tag.next, depth + 1, false, []) == NodesResult(r.children, AtEndTag(r.endTag.name, r.next)))
  {
    hide SkipWhiteSpace;
    hide NameEnd;
    hide ParseAttributes;
    hide ParseNodes;
    hide IsNameStartChar;
    hide Peek;
  }

  lemma OpenElement(s: string, p: nat, depth: nat, n: Node, m: nat, e: nat, tag: StrPair, next: nat)
    requires n.Element? && depth + 1 < 100 && NoDeclaration(n.children)
    requires TagAt(s, p, false, n.name, n.attributes, m, false) && ListAt(s, m, depth + 1, n.children, e)
    requires ClosedBy(s, e, n.name, tag, next)
    ensures NodeAt(s, p, depth, n, next)
  {
    hide TagAt;
    hide ListAt;
    hide ClosedBy;
  }

  lemma SealedElement(s: string, p: nat, depth: nat, n: Node, slash: bool, next: nat)
    requires n.Element? && n.children == [] && TagAt(s, p, slash, n.name, n.attributes, next, true)
    ensures NodeAt(s, p, depth, n, next)
  {
    hide TagAt;
    hide ListAt;
    hide ClosedBy;
  }

  lemma ConsNode(s: string, p: nat, depth: nat, n: Node, m: nat, rest: seq<Node>, e: nat)
    requires NodeAt(s, p, depth, n, m) && ListAt(s, m, depth, rest, e)
    ensures ListAt(s, p, depth, [n] + rest, e)
  {
    assert ([n] + rest)[1..] == rest;
    hide NodeAt;
  }

  lemma {:induction false} ElementSound(s: string, p: nat, less: nat, depth: nat)
    requires less < |s| && Blank(s, p, less) && s[less] == '<' && ParseElement(s, less + 1, depth).ElementOk?
    ensures var r := ParseElement(s, less + 1, depth);
            if r.closing.Closing? then EndTagAt(s, p, r.name, r.next)
            else (if r.endTag.NoTag? then !r.closing.Open? else Slice(s, r.endTag.name) == Slice(s, r.name))
                 ==> NodeAt(s, p, depth, Element(r.name, r.attributes, r.children), r.next)
    decreases |s| - less, 0
  {
    var r := ParseElement(s, less + 1, depth);
    ElementParts(s, less, depth);
    var tag := ParseAttributes(s, r.name.end, []);
    var slash := LeadFound(s, less, depth);
    LeadMeans(s, p, less, slash, r.name);
    var attributes := TagSound(s, r.name.end, []);
    assert [] + attributes == attributes;
    hide *;
    TagBuilt(s, p, less, slash, r.name, tag.attributes, tag.next, tag.isSealed);
    if r.closing.Closing? {
      EndTagBuilt(s, p, r.name, r.attributes, r.next);
    } else if r.closing.Closed? {
      SealedElement(s, p, depth, Element(r.name, r.attributes, r.children), slash, r.next);
    } else if r.endTag.Tag? && Slice(s, r.endTag.name) == Slice(s, r.name) {
      ChildrenSound(s, p, depth, r.name, r.attributes, tag.next, r.children, r.endTag.name, r.next);
    }
  }

  lemma TagBuilt(s: string, p: nat, less: nat, slash: bool, name: StrPair, attributes: seq<RawAttribute>, next: nat,
                 isSealed: bool)
    requires Opened(s, p, less, slash, name) && NameAt(s, name) && TagRest(s, name.end, attributes, next, isSealed)
    requires Different(s, attributes)
    ensures TagAt(s, p, slash, name, attributes, next, isSealed)
  {
    hide Opened;
    hide NameAt;
    hide TagRest;
    hide Different;
  }

  lemma EndTagBuilt(s: string, p: nat, name: StrPair, attributes: seq<RawAttribute>, next: nat)
    requires TagAt(s, p, true, name, attributes, next, false)
    ensures EndTagAt(s, p, name, next)
  {
    hide TagAt;
  }

  lemma {:induction false} ChildrenSound(s: string, p: nat, depth: nat, name: StrPair, attributes: seq<RawAttribute>,
                                         m: nat, children: seq<Node>, tag: StrPair, next: nat)
    requires p < m <= |s| && depth + 1 < 100 && TagAt(s, p, false, name, attributes, m, false)
    requires ParseNodes(s, m, depth + 1, false, []) == NodesResult(children, AtEndTag(tag, next))
    requires Slice(s, tag) == Slice(s, name)
    ensures NodeAt(s, p, depth, Element(name, attributes, children), next)
    decreases |s| - m, 3
  {
    var nodes, e := ListSound(s, m, depth + 1, false, []);
    assert [] + nodes == nodes;
    OpenElement(s, p, depth, Element(name, attributes, children), m, e, tag, next);
  }

  lemma {:induction false} ListSound(s: string, p: nat, depth: nat, isDocument: bool, before: seq<Node>)
      returns (nodes: seq<Node>, e: nat)
    requires p <= |s| && !ParseNodes(s, p, depth, isDocument, before).end.Error? && Located(isDocument, before)
    ensures var r := ParseNodes(s, p, depth, isDocument, before);
            && r.nodes == before + nodes && ListAt(s, p, depth, nodes, e) && EndsAt(s, e, r.end)
            && Located(isDocument, r.nodes)
    decreases |s| - p, 2
  {
    NextSound(s, p, depth, isDocument, before);
    Turn(s, p, depth, isDocument, before);
    hide ParseNodes;
    hide NextNode;
    hide Located;
    hide EndsAt;
    hide NodeAt;
    match NextNode(s, p, depth, isDocument, before)
    case Stop(end) =>
      nodes, e := [], p;
      assert before + [] == before;
    case Go(node, next) =>
      hide ListAt;
      OneMoreLocated(isDocument, before, node);
      var rest;
      rest, e := ListSound(s, next, depth, isDocument, before + [node]);
      nodes := [node] + rest;
      ConsNode(s, p, depth, node, next, rest, e);
      Appended(before, node, rest);
  }

  lemma Appended(before: seq<Node>, n: Node, rest: seq<Node>)
    ensures (before + [n]) + rest == before + ([n] + rest)
  {
  }

  // ----- What follows the grammar is what the parser returns -----

  lemma HeaderComplete(s: string, q: nat, kind: Kind)
    requires StartsAt(s, q, Header(kind)) && q < |s| && !kind.TextKind?
    requires kind.UnknownKind? ==> !StartsAt(s, q, "<!--") && !StartsAt(s, q, "<![CDATA[")
    requires kind.ElementKind? ==> q + 1 < |s| && s[q + 1] != '?' && s[q + 1] != '!'
    ensures Identify(s, q) == kind && s[q] == '<'
  {
    StartsAtChars(s, q, Header(kind));
    assert s[q] == Header(kind)[0];
    if !kind.ElementKind? {
      assert s[q + 1] == Header(kind)[1];
    }
    assert !kind.DeclarationKind? ==> !StartsAt(s, q, "<?") by {
      if StartsAt(s, q, "<?") {
        StartsAtChars(s, q, "<?");
        assert s[q + 1] == "<?"[1];
      }
    }
    SecondByte(s, q);
    if kind.CDataKind? {
      assert s[q + 2] == '[' == Header(kind)[2];
      ThirdByte(s, q);
    }
  }

  lemma SecondByte(s: string, q: nat)
    requires q + 1 < |s|
    ensures StartsAt(s, q, "<!") || StartsAt(s, q, "<!--") || StartsAt(s, q, "<![CDATA[") ==> s[q + 1] == '!'
  {
    StartsAtBoth(s, q, "<!", "--");
    StartsAtBoth(s, q, "<!", "[CDATA[");
    assert "<!" + "--" == "<!--" && "<!" + "[CDATA[" == "<![CDATA[";
    StartsAtBoth(s, q, "<", "!");
    assert "<" + "!" == "<!";
    OneByte(s, q + 1, '!');
    hide StartsAt;
  }

  lemma ThirdByte(s: string, q: nat)
    requires q + 2 < |s| && s[q + 2] != '-'
    ensures !StartsAt(s, q, "<!--")
  {
    StartsAtBoth(s, q, "<!", "--");
    StartsAtBoth(s, q + 2, "-", "-");
    assert "<!" + "--" == "<!--" && "-" + "-" == "--";
    OneByte(s, q + 2, '-');
    hide StartsAt;
  }

  lemma TextComplete(s: string, p: nat, depth: nat, isDocument: bool, before: seq<Node>, value: StrPair, next: nat)
    requires TextAt(s, p, value, next)
    ensures p < |s| && NextNode(s, p, depth, isDocument, before) == Go(Text(value, false), next)
  {
    var q := WhereGapEnds(s, p);
    Skipped(s, p, q);
    assert q < next && s[q] != '<';
    HeaderSound(s, q);
    TextMeans(s, p, q, next);
    LeafTurn(s, p, q, depth, isDocument, before);
    hide NextNode;
    hide Gap;
    hide Identify;
    hide StartsAt;
    hide Blank;
    hide Find;
  }

  lemma DelimitedStarts(s: string, p: nat, kind: Kind, value: StrPair, next: nat) returns (q: nat)
    requires !kind.ElementKind? && !kind.TextKind? && LeafAt(s, p, Header(kind), Terminator(kind), value, next)
    requires kind.UnknownKind? ==> NotSpecial(s, value.start - 2)
    ensures Gap(s, p, q) && q < |s| && Identify(s, q) == kind && value.start == q + |Header(kind)|
    ensures Find(s, value.start, Terminator(kind)) == value.end && next == value.end + |Terminator(kind)|
  {
    q := value.start - |Header(kind)|;
    HeaderInside(s, q, kind);
    HeaderComplete(s, q, kind);
    assert !IsBlank('<');
    Skipped(s, p, q);
    FirstMeans(s, value.start, value.end, Terminator(kind));
    hide Gap;
    hide Identify;
    hide StartsAt;
    hide Blank;
    hide First;
    hide IsBlank;
  }

  lemma DelimitedComplete(s: string, p: nat, depth: nat, isDocument: bool, before: seq<Node>, kind: Kind, value: StrPair,
                          next: nat)
    requires !kind.ElementKind? && !kind.TextKind? && LeafAt(s, p, Header(kind), Terminator(kind), value, next)
    requires kind.UnknownKind? ==> NotSpecial(s, value.start - 2)
    requires kind.DeclarationKind? ==> WellLocated(isDocument, before)
    ensures p <= |s| && NextNode(s, p, depth, isDocument, before) == Go(Leaf(kind, value.start, value.end), next)
  {
    hide *;
    var q := DelimitedStarts(s, p, kind, value, next);
    DelimitedTurn(s, p, q, depth, isDocument, before, kind, value.end);
  }

  lemma DelimitedTurn(s: string, p: nat, q: nat, depth: nat, isDocument: bool, before: seq<Node>, kind: Kind, end: nat)
    requires Gap(s, p, q) && q < |s| && Identify(s, q) == kind && !kind.ElementKind? && !kind.TextKind?
    requires Find(s, q + |Header(kind)|, Terminator(kind)) == end
    requires kind.DeclarationKind? ==> WellLocated(isDocument, before)
    ensures p <= |s|
    ensures NextNode(s, p, depth, isDocument, before) == Go(Leaf(kind, q + |Header(kind)|, end), end + |Terminator(kind)|)
  {
    LeafTurn(s, p, q, depth, isDocument, before);
    hide NextNode;
    hide SkipWhiteSpace;
    hide Identify;
    hide Find;
    hide Leaf;
    hide Header;
    hide Terminator;
    hide WellLocated;
  }

  lemma HeaderInside(s: string, q: nat, kind: Kind)
    requires StartsAt(s, q, Header(kind)) && !kind.TextKind?
    ensures q < |s|
  {
  }

  lemma LeafComplete(s: string, p: nat, depth: nat, isDocument: bool, before: seq<Node>, n: Node, next: nat)
    requires !n.Element? && LeafNodeAt(s, p, n, next) && (n.Declaration? ==> WellLocated(isDocument, before))
    ensures p <= |s| && NextNode(s, p, depth, isDocument, before) == Go(n, next)
  {
    if n.Text? && !n.cdata {
      TextComplete(s, p, depth, isDocument, before, n.value, next);
    } else {
      var kind := match n case Text(_, _) => CDataKind case Comment(_) => CommentKind
                          case Declaration(_) => DeclarationKind case _ => UnknownKind;
      DelimitedComplete(s, p, depth, isDocument, before, kind, n.value, next);
    }
    hide NextNode;
    hide WellLocated;
  }

  /** How a tag starts, as the parser sees it. */
  lemma TagStarts(s: string, p: nat, less: nat, slash: bool, name: StrPair)
    requires Opened(s, p, less, slash, name) && NameAt(s, name)
    ensures Gap(s, p, less) && less < |s| && Identify(s, less) == ElementKind && Lead(s, less, slash, name)
  {
    LeadMeans(s, p, less, slash, name);
    Skipped(s, p, less);
    assert !IsBlank('<');
    NameNotBlank(s, name);
    assert IsBlank(s[less + 1]) || less + 1 == if slash then name.start - 1 else name.start;
    OneByte(s, less, '<');
    HeaderComplete(s, less, ElementKind);
    hide Gap;
    hide Identify;
    hide Blank;
    hide StartsAt;
    hide NameAt;
    hide Lead;
  }

  /** A name and the rest of a tag, as `ParseElement` meets them behind the `<`. */
  predicate Ahead(s: string, p: nat, slash: bool, name: StrPair, attributes: seq<RawAttribute>, next: nat, isSealed: bool) {
    && p <= |s| && name.mode.AsIs? && var q := SkipWhiteSpace(s, p);
    && slash == (Peek(s, q) == '/') && name.start == (if slash then q + 1 else q) < |s|
    && IsNameStartChar(s[name.start]) && name.end == NameEnd(s, name.start + 1) <= |s|
    && ParseAttributes(s, name.end, []) == AttributesOk(attributes, next, isSealed)
  }

  lemma EmptyRead(s: string, p: nat, depth: nat, slash: bool, name: StrPair, attributes: seq<RawAttribute>, next: nat,
                  isSealed: bool)
    requires Ahead(s, p, slash, name, attributes, next, isSealed) && (isSealed || slash)
    ensures ParseElement(s, p, depth)
         == ElementOk(name, attributes, [], if isSealed then Closed else Closing, NoTag, next)
  {
    hide SkipWhiteSpace;
    hide NameEnd;
    hide ParseAttributes;
    hide ParseNodes;
    hide IsNameStartChar;
    hide Peek;
  }

  lemma OpenRead(s: string, p: nat, depth: nat, name: StrPair, attributes: seq<RawAttribute>, m: nat, children: seq<Node>,
                 tag: StrPair, next: nat)
    requires Ahead(s, p, false, name, attributes, m, false) && m < |s| && depth + 1 < 100
    requires ParseNodes(s, m, depth + 1, false, []) == NodesResult(children, AtEndTag(tag, next))
    ensures ParseElement(s, p, depth) == ElementOk(name, attributes, children, Open, Tag(tag), next)
  {
    hide SkipWhiteSpace;
    hide NameEnd;
    hide ParseAttributes;
    hide ParseNodes;
    hide IsNameStartChar;
    hide Peek;
  }

  lemma LeadUsed(s: string, less: nat, slash: bool, name: StrPair)
    requires Lead(s, less, slash, name)
    ensures var q := SkipWhiteSpace(s, less + 1);
            && slash == (Peek(s, q) == '/') && name.start == (if slash then q + 1 else q) < |s|
            && name.mode.AsIs? && IsNameStartChar(s[name.start]) && name.end == NameEnd(s, name.start + 1)
  {
    hide SkipWhiteSpace;
    hide NameEnd;
  }

  lemma TagParsed(s: string, p: nat, slash: bool, name: StrPair, attributes: seq<RawAttribute>, next: nat, isSealed: bool)
      returns (less: nat)
    requires TagAt(s, p, slash, name, attributes, next, isSealed)
    ensures p <= |s| && Gap(s, p, less) && less < |s| && Identify(s, less) == ElementKind
    ensures Ahead(s, less + 1, slash, name, attributes, next, isSealed)
  {
    less :| Opened(s, p, less, slash, name);
    TagStarts(s, p, less, slash, name);
    LeadUsed(s, less, slash, name);
    assert [] + attributes == attributes;
    assert p <= |s|;
    TagComplete(s, name.end, [], attributes, next, isSealed);
    assert ParseAttributes(s, name.end, []) == AttributesOk(attributes, next, isSealed);
    hide *;
    AheadIs(s, less, slash, name, attributes, next, isSealed);
  }

  lemma AheadIs(s: string, less: nat, slash: bool, name: StrPair, attributes: seq<RawAttribute>, next: nat, isSealed: bool)
    requires Lead(s, less, slash, name) && name.end <= |s|
    requires ParseAttributes(s, name.end, []) == AttributesOk(attributes, next, isSealed)
    ensures Ahead(s, less + 1, slash, name, attributes, next, isSealed)
  {
    LeadUsed(s, less, slash, name);
    hide Lead;
    hide SkipWhiteSpace;
    hide NameEnd;
    hide ParseAttributes;
    hide Peek;
    hide IsNameStartChar;
  }

  lemma EndTagTurn(s: string, e: nat, depth: nat, isDocument: bool, before: seq<Node>, tag: StrPair,
                   attributes: seq<RawAttribute>, next: nat)
    requires TagAt(s, e, true, tag, attributes, next, false)
    ensures e < |s| && NextNode(s, e, depth, isDocument, before) == Stop(AtEndTag(tag, next))
  {
    hide *;
    var less := TagParsed(s, e, true, tag, attributes, next, false);
    EmptyRead(s, less + 1, depth, true, tag, attributes, next, false);
    ElementTurn(s, e, less, depth, isDocument, before);
  }

  lemma EndTagComplete(s: string, e: nat, depth: nat, isDocument: bool, before: seq<Node>, tag: StrPair, next: nat)
    requires EndTagAt(s, e, tag, next)
    ensures e < |s| && NextNode(s, e, depth, isDocument, before) == Stop(AtEndTag(tag, next))
  {
    hide TagAt;
    hide NextNode;
    var attributes :| TagAt(s, e, true, tag, attributes, next, false);
    EndTagTurn(s, e, depth, isDocument, before, tag, attributes, next);
  }

  lemma EndComplete(s: string, e: nat, depth: nat, isDocument: bool, before: seq<Node>, end: ListEnd)
    requires EndsAt(s, e, end)
    ensures e <= |s| && NextNode(s, e, depth, isDocument, before) == Stop(end)
  {
    match end
    case EndOfInput =>
      Skipped(s, e, |s|);
      LastTurn(s, e, depth, isDocument, before);
    case AtEndTag(tag, next) => EndTagComplete(s, e, depth, isDocument, before, tag, next);
  }

  lemma {:induction false} NodeComplete(s: string, p: nat, depth: nat, isDocument: bool, before: seq<Node>, n: Node,
                                        next: nat)
    requires NodeAt(s, p, depth, n, next) && (n.Declaration? ==> WellLocated(isDocument, before))
    ensures p <= |s| && NextNode(s, p, depth, isDocument, before) == Go(n, next)
    decreases n
  {
    if !n.Element? {
      LeafComplete(s, p, depth, isDocument, before, n, next);
    } else if slash :| n.children == [] && TagAt(s, p, slash, n.name, n.attributes, next, true) {
      SealedComplete(s, p, depth, isDocument, before, n, slash, next);
    } else {
      var m: nat, e: nat, tag :| TagAt(s, p, false, n.name, n.attributes, m, false)
                                 && ListAt(s, m, depth + 1, n.children, e) && ClosedBy(s, e, n.name, tag, next);
      NoneLocated(n.children);
      hide TagAt;
      hide ListAt;
      hide EndTagAt;
      hide ParseNodes;
      hide NextNode;
      hide Slice;
      hide Located;
      hide NodeAt;
      ListComplete(s, m, depth + 1, false, [], n.children, e, AtEndTag(tag, next));
      assert [] + n.children == n.children;
      OpenComplete(s, p, depth, isDocument, before, n, m, tag, next);
    }
  }

  lemma NoneLocated(nodes: seq<Node>)
    requires NoDeclaration(nodes)
    ensures Located(false, [] + nodes)
  {
    assert [] + nodes == nodes;
  }

  lemma SealedComplete(s: string, p: nat, depth: nat, isDocument: bool, before: seq<Node>, n: Node, slash: bool, next: nat)
    requires n.Element? && n.children == [] && TagAt(s, p, slash, n.name, n.attributes, next, true)
    ensures p <= |s| && NextNode(s, p, depth, isDocument, before) == Go(n, next)
  {
    hide *;
    var less := TagParsed(s, p, slash, n.name, n.attributes, next, true);
    EmptyRead(s, less + 1, depth, slash, n.name, n.attributes, next, true);
    ElementTurn(s, p, less, depth, isDocument, before);
  }

  lemma OpenComplete(s: string, p: nat, depth: nat, isDocument: bool, before: seq<Node>, n: Node, m: nat, tag: StrPair,
                     next: nat)
    requires n.Element? && depth + 1 < 100 && TagAt(s, p, false, n.name, n.attributes, m, false)
    requires m < |s| && Slice(s, tag) == Slice(s, n.name)
    requires ParseNodes(s, m, depth + 1, false, []) == NodesResult(n.children, AtEndTag(tag, next))
    ensures p <= |s| && NextNode(s, p, depth, isDocument, before) == Go(n, next)
  {
    hide *;
    var less := TagParsed(s, p, false, n.name, n.attributes, m, false);
    OpenRead(s, less + 1, depth, n.name, n.attributes, m, n.children, tag, next);
    ElementTurn(s, p, less, depth, isDocument, before);
  }

  lemma {:induction false} ListComplete(s: string, p: nat, depth: nat, isDocument: bool, before: seq<Node>,
                                        nodes: seq<Node>, e: nat, end: ListEnd)
    requires ListAt(s, p, depth, nodes, e) && Located(isDocument, before + nodes) && EndsAt(s, e, end)
    ensures p <= |s| && ParseNodes(s, p, depth, isDocument, before) == NodesResult(before + nodes, end)
    decreases nodes
  {
    hide ParseNodes;
    hide NextNode;
    hide Located;
    hide EndsAt;
    hide NodeAt;
    if nodes == [] {
      EndComplete(s, p, depth, isDocument, before, end);
      assert before + [] == before;
      Turn(s, p, depth, isDocument, before);
    } else {
      var m: nat :| NodeAt(s, p, depth, nodes[0], m) && ListAt(s, m, depth, nodes[1..], e);
      hide ListAt;
      FirstOfRest(isDocument, before, nodes);
      NodeComplete(s, p, depth, isDocument, before, nodes[0], m);
      Turn(s, p, depth, isDocument, before);
      ListComplete(s, m, depth, isDocument, before + [nodes[0]], nodes[1..], e, end);
    }
  }

  lemma FirstOfRest(isDocument: bool, before: seq<Node>, nodes: seq<Node>)
    requires nodes != [] && Located(isDocument, before + nodes)
    ensures (before + [nodes[0]]) + nodes[1..] == before + nodes
    ensures nodes[0].Declaration? ==> WellLocated(isDocument, before)
  {
    assert nodes == [nodes[0]] + nodes[1..];
    Appended(before, nodes[0], nodes[1..]);
    EarlierLocated(isDocument, before + [nodes[0]], nodes[1..]);
    EarlierLocated(isDocument, before, [nodes[0]]);
    OneMoreLocated(isDocument, before, nodes[0]);
  }

  lemma EarlierLocated(isDocument: bool, before: seq<Node>, more: seq<Node>)
    requires Located(isDocument, before + more)
    ensures Located(isDocument, before)
  {
    var all := before + more;
    forall i | 0 <= i < |before| ensures all[i] == before[i] {
    }
    if isDocument {
      forall i | 0 < i < |before| && before[i].Declaration? ensures before[i - 1].Declaration? {
        assert all[i].Declaration? && all[i - 1] == before[i - 1];
      }
    }
  }

  // ----- Documents -----

  /** Exactly the texts that the grammar describes are parsed, and into exactly the nodes it gives them. */
  lemma DocumentExactly(text: string, bom: bool, nodes: seq<Node>)
    ensures ParseDocument(text) == Parsed(bom, nodes) <==> DocumentIs(text, bom, nodes)
  {
    if ParseDocument(text) == Parsed(bom, nodes) {
      DocumentSound(text, bom, nodes);
    }
    if DocumentIs(text, bom, nodes) {
      DocumentComplete(text, bom, nodes);
    }
  }

  lemma DocumentSound(text: string, bom: bool, nodes: seq<Node>)
    requires ParseDocument(text) == Parsed(bom, nodes)
    ensures DocumentIs(text, bom, nodes)
  {
    var s := CString(text);
    var p := SkipWhiteSpace(s, 0);
    Skipped(s, 0, p);
    var start := if bom then p + 3 else p;
    var list, e := ListSound(s, start, 1, true, []);
    assert [] + list == list;
    var end := ParseNodes(s, start, 1, true, []).end;
    hide SkipWhiteSpace;
    hide ParseNodes;
    hide ListAt;
    hide EndsAt;
    hide DeclarationsFirst;
    assert Front(s, bom, start);
  }

  lemma DocumentComplete(text: string, bom: bool, nodes: seq<Node>)
    requires DocumentIs(text, bom, nodes)
    ensures ParseDocument(text) == Parsed(bom, nodes)
  {
    var s := CString(text);
    var start: nat, e: nat, end :| Front(s, bom, start) && ListAt(s, start, 1, nodes, e)
                                   && DeclarationsFirst(nodes) && EndsAt(s, e, end);
    hide *;
    FrontRead(s, bom, start);
    assert Located(true, [] + nodes) by {
      assert [] + nodes == nodes;
      FirstLocated(nodes);
    }
    ListComplete(s, start, 1, true, [], nodes, e, end);
    assert [] + nodes == nodes;
    DocumentRead(text, bom, start, nodes, end);
  }

  lemma FirstLocated(nodes: seq<Node>)
    requires DeclarationsFirst(nodes)
    ensures Located(true, nodes)
  {
  }

  lemma FrontRead(s: string, bom: bool, start: nat)
    requires Front(s, bom, start)
    ensures var p := SkipWhiteSpace(s, 0);
            bom == StartsAt(s, p, BOM) && start == (if bom then p + 3 else p) < |s|
  {
    Skipped(s, 0, if bom then start - 3 else start);
    hide SkipWhiteSpace;
  }

  lemma DocumentRead(text: string, bom: bool, start: nat, nodes: seq<Node>, end: ListEnd)
    requires var s := CString(text); var p := SkipWhiteSpace(s, 0);
             && bom == StartsAt(s, p, BOM) && start == (if bom then p + 3 else p) < |s|
             && ParseNodes(s, start, 1, true, []) == NodesResult(nodes, end) && !end.Error?
    ensures ParseDocument(text) == Parsed(bom, nodes)
  {
    hide SkipWhiteSpace;
    hide ParseNodes;
    hide StartsAt;
    hide CString;
  }

  // ----- What is refused, and as what -----

  /** How far the attributes of a tag go before the first byte that fits nothing. */
  ghost predicate TagUpTo(s: string, p: nat, attributes: seq<RawAttribute>, q: nat)
    decreases attributes
  {
    if attributes == [] then Blank(s, p, q) && (q < |s| ==> !IsBlank(s[q]))
    else Blank(s, p, attributes[0].name.start) && AttributeAt(s, attributes[0], attributes[0].value.end + 1)
         && TagUpTo(s, attributes[0].value.end + 1, attributes[1..], q)
  }

  ghost predicate NoNewAttribute(s: string, q: nat, before: seq<RawAttribute>) {
    forall a: RawAttribute, next :: a.name.start == q && AttributeAt(s, a, next) ==> HasName(s, before, a.name)
  }

  /** Behind the last attribute, a name that starts no attribute or only one the tag has already is a wrong attribute;
      anything else that is not the end of the tag makes a wrong element. */
  lemma {:induction false} TagRefused(s: string, p: nat, before: seq<RawAttribute>)
      returns (attributes: seq<RawAttribute>, q: nat)
    requires p <= |s| && Different(s, before) && ParseAttributes(s, p, before).AttributesFail?
    ensures TagUpTo(s, p, attributes, q) && Different(s, before + attributes)
    ensures var error := ParseAttributes(s, p, before).error;
            if q < |s| && StartsName(s[q]) then error == ParsingAttribute && NoNewAttribute(s, q, before + attributes)
            else error == ParsingElement && (q < |s| ==> s[q] != '>' && !StartsAt(s, q, "/>"))
    decreases |s| - p
  {
    q := WhereGapEnds(s, p);
    Skipped(s, p, q);
    TagTurn(s, p, q, before);
    hide ParseAttributes;
    hide ParseAttribute;
    hide Gap;
    hide Different;
    hide HasName;
    hide AttributeAt;
    hide StartsName;
    hide IsNameStartChar;
    hide NoNewAttribute;
    hide IsBlank;
    hide StartsAt;
    attributes := [];
    assert before + [] == before;
    if q < |s| && !StartsName(s[q]) {
      TwoBytes(s, q, "/>");
    } else if q < |s| {
      var found := ParseAttribute(s, q);
      if found.AttributeFail? || HasName(s, before, found.attribute.name) {
        NothingNew(s, q, before);
      } else {
        var a := found.attribute;
        AttributeExactly(s, q, a, found.next);
        AttributeEnd(s, a, found.next);
        OneMoreDifferent(s, before, a);
        var rest;
        rest, q := TagRefused(s, found.next, before + [a]);
        attributes := [a] + rest;
        OneMoreUpTo(s, p, a, rest, q);
        OneFurther(before, attributes);
        assert attributes[1..] == rest;
      }
    }
  }

  lemma NothingNew(s: string, q: nat, before: seq<RawAttribute>)
    requires q < |s| && IsNameStartChar(s[q])
    requires var found := ParseAttribute(s, q); found.AttributeFail? || HasName(s, before, found.attribute.name)
    ensures NoNewAttribute(s, q, before)
  {
    hide ParseAttribute;
    hide HasName;
    hide AttributeAt;
    forall a: RawAttribute, next | a.name.start == q && AttributeAt(s, a, next) ensures HasName(s, before, a.name) {
      AttributeExactly(s, q, a, next);
    }
  }

  lemma OneMoreUpTo(s: string, p: nat, a: RawAttribute, rest: seq<RawAttribute>, q: nat)
    requires Blank(s, p, a.name.start) && AttributeAt(s, a, a.value.end + 1) && TagUpTo(s, a.value.end + 1, rest, q)
    ensures TagUpTo(s, p, [a] + rest, q)
  {
    assert ([a] + rest)[1..] == rest;
    hide Blank;
    hide AttributeAt;
  }

  lemma TwoBytes(s: string, q: nat, pattern: string)
    requires |pattern| == 2
    ensures StartsAt(s, q, pattern) <==> q + 1 < |s| && s[q] == pattern[0] && s[q + 1] == pattern[1]
  {
    if q + 1 < |s| {
      assert s[q..q + 2] == [s[q], s[q + 1]];
    }
  }

  /** A leaf is refused without its terminator, and a declaration also behind another node or in an element. */
  lemma LeafRefused(s: string, p: nat, q: nat, depth: nat, isDocument: bool, before: seq<Node>)
    requires Gap(s, p, q) && q < |s| && !Identify(s, q).ElementKind?
    requires NextNode(s, p, depth, isDocument, before).Stop?
    ensures NextNode(s, p, depth, isDocument, before).end
         == Error(if StartsAt(s, q, "<?") then ParsingDeclaration
                  else if StartsAt(s, q, "<!--") then ParsingComment
                  else if StartsAt(s, q, "<![CDATA[") then ParsingCData
                  else if StartsAt(s, q, "<!") then ParsingUnknown
                  else if '<' in s[p..] then Parsing
                  else ParsingText)
  {
    LeafStart(s, p, q);
    if Identify(s, q).TextKind? {
      forall j | 0 <= j < |s| ensures StartsAt(s, j, "<") <==> s[j] == '<' {
        OneByte(s, j, '<');
      }
      assert '<' in s[p..] <==> exists j :: p <= j < |s| && s[j] == '<' by {
        forall j | p <= j < |s| ensures s[j] == s[p..][j - p] {
        }
      }
    }
    hide SkipWhiteSpace;
    hide StartsAt;
    hide Find;
    hide WellLocated;
  }

  /** An end tag that is missing or has another name, and elements that are nested too deeply. */
  lemma ElementRefused(s: string, p: nat, q: nat, depth: nat, isDocument: bool, before: seq<Node>, name: StrPair,
                       attributes: seq<RawAttribute>, m: nat)
    requires TagAt(s, p, false, name, attributes, m, false)
    ensures p <= |s|
    ensures m >= |s| ==> NextNode(s, p, depth, isDocument, before) == Stop(Error(MismatchedElement))
    ensures m < |s| && depth + 1 >= 100 ==> NextNode(s, p, depth, isDocument, before) == Stop(Error(DepthExceeded))
    ensures m < |s| && depth + 1 < 100 ==>
              match ParseNodes(s, m, depth + 1, false, []).end
              case EndOfInput => NextNode(s, p, depth, isDocument, before) == Stop(Error(Parsing))
              case Error(error) => NextNode(s, p, depth, isDocument, before) == Stop(Error(error))
              case AtEndTag(tag, _) =>
                Slice(s, tag) != Slice(s, name)
                ==> NextNode(s, p, depth, isDocument, before) == Stop(Error(MismatchedElement))
  {
    hide *;
    var less := TagParsed(s, p, false, name, attributes, m, false);
    ElementTurn(s, p, less, depth, isDocument, before);
    OpenRefused(s, less + 1, depth, name, attributes, m);
    if m < |s| && depth + 1 < 100 && ParseNodes(s, m, depth + 1, false, []).end.AtEndTag? {
      var list := ParseNodes(s, m, depth + 1, false, []);
      OpenRead(s, less + 1, depth, name, attributes, m, list.nodes, list.end.tag, list.end.next);
    }
  }

  lemma OpenRefused(s: string, p: nat, depth: nat, name: StrPair, attributes: seq<RawAttribute>, m: nat)
    requires Ahead(s, p, false, name, attributes, m, false)
    ensures m >= |s| ==> ParseElement(s, p, depth) == ElementOk(name, attributes, [], Open, NoTag, m)
    ensures m < |s| && depth + 1 >= 100 ==> ParseElement(s, p, depth) == ElementFail(DepthExceeded)
    ensures m < |s| && depth + 1 < 100 ==>
              var end := ParseNodes(s, m, depth + 1, false, []).end;
              && (end.EndOfInput? ==> ParseElement(s, p, depth) == ElementFail(Parsing))
              && (end.Error? ==> ParseElement(s, p, depth) == ElementFail(end.error))
  {
    hide SkipWhiteSpace;
    hide NameEnd;
    hide ParseAttributes;
    hide ParseNodes;
    hide IsNameStartChar;
    hide Peek;
  }
}
