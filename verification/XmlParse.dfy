/** The parser: one pass over a NUL-terminated buffer that leaves behind a tree of nodes whose strings are
    still ranges of that buffer. */
module XmlParse {
  import opened XmlText

  // ----- Trees -----

  /** A string that has not been read yet: its range in the buffer, and what reading it will do. The byte
      at `end` is the one that reading overwrites with the terminating NUL. */
  datatype StrPair = StrPair(start: nat, end: nat, mode: Mode)

  datatype RawAttribute = RawAttribute(name: StrPair, value: StrPair)

  datatype Node =
    | Element(name: StrPair, attributes: seq<RawAttribute>, children: seq<Node>)
    | Text(value: StrPair, cdata: bool)
    | Comment(value: StrPair)
    | Declaration(value: StrPair)
    | Unknown(value: StrPair)

  datatype ParseError =
    | ParsingElement | ParsingAttribute | ParsingText | ParsingCData | ParsingComment | ParsingDeclaration
    | ParsingUnknown | EmptyDocument | MismatchedElement | Parsing | DepthExceeded

  // ----- Characters -----

  predicate IsWhiteSpace(c: char) {
    c == ' ' || '\t' <= c <= '\r'
  }

  predicate IsNameStartChar(c: char) {
    c as int >= 128 || 'a' <= c <= 'z' || 'A' <= c <= 'Z' || c == ':' || c == '_'
  }

  predicate IsNameChar(c: char) {
    IsNameStartChar(c) || '0' <= c <= '9' || c == '.' || c == '-'
  }

  function SkipWhiteSpace(s: string, p: nat): (r: nat)
    ensures p <= r && (p <= |s| ==> r <= |s|)
    ensures forall j :: p <= j < r ==> j < |s| && IsWhiteSpace(s[j])
    ensures r < |s| ==> !IsWhiteSpace(s[r])
    decreases |s| - p
  {
    if p < |s| && IsWhiteSpace(s[p]) then SkipWhiteSpace(s, p + 1) else p
  }

  function NameEnd(s: string, p: nat): (r: nat)
    ensures p <= r && (p <= |s| ==> r <= |s|)
    ensures forall j :: p <= j < r ==> j < |s| && IsNameChar(s[j])
    ensures r < |s| ==> !IsNameChar(s[r])
    decreases |s| - p
  {
    if p < |s| && IsNameChar(s[p]) then NameEnd(s, p + 1) else p
  }

  /** Where the terminator first occurs from `p` on, or -1. */
  function Find(s: string, p: nat, endTag: string): (r: int)
    requires endTag != ""
    ensures r == -1 || (p <= r && StartsAt(s, r, endTag))
    ensures forall j :: p <= j < (if r == -1 then |s| else r) ==> !StartsAt(s, j, endTag)
    decreases |s| - p
  {
    if p >= |s| then -1 else if StartsAt(s, p, endTag) then p else Find(s, p + 1, endTag)
  }

  // ----- Attributes -----

  datatype AttributeResult = AttributeFail | AttributeOk(attribute: RawAttribute, next: nat)

  function ParseAttribute(s: string, p: nat): (r: AttributeResult)
    requires p < |s| && IsNameStartChar(s[p])
    ensures r.AttributeOk? ==> p < r.next <= |s|
  {
    var nameEnd := NameEnd(s, p + 1);
    var equals := SkipWhiteSpace(s, nameEnd);
    if nameEnd >= |s| || Peek(s, equals) != '=' then AttributeFail
    else
      var quote := SkipWhiteSpace(s, equals + 1);
      if Peek(s, quote) != '"' && Peek(s, quote) != '\'' then AttributeFail
      else
        var end := Find(s, quote + 1, [s[quote]]);
        if end == -1 then AttributeFail
        else AttributeOk(RawAttribute(StrPair(p, nameEnd, AsIs), StrPair(quote + 1, end, NewlinesAndEntities)), end + 1)
  }

  function Slice(s: string, pair: StrPair): string {
    if pair.start <= pair.end <= |s| then s[pair.start..pair.end] else ""
  }

  predicate HasName(s: string, attributes: seq<RawAttribute>, name: StrPair) {
    exists i :: 0 <= i < |attributes| && Slice(s, attributes[i].name) == Slice(s, name)
  }

  datatype AttributesResult =
    | AttributesFail(error: ParseError)
    | AttributesOk(attributes: seq<RawAttribute>, next: nat, isSealed: bool)

  /** The attributes from `p` to the end of the tag, after those in `before`. */
  function ParseAttributes(s: string, p: nat, before: seq<RawAttribute>): (r: AttributesResult)
    requires p <= |s|
    ensures r.AttributesOk? ==> p < r.next <= |s|
    decreases |s| - p
  {
    var q := SkipWhiteSpace(s, p);
    if q >= |s| then AttributesFail(ParsingElement)
    else if IsNameStartChar(s[q]) then
      match ParseAttribute(s, q)
      case AttributeFail => AttributesFail(ParsingAttribute)
      case AttributeOk(attribute, next) =>
        if HasName(s, before, attribute.name) then AttributesFail(ParsingAttribute)
        else ParseAttributes(s, next, before + [attribute])
    else if s[q] == '>' then AttributesOk(before, q + 1, false)
    else if s[q] == '/' && Peek(s, q + 1) == '>' then AttributesOk(before, q + 2, true)
    else AttributesFail(ParsingElement)
  }

  // ----- Nodes -----

  datatype Kind = DeclarationKind | CommentKind | CDataKind | UnknownKind | ElementKind | TextKind

  /** What begins at a byte that is not white space; the order of the tests matters. */
  function Identify(s: string, p: nat): Kind {
    if StartsAt(s, p, "<?") then DeclarationKind
    else if StartsAt(s, p, "<!--") then CommentKind
    else if StartsAt(s, p, "<![CDATA[") then CDataKind
    else if StartsAt(s, p, "<!") then UnknownKind
    else if StartsAt(s, p, "<") then ElementKind
    else TextKind
  }

  /** Nodes that are just text between a header and a terminator. */
  function Header(kind: Kind): string {
    match kind
    case DeclarationKind => "<?"
    case CommentKind => "<!--"
    case CDataKind => "<![CDATA["
    case UnknownKind => "<!"
    case ElementKind => "<"
    case TextKind => ""
  }

  function Terminator(kind: Kind): (r: string)
    ensures r != ""
  {
    match kind
    case DeclarationKind => "?>"
    case CommentKind => "-->"
    case CDataKind => "]]>"
    case UnknownKind => ">"
    case _ => "<"
  }

  function MissingTerminator(kind: Kind): ParseError {
    match kind
    case DeclarationKind => ParsingDeclaration
    case CommentKind => ParsingComment
    case CDataKind => ParsingCData
    case UnknownKind => ParsingUnknown
    case _ => ParsingText
  }

  function Leaf(kind: Kind, start: nat, end: nat): Node {
    match kind
    case DeclarationKind => Declaration(StrPair(start, end, Newlines))
    case CommentKind => Comment(StrPair(start, end, Newlines))
    case CDataKind => Text(StrPair(start, end, Newlines), true)
    case UnknownKind => Unknown(StrPair(start, end, Newlines))
    case _ => Text(StrPair(start, end, NewlinesAndEntities), false)
  }

  datatype LeafResult = LeafFail(error: ParseError) | LeafOk(leaf: Node, next: nat)

  /** A leaf whose content starts at `p`. Text stops in front of the next tag, and needs one; a tag that is
      the last byte of the input does not do. */
  function ParseLeaf(s: string, p: nat, kind: Kind): (r: LeafResult)
    requires !kind.ElementKind? && p <= |s| && (kind.TextKind? ==> p < |s| && s[p] != '<')
    ensures r.LeafOk? ==> p <= r.next <= |s| && (kind.TextKind? ==> p < r.next)
  {
    var end := Find(s, p, Terminator(kind));
    if end == -1 then LeafFail(MissingTerminator(kind))
    else if !kind.TextKind? then LeafOk(Leaf(kind, p, end), end + |Terminator(kind)|)
    else if end + 1 >= |s| then LeafFail(Parsing)
    else
      assert StartsAt(s, end, "<") ==> s[end..end + 1][0] == '<';
      LeafOk(Leaf(kind, p, end), end)
  }

  /** Declarations must come before everything else, and only in the document itself. */
  predicate WellLocated(isDocument: bool, before: seq<Node>) {
    isDocument && (before == [] || (before[0].Declaration? && before[|before| - 1].Declaration?))
  }

  datatype ClosingType = Open | Closed | Closing

  datatype EndTag = NoTag | Tag(name: StrPair)

  datatype ElementResult =
    | ElementFail(error: ParseError)
    | ElementOk(name: StrPair, attributes: seq<RawAttribute>, children: seq<Node>, closing: ClosingType,
                endTag: EndTag, next: nat)

  /** How a list of nodes ends: at the end of the input, at the end tag of the parent, or in an error. */
  datatype ListEnd = EndOfInput | AtEndTag(tag: StrPair, next: nat) | Error(error: ParseError)

  datatype NodesResult = NodesResult(nodes: seq<Node>, end: ListEnd)

  const MAX_ELEMENT_DEPTH := 100

  datatype Step = Stop(end: ListEnd) | Go(node: Node, next: nat)

  /** What the next turn of the list at `p` does, in a list at nesting depth `depth` that has read `before`. */
  function NextNode(s: string, p: nat, depth: nat, isDocument: bool, before: seq<Node>): (r: Step)
    requires p <= |s|
    ensures r.Go? ==> p < r.next <= |s|
    ensures r.Stop? && r.end.AtEndTag? ==> p < r.end.next <= |s|
    decreases |s| - p, 1
  {
    var q := SkipWhiteSpace(s, p);
    if q >= |s| then Stop(EndOfInput)
    else
      var kind := Identify(s, q);
      if kind.ElementKind? then
        match ParseElement(s, q + 1, depth)
        case ElementFail(error) => Stop(Error(error))
        case ElementOk(name, attributes, children, closing, endTag, next) =>
          if closing.Closing? then Stop(AtEndTag(name, next))
          else if (if endTag.NoTag? then closing.Open? else Slice(s, endTag.name) != Slice(s, name))
          then Stop(Error(MismatchedElement))
          else Go(Element(name, attributes, children), next)
      else
        LeafStart(s, p, q);
        match ParseLeaf(s, if kind.TextKind? then p else q + |Header(kind)|, kind)
        case LeafFail(error) => Stop(Error(error))
        case LeafOk(leaf, next) =>
          if kind.DeclarationKind? && !WellLocated(isDocument, before) then Stop(Error(ParsingDeclaration))
          else Go(leaf, next)
  }

  function ParseNodes(s: string, p: nat, depth: nat, isDocument: bool, before: seq<Node>): (r: NodesResult)
    requires p <= |s|
    ensures r.end.AtEndTag? ==> p < r.end.next <= |s|
    decreases |s| - p, 2
  {
    match NextNode(s, p, depth, isDocument, before)
    case Stop(end) => NodesResult(before, end)
    case Go(node, next) => ParseNodes(s, next, depth, isDocument, before + [node])
  }

  lemma Turn(s: string, p: nat, depth: nat, isDocument: bool, before: seq<Node>)
    requires p <= |s|
    ensures ParseNodes(s, p, depth, isDocument, before)
            == match NextNode(s, p, depth, isDocument, before)
               case Stop(end) => NodesResult(before, end)
               case Go(node, next) => ParseNodes(s, next, depth, isDocument, before + [node])
  {
  }

  lemma AtInputEnd(s: string, depth: nat, isDocument: bool, before: seq<Node>)
    ensures ParseNodes(s, |s|, depth, isDocument, before) == NodesResult(before, EndOfInput)
  {
  }

  lemma LeafStart(s: string, p: nat, q: nat)
    requires q == SkipWhiteSpace(s, p) && q < |s|
    ensures Identify(s, q).TextKind? ==> s[p] != '<'
    ensures q + |Header(Identify(s, q))| <= |s|
  {
    hide SkipWhiteSpace;
    IdentifyFits(s, q);
  }

  lemma IdentifyFits(s: string, q: nat)
    requires q < |s|
    ensures q + |Header(Identify(s, q))| <= |s|
    ensures Identify(s, q).TextKind? ==> !StartsAt(s, q, "<")
  {
  }

  /** An element from behind its `<`: name, attributes and, unless it is sealed, an end tag or the last of
      the input, its children. */
  function ParseElement(s: string, p: nat, depth: nat): (r: ElementResult)
    requires p <= |s|
    ensures r.ElementOk? ==> p < r.next <= |s| && (r.endTag.Tag? ==> r.closing.Open?)
    decreases |s| - p, 0
  {
    var q := SkipWhiteSpace(s, p);
    var closing := if Peek(s, q) == '/' then Closing else Open;
    var nameStart := if closing.Closing? then q + 1 else q;
    if nameStart >= |s| || !IsNameStartChar(s[nameStart]) then ElementFail(Parsing)
    else
      var nameEnd := NameEnd(s, nameStart + 1);
      var name := StrPair(nameStart, nameEnd, AsIs);
      match ParseAttributes(s, nameEnd, [])
      case AttributesFail(error) => ElementFail(error)
      case AttributesOk(attributes, next, isSealed) =>
        if next >= |s| || isSealed || closing.Closing?
        then ElementOk(name, attributes, [], if isSealed then Closed else closing, NoTag, next)
        else if depth + 1 >= MAX_ELEMENT_DEPTH then ElementFail(DepthExceeded)
        else
          var list := ParseNodes(s, next, depth + 1, false, []);
          match list.end
          case EndOfInput => ElementFail(Parsing)
          case Error(error) => ElementFail(error)
          case AtEndTag(tag, after) => ElementOk(name, attributes, list.nodes, Open, Tag(tag), after)
  }

  // ----- Documents -----

  datatype ParseResult = Parsed(bom: bool, nodes: seq<Node>) | Failed(error: ParseError)

  /** The whole input: optional white space and byte order mark, then nodes. An end tag that closes
      nothing ends the document, without an error. */
  function ParseDocument(text: string): ParseResult {
    var s := CString(text);
    var p := SkipWhiteSpace(s, 0);
    var bom := StartsAt(s, p, BOM);
    var start := if bom then p + 3 else p;
    if start >= |s| then Failed(EmptyDocument)
    else
      var list := ParseNodes(s, start, 1, true, []);
      if list.end.Error? then Failed(list.end.error) else Parsed(bom, list.nodes)
  }

  datatype Errno = Success | Raised(error: ParseError)

  datatype Pointer = Null | To(p: nat)

  /** How the end of a list shows in the result, the end tag handed to the parent, and the error state. */
  predicate Reported(end: ListEnd, r: Pointer, parentEndTag: EndTag, errorID: Errno) {
    match end
    case EndOfInput => r == Null && errorID == Success
    case Error(error) => r == Null && errorID == Raised(error)
    case AtEndTag(tag, next) => r == To(next) && parentEndTag == Tag(tag) && errorID == Success
  }

  lemma ReportedStop(end: ListEnd, r: Pointer, parentEndTag: EndTag, errorID: Errno)
    requires end.AtEndTag? ==> r == To(end.next) && parentEndTag == Tag(end.tag)
    requires !end.AtEndTag? ==> r == Null
    requires errorID == if end.Error? then Raised(end.error) else Success
    ensures Reported(end, r, parentEndTag, errorID)
  {
  }

  /** The document as the parser works on it. */
  class XMLDocument {
    var mCharBuffer: string
    var mErrorID: Errno
    var mParsingDepth: nat
    var mWriteBOM: bool
    var mChildren: seq<Node>

    constructor ()
      ensures mErrorID == Success && mParsingDepth == 0 && mChildren == []
    {
      mCharBuffer, mErrorID, mParsingDepth, mWriteBOM, mChildren := "", Success, 0, false, [];
    }

    method SkipSpace(p: nat) returns (r: nat)
      requires p <= |mCharBuffer|
      ensures r == SkipWhiteSpace(mCharBuffer, p)
    {
      r := p;
      while r < |mCharBuffer| && IsWhiteSpace(mCharBuffer[r])
        invariant p <= r <= |mCharBuffer| && SkipWhiteSpace(mCharBuffer, p) == SkipWhiteSpace(mCharBuffer, r)
      {
        r := r + 1;
      }
    }

    method ScanName(p: nat) returns (r: nat)
      requires p <= |mCharBuffer|
      ensures r == NameEnd(mCharBuffer, p)
    {
      r := p;
      while r < |mCharBuffer| && IsNameChar(mCharBuffer[r])
        invariant p <= r <= |mCharBuffer| && NameEnd(mCharBuffer, p) == NameEnd(mCharBuffer, r)
      {
        r := r + 1;
      }
    }

    /** Sets the end of a string at the terminator. */
    method ParseText(p: nat, endTag: string) returns (end: int)
      requires p <= |mCharBuffer| && endTag != ""
      ensures end == Find(mCharBuffer, p, endTag)
    {
      var r := p;
      while r < |mCharBuffer|
        invariant p <= r <= |mCharBuffer| && Find(mCharBuffer, p, endTag) == Find(mCharBuffer, r, endTag)
      {
        if StartsAt(mCharBuffer, r, endTag) {
          return r;
        }
        r := r + 1;
      }
      end := -1;
    }

    method AttributeDeep(p: nat) returns (r: AttributeResult)
      requires p < |mCharBuffer| && IsNameStartChar(mCharBuffer[p])
      ensures r == ParseAttribute(mCharBuffer, p)
    {
      var nameEnd := ScanName(p + 1);
      if nameEnd >= |mCharBuffer| {
        return AttributeFail;
      }
      var q := SkipSpace(nameEnd);
      if Peek(mCharBuffer, q) != '=' {
        return AttributeFail;
      }
      q := SkipSpace(q + 1);
      if Peek(mCharBuffer, q) != '"' && Peek(mCharBuffer, q) != '\'' {
        return AttributeFail;
      }
      var end := ParseText(q + 1, [mCharBuffer[q]]);
      if end == -1 {
        return AttributeFail;
      }
      r := AttributeOk(RawAttribute(StrPair(p, nameEnd, AsIs), StrPair(q + 1, end, NewlinesAndEntities)), end + 1);
    }

    /** True when an earlier attribute has the name. */
    method FindAttribute(attributes: seq<RawAttribute>, name: StrPair) returns (found: bool)
      ensures found <==> HasName(mCharBuffer, attributes, name)
    {
      var i := 0;
      while i < |attributes|
        invariant 0 <= i <= |attributes|
        invariant forall j :: 0 <= j < i ==> Slice(mCharBuffer, attributes[j].name) != Slice(mCharBuffer, name)
      {
        if Slice(mCharBuffer, attributes[i].name) == Slice(mCharBuffer, name) {
          return true;
        }
        i := i + 1;
      }
      found := false;
    }

    method AttributesDeep(p: nat) returns (r: AttributesResult)
      requires p <= |mCharBuffer|
      ensures r == ParseAttributes(mCharBuffer, p, [])
    {
      hide ParseAttribute;
      hide HasName;
      hide SkipWhiteSpace;
      var q, attributes := p, [];
      while true
        invariant p <= q <= |mCharBuffer|
        invariant ParseAttributes(mCharBuffer, p, []) == ParseAttributes(mCharBuffer, q, attributes)
        decreases |mCharBuffer| - q
      {
        ghost var before := q;
        q := SkipSpace(q);
        if q >= |mCharBuffer| {
          return AttributesFail(ParsingElement);
        }
        if IsNameStartChar(mCharBuffer[q]) {
          var attribute := AttributeDeep(q);
          if attribute.AttributeFail? {
            return AttributesFail(ParsingAttribute);
          }
          var duplicate := FindAttribute(attributes, attribute.attribute.name);
          if duplicate {
            return AttributesFail(ParsingAttribute);
          }
          attributes, q := attributes + [attribute.attribute], attribute.next;
        } else if mCharBuffer[q] == '>' {
          return AttributesOk(attributes, q + 1, false);
        } else if mCharBuffer[q] == '/' && Peek(mCharBuffer, q + 1) == '>' {
          return AttributesOk(attributes, q + 2, true);
        } else {
          return AttributesFail(ParsingElement);
        }
      }
    }

    method LeafDeep(p: nat, kind: Kind) returns (r: LeafResult)
      requires !kind.ElementKind? && p <= |mCharBuffer| && (kind.TextKind? ==> p < |mCharBuffer| && mCharBuffer[p] != '<')
      ensures r == ParseLeaf(mCharBuffer, p, kind)
    {
      var end := ParseText(p, Terminator(kind));
      if end == -1 {
        return LeafFail(MissingTerminator(kind));
      }
      if !kind.TextKind? {
        return LeafOk(Leaf(kind, p, end), end + |Terminator(kind)|);
      }
      if end + 1 < |mCharBuffer| {
        return LeafOk(Leaf(kind, p, end), end);
      }
      r := LeafFail(Parsing);
    }

    /** A list of nodes. A null result is an error or, without one, the end of the input. */
    method NodesDeep(p: nat, isDocument: bool) returns (nodes: seq<Node>, r: Pointer, parentEndTag: EndTag)
      requires p <= |mCharBuffer| && mErrorID == Success
      modifies this`mErrorID, this`mParsingDepth
      ensures mParsingDepth == old(mParsingDepth)
      ensures old(mParsingDepth) + 1 >= MAX_ELEMENT_DEPTH ==> r == Null && mErrorID == Raised(DepthExceeded)
      ensures old(mParsingDepth) + 1 < MAX_ELEMENT_DEPTH ==>
                var spec := ParseNodes(mCharBuffer, p, old(mParsingDepth) + 1, isDocument, []);
                nodes == spec.nodes && Reported(spec.end, r, parentEndTag, mErrorID)
      decreases |mCharBuffer| - p, 2
    {
      nodes, r, parentEndTag := [], Null, NoTag;
      mParsingDepth := mParsingDepth + 1;
      if mParsingDepth >= MAX_ELEMENT_DEPTH {
        mErrorID := Raised(DepthExceeded);
        mParsingDepth := mParsingDepth - 1;
        return;
      }
      ghost var depth := mParsingDepth;
      hide *;
      var q := p;
      while q < |mCharBuffer|
        invariant p <= q <= |mCharBuffer| && mErrorID == Success && mParsingDepth == depth && r == Null
        invariant ParseNodes(mCharBuffer, p, depth, isDocument, [])
                  == ParseNodes(mCharBuffer, q, depth, isDocument, nodes)
        decreases |mCharBuffer| - q
      {
        Turn(mCharBuffer, q, depth, isDocument, nodes);
        var step := NextDeep(q, isDocument, nodes);
        if step.Stop? {
          if step.end.AtEndTag? {
            parentEndTag, r := Tag(step.end.tag), To(step.end.next);
          }
          ReportedStop(step.end, r, parentEndTag, mErrorID);
          mParsingDepth := mParsingDepth - 1;
          return;
        }
        nodes, q := nodes + [step.node], step.next;
      }
      AtInputEnd(mCharBuffer, depth, isDocument, nodes);
      ReportedStop(EndOfInput, r, parentEndTag, mErrorID);
      mParsingDepth := mParsingDepth - 1;
    }

    /** One turn of that list: identify what comes next and parse it. */
    method NextDeep(p: nat, isDocument: bool, nodes: seq<Node>) returns (step: Step)
      requires p <= |mCharBuffer| && mErrorID == Success && 0 < mParsingDepth < MAX_ELEMENT_DEPTH
      modifies this`mErrorID, this`mParsingDepth
      ensures mParsingDepth == old(mParsingDepth)
      ensures step == NextNode(mCharBuffer, p, mParsingDepth, isDocument, nodes)
      ensures mErrorID == if step.Stop? && step.end.Error? then Raised(step.end.error) else Success
      decreases |mCharBuffer| - p, 1
    {
      hide ParseElement;
      hide ParseLeaf;
      hide SkipWhiteSpace;
      hide Identify;
      hide Header;
      hide Slice;
      var q := SkipSpace(p);
      if q >= |mCharBuffer| {
        return Stop(EndOfInput);
      }
      LeafStart(mCharBuffer, p, q);
      var kind := Identify(mCharBuffer, q);
      if kind.ElementKind? {
        var name, attributes, children, closing, endTag, next := ElementDeep(q + 1);
        if next.Null? {
          if mErrorID == Success {
            mErrorID := Raised(Parsing);
          }
          return Stop(Error(mErrorID.error));
        }
        if closing.Closing? {
          return Stop(AtEndTag(name, next.p));
        }
        var mismatch := false;
        if endTag.NoTag? {
          mismatch := closing.Open?;
        } else if !closing.Open? || Slice(mCharBuffer, endTag.name) != Slice(mCharBuffer, name) {
          mismatch := true;
        }
        if mismatch {
          mErrorID := Raised(MismatchedElement);
          return Stop(Error(MismatchedElement));
        }
        step := Go(Element(name, attributes, children), next.p);
      } else {
        var leaf := LeafDeep(if kind.TextKind? then p else q + |Header(kind)|, kind);
        if leaf.LeafFail? {
          mErrorID := Raised(leaf.error);
          return Stop(Error(leaf.error));
        }
        if kind.DeclarationKind? && !WellLocated(isDocument, nodes) {
          mErrorID := Raised(ParsingDeclaration);
          return Stop(Error(ParsingDeclaration));
        }
        step := Go(leaf.leaf, leaf.next);
      }
    }

    /** An element, or an end tag. A null result without an error is reported by the caller. */
    method ElementDeep(p: nat)
      returns (name: StrPair, attributes: seq<RawAttribute>, children: seq<Node>, closing: ClosingType, endTag: EndTag,
               r: Pointer)
      requires 0 < p <= |mCharBuffer| && mErrorID == Success && 0 < mParsingDepth < MAX_ELEMENT_DEPTH
      modifies this`mErrorID, this`mParsingDepth
      ensures mParsingDepth == old(mParsingDepth)
      ensures match ParseElement(mCharBuffer, p, old(mParsingDepth))
              case ElementFail(error) =>
                r == Null && (mErrorID == Raised(error) || (mErrorID == Success && error == Parsing))
              case ElementOk(n, a, c, cl, t, next) =>
                r == To(next) && mErrorID == Success && name == n && attributes == a && children == c
                && closing == cl && endTag == t
      decreases |mCharBuffer| - p, 3
    {
      hide ParseNodes;
      hide ParseAttributes;
      hide SkipWhiteSpace;
      hide NameEnd;
      name, attributes, children, closing, endTag, r := StrPair(0, 0, AsIs), [], [], Open, NoTag, Null;
      var q := SkipSpace(p);
      if Peek(mCharBuffer, q) == '/' {
        closing := Closing;
        q := q + 1;
      }
      if q >= |mCharBuffer| || !IsNameStartChar(mCharBuffer[q]) {
        return;
      }
      var nameEnd := ScanName(q + 1);
      name := StrPair(q, nameEnd, AsIs);
      var list := AttributesDeep(nameEnd);
      if list.AttributesFail? {
        mErrorID := Raised(list.error);
        return;
      }
      attributes := list.attributes;
      if list.isSealed {
        closing := Closed;
      }
      if list.next >= |mCharBuffer| || !closing.Open? {
        r := To(list.next);
        return;
      }
      children, r, endTag := NodesDeep(list.next, false);
    }

    method Parse(text: string)
      modifies this
      ensures match ParseDocument(text)
              case Failed(error) => mErrorID == Raised(error)
              case Parsed(bom, nodes) => mErrorID == Success && mWriteBOM == bom && mChildren == nodes
    {
      hide ParseNodes;
      hide SkipWhiteSpace;
      mErrorID, mParsingDepth, mChildren, mWriteBOM := Success, 0, [], false;
      mCharBuffer := CString(text);
      if mCharBuffer == "" {
        mErrorID := Raised(EmptyDocument);
        return;
      }
      var p := SkipSpace(0);
      mWriteBOM := StartsAt(mCharBuffer, p, BOM);
      if mWriteBOM {
        p := p + 3;
      }
      if p >= |mCharBuffer| {
        mErrorID := Raised(EmptyDocument);
        return;
      }
      var nodes, r, endTag := NodesDeep(p, true);
      mChildren := nodes;
    }
  }
}
