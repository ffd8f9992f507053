/** The printer, in compact mode: a visitor that appends to a buffer and closes start tags late. */
module XmlPrint {
  import opened XmlText

  datatype Attribute = Attribute(name: string, value: string)

  /** A document tree by its values. */
  datatype Xml =
    | Element(name: string, attributes: seq<Attribute>, children: seq<Xml>)
    | Text(value: string, cdata: bool)
    | Comment(value: string)
    | Declaration(value: string)
    | Unknown(value: string)

  function PrintAttributes(attributes: seq<Attribute>): string {
    if attributes == [] then ""
    else " " + attributes[0].name + "=\"" + Escape(attributes[0].value, false) + "\"" + PrintAttributes(attributes[1..])
  }

  /** The compact form of a node: an element without children is sealed. */
  function PrintNode(n: Xml): string {
    match n
    case Element(name, attributes, children) =>
      "<" + name + PrintAttributes(attributes)
      + if children == [] then "/>" else ">" + PrintNodes(children) + "</" + name + ">"
    case Text(value, cdata) => if cdata then "<![CDATA[" + value + "]]>" else Escape(value, true)
    case Comment(value) => "<!--" + value + "-->"
    case Declaration(value) => "<?" + value + "?>"
    case Unknown(value) => "<!" + value + ">"
  }

  function PrintNodes(ns: seq<Xml>): string {
    if ns == [] then "" else PrintNode(ns[0]) + PrintNodes(ns[1..])
  }

  lemma {:induction false} PrintAttributesSplit(a: seq<Attribute>, b: seq<Attribute>)
    ensures PrintAttributes(a + b) == PrintAttributes(a) + PrintAttributes(b)
  {
    if a == [] {
      assert a + b == b;
    } else {
      assert (a + b)[1..] == a[1..] + b;
      PrintAttributesSplit(a[1..], b);
    }
  }

  lemma {:induction false} PrintNodesSplit(a: seq<Xml>, b: seq<Xml>)
    ensures PrintNodes(a + b) == PrintNodes(a) + PrintNodes(b)
  {
    if a == [] {
      assert a + b == b;
    } else {
      assert (a + b)[1..] == a[1..] + b;
      PrintNodesSplit(a[1..], b);
    }
  }

  /** How much is written: the strings, four bytes more for an attribute, three for a sealed tag and five and the name
      again for an open one, and the delimiters of other nodes. Nothing else, white space say, is in between. */
  lemma NodeLength(n: Xml)
    ensures |PrintNode(n)| == match n
                              case Element(name, attributes, children) =>
                                |name| + |PrintAttributes(attributes)|
                                + if children == [] then 3 else |PrintNodes(children)| + |name| + 5
                              case Text(value, cdata) => if cdata then |value| + 12 else |Escape(value, true)|
                              case Comment(value) => |value| + 7
                              case Declaration(value) => |value| + 4
                              case Unknown(value) => |value| + 3
  {
  }

  lemma {:induction false} AttributesLength(attributes: seq<Attribute>)
    ensures |PrintAttributes(attributes)|
            == if attributes == [] then 0
               else |attributes[0].name| + |Escape(attributes[0].value, false)| + 4 + |PrintAttributes(attributes[1..])|
  {
  }

  /** One node of each kind, as printed. */
  lemma LeavesPrinted()
    ensures PrintNode(Comment("c")) == "<!--c-->" && PrintNode(Declaration("d")) == "<?d?>" && PrintNode(Unknown("u")) == "<!u>"
    ensures PrintNode(Text("<t'", false)) == "&lt;t'" && PrintNode(Text("<&", true)) == "<![CDATA[<&]]>"
  {
    EscapedExample();
  }

  /** Elements, as printed: values in double quotes, one space in front of each attribute, no more. */
  lemma ElementsPrinted()
    ensures PrintAttributes([Attribute("y", "a'\"")]) == " y=\"a&apos;&quot;\""
    ensures PrintNode(Element("b", [], [])) == "<b/>"
    ensures PrintNode(Element("a", [], [Element("b", [], [])])) == "<a><b/></a>"
  {
    EscapedExample();
    var y := Attribute("y", "a'\"");
    assert [y][1..] == [];
    assert PrintAttributes([y]) == " " + "y" + "=\"" + "a&apos;&quot;" + "\"" + "";
    var fork := Element("b", [], []);
    assert PrintNode(fork) == "<" + "b" + "" + "/>" == "<b/>";
    assert [fork][1..] == [];
    assert PrintNodes([fork]) == "<b/>" + "" == "<b/>";
    assert PrintNode(Element("a", [], [fork])) == "<" + "a" + "" + (">" + "<b/>" + "</" + "a" + ">");
  }

  lemma EscapedExample()
    ensures Escape("a'\"", false) == "a&apos;&quot;" && Escape("<t'", true) == "&lt;t'"
  {
    assert "a'\""[1..] == "'\"" && "'\""[1..] == "\"" && "\""[1..] == "";
    assert "<t'"[1..] == "t'" && "t'"[1..] == "'" && "'"[1..] == "";
  }

  lemma NothingPrinted()
    ensures PrintNodes([]) == ""
  {
  }

  lemma PrintNodesNext(ns: seq<Xml>, i: nat)
    requires i < |ns|
    ensures PrintNodes(ns[..i + 1]) == PrintNodes(ns[..i]) + PrintNode(ns[i])
  {
    assert ns[..i + 1] == ns[..i] + [ns[i]];
    PrintNodesSplit(ns[..i], [ns[i]]);
    assert [ns[i]][1..] == [];
  }

  lemma {:induction false} EscapeSplit(a: string, b: string, restricted: bool)
    ensures Escape(a + b, restricted) == Escape(a, restricted) + Escape(b, restricted)
  {
    if a == "" {
      assert a + b == b;
    } else {
      assert (a + b)[1..] == a[1..] + b;
      EscapeSplit(a[1..], b, restricted);
    }
  }

  lemma {:induction false} EscapeUnflagged(s: string, restricted: bool)
    requires forall c :: c in s ==> !Flagged(c, restricted)
    ensures Escape(s, restricted) == s
  {
    if s != "" {
      EscapeUnflagged(s[1..], restricted);
    }
  }

  function Printed(bom: bool, nodes: seq<Xml>): string {
    (if bom then BOM else "") + PrintNodes(nodes)
  }

  lemma EscapeRun(s: string, p: nat, q: nat, restricted: bool)
    requires p <= q <= |s| && forall k :: p <= k < q ==> !Flagged(s[k], restricted)
    ensures Escape(s[..q], restricted) == Escape(s[..p], restricted) + s[p..q]
  {
    assert s[..q] == s[..p] + s[p..q];
    EscapeSplit(s[..p], s[p..q], restricted);
    EscapeUnflagged(s[p..q], restricted);
  }

  lemma EscapeNext(s: string, q: nat, restricted: bool)
    requires q < |s|
    ensures Escape(s[..q + 1], restricted) == Escape(s[..q], restricted) + EscapeChar(s[q], restricted)
  {
    assert s[..q + 1] == s[..q] + [s[q]];
    EscapeSplit(s[..q], [s[q]], restricted);
    assert [s[q]][1..] == "" && Escape("", restricted) == "";
  }

  class XMLPrinter {
    var mBuffer: string
    var mStack: seq<string>
    var mDepth: int
    var mElementJustOpened: bool

    constructor ()
      ensures mBuffer == "" && mStack == [] && mDepth == 0 && !mElementJustOpened
    {
      mBuffer, mStack, mDepth, mElementJustOpened := "", [], 0, false;
    }

    method Write(data: string)
      modifies this`mBuffer
      ensures mBuffer == old(mBuffer) + data
    {
      mBuffer := mBuffer + data;
    }

    /** Writes a flagged byte as the entity that the table has for it. */
    method WriteEntity(c: char, restricted: bool)
      requires Flagged(c, restricted)
      modifies this`mBuffer
      ensures mBuffer == old(mBuffer) + EscapeChar(c, restricted)
    {
      assert ENTITIES[0].value == '"' && ENTITIES[1].value == '&' && ENTITIES[2].value == '\'';
      assert ENTITIES[3].value == '<' && ENTITIES[4].value == '>';
      var i := 0;
      while i < |ENTITIES| && ENTITIES[i].value != c
        invariant 0 <= i <= |ENTITIES| && forall j :: 0 <= j < i ==> ENTITIES[j].value != c
      {
        i := i + 1;
      }
      Write("&");
      Write(ENTITIES[i].pattern);
      Write(";");
      assert EscapeChar(c, restricted) == "&" + ENTITIES[i].pattern + ";";
    }

    /** Writes runs of ordinary bytes whole, and each flagged byte as its entity. */
    method PrintString(s: string, restricted: bool)
      modifies this`mBuffer
      ensures mBuffer == old(mBuffer) + Escape(s, restricted)
    {
      hide Flagged;
      hide EscapeChar;
      var p, q := 0, 0;
      while q < |s|
        invariant 0 <= p <= q <= |s|
        invariant mBuffer == old(mBuffer) + Escape(s[..p], restricted)
        invariant forall k :: p <= k < q ==> !Flagged(s[k], restricted)
      {
        if Flagged(s[q], restricted) {
          EscapeRun(s, p, q, restricted);
          if p < q {
            Write(s[p..q]);
            p := q;
          }
          EscapeNext(s, q, restricted);
          WriteEntity(s[q], restricted);
          p := p + 1;
        }
        q := q + 1;
      }
      EscapeRun(s, p, q, restricted);
      if p < q {
        Write(s[p..q]);
      }
      assert s[..q] == s;
    }

    method SealElementIfJustOpened()
      modifies this`mBuffer, this`mElementJustOpened
      ensures !mElementJustOpened && mBuffer == old(mBuffer) + if old(mElementJustOpened) then ">" else ""
    {
      if !mElementJustOpened {
        return;
      }
      mElementJustOpened := false;
      Write(">");
    }

    method OpenElement(name: string)
      modifies this
      ensures mBuffer == old(mBuffer) + (if old(mElementJustOpened) then ">" else "") + "<" + name
      ensures mElementJustOpened && mDepth == old(mDepth) + 1 && mStack == old(mStack) + [name]
    {
      SealElementIfJustOpened();
      mStack := mStack + [name];
      Write("<");
      Write(name);
      mElementJustOpened := true;
      mDepth := mDepth + 1;
    }

    method PushAttribute(attribute: Attribute)
      requires mElementJustOpened
      modifies this`mBuffer
      ensures mBuffer == old(mBuffer) + PrintAttributes([attribute])
    {
      Write(" ");
      Write(attribute.name);
      Write("=\"");
      PrintString(attribute.value, false);
      Write("\"");
      assert [attribute][1..] == [];
    }

    method CloseElement()
      requires mStack != []
      modifies this
      ensures mStack == old(mStack)[..|old(mStack)| - 1] && mDepth == old(mDepth) - 1
      ensures !mElementJustOpened
      ensures mBuffer == old(mBuffer) + if old(mElementJustOpened) then "/>"
                                        else "</" + old(mStack)[|old(mStack)| - 1] + ">"
    {
      mDepth := mDepth - 1;
      var name := mStack[|mStack| - 1];
      mStack := mStack[..|mStack| - 1];
      if mElementJustOpened {
        Write("/>");
      } else {
        Write("</");
        Write(name);
        Write(">");
      }
      mElementJustOpened := false;
    }

    method PushText(value: string, cdata: bool)
      modifies this`mBuffer, this`mElementJustOpened
      ensures mBuffer == old(mBuffer) + (if old(mElementJustOpened) then ">" else "") + PrintNode(Text(value, cdata))
      ensures !mElementJustOpened
    {
      SealElementIfJustOpened();
      if cdata {
        Write("<![CDATA[");
        Write(value);
        Write("]]>");
      } else {
        PrintString(value, true);
      }
    }

    /** Comments, declarations and unknowns. */
    method PushDelimited(header: string, value: string, terminator: string)
      modifies this`mBuffer, this`mElementJustOpened
      ensures mBuffer == old(mBuffer) + (if old(mElementJustOpened) then ">" else "") + header + value + terminator
      ensures !mElementJustOpened
    {
      SealElementIfJustOpened();
      Write(header);
      Write(value);
      Write(terminator);
    }

    method VisitEnter(name: string, attributes: seq<Attribute>)
      modifies this
      ensures mBuffer == old(mBuffer) + (if old(mElementJustOpened) then ">" else "") + "<" + name
                         + PrintAttributes(attributes)
      ensures mElementJustOpened && mDepth == old(mDepth) + 1 && mStack == old(mStack) + [name]
    {
      OpenElement(name);
      ghost var started := mBuffer;
      var i := 0;
      while i < |attributes|
        invariant 0 <= i <= |attributes| && mBuffer == started + PrintAttributes(attributes[..i])
        invariant mElementJustOpened && mStack == old(mStack) + [name] && mDepth == old(mDepth) + 1
      {
        PushAttribute(attributes[i]);
        PrintAttributesSplit(attributes[..i], [attributes[i]]);
        assert attributes[..i + 1] == attributes[..i] + [attributes[i]];
        i := i + 1;
      }
      assert attributes[..i] == attributes;
    }

    /** Visits a node and everything below it. A pending start tag is closed first. */
    method Accept(n: Xml)
      modifies this
      ensures mBuffer == old(mBuffer) + (if old(mElementJustOpened) then ">" else "") + PrintNode(n)
      ensures !mElementJustOpened && mStack == old(mStack) && mDepth == old(mDepth)
      decreases n
    {
      match n
      case Element(name, attributes, children) => AcceptElement(name, attributes, children);
      case Text(value, cdata) => PushText(value, cdata);
      case Comment(value) => PushDelimited("<!--", value, "-->");
      case Declaration(value) => PushDelimited("<?", value, "?>");
      case Unknown(value) => PushDelimited("<!", value, ">");
    }

    method AcceptElement(name: string, attributes: seq<Attribute>, children: seq<Xml>)
      modifies this
      ensures mBuffer == old(mBuffer) + (if old(mElementJustOpened) then ">" else "")
                         + PrintNode(Element(name, attributes, children))
      ensures !mElementJustOpened && mStack == old(mStack) && mDepth == old(mDepth)
      decreases children, 1
    {
      hide PrintAttributes;
      hide PrintNodes;
      VisitEnter(name, attributes);
      AcceptAll(children);
      CloseElement();
      assert mStack == old(mStack);
    }

    /** The children of an element whose start tag may still be open. */
    method AcceptAll(children: seq<Xml>)
      requires mElementJustOpened
      modifies this
      ensures mBuffer == old(mBuffer) + if children == [] then "" else ">" + PrintNodes(children)
      ensures mElementJustOpened == (children == []) && mStack == old(mStack) && mDepth == old(mDepth)
      decreases children, 0
    {
      hide PrintNode;
      hide PrintNodes;
      assert PrintNodes(children[..0]) == "" by {
        NothingPrinted();
      }
      var i := 0;
      while i < |children|
        invariant 0 <= i <= |children|
        invariant mBuffer == old(mBuffer) + if i == 0 then "" else ">" + PrintNodes(children[..i])
        invariant mElementJustOpened == (i == 0) && mStack == old(mStack) && mDepth == old(mDepth)
      {
        PrintNodesNext(children, i);
        Accept(children[i]);
        i := i + 1;
      }
      assert children[..i] == children;
    }

    /** Prints a document. */
    method PrintDocument(bom: bool, nodes: seq<Xml>)
      requires mBuffer == "" && mStack == [] && mDepth == 0 && !mElementJustOpened
      modifies this
      ensures mBuffer == Printed(bom, nodes)
    {
      if bom {
        Write(BOM);
      }
      var i := 0;
      while i < |nodes|
        invariant 0 <= i <= |nodes| && !mElementJustOpened
        invariant mBuffer == Printed(bom, nodes[..i])
      {
        PrintNodesNext(nodes, i);
        Accept(nodes[i]);
        i := i + 1;
      }
      assert nodes[..i] == nodes;
    }
  }
}
