/** A reader of HTML, and that it gets the tree back from what `toHTML` writes: tags,
    attributes with their values, texts, and which node is whose child. */
module HtmlReader {
  import opened Text
  import opened Html

  // The reader.

  predicate EndsTag(c: char) {
    c == ' ' || c == '/' || c == '>'
  }

  /** The end of the tag's name that begins at `i`. */
  function TagEnd(s: string, i: nat): (j: nat)
    requires i <= |s|
    ensures i <= j <= |s|
    ensures forall k :: i <= k < j ==> !EndsTag(s[k])
    ensures j < |s| ==> EndsTag(s[j])
    decreases |s| - i
  {
    if i < |s| && !EndsTag(s[i]) then TagEnd(s, i + 1) else i
  }

  /** The attributes at `i`: each a blank, a name, and a value between quotation marks. */
  function ReadAttributes(s: string, i: nat): (r: (seq<Attribute>, nat))
    requires i <= |s|
    ensures i <= r.1 <= |s|
    decreases |s| - i
  {
    if i == |s| || s[i] != ' ' then ([], i)
    else
      var e := FindChar(s, '=', i + 1);
      if e + 2 > |s| || s[e + 1] != '"' then ([], i)
      else
        var v := FindChar(s, '"', e + 2);
        if v == |s| then ([], i)
        else
          var (rest, j) := ReadAttributes(s, v + 1);
          ([Attribute(s[i + 1..e], Unescape(s[e + 2..v]))] + rest, j)
  }

  function ReadNode(s: string, i: nat): (r: Option<(Node, nat)>)
    requires i <= |s|
    ensures r.Some? ==> i < r.value.1 <= |s|
    decreases |s| - i, 0
  {
    if i == |s| then None
    else if s[i] != '<' then
      var e := FindChar(s, '<', i);
      Some((TextNode(Unescape(s[i..e])), e))
    else
      var e := TagEnd(s, i + 1);
      var name := s[i + 1..e];
      var (attributes, j) := ReadAttributes(s, e);
      if At(s, j, "/>") then Some((Element(name, attributes, []), j + 2))
      else if !At(s, j, ">") then None
      else
        match ReadNodes(s, j + 1)
        case None => None
        case Some((children, k)) =>
          var close := "</" + name + ">";
          if At(s, k, close) then Some((Element(name, attributes, children), k + |close|)) else None
  }

  /** The nodes up to a closing tag or the end. */
  function ReadNodes(s: string, i: nat): (r: Option<(seq<Node>, nat)>)
    requires i <= |s|
    ensures r.Some? ==> i <= r.value.1 <= |s|
    decreases |s| - i, 1
  {
    if i == |s| || At(s, i, "</") then Some(([], i))
    else match ReadNode(s, i)
         case None => None
         case Some((n, j)) =>
           match ReadNodes(s, j)
           case None => None
           case Some((rest, k)) => Some(([n] + rest, k))
  }

  // What it is given.

  /** The names are such that HTML can hold them, there are no nodes but elements and texts,
      and no text is empty or next to another. */
  predicate Readable(n: Node) {
    match n
    case Element(name, attributes, children) =>
      name != [] && ' ' !in name && '/' !in name && '>' !in name &&
      (forall a :: a in attributes ==> '=' !in a.name) &&
      (forall k :: 0 <= k < |children| ==> Readable(children[k])) &&
      forall k :: 0 < k < |children| ==> children[k - 1].Element? || children[k].Element?
    case TextNode(t) => t != []
    case OtherNode => false
  }

  predicate ReadableAll(nodes: seq<Node>) {
    (forall k :: 0 <= k < |nodes| ==> Readable(nodes[k])) &&
    forall k :: 0 < k < |nodes| ==> nodes[k - 1].Element? || nodes[k].Element?
  }

  /** A node as a reader sees it: its tag in lower case, its attributes in order. */
  function Shown(n: Node): Node
    decreases n, 0
  {
    match n
    case Element(name, attributes, children) => Element(Lower(name), Sorted(attributes), ShownAll(children))
    case _ => n
  }

  function ShownAll(nodes: seq<Node>): seq<Node>
    decreases nodes, 1
  {
    if nodes == [] then [] else [Shown(nodes[0])] + ShownAll(nodes[1..])
  }

  // The text of a node.

  function Markup(n: Node): string {
    Concat(Render(n))
  }

  function MarkupAll(nodes: seq<Node>): string {
    Concat(RenderAll(nodes))
  }

  function AttributeText(attributes: seq<Attribute>): string {
    Concat(AttributeParts(attributes))
  }

  lemma AttributeStep(a: Attribute, rest: seq<Attribute>)
    ensures AttributeText([]) == []
    ensures AttributeText([a] + rest) ==
      " " + (a.name + ("=\"" + (EscapeHTML(a.value) + ("\"" + AttributeText(rest)))))
  {
    hide EscapeHTML;
    assert ([a] + rest)[1..] == rest;
    ConcatAppend(Parts(a), AttributeParts(rest));
    ConcatFive(" ", a.name, "=\"", EscapeHTML(a.value), "\"");
  }

  lemma ConcatFive(a: string, b: string, c: string, d: string, e: string)
    ensures Concat([a, b, c, d, e]) == a + (b + (c + (d + e)))
  {
    ConcatAppend([a], [b, c, d, e]);
    ConcatAppend([b], [c, d, e]);
    ConcatAppend([c], [d, e]);
    ConcatAppend([d], [e]);
    ConcatSingle(a);
    ConcatSingle(b);
    ConcatSingle(c);
    ConcatSingle(d);
    ConcatSingle(e);
    assert [a, b, c, d, e] == [a] + [b, c, d, e] && [b, c, d, e] == [b] + [c, d, e];
    assert [c, d, e] == [c] + [d, e] && [d, e] == [d] + [e];
  }

  lemma MarkupStep(nodes: seq<Node>)
    ensures MarkupAll([]) == []
    ensures nodes != [] ==> MarkupAll(nodes) == Markup(nodes[0]) + MarkupAll(nodes[1..])
  {
    hide Render;
    if nodes != [] {
      ConcatAppend(Render(nodes[0]), RenderAll(nodes[1..]));
    }
  }

  lemma TextMarkup(t: string)
    ensures Markup(TextNode(t)) == EscapeHTML(t)
  {
    hide EscapeHTML;
    ConcatSingle(EscapeHTML(t));
  }

  lemma ElementMarkup(n: Node)
    requires n.Element?
    ensures var open := "<" + (Lower(n.tagName) + AttributeText(Sorted(n.attributes)));
      Markup(n) == if n.childNodes == [] then open + "/>"
        else open + (">" + (MarkupAll(n.childNodes) + ("</" + Lower(n.tagName) + ">")))
  {
    hide Lower, Sorted, AttributeParts, RenderAll;
    var parts := AttributeParts(Sorted(n.attributes));
    OpenText(n);
    if n.childNodes == [] {
      ConcatAppend(OpenParts(n), ["/>"]);
      ConcatSingle("/>");
    } else {
      ConcatAppend(OpenParts(n), [">"] + (RenderAll(n.childNodes) + [CloseTag(n)]));
      ConcatAppend([">"], RenderAll(n.childNodes) + [CloseTag(n)]);
      ConcatAppend(RenderAll(n.childNodes), [CloseTag(n)]);
      ConcatSingle(">");
      ConcatSingle(CloseTag(n));
    }
  }

  lemma OpenText(n: Node)
    requires n.Element?
    ensures Concat(OpenParts(n)) == "<" + (Lower(n.tagName) + AttributeText(Sorted(n.attributes)))
  {
    hide Lower, Sorted, AttributeParts;
    ConcatAppend(["<" + Lower(n.tagName)], AttributeParts(Sorted(n.attributes)));
    ConcatSingle("<" + Lower(n.tagName));
  }

  // Reading it.

  lemma {:induction false} LowerName(name: string)
    ensures |Lower(name)| == |name|
    ensures ' ' !in name && '/' !in name && '>' !in name ==> forall c :: c in Lower(name) ==> !EndsTag(c)
  {
    if name != [] {
      LowerName(name[1..]);
      assert name == [name[0]] + name[1..];
    }
  }

  lemma Chars(s: string, i: nat, t: string)
    requires At(s, i, t)
    ensures i + |t| <= |s| && forall k :: i <= k < i + |t| ==> s[k] == t[k - i]
  {
    forall k | i <= k < i + |t| ensures s[k] == t[k - i] {
      AtChar(s, i, t, k - i);
    }
  }

  lemma Ends(s: string, i: nat, t: string, c: char)
    requires At(s, i, t) && i + |t| < |s| && s[i + |t|] == c && c !in t
    ensures FindChar(s, c, i) == i + |t|
  {
    Chars(s, i, t);
  }

  lemma TagIs(s: string, i: nat, t: string)
    requires At(s, i, t) && i + |t| < |s| && EndsTag(s[i + |t|]) && forall c :: c in t ==> !EndsTag(c)
    ensures TagEnd(s, i) == i + |t| && s[i..i + |t|] == t
  {
    Chars(s, i, t);
    forall k | i <= k < i + |t| ensures !EndsTag(s[k]) {
      assert t[k - i] in t;
    }
  }

  /** The attributes come back with their values. */
  lemma {:induction false} AttributesAt(s: string, i: nat, attributes: seq<Attribute>)
    requires At(s, i, AttributeText(attributes)) && forall k :: 0 <= k < |attributes| ==> '=' !in attributes[k].name
    requires i + |AttributeText(attributes)| < |s| && s[i + |AttributeText(attributes)|] != ' '
    ensures ReadAttributes(s, i) == (attributes, i + |AttributeText(attributes)|)
    decreases |attributes|
  {
    hide At, AttributeText, EscapeHTML, Unescape, FindChar, ReadAttributes;
    if attributes == [] {
      AttributeStep(Attribute([], []), []);
      NoAttribute(s, i);
    } else {
      var a, rest := attributes[0], attributes[1..];
      assert attributes == [a] + rest;
      AttributeStep(a, rest);
      var e := i + 1 + |a.name|;
      var v := e + 2 + |EscapeHTML(a.value)|;
      OneAttributeAt(s, i, a, AttributeText(rest));
      AttributesAt(s, v + 1, rest);
      FirstAttribute(s, i, e, v);
    }
  }

  lemma NoAttribute(s: string, i: nat)
    requires i < |s| && s[i] != ' '
    ensures ReadAttributes(s, i) == ([], i)
  {
  }

  lemma FirstAttribute(s: string, i: nat, e: nat, v: nat)
    requires i < e && e + 2 <= v < |s| && s[i] == ' ' && FindChar(s, '=', i + 1) == e && s[e + 1] == '"'
    requires FindChar(s, '"', e + 2) == v
    ensures ReadAttributes(s, i) ==
      ([Attribute(s[i + 1..e], Unescape(s[e + 2..v]))] + ReadAttributes(s, v + 1).0, ReadAttributes(s, v + 1).1)
  {
    hide FindChar, Unescape;
  }

  lemma OneAttributeAt(s: string, i: nat, a: Attribute, rest: string)
    requires At(s, i, " " + (a.name + ("=\"" + (EscapeHTML(a.value) + ("\"" + rest))))) && '=' !in a.name
    ensures var e := i + 1 + |a.name|; var v := e + 2 + |EscapeHTML(a.value)|;
      v < |s| && s[i] == ' ' && FindChar(s, '=', i + 1) == e && s[e + 1] == '"' && FindChar(s, '"', e + 2) == v &&
      s[i + 1..e] == a.name && Unescape(s[e + 2..v]) == a.value && At(s, v + 1, rest)
  {
    hide EscapeHTML, Unescape, At;
    var e := i + 1 + |a.name|;
    var v := e + 2 + |EscapeHTML(a.value)|;
    AtConcat(s, i, " ", a.name + ("=\"" + (EscapeHTML(a.value) + ("\"" + rest))));
    AtConcat(s, i + 1, a.name, "=\"" + (EscapeHTML(a.value) + ("\"" + rest)));
    AtConcat(s, e, "=\"", EscapeHTML(a.value) + ("\"" + rest));
    AtConcat(s, e + 2, EscapeHTML(a.value), "\"" + rest);
    AtConcat(s, v, "\"", rest);
    AtChar(s, i, " ", 0);
    AtChar(s, e, "=\"", 0);
    AtChar(s, e, "=\"", 1);
    AtChar(s, v, "\"", 0);
    Chars(s, i + 1, a.name);
    Chars(s, e + 2, EscapeHTML(a.value));
    Chars(s, v, "\"");
    Ends(s, i + 1, a.name, '=');
    EscapedIsInert(a.value);
    Ends(s, e + 2, EscapeHTML(a.value), '"');
    UnescapeEscaped(a.value);
    assert s[e + 2..v] == EscapeHTML(a.value);
    assert s[i + 1..e] == a.name;
  }

  lemma SortedNames(attributes: seq<Attribute>)
    requires forall a :: a in attributes ==> '=' !in a.name
    ensures forall k :: 0 <= k < |Sorted(attributes)| ==> '=' !in Sorted(attributes)[k].name
  {
    SortedIsOrdered(attributes);
    forall k | 0 <= k < |Sorted(attributes)| ensures '=' !in Sorted(attributes)[k].name {
      assert Sorted(attributes)[k] in multiset(attributes);
    }
  }

  /** What stands behind a text: the next tag, or nothing. */
  predicate Closed(s: string, k: nat) {
    k < |s| ==> s[k] == '<'
  }

  lemma RunsTo(s: string, i: nat, t: string)
    requires At(s, i, t) && t != [] && '<' !in t && Closed(s, i + |t|)
    ensures i < |s| && s[i] != '<' && FindChar(s, '<', i) == i + |t| && s[i..i + |t|] == t
  {
    Chars(s, i, t);
    forall k | i <= k < i + |t| ensures s[k] != '<' {
      assert t[k - i] in t;
    }
  }

  lemma TextAt(s: string, i: nat, t: string)
    requires t != [] && At(s, i, EscapeHTML(t)) && Closed(s, i + |EscapeHTML(t)|)
    ensures i < |s| && s[i] != '<' && ReadNode(s, i) == Some((TextNode(t), i + |EscapeHTML(t)|))
  {
    hide EscapeHTML, Unescape, FindChar, At, Closed, TagEnd, ReadAttributes;
    EscapedIsInert(t);
    UnescapeEscaped(t);
    EscapedNotEmpty(t);
    RunsTo(s, i, EscapeHTML(t));
  }

  lemma EscapedNotEmpty(t: string)
    requires t != []
    ensures EscapeHTML(t) != []
  {
    EscapeIsMap(t);
  }

  /** The tag and the attributes of an element, up to its "/>" or ">". */
  lemma OpenAt(s: string, i: nat, n: Node, rest: string)
    requires Readable(n) && n.Element? && rest != [] && (rest[0] == '/' || rest[0] == '>')
    requires At(s, i, "<" + (Lower(n.tagName) + AttributeText(Sorted(n.attributes))) + rest)
    ensures var e := i + 1 + |n.tagName|; var j := e + |AttributeText(Sorted(n.attributes))|;
      j < |s| && s[i] == '<' && i + 1 < |s| && s[i + 1] != '/' && TagEnd(s, i + 1) == e &&
      s[i + 1..e] == Lower(n.tagName) && ReadAttributes(s, e) == (Sorted(n.attributes), j) && At(s, j, rest)
  {
    hide At, Lower, Sorted, AttributeText, ReadAttributes, TagEnd, EndsTag;
    LowerName(n.tagName);
    SortedNames(n.attributes);
    AttributeBegins(Sorted(n.attributes));
    OpenParted(s, i, Lower(n.tagName), AttributeText(Sorted(n.attributes)), rest);
    AttributesAt(s, i + 1 + |n.tagName|, Sorted(n.attributes));
  }

  lemma OpenParted(s: string, i: nat, name: string, text: string, rest: string)
    requires At(s, i, "<" + (name + text) + rest) && rest != [] && (rest[0] == '/' || rest[0] == '>')
    requires name != [] && (forall c :: c in name ==> !EndsTag(c)) && (text != [] ==> text[0] == ' ')
    ensures var e := i + 1 + |name|; var j := e + |text|;
      j < |s| && s[i] == '<' && s[i + 1] != '/' && TagEnd(s, i + 1) == e && s[i + 1..e] == name &&
      At(s, e, text) && At(s, j, rest) && s[j] == rest[0]
  {
    hide At, TagEnd, EndsTag;
    var e := i + 1 + |name|;
    PartsAt(s, i, name, text, rest);
    Chars(s, i + 1, name);
    Chars(s, e, text);
    Chars(s, e + |text|, rest);
    assert name[0] in name && EndsTag('/') && EndsTag(' ') && EndsTag('>') by { Enders(); }
    assert s[e] == if text != [] then text[0] else rest[0];
    TagIs(s, i + 1, name);
  }

  lemma Enders()
    ensures EndsTag('/') && EndsTag(' ') && EndsTag('>')
  {
  }

  lemma PartsAt(s: string, i: nat, name: string, text: string, rest: string)
    requires At(s, i, "<" + (name + text) + rest)
    ensures var e := i + 1 + |name|;
      At(s, i + 1, name) && At(s, e, text) && At(s, e + |text|, rest) && i < |s| && s[i] == '<'
  {
    hide At;
    var e := i + 1 + |name|;
    assert "<" + (name + text) + rest == "<" + (name + (text + rest));
    AtConcat(s, i, "<", name + (text + rest));
    AtConcat(s, i + 1, name, text + rest);
    AtConcat(s, e, text, rest);
    Chars(s, i, "<");
  }

  lemma AttributeBegins(attributes: seq<Attribute>)
    ensures var t := AttributeText(attributes); t != [] ==> t[0] == ' '
  {
    if attributes == [] {
      AttributeStep(Attribute([], []), []);
    } else {
      AttributeStep(attributes[0], attributes[1..]);
      assert attributes == [attributes[0]] + attributes[1..];
    }
  }

  lemma ReadableChildren(n: Node)
    requires Readable(n) && n.Element?
    ensures ReadableAll(n.childNodes)
  {
  }

  lemma ReadableRest(nodes: seq<Node>)
    requires ReadableAll(nodes) && nodes != []
    ensures Readable(nodes[0]) && ReadableAll(nodes[1..])
    ensures nodes[0].TextNode? ==> |nodes| == 1 || nodes[1].Element?
  {
  }

  /** A node is read back from its text, wherever it stands. */
  lemma {:induction false} NodeAt(s: string, i: nat, n: Node)
    requires Readable(n) && At(s, i, Markup(n)) && (n.TextNode? ==> Closed(s, i + |Markup(n)|))
    ensures i < |s| && !At(s, i, "</") && ReadNode(s, i) == Some((Shown(n), i + |Markup(n)|))
    decreases n, 1
  {
    hide At, Markup, Readable, ReadNode;
    if n.TextNode? {
      TextMarkup(n.nodeValue);
      TextIs(n);
      TextAt(s, i, n.nodeValue);
      NoClose(s, i);
    } else {
      IsElement(n);
      LowerName(n.tagName);
      if n.childNodes == [] {
        EmptyElementAt(s, i, n);
      } else {
        ElementAt(s, i, n);
      }
    }
  }

  lemma EmptyElementAt(s: string, i: nat, n: Node)
    requires Readable(n) && n.Element? && n.childNodes == [] && At(s, i, Markup(n))
    ensures i < |s| && !At(s, i, "</") && ReadNode(s, i) == Some((Shown(n), i + |Markup(n)|))
  {
    hide At, Markup, Readable, Lower, Sorted, ReadAttributes, TagEnd, AttributeText;
    ElementMarkup(n);
    LowerName(n.tagName);
    OpenAt(s, i, n, "/>");
    NoClose(s, i);
  }

  lemma ElementAt(s: string, i: nat, n: Node)
    requires Readable(n) && n.Element? && n.childNodes != [] && At(s, i, Markup(n))
    ensures i < |s| && !At(s, i, "</") && ReadNode(s, i) == Some((Shown(n), i + |Markup(n)|))
    decreases n, 0
  {
    hide At, Markup, MarkupAll, Readable, Lower, Sorted, ReadAttributes, TagEnd, AttributeText, ReadNodes;
    ElementMarkup(n);
    LowerName(n.tagName);
    var j := i + 1 + |n.tagName| + |AttributeText(Sorted(n.attributes))|;
    var close := "</" + Lower(n.tagName) + ">";
    OpenAt(s, i, n, ">" + (MarkupAll(n.childNodes) + close));
    NoClose(s, i);
    AtConcat(s, j, ">", MarkupAll(n.childNodes) + close);
    AtConcat(s, j + 1, MarkupAll(n.childNodes), close);
    CloseBegins(s, j + 1 + |MarkupAll(n.childNodes)|, Lower(n.tagName));
    ReadableChildren(n);
    NodesAt(s, j + 1, n.childNodes);
    OpensOnly(s, j);
  }

  lemma TextIs(n: Node)
    requires Readable(n) && n.TextNode?
    ensures n.nodeValue != []
  {
  }

  lemma IsElement(n: Node)
    requires Readable(n) && !n.TextNode?
    ensures n.Element?
  {
  }

  lemma NoClose(s: string, i: nat)
    requires i < |s| && (s[i] != '<' || (i + 1 < |s| && s[i + 1] != '/'))
    ensures !At(s, i, "</")
  {
    if At(s, i, "</") {
      AtChar(s, i, "</", 0);
      AtChar(s, i, "</", 1);
    }
  }

  lemma OpensOnly(s: string, j: nat)
    requires At(s, j, ">")
    ensures j < |s| && !At(s, j, "/>")
  {
    AtChar(s, j, ">", 0);
    if At(s, j, "/>") {
      AtChar(s, j, "/>", 0);
    }
  }

  lemma CloseBegins(s: string, k: nat, name: string)
    requires At(s, k, "</" + name + ">")
    ensures k < |s| && s[k] == '<' && At(s, k, "</")
  {
    assert "</" + name + ">" == "</" + (name + ">");
    AtConcat(s, k, "</", name + ">");
    AtChar(s, k, "</", 0);
  }

  lemma {:induction false} NodesAt(s: string, i: nat, nodes: seq<Node>)
    requires ReadableAll(nodes) && At(s, i, MarkupAll(nodes))
    requires var k := i + |MarkupAll(nodes)|; k == |s| || At(s, k, "</")
    ensures i <= |s| && ReadNodes(s, i) == Some((ShownAll(nodes), i + |MarkupAll(nodes)|))
    decreases nodes, 1
  {
    hide At, Markup, MarkupAll, ReadableAll, Shown, ReadNode;
    MarkupStep(nodes);
    if nodes == [] {
      Chars(s, i, []);
    } else {
      var n, rest := nodes[0], nodes[1..];
      var j := i + |Markup(n)|;
      AtConcat(s, i, Markup(n), MarkupAll(rest));
      ReadableRest(nodes);
      if n.TextNode? {
        NextOpens(s, j, rest);
      }
      NodeAt(s, i, n);
      NodesAt(s, j, rest);
    }
  }

  lemma NextOpens(s: string, j: nat, rest: seq<Node>)
    requires At(s, j, MarkupAll(rest)) && (rest == [] || rest[0].Element?)
    requires var k := j + |MarkupAll(rest)|; k == |s| || At(s, k, "</")
    ensures Closed(s, j)
  {
    hide Markup, MarkupAll;
    MarkupStep(rest);
    if rest == [] {
      if j < |s| {
        AtChar(s, j, "</", 0);
      }
    } else {
      ElementMarkup(rest[0]);
      Chars(s, j, MarkupAll(rest));
    }
  }

  /** The reader gets every readable tree back from the text that `toHTML` makes of it. */
  lemma ReadBack(n: Node)
    requires Readable(n)
    ensures var html := Concat(RenderItem(Dom(n))); ReadNode(html, 0) == Some((Shown(n), |html|))
  {
    hide Render, Readable, ReadNode;
    var html := Markup(n);
    assert html[0..|html|] == html;
    NodeAt(html, 0, n);
  }

  /** Readable trees with the same text look the same. */
  lemma SameText(m: Node, n: Node)
    requires Readable(m) && Readable(n) && Concat(RenderItem(Dom(m))) == Concat(RenderItem(Dom(n)))
    ensures Shown(m) == Shown(n)
  {
    hide Readable, ReadNode;
    ReadBack(m);
    ReadBack(n);
  }

  /** The letter that `toLowerCase` makes of a character. */
  function LowerOf(c: char): char {
    if 'A' <= c <= 'Z' then "abcdefghijklmnopqrstuvwxyz"[c as int - 'A' as int] else c
  }

  /** Tags are written in lower case, letter by letter. */
  lemma {:induction false} LowerIs(name: string)
    ensures |Lower(name)| == |name| && forall k :: 0 <= k < |name| ==> Lower(name)[k] == LowerOf(name[k])
  {
    hide LowerOf;
    if name != [] {
      LowerIs(name[1..]);
      LowerFirst(name[0]);
    }
  }

  lemma LowerFirst(c: char)
    ensures LowerOf(c) == if 'A' <= c <= 'Z' then (c as int + 32) as char else c
  {
    var letters := "abcdefghijklmnopqrstuvwxyz";
    assert forall k :: 0 <= k < 26 ==> letters[k] == (k + 97) as char;
  }

  // What is not seen.

  lemma {:induction false} MarkupAppend(a: seq<Node>, b: seq<Node>)
    ensures MarkupAll(a + b) == MarkupAll(a) + MarkupAll(b)
  {
    hide Markup, MarkupAll;
    MarkupStep(a);
    if a == [] {
      assert a + b == b;
    } else {
      MarkupStep(a + b);
      assert (a + b)[1..] == a[1..] + b && (a + b)[0] == a[0];
      MarkupAppend(a[1..], b);
      AppendAssociates(Markup(a[0]), MarkupAll(a[1..]), MarkupAll(b));
    }
  }

  /** Among children, nodes that are neither elements nor texts leave no trace, nor do empty
      texts, and neighbouring texts read as one. */
  lemma Unseen(a: seq<Node>, b: seq<Node>, s: string, t: string)
    ensures MarkupAll(a + ([OtherNode] + b)) == MarkupAll(a + b)
    ensures MarkupAll(a + ([TextNode("")] + b)) == MarkupAll(a + b)
    ensures MarkupAll(a + ([TextNode(s), TextNode(t)] + b)) == MarkupAll(a + ([TextNode(s + t)] + b))
  {
    hide MarkupAll;
    MarkupAppend(a, b);
    MarkupAppend(a, [OtherNode] + b);
    MarkupAppend([OtherNode], b);
    MarkupAppend(a, [TextNode("")] + b);
    MarkupAppend([TextNode("")], b);
    MarkupAppend(a, [TextNode(s), TextNode(t)] + b);
    MarkupAppend([TextNode(s), TextNode(t)], b);
    MarkupAppend(a, [TextNode(s + t)] + b);
    MarkupAppend([TextNode(s + t)], b);
    UnseenAlone(s, t);
  }

  lemma UnseenAlone(s: string, t: string)
    ensures MarkupAll([OtherNode]) == [] && MarkupAll([TextNode("")]) == []
    ensures MarkupAll([TextNode(s), TextNode(t)]) == MarkupAll([TextNode(s + t)])
  {
    hide EscapeHTML;
    MarkupOne(OtherNode);
    MarkupOne(TextNode(""));
    MarkupOne(TextNode(s + t));
    MarkupOne(TextNode(s));
    MarkupOne(TextNode(t));
    MarkupAppend([TextNode(s)], [TextNode(t)]);
    assert [TextNode(s)] + [TextNode(t)] == [TextNode(s), TextNode(t)];
    TextMarkup(s);
    TextMarkup(t);
    TextMarkup(s + t);
    TextMarkup("");
    EscapeSplits(s, t);
    EscapeIsMap("");
  }

  lemma MarkupOne(n: Node)
    ensures MarkupAll([n]) == Markup(n)
  {
    hide Markup, MarkupAll;
    MarkupStep([n]);
    MarkupStep([]);
    assert [n][1..] == [];
  }

  // The order of the attributes.

  function JoinedBy(parts: seq<string>, separator: string): string {
    if parts == [] then []
    else if |parts| == 1 then parts[0]
    else parts[0] + (separator + JoinedBy(parts[1..], separator))
  }

  /** Attributes are sorted as arrays are: by their strings joined with commas. */
  lemma SortKeyIs(a: Attribute)
    ensures SortKey(a) == JoinedBy([" ", a.name, "=\"", EscapeHTML(a.value), "\""], ",")
  {
    hide EscapeHTML;
    var e := EscapeHTML(a.value);
    JoinedFive(" ", a.name, "=\"", e, "\"", ",");
    assert " " + ("," + (a.name + ("," + ("=\"" + ("," + (e + ("," + "\"")))))))
        == " ," + a.name + ",=\"," + e + ",\"";
  }

  lemma JoinedFive(a: string, b: string, c: string, d: string, e: string, separator: string)
    ensures JoinedBy([a, b, c, d, e], separator)
         == a + (separator + (b + (separator + (c + (separator + (d + (separator + e)))))))
  {
    assert [a, b, c, d, e][1..] == [b, c, d, e] && [b, c, d, e][1..] == [c, d, e];
    assert [c, d, e][1..] == [d, e] && [d, e][1..] == [e];
    assert JoinedBy([d, e], separator) == d + (separator + JoinedBy([e], separator));
    assert JoinedBy([c, d, e], separator) == c + (separator + JoinedBy([d, e], separator));
  }

  /** The first place where `a` and `b` differ. */
  predicate DifferAt(a: string, b: string, k: nat) {
    k < |a| && k < |b| && a[..k] == b[..k] && a[k] < b[k]
  }

  /** Strings are compared at the first character that differs; a beginning comes first. */
  lemma {:induction false} AtMostIff(a: string, b: string)
    ensures AtMost(a, b) <==> a <= b || exists k: nat :: DifferAt(a, b, k)
  {
    if a != [] && b != [] {
      if a[0] == b[0] {
        AtMostIff(a[1..], b[1..]);
        SameFirst(a, b);
      } else {
        assert a[0] < b[0] ==> DifferAt(a, b, 0);
        forall k: nat | DifferAt(a, b, k) ensures k == 0 {
          DifferFirst(a, b, k);
        }
      }
    }
  }

  lemma DifferFirst(a: string, b: string, k: nat)
    requires DifferAt(a, b, k)
    ensures k > 0 ==> a[0] == b[0]
  {
    if k > 0 {
      assert a[..k][0] == a[0] && b[..k][0] == b[0];
    }
  }

  lemma SameFirst(a: string, b: string)
    requires a != [] && b != [] && a[0] == b[0]
    ensures a <= b <==> a[1..] <= b[1..]
    ensures (exists k: nat :: DifferAt(a, b, k)) <==> exists k: nat :: DifferAt(a[1..], b[1..], k)
  {
    assert a == [a[0]] + a[1..] && b == [b[0]] + b[1..];
    if k: nat :| DifferAt(a, b, k) {
      assert k > 0;
      assert a[1..][..k - 1] == a[..k][1..] && b[1..][..k - 1] == b[..k][1..];
      assert DifferAt(a[1..], b[1..], k - 1);
    }
    if k: nat :| DifferAt(a[1..], b[1..], k) {
      assert a[..k + 1] == [a[0]] + a[1..][..k] && b[..k + 1] == [b[0]] + b[1..][..k];
      assert DifferAt(a, b, k + 1);
    }
  }
}
