/** `emitHTML`, `toHTML` and `escapeHTML` of MochiKit.DOM. */
module Html {
  import opened Text

  datatype Attribute = Attribute(name: string, value: string)

  datatype Node =
    | Element(tagName: string, attributes: seq<Attribute>, childNodes: seq<Node>)
    | TextNode(nodeValue: string)
    | OtherNode

  /** What the queue holds: nodes, and closing tags as plain strings. */
  datatype Item = Literal(s: string) | Dom(node: Node)

  // escapeHTML.

  /** `s.replace(/c/g, t)`. */
  function ReplaceAll(s: string, c: char, t: string): string {
    if s == [] then [] else (if s[0] == c then t else [s[0]]) + ReplaceAll(s[1..], c, t)
  }

  /** The four replacements, one after the other. */
  function EscapeHTML(s: string): string {
    ReplaceAll(ReplaceAll(ReplaceAll(ReplaceAll(s, '&', "&amp;"), '"', "&quot;"), '<', "&lt;"), '>', "&gt;")
  }

  function Entity(c: char): string {
    if c == '&' then "&amp;"
    else if c == '"' then "&quot;"
    else if c == '<' then "&lt;"
    else if c == '>' then "&gt;"
    else [c]
  }

  /** The replacement of every character by itself or its entity, in one pass. */
  function EscapeMap(s: string): string {
    if s == [] then [] else Entity(s[0]) + EscapeMap(s[1..])
  }

  lemma {:induction false} ReplaceAppend(a: string, b: string, c: char, t: string)
    ensures ReplaceAll(a + b, c, t) == ReplaceAll(a, c, t) + ReplaceAll(b, c, t)
  {
    if a == [] {
      assert a + b == b;
    } else {
      assert (a + b)[1..] == a[1..] + b;
      ReplaceAppend(a[1..], b, c, t);
      AppendAssociates(if a[0] == c then t else [a[0]], ReplaceAll(a[1..], c, t), ReplaceAll(b, c, t));
    }
  }

  lemma {:induction false} ReplaceNone(s: string, c: char, t: string)
    requires c !in s
    ensures ReplaceAll(s, c, t) == s
  {
    if s != [] {
      assert s[0] in s && forall d :: d in s[1..] ==> d in s;
      ReplaceNone(s[1..], c, t);
      assert s == [s[0]] + s[1..];
    }
  }

  lemma ReplaceOne(c: char, d: char, t: string)
    ensures ReplaceAll([c], d, t) == if c == d then t else [c]
  {
    assert [c][1..] == [];
    assert ReplaceAll([c], d, t) == (if c == d then t else [c]) + [];
  }

  /** The replacements done to one character, and to the entities of the ones before. */
  lemma EscapeOne(c: char)
    ensures EscapeHTML([c]) == Entity(c)
  {
    hide ReplaceAll;
    ReplaceOne(c, '&', "&amp;");
    ReplaceOne(c, '"', "&quot;");
    ReplaceOne(c, '<', "&lt;");
    ReplaceOne(c, '>', "&gt;");
    ReplaceNone("&amp;", '"', "&quot;");
    ReplaceNone("&amp;", '<', "&lt;");
    ReplaceNone("&amp;", '>', "&gt;");
    ReplaceNone("&quot;", '<', "&lt;");
    ReplaceNone("&quot;", '>', "&gt;");
    ReplaceNone("&lt;", '>', "&gt;");
  }

  lemma EscapeSplits(a: string, b: string)
    ensures EscapeHTML(a + b) == EscapeHTML(a) + EscapeHTML(b)
  {
    hide ReplaceAll;
    var a1, b1 := ReplaceAll(a, '&', "&amp;"), ReplaceAll(b, '&', "&amp;");
    var a2, b2 := ReplaceAll(a1, '"', "&quot;"), ReplaceAll(b1, '"', "&quot;");
    ReplaceAppend(a, b, '&', "&amp;");
    ReplaceAppend(a1, b1, '"', "&quot;");
    ReplaceAppend(a2, b2, '<', "&lt;");
    ReplaceAppend(ReplaceAll(a2, '<', "&lt;"), ReplaceAll(b2, '<', "&lt;"), '>', "&gt;");
  }

  /** The four sequential replacements amount to one pass. */
  lemma {:induction false} EscapeIsMap(s: string)
    ensures EscapeHTML(s) == EscapeMap(s)
  {
    if s != [] {
      hide EscapeHTML;
      EscapeIsMap(s[1..]);
      EscapeOne(s[0]);
      EscapeSplits([s[0]], s[1..]);
      assert s == [s[0]] + s[1..];
    }
  }

  /** What a reader of HTML makes of the entities. */
  function Unescape(s: string): string {
    if s == [] then []
    else if At(s, 0, "&amp;") then "&" + Unescape(s[5..])
    else if At(s, 0, "&quot;") then "\"" + Unescape(s[6..])
    else if At(s, 0, "&lt;") then "<" + Unescape(s[4..])
    else if At(s, 0, "&gt;") then ">" + Unescape(s[4..])
    else [s[0]] + Unescape(s[1..])
  }

  lemma UnescapeEntity(c: char, rest: string)
    ensures Unescape(Entity(c) + rest) == [c] + Unescape(rest)
  {
    hide At;
    var s := Entity(c) + rest;
    assert s[|Entity(c)|..] == rest;
    EntityAt(c, rest);
    forall t | t in {"&amp;", "&quot;", "&lt;", "&gt;"} && At(s, 0, t) ensures t == Entity(c) {
      OneEntity(s, c, t);
    }
    assert "&amp;" in {"&amp;", "&quot;", "&lt;", "&gt;"} && "&quot;" in {"&amp;", "&quot;", "&lt;", "&gt;"};
    assert "&lt;" in {"&amp;", "&quot;", "&lt;", "&gt;"} && "&gt;" in {"&amp;", "&quot;", "&lt;", "&gt;"};
  }

  lemma EntityAt(c: char, rest: string)
    ensures At(Entity(c) + rest, 0, Entity(c))
  {
    hide Entity;
    AtContext([], Entity(c), rest);
    assert [] + Entity(c) + rest == Entity(c) + rest;
  }

  lemma OneEntity(s: string, c: char, t: string)
    requires At(s, 0, Entity(c)) && t in {"&amp;", "&quot;", "&lt;", "&gt;"} && At(s, 0, t)
    ensures t == Entity(c)
  {
    AtChar(s, 0, t, 0);
    AtChar(s, 0, Entity(c), 0);
    if |Entity(c)| > 1 {
      AtChar(s, 0, t, 1);
      AtChar(s, 0, Entity(c), 1);
    }
  }

  /** Escaping loses nothing. */
  lemma {:induction false} UnescapeEscaped(s: string)
    ensures Unescape(EscapeHTML(s)) == s
  {
    EscapeIsMap(s);
    if s != [] {
      EscapeIsMap(s[1..]);
      UnescapeEscaped(s[1..]);
      UnescapeEntity(s[0], EscapeMap(s[1..]));
      assert s == [s[0]] + s[1..];
    }
  }

  /** Escaped text holds no character that could end it or open a tag. */
  lemma {:induction false} EscapedIsInert(s: string)
    ensures forall c :: c in EscapeHTML(s) ==> c != '<' && c != '>' && c != '"'
  {
    EscapeIsMap(s);
    if s != [] {
      EscapeIsMap(s[1..]);
      EscapedIsInert(s[1..]);
      EntityIsInert(s[0]);
    }
  }

  lemma EntityIsInert(c: char)
    ensures forall d :: d in Entity(c) ==> d != '<' && d != '>' && d != '"'
  {
  }

  // Attributes.

  function Lower(s: string): string {
    if s == [] then []
    else [if 'A' <= s[0] <= 'Z' then (s[0] as int + 32) as char else s[0]] + Lower(s[1..])
  }

  /** One attribute as it is pushed. */
  function Parts(a: Attribute): seq<string> {
    [" ", a.name, "=\"", EscapeHTML(a.value), "\""]
  }

  /** The text by which `sort` compares the arrays: their items joined by commas. */
  function SortKey(a: Attribute): string {
    " ," + a.name + ",=\"," + EscapeHTML(a.value) + ",\""
  }

  predicate AtMost(a: string, b: string) {
    a == [] || (b != [] && (a[0] < b[0] || (a[0] == b[0] && AtMost(a[1..], b[1..]))))
  }

  function Insert(a: Attribute, s: seq<Attribute>): seq<Attribute> {
    if s == [] || AtMost(SortKey(a), SortKey(s[0])) then [a] + s else [s[0]] + Insert(a, s[1..])
  }

  function Sorted(s: seq<Attribute>): seq<Attribute> {
    if s == [] then [] else Insert(s[0], Sorted(s[1..]))
  }

  predicate InOrder(s: seq<Attribute>) {
    forall k :: 0 < k < |s| ==> AtMost(SortKey(s[k - 1]), SortKey(s[k]))
  }

  lemma {:induction false} AtMostTotal(a: string, b: string)
    ensures AtMost(a, b) || AtMost(b, a)
  {
    if a != [] && b != [] && a[0] == b[0] {
      AtMostTotal(a[1..], b[1..]);
    }
  }

  lemma {:induction false} InsertOrdered(a: Attribute, s: seq<Attribute>)
    requires InOrder(s)
    ensures InOrder(Insert(a, s))
    ensures Insert(a, s) != [] && (Insert(a, s)[0] == a || (s != [] && Insert(a, s)[0] == s[0]))
  {
    hide AtMost, SortKey;
    if s == [] || AtMost(SortKey(a), SortKey(s[0])) {
      assert [a] + s == Insert(a, s);
    } else {
      AtMostTotal(SortKey(a), SortKey(s[0]));
      var r := Insert(a, s[1..]);
      assert InOrder(s[1..]) by {
        assert forall k :: 0 < k < |s[1..]| ==> s[1..][k - 1] == s[k] && s[1..][k] == s[k + 1];
      }
      InsertOrdered(a, s[1..]);
      assert Insert(a, s) == [s[0]] + r;
    }
  }

  lemma {:induction false} InsertAdds(a: Attribute, s: seq<Attribute>)
    ensures multiset(Insert(a, s)) == multiset(s) + multiset{a}
  {
    hide AtMost, SortKey;
    if s == [] || AtMost(SortKey(a), SortKey(s[0])) {
      assert [a] + s == Insert(a, s);
    } else {
      InsertAdds(a, s[1..]);
      assert s == [s[0]] + s[1..];
      assert Insert(a, s) == [s[0]] + Insert(a, s[1..]);
    }
  }

  /** The attributes come out in order, each as often as it went in. */
  lemma {:induction false} SortedIsOrdered(s: seq<Attribute>)
    ensures InOrder(Sorted(s)) && multiset(Sorted(s)) == multiset(s)
  {
    if s != [] {
      SortedIsOrdered(s[1..]);
      InsertOrdered(s[0], Sorted(s[1..]));
      InsertAdds(s[0], Sorted(s[1..]));
      assert s == [s[0]] + s[1..];
    }
  }

  function AttributeParts(attributes: seq<Attribute>): seq<string> {
    if attributes == [] then [] else Parts(attributes[0]) + AttributeParts(attributes[1..])
  }

  // The recursive rendering.

  function OpenParts(n: Node): seq<string>
    requires n.Element?
  {
    ["<" + Lower(n.tagName)] + AttributeParts(Sorted(n.attributes))
  }

  function CloseTag(n: Node): string
    requires n.Element?
  {
    "</" + Lower(n.tagName) + ">"
  }

  /** The strings of a node, depth first. */
  function Render(n: Node): seq<string>
    decreases n, 0
  {
    match n
    case Element(_, _, children) =>
      if children == [] then OpenParts(n) + ["/>"]
      else OpenParts(n) + ([">"] + (RenderAll(children) + [CloseTag(n)]))
    case TextNode(s) => [EscapeHTML(s)]
    case OtherNode => []
  }

  function RenderAll(nodes: seq<Node>): seq<string>
    decreases nodes, 1
  {
    if nodes == [] then [] else Render(nodes[0]) + RenderAll(nodes[1..])
  }

  function RenderItem(i: Item): seq<string> {
    match i
    case Literal(s) => [s]
    case Dom(n) => Render(n)
  }

  /** A stack is rendered from its top, which is its last item. */
  function RenderStack(queue: seq<Item>): seq<string> {
    if queue == [] then [] else RenderItem(queue[|queue| - 1]) + RenderStack(queue[..|queue| - 1])
  }

  function Size(n: Node): nat
    decreases n, 0
  {
    if n.Element? then 2 + SizeAll(n.childNodes) else 1
  }

  function SizeAll(nodes: seq<Node>): nat
    decreases nodes, 1
  {
    if nodes == [] then 0 else Size(nodes[0]) + SizeAll(nodes[1..])
  }

  function StackSize(queue: seq<Item>): nat {
    if queue == [] then 0
    else (match queue[|queue| - 1] case Literal(_) => 1 case Dom(n) => Size(n)) + StackSize(queue[..|queue| - 1])
  }

  // The loop.

  /** The loop that pushes the children, last first. */
  method PushChildren(queue0: seq<Item>, cnodes: seq<Node>) returns (queue: seq<Item>)
    ensures RenderStack(queue) == RenderAll(cnodes) + RenderStack(queue0)
    ensures StackSize(queue) == SizeAll(cnodes) + StackSize(queue0)
  {
    queue := queue0;
    AppendAssociates([], [], RenderStack(queue0));
    for i := |cnodes| downto 0
      invariant RenderStack(queue) == RenderAll(cnodes[i..]) + RenderStack(queue0)
      invariant StackSize(queue) == SizeAll(cnodes[i..]) + StackSize(queue0)
    {
      assert cnodes[i..][1..] == cnodes[i + 1..];
      StackPush(queue, Dom(cnodes[i]));
      AppendAssociates(Render(cnodes[i]), RenderAll(cnodes[i + 1..]), RenderStack(queue0));
      queue := queue + [Dom(cnodes[i])];
    }
    assert cnodes[0..] == cnodes;
  }

  lemma StackPush(queue: seq<Item>, i: Item)
    ensures RenderStack(queue + [i]) == RenderItem(i) + RenderStack(queue)
    ensures StackSize(queue + [i]) == (match i case Literal(_) => 1 case Dom(n) => Size(n)) + StackSize(queue)
  {
    assert (queue + [i])[..|queue|] == queue;
  }

  /** The inner loop over the strings of one attribute. */
  method PushAll(lst0: seq<string>, attrs: seq<string>) returns (lst: seq<string>)
    ensures lst == lst0 + attrs
  {
    lst := lst0;
    for j := 0 to |attrs|
      invariant lst == lst0 + attrs[..j]
    {
      lst := lst + [attrs[j]];
    }
  }

  /** The loops over the attributes. */
  method PushAttributes(lst0: seq<string>, domAttr: seq<Attribute>) returns (lst: seq<string>)
    ensures lst == lst0 + AttributeParts(Sorted(domAttr))
  {
    hide Sorted, Parts;
    var attributes := Sorted(domAttr);
    lst := lst0;
    for i := 0 to |attributes|
      invariant lst + AttributeParts(attributes[i..]) == lst0 + AttributeParts(attributes)
    {
      assert attributes[i..][1..] == attributes[i + 1..];
      AppendAssociates(lst, Parts(attributes[i]), AttributeParts(attributes[i + 1..]));
      lst := PushAll(lst, Parts(attributes[i]));
    }
    AppendAssociates(lst, [], []);
  }

  /** `emitHTML`: the explicit stack visits the tree depth first. */
  method EmitHTML(dom: Item, lst0: seq<string>) returns (lst: seq<string>)
    ensures lst == lst0 + RenderItem(dom)
  {
    lst := lst0;
    var queue := [dom];
    AppendAssociates(RenderItem(dom), [], []);
    while |queue| > 0
      invariant lst + RenderStack(queue) == lst0 + RenderItem(dom)
      decreases StackSize(queue)
    {
      lst, queue := EmitTop(lst, queue);
    }
    AppendAssociates(lst, [], []);
  }

  /** One turn of the loop. */
  method EmitTop(lst0: seq<string>, queue0: seq<Item>) returns (lst: seq<string>, queue: seq<Item>)
    requires queue0 != []
    ensures lst + RenderStack(queue) == lst0 + RenderStack(queue0) && StackSize(queue) < StackSize(queue0)
  {
    hide EscapeHTML, Lower, Sorted, AttributeParts;
    var dom := queue0[|queue0| - 1];
    queue := queue0[..|queue0| - 1];
    ghost var rest := RenderStack(queue);
    lst := lst0;
    AppendAssociates(lst0, RenderItem(dom), rest);
    if dom.Literal? {
      lst := lst + [dom.s];
    } else if dom.node.Element? {
      var n := dom.node;
      lst := lst + ["<" + Lower(n.tagName)];
      lst := PushAttributes(lst, n.attributes);
      assert lst == lst0 + OpenParts(n);
      if n.childNodes != [] {
        lst := lst + [">"];
        StackPush(queue, Literal(CloseTag(n)));
        queue := queue + [Literal(CloseTag(n))];
        queue := PushChildren(queue, n.childNodes);
        ElementRegroups(lst0, OpenParts(n), RenderAll(n.childNodes), CloseTag(n), rest);
      } else {
        lst := lst + ["/>"];
        AppendAssociates(lst0, OpenParts(n), ["/>"]);
      }
    } else if dom.node.TextNode? {
      lst := lst + [EscapeHTML(dom.node.nodeValue)];
    }
  }

  lemma ElementRegroups(lst: seq<string>, open: seq<string>, inner: seq<string>, close: string, rest: seq<string>)
    ensures lst + open + [">"] + (inner + ([close] + rest)) == lst + ((open + ([">"] + (inner + [close]))) + rest)
  {
  }

  /** `toHTML`. */
  method ToHTML(dom: Item) returns (html: string)
    ensures html == Concat(RenderItem(dom))
  {
    var lst := EmitHTML(dom, []);
    AppendAssociates([], [], RenderItem(dom));
    html := Concat(lst);
  }
}
