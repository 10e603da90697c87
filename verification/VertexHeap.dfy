/** The C++ vertices themselves (scopxml.cpp): nodes on the heap, children linked through
    head, tail and next when packing and listed in `element` when parsed. */
module VertexHeap {
  import opened Text
  import opened Vertex

  datatype VertexType = TInteger | TString | TBinary | TList

  class Node {
    var t: VertexType
    var n: int
    var s: string
    var buf: seq<Byte>
    var head: Node?
    var tail: Node?
    var element: seq<Node>  // empty stands for NULL; set when parsed
    var next: Node?

    ghost var value: Value
    ghost var kids: seq<Node>
    ghost var Repr: set<object>

    /** The node stands for `value`; its own `next` belongs to the list that holds it. */
    ghost predicate Valid()
      reads this, Repr
      decreases Repr
    {
      && this in Repr
      && match t
         case TInteger => value == VInteger(n)
         case TString => value == VString(s)
         case TBinary => value == VBinary(buf) && n == |buf|
         case TList => ListValid()
    }

    ghost predicate ListValid()
      reads this, Repr
      requires this in Repr
      decreases Repr, 0
    {
      && value.VList? && |value.items| == |kids| == n
      && element <= kids
      && (forall i :: 0 <= i < n ==>
            && kids[i] in Repr && kids[i].Repr <= Repr && this !in kids[i].Repr
            && kids[i].Valid() && kids[i].value == value.items[i])
      && (forall i, j :: 0 <= i < j < n ==> kids[i].Repr !! kids[j].Repr)
      && Linked(head, tail, kids)
    }

    constructor Integer(n: int)
      ensures Valid() && fresh(Repr) && value == VInteger(n) && t == TInteger
    {
      t, this.n, s, buf, head, tail, element, next := TInteger, n, [], [], null, null, [], null;
      value, kids, Repr := VInteger(n), [], {this};
    }

    constructor String(s: string)
      ensures Valid() && fresh(Repr) && value == VString(s) && t == TString
    {
      t, n, this.s, buf, head, tail, element, next := TString, 0, s, [], null, null, [], null;
      value, kids, Repr := VString(s), [], {this};
    }

    constructor Binary(buf: seq<Byte>)
      ensures Valid() && fresh(Repr) && value == VBinary(buf) && t == TBinary
    {
      t, n, s, this.buf, head, tail, element, next := TBinary, |buf|, [], buf, null, null, [], null;
      value, kids, Repr := VBinary(buf), [], {this};
    }

    /** `mklist`. */
    constructor List()
      ensures Valid() && fresh(Repr) && value == VList([]) && element == [] && t == TList && n == 0
      ensures head == null && tail == null
    {
      t, n, s, buf, head, tail, element, next := TList, 0, [], [], null, null, [], null;
      value, kids, Repr := VList([]), [], {this};
    }
  }

  /** The chain of a list: from head through next to tail. */
  ghost predicate Linked(head: Node?, tail: Node?, kids: seq<Node>)
    reads kids`next
  {
    && (kids == [] ==> head == null && tail == null)
    && (kids != [] ==> head == kids[0] && tail == kids[|kids| - 1] && kids[|kids| - 1].next == null)
    && forall i :: 0 <= i < |kids| - 1 ==> kids[i].next == kids[i + 1]
  }

  /** Relinking a node leaves the node itself as it was. */
  twostate lemma NextIsTheParents(x: Node)
    requires old(x.Valid())
    requires forall o :: o in old(x.Repr) && o != x ==> unchanged(o)
    requires x.t == old(x.t) && x.n == old(x.n) && x.s == old(x.s) && x.buf == old(x.buf)
    requires x.head == old(x.head) && x.tail == old(x.tail) && x.element == old(x.element)
    requires x.value == old(x.value) && x.kids == old(x.kids) && x.Repr == old(x.Repr)
    ensures x.Valid()
  {
    assert old(x.t.TList? ==> forall i :: 0 <= i < x.n ==> x.kids[i].Valid());
  }

  /** The trees of a list's children, apart from each other and from the list. */
  ghost predicate Apart(list: Node, kids: seq<Node>, footprint: set<object>)
    reads kids`Repr
  {
    && (forall i :: 0 <= i < |kids| ==> kids[i] in kids[i].Repr && kids[i].Repr <= footprint && list !in kids[i].Repr)
    && (forall i, j :: 0 <= i < j < |kids| ==> kids[i].Repr !! kids[j].Repr)
  }

  /** `append(list, v)`: the chain of a list grows; the `element` of a parsed one does not. */
  method Append(list: Node, v: Node) returns (r: Node?)
    requires list.Valid() && v.Valid() && list.Repr !! v.Repr
    modifies list, list.tail, v
    ensures !old(list.t.TList?) ==> r == null && list.Valid() && unchanged(list) && unchanged(v)
    ensures old(list.t.TList?) ==> r == list && list.Valid() && list.element == old(list.element)
    ensures old(list.t.TList?) ==> old(list.value.VList?) && list.value == VList(old(list.value.items) + [v.value])
    ensures v.value == old(v.value)
    ensures old(list.t.TList?) ==> list.Repr == old(list.Repr) + old(v.Repr)
  {
    if list.t != TList {
      return null;
    }
    hide Node.Valid, Node.ListValid, Apart, Linked;
    ListParts(list);
    Footprint(v);
    ghost var kids := list.kids;
    ghost var items, footprint := list.value.items + [v.value], list.Repr + v.Repr;
    ApartAppend(list, kids, list.Repr, v);
    LinkLast(list, v);
    ApartKids(list, kids + [v], footprint);
    Adopt(list, kids + [v], items, footprint);
    return list;
  }

  lemma ListParts(list: Node)
    requires list.Valid() && list.t == TList
    ensures list in list.Repr && list.value.VList? && |list.value.items| == |list.kids| == list.n
    ensures list.element <= list.kids
    ensures forall i :: 0 <= i < |list.kids| ==> list.kids[i].Valid() && list.kids[i].value == list.value.items[i]
    ensures Apart(list, list.kids, list.Repr) && Linked(list.head, list.tail, list.kids)
    ensures list.tail == if list.kids == [] then null else list.kids[|list.kids| - 1]
  {
    forall i | 0 <= i < |list.kids| ensures list.kids[i] in list.kids[i].Repr {
      Footprint(list.kids[i]);
    }
  }

  lemma ApartKids(list: Node, kids: seq<Node>, footprint: set<object>)
    requires Apart(list, kids, footprint)
    ensures forall i :: 0 <= i < |kids| ==>
      kids[i] in kids[i].Repr && kids[i].Repr <= footprint && list !in kids[i].Repr
    ensures forall i, j :: 0 <= i < j < |kids| ==> kids[i].Repr !! kids[j].Repr
  {
  }

  lemma ApartAppend(list: Node, kids: seq<Node>, footprint: set<object>, v: Node)
    requires Apart(list, kids, footprint) && list !in v.Repr && v in v.Repr && footprint !! v.Repr
    ensures Apart(list, kids + [v], footprint + v.Repr)
  {
  }

  /** What a list stands for once its children are linked. */
  ghost method Adopt(list: Node, kids: seq<Node>, items: seq<Value>, footprint: set<object>)
    requires list in footprint && list.t == TList && |kids| == |items| == list.n
    requires list.element <= kids
    requires forall i :: 0 <= i < |kids| ==> kids[i].Valid() && kids[i].value == items[i] && kids[i] != list
    requires Apart(list, kids, footprint) && Linked(list.head, list.tail, kids)
    modifies list`value, list`kids, list`Repr
    ensures list.Valid() && list.value == VList(items) && list.kids == kids && list.Repr == footprint
  {
    list.value := VList(items);
    list.kids := kids;
    list.Repr := footprint;
  }

  /** The pointer updates of `append` leave the children as they were. */
  method LinkLast(list: Node, v: Node)
    requires list.Valid() && list.t == TList && v.Valid() && list.Repr !! v.Repr
    modifies list`n, list`head, list`tail, (if list.tail == null then {} else {list.tail})`next, v`next
    ensures list.n == old(list.n) + 1 && Linked(list.head, list.tail, list.kids + [v])
    ensures v.Valid() && forall i :: 0 <= i < |list.kids| ==> list.kids[i].Valid()
  {
    hide Node.Valid, Node.ListValid, Linked;
    ListParts(list);
    Footprint(v);
    ApartKids(list, list.kids, list.Repr);
    ghost var kids, last := list.kids, list.tail;
    SetLinks(list, v);
    NextIsTheParents(v);
    forall i | 0 <= i < |kids| ensures kids[i].Valid() {
      if i == |kids| - 1 {
        NextIsTheParents(last);
      }
    }
  }

  method SetLinks(list: Node, v: Node)
    requires list.Valid() && list.t == TList && v.Valid() && list.Repr !! v.Repr
    modifies list`n, list`head, list`tail, (if list.tail == null then {} else {list.tail})`next, v`next
    ensures list.n == old(list.n) + 1
    ensures Linked(list.head, list.tail, list.kids + [v])
  {
    ghost var kids := list.kids;
    if list.n == 0 {
      list.head := v;
    } else {
      list.tail.next := v;
    }
    list.tail := v;
    v.next := null;
    list.n := list.n + 1;
    ghost var all := kids + [v];
    forall i | 0 <= i < |all| - 1 ensures all[i].next == all[i + 1] {
      if i < |kids| - 1 {
        assert kids[i].Repr !! kids[|kids| - 1].Repr;
      }
    }
  }

  /** `pack(v1, v2)`. */
  method PackPair(v1: Node, v2: Node) returns (list: Node)
    requires v1.Valid() && v2.Valid() && v1.Repr !! v2.Repr
    modifies v1, v2
    ensures list.Valid() && fresh(list) && list.value == VList([old(v1.value), old(v2.value)])
    ensures list.Repr == {list} + old(v1.Repr) + old(v2.Repr)
  {
    hide Node.Valid, Node.ListValid, Apart, Linked;
    Footprint(v1);
    Footprint(v2);
    ghost var items, footprint := [v1.value, v2.value], v1.Repr + v2.Repr;
    list := new Node.List();
    list.n := 2;
    list.head := v1;
    list.tail := v2;
    v1.next := v2;
    v2.next := null;
    ghost var kids := [v1, v2];
    NextIsTheParents(v1);
    NextIsTheParents(v2);
    PairApart(list, v1, v2);
    PairLinked(v1, v2);
    Adopt(list, kids, items, {list} + footprint);
  }

  lemma Footprint(x: Node)
    requires x.Valid()
    ensures x in x.Repr
  {
  }

  lemma PairApart(list: Node, v1: Node, v2: Node)
    requires v1 in v1.Repr && v2 in v2.Repr && v1.Repr !! v2.Repr && list !in v1.Repr + v2.Repr
    ensures Apart(list, [v1, v2], {list} + (v1.Repr + v2.Repr))
  {
  }

  lemma PairLinked(v1: Node, v2: Node)
    requires v1.next == v2 && v2.next == null
    ensures Linked(v1, v2, [v1, v2])
  {
  }

  /** `vertex_to_string(v)`: the children are followed through their next pointers. */
  method VertexToString(v: Node) returns (s: string)
    requires v.Valid()
    ensures s == Print(v.value)
    decreases v.Repr, 1
  {
    match v.t
    case TInteger => s := "<int>" + IntToString(v.n) + "</int>";
    case TString => s := Tag("string", |v.s|) + v.s + "</string>";
    case TBinary =>
      var hex := HexOf(v.buf);
      s := Tag("binary", v.n) + hex + "</binary>";
    case TList =>
      var body := ChildrenToString(v);
      s := Tag("list", v.n) + body + "</list>";
  }

  method HexOf(buf: seq<Byte>) returns (s: string)
    ensures s == HexBytes(buf)
  {
    s := [];
    for k := 0 to |buf|
      invariant s == HexBytes(buf[..k])
    {
      HexBytesAppend(buf, k);
      s := s + [HexToChar(buf[k] / 16)];
      s := s + [HexToChar(buf[k] % 16)];
    }
    assert buf[..|buf|] == buf;
  }

  method ChildrenToString(v: Node) returns (s: string)
    requires v.Valid() && v.t == TList
    ensures v.value.VList? && s == PrintAll(v.value.items)
    decreases v.Repr, 0
  {
    hide Print;
    var items := v.value.items;
    s := [];
    var w := v.head;
    for i := 0 to v.n
      invariant w == if i < v.n then v.kids[i] else null
      invariant s == PrintAll(items[..i])
    {
      assert v.kids[i].Valid();
      var t := VertexToString(w);
      PrintAllAppend(items[..i], [items[i]]);
      assert items[..i] + [items[i]] == items[..i + 1];
      assert PrintAll([items[i]]) == Print(items[i]) + PrintAll([]);
      s := s + t;
      w := w.next;
    }
    assert items[..v.n] == items;
  }

  /** `vertex_to_string(v, method)`. */
  method RequestToString(v: Node?, method_: string) returns (s: string)
    requires v != null ==> v.Valid()
    modifies v
    ensures s == Print(Request(method_, if v == null then None else Some(old(v.value))))
  {
    var name := new Node.String(method_);
    var args := v;
    if v == null {
      args := new Node.Integer(0);
    }
    var list := PackPair(name, args);
    s := VertexToString(list);
  }

  /** `string_to_vertex`: what the parser builds stands for the value it read. */
  method StringToVertex(s: string, i: nat) returns (v: Node?, consumed: nat)
    requires i <= |s|
    ensures v == null <==> Parse(s, i) == None
    ensures v != null ==> v.Valid() && fresh(v.Repr) && Parse(s, i) == Some((v.value, i + consumed))
    ensures v != null && v.t == TList ==> v.element == v.kids
    decreases |s| - i, 0
  {
    hide KindOf, ScanTag, TagSize, ParseItems, ScanHex, Node.Valid, Node.ListValid;
    v, consumed := null, 0;
    var tag := ScanTag(s, i);
    if tag == None {
      return;
    }
    var name, j := tag.value.0, tag.value.1;
    var kind := KindOf(name);
    if kind == IntTag {
      var r := ParseInt(s, j);
      if r.Some? {
        v := new Node.Integer(r.value.0.n);
        consumed := r.value.1 - i;
      }
    } else if kind == StringTag {
      var r := ParseString(s, j, TagSize(name, 7));
      if r.Some? {
        v := new Node.String(r.value.0.s);
        consumed := r.value.1 - i;
      }
    } else if kind == BinaryTag {
      var r := ParseBinary(s, j, TagSize(name, 7));
      if r.Some? {
        v := new Node.Binary(r.value.0.buf);
        consumed := r.value.1 - i;
      }
    } else if kind == ListTag {
      var size := TagSize(name, 5);
      if size == None {
        return;
      }
      var list, k := ParseList(s, j, size.value);
      if list != null && At(s, k, "</list>") {
        v, consumed := list, k + |"</list>"| - i;
      }
    }
  }

  /** The list case: the elements are parsed into `element`, then linked. */
  method ParseList(s: string, j: nat, size: nat) returns (v: Node?, k: nat)
    requires j <= |s|
    ensures v == null <==> ParseItems(s, j, size) == None
    ensures v != null ==> v.Valid() && fresh(v.Repr) && v.t == TList && v.element == v.kids
    ensures v != null ==> v.value.VList? && ParseItems(s, j, size) == Some((v.value.items, k)) && k <= |s|
    decreases |s| - j, 2
  {
    v := null;
    var ok, element, end;
    ghost var items, footprint;
    ok, element, end, items, footprint := ParseElements(s, j, size);
    k := end;
    if !ok {
      return;
    }
    v := WrapElements(element, items, footprint);
  }

  /** A parsed list: `element` for extracting, and the same children linked for printing. */
  method WrapElements(element: seq<Node>, ghost items: seq<Value>, ghost footprint: set<object>) returns (v: Node)
    requires Elements(element, items, footprint)
    modifies (set x | x in element)`next
    ensures v.Valid() && fresh(v.Repr - footprint) && v.t == TList && v.element == v.kids
    ensures v.value == VList(items)
  {
    hide Node.Valid, Node.ListValid, Apart, Linked, Elements;
    ElementCount(element, items, footprint);
    var n := |element|;
    v := new Node.List();
    v.n := n;
    v.element := element;
    if n > 0 {
      v.head := element[0];
      v.tail := element[n - 1];
      LinkElements(element, items, footprint);
    } else {
      NoneLinked(element);
    }
    ElementsApart(v, element, items, footprint);
    Adopt(v, element, items, {v} + footprint);
  }

  method ParseElements(s: string, j: nat, size: nat)
    returns (ok: bool, element: seq<Node>, k: nat, ghost items: seq<Value>, ghost footprint: set<object>)
    requires j <= |s|
    ensures ok <==> ParseItems(s, j, size).Some?
    ensures ok ==> ParseItems(s, j, size) == Some((items, k))
    ensures ok ==> Elements(element, items, footprint) && |items| == size && fresh(footprint)
    decreases |s| - j, 1
  {
    hide Parse, Elements, Node.Valid, Node.ListValid;
    element, k, items, footprint := [], j, [], {};
    NoElements();
    PrependAssociates(items, items, ParseItems(s, j, size));
    for c := 0 to size
      invariant j <= k <= |s| && (c > 0 ==> j < |s|) && (c == 0 ==> k == j)
      invariant Elements(element, items, footprint) && |items| == c && fresh(footprint)
      invariant ParseItems(s, j, size) == Prepend(items, ParseItems(s, k, size - c))
    {
      var w, consumed := StringToVertex(s, k);
      if w == null {
        return false, [], 0, [], {};
      }
      PrependAssociates(items, [w.value], ParseItems(s, k + consumed, size - c - 1));
      ElementsAppend(element, items, footprint, w);
      element := element + [w];
      items := items + [w.value];
      footprint := footprint + w.Repr;
      k := k + consumed;
    }
    assert items + [] == items;
    ok := true;
  }

  lemma ElementsAppend(element: seq<Node>, items: seq<Value>, footprint: set<object>, w: Node)
    requires Elements(element, items, footprint) && w.Valid() && w.Repr !! footprint
    ensures Elements(element + [w], items + [w.value], footprint + w.Repr)
  {
  }

  /** Valid nodes with separate trees, which stand for `items`. */
  ghost predicate Elements(element: seq<Node>, items: seq<Value>, footprint: set<object>)
    reads element, footprint
  {
    && |element| == |items|
    && (forall i :: 0 <= i < |element| ==>
          && element[i] in element[i].Repr && element[i].Repr <= footprint
          && element[i].Valid() && element[i].value == items[i])
    && (forall i, j :: 0 <= i < j < |element| ==> element[i].Repr !! element[j].Repr)
  }

  lemma NoElements()
    ensures Elements([], [], {})
  {
  }

  lemma ElementCount(element: seq<Node>, items: seq<Value>, footprint: set<object>)
    requires Elements(element, items, footprint)
    ensures |element| == |items| && forall x :: x in element ==> x in footprint
  {
  }

  lemma NoneLinked(kids: seq<Node>)
    requires kids == []
    ensures Linked(null, null, kids)
  {
  }

  lemma ElementsApart(list: Node, element: seq<Node>, items: seq<Value>, footprint: set<object>)
    requires Elements(element, items, footprint) && list !in footprint
    ensures Apart(list, element, {list} + footprint)
    ensures forall i :: 0 <= i < |element| ==>
      element[i].Valid() && element[i].value == items[i] && element[i] != list
  {
  }

  /** The loop that fills the next pointers of a parsed list. */
  method LinkElements(element: seq<Node>, ghost items: seq<Value>, ghost footprint: set<object>)
    requires element != [] && Elements(element, items, footprint)
    modifies (set x | x in element)`next
    ensures Linked(element[0], element[|element| - 1], element)
    ensures Elements(element, items, footprint)
  {
    var n := |element|;
    for i := 0 to n - 1
      invariant forall k :: 0 <= k < i ==> element[k].next == element[k + 1]
    {
      element[i].next := element[i + 1];
    }
    element[n - 1].next := null;
    forall i | 0 <= i < n ensures element[i].Valid() {
      NextIsTheParents(element[i]);
    }
  }

  /** `extract_method` and `extract_args` of a parsed call. */
  method ExtractCall(v: Node) returns (method_: Option<string>, args: Node?)
    requires v.Valid() && (v.t == TList ==> v.element == v.kids)
    ensures method_ == ExtractMethod(v.value)
    ensures args == null <==> ExtractArgs(v.value) == None
    ensures args != null ==> args.Valid() && ExtractArgs(v.value) == Some(args.value)
  {
    if v.t != TList || v.n != 2 {
      return None, null;
    }
    assert v.kids[0].Valid() && v.kids[0].value == v.value.items[0];
    assert v.kids[1].Valid() && v.kids[1].value == v.value.items[1];
    assert v.kids[0].t == TList ==> v.kids[0].ListValid();
    method_ := if v.element[0].t == TString then Some(v.element[0].s) else None;
    args := v.element[1];
  }

  /** A packed vertex comes back from its text as an equal, separate one. */
  method Transfer(v: Node) returns (w: Node?)
    requires v.Valid() && WellFormed(v.value)
    ensures w != null && w.Valid() && fresh(w.Repr) && w.value == v.value
  {
    var text := VertexToString(v);
    RoundTrip(v.value);
    var consumed;
    w, consumed := StringToVertex(text, 0);
  }
}
