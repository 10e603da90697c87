/** The Python and the C++ parser of vertices agree on every text of the grammar that keeps to
    blanks around the sizes and to hexadecimal digits, however its numbers are written. */
module PortsAgree {
  import opened Text
  import opened Vertex
  import opened VertexGrammar
  import opened PyVertex

  predicate AllBlank(s: string) {
    forall c :: c in s ==> IsBlank(c)
  }

  /** A blank before the size, and nothing but blanks behind it. */
  predicate Tidy(size: Size) {
    size.gap == ' ' && AllBlank(size.junk)
  }

  /** What both ports take: tidy sizes, and pairs of digits that denote no negative code. */
  predicate Shared(t: Tree) {
    match t
    case IntTree(_) => true
    case StringTree(size, _) => Tidy(size)
    case BinaryTree(size, pairs) => Tidy(size) && Bytelike(pairs)
    case ListTree(size, items) => Tidy(size) && forall k :: 0 <= k < |items| ==> Shared(items[k])
  }

  predicate Bytelike(pairs: seq<(char, char)>) {
    forall k :: 0 <= k < |pairs| ==> Nibble(pairs[k].0) * 16 + Nibble(pairs[k].1) >= 0
  }

  // Numbers.

  lemma {:induction false} StripFront(blanks: string, t: string)
    requires AllBlank(blanks)
    ensures Strip(blanks + t) == Strip(t)
    decreases |blanks|
  {
    if blanks == [] {
      assert blanks + t == t;
    } else {
      assert blanks[0] in blanks && (blanks + t)[1..] == blanks[1..] + t;
      assert forall c :: c in blanks[1..] ==> c in blanks;
      StripFront(blanks[1..], t);
    }
  }

  lemma {:induction false} StripBack(t: string, blanks: string)
    requires AllBlank(blanks) && t != [] && !IsSpace(t[0]) && !IsSpace(t[|t| - 1])
    ensures Strip(t + blanks) == t
    decreases |blanks|
  {
    if blanks == [] {
      assert t + blanks == t;
    } else {
      var front := blanks[..|blanks| - 1];
      assert blanks[|blanks| - 1] in blanks && (t + blanks)[..|t + blanks| - 1] == t + front;
      assert forall c :: c in front ==> c in blanks;
      StripBack(t, front);
    }
  }

  /** Python's int() gives a number the same value. */
  lemma NumberRead(x: Number, behind: string)
    requires NumberOk(x) && AllBlank(behind)
    ensures PyIntOf(NumberText(x) + behind) == Some(NumberValue(x))
  {
    hide Strip, ValueBehind, DigitsValue, AllBlank;
    var core := x.sign + x.digits;
    CoreChars(x);
    assert AllBlank(x.blanks) by { BlanksOf(x); }
    StripFront(x.blanks, core + behind);
    StripBack(core, behind);
    AppendAssociates(x.blanks, core, behind);
    DigitsOk(x.digits);
    assert x.sign != "" ==> core[1..] == x.digits;
    assert x.sign == "" ==> core == x.digits;
  }

  lemma BlanksOf(x: Number)
    requires NumberOk(x)
    ensures AllBlank(x.blanks)
  {
  }

  lemma CoreChars(x: Number)
    requires NumberOk(x)
    ensures var core := x.sign + x.digits;
      core != [] && !IsSpace(core[0]) && !IsSpace(core[|core| - 1]) &&
      (x.sign == "" ==> core[0] != '-' && core[0] != '+') && (x.sign != "" ==> core[0] == x.sign[0])
  {
    var core := x.sign + x.digits;
    assert x.digits[0] in x.digits && x.digits[|x.digits| - 1] in x.digits;
    assert core[|core| - 1] == x.digits[|x.digits| - 1];
    assert x.sign == "" ==> core[0] == x.digits[0];
  }

  lemma SizeRead(name: string, size: Size, n: nat)
    requires SizeOk(name, size, n) && Tidy(size)
    ensures |name| + 1 <= |name + SizeText(size)|
    ensures PyVertex.SizeOf(name + SizeText(size), |name| + 1) == Some(n)
  {
    hide PyIntOf, NumberText, NumberOk, NumberValue, AllBlank;
    NumberRead(size.number, size.junk);
    assert (name + SizeText(size))[|name| + 1..] == NumberText(size.number) + size.junk;
  }

  lemma KindRead(size: Size)
    requires size.gap == ' '
    ensures PyKindOf("string" + SizeText(size)) == PyStringTag
    ensures PyKindOf("binary" + SizeText(size)) == PyBinaryTag
    ensures PyKindOf("list" + SizeText(size)) == PyListTag
  {
    var rest := NumberText(size.number) + size.junk;
    hide NumberText;
    assert ("string" + SizeText(size))[..7] == "string " && ("string" + SizeText(size))[0] == 's';
    assert ("binary" + SizeText(size))[..7] == "binary " && ("binary" + SizeText(size))[0] == 'b';
    assert ("list" + SizeText(size))[..5] == "list " && ("list" + SizeText(size))[0] == 'l';
  }

  // Elements.

  lemma OpenRead(s: ByteString, i: nat, name: string, size: Size, n: nat)
    requires SizeOk(name, size, n) && '>' !in name && At(s, i, Open(name, size))
    ensures var pos := i + |Open(name, size)| - 1;
      i < |s| && FindChar(s, '>', i) == pos < |s| && Slice(s, i + 1, pos) == name + SizeText(size)
  {
    hide SizeText, FindChar, Slice;
    assert Open(name, size) == "<" + (name + SizeText(size)) + ">";
    TagAt(s, i, name + SizeText(size));
  }

  lemma IntRead(s: ByteString, i: nat, x: Number)
    requires NumberOk(x) && At(s, i, "<int>" + NumberText(x) + "</int>")
    ensures PyParse(s, i) == Some((PyInt(NumberValue(x)), i + |NumberText(x)| + 11))
  {
    hide PyParseInt, NumberText, NumberOk, NumberValue, At;
    SplitElement(s, i, "<int>", NumberText(x), "</int>");
    IntTag(s, i);
    IntBody(s, i + 5, x);
  }

  lemma IntTag(s: ByteString, i: nat)
    requires At(s, i, "<int>")
    ensures i < |s| && FindChar(s, '>', i) == i + 4 < |s| && Slice(s, i + 1, i + 4) == "int"
  {
    assert "<int>" == "<" + "int" + ">";
    TagAt(s, i, "int");
  }

  lemma IntBody(s: ByteString, j: nat, x: Number)
    requires NumberOk(x) && At(s, j, NumberText(x)) && At(s, j + |NumberText(x)|, "</int>")
    ensures PyParseInt(s, j) == Some((PyInt(NumberValue(x)), j + |NumberText(x)| + 6))
  {
    hide Strip, PyIntOf, Find, At, Slice, NumberValue, NumberText, NumberOk;
    NoAngle(x);
    FindAt(s, j, NumberText(x), "</int>");
    SliceAt(s, j, NumberText(x));
    NumberRead(x, []);
    AppendAssociates(NumberText(x), [], []);
  }

  lemma NoAngle(x: Number)
    requires NumberOk(x)
    ensures '<' !in NumberText(x)
  {
  }

  lemma FirstPair(s: ByteString, i: nat, pairs: seq<(char, char)>)
    requires At(s, i, PairsText(pairs)) && Bytelike(pairs) && pairs != []
    ensures At(s, i + 2, PairsText(pairs[1..])) && i + 2 <= |s| && Bytelike(pairs[1..])
    ensures var code := CharToHex(s[i]) * 16 + CharToHex(s[i + 1]);
      0 <= code < 256 && code == Nibble(pairs[0].0) * 16 + Nibble(pairs[0].1)
  {
    hide CharToHex, Nibble, At;
    var first := [pairs[0].0, pairs[0].1];
    AtConcat(s, i, first, PairsText(pairs[1..]));
    Chars(s, i, first);
    assert s[i] == first[0] && s[i + 1] == first[1];
    NibbleIs(pairs[0].0);
    NibbleIs(pairs[0].1);
    NibbleBound(pairs[0].0);
    NibbleBound(pairs[0].1);
  }

  lemma {:induction false} PairsRead(s: ByteString, i: nat, pairs: seq<(char, char)>)
    requires At(s, i, PairsText(pairs)) && Bytelike(pairs)
    ensures PyHex(s, i, |pairs|) == Some(ByteChars(PairsMeaning(pairs)))
    decreases |pairs|
  {
    hide CharToHex, Nibble, At, Bytelike, PairsText;
    if pairs != [] {
      FirstPair(s, i, pairs);
      PairsRead(s, i + 2, pairs[1..]);
    }
  }

  lemma NibbleBound(c: char)
    ensures -1 <= Nibble(c) <= 15
  {
  }

  /** Python takes what there is of a string that is cut short, and steps over its closing tag
      without looking at it. */
  lemma StringTaken(s: ByteString, i: nat, size: Size, n: nat)
    requires SizeOk("string", size, n) && Tidy(size) && At(s, i, Open("string", size))
    ensures var j := i + |Open("string", size)|;
      j <= |s| && PyParse(s, i) == Some((PyStr(if j + n <= |s| then s[j..j + n] else s[j..]), j + n + 9))
  {
    hide PyKindOf, PyVertex.SizeOf, SizeText, SizeOk, Open, FindChar, Slice, At, PyParseInt, PyParseString,
      PyParseBinary, PyParseItems;
    OpenRead(s, i, "string", size, n);
    SizeRead("string", size, n);
    KindRead(size);
    BodyTaken(s, i + |Open("string", size)|, n);
  }

  lemma BodyTaken(s: ByteString, j: nat, n: nat)
    requires j <= |s|
    ensures PyParseString(s, j, Some(n)) == Some((PyStr(if j + n <= |s| then s[j..j + n] else s[j..]), j + n + 9))
  {
    var taken: ByteString := if j + n <= |s| then s[j..j + n] else s[j..];
    assert Slice(s, j, j + n) == taken;
  }

  lemma StringRead(s: ByteString, i: nat, size: Size, t: string)
    requires SizeOk("string", size, |t|) && Tidy(size) && At(s, i, Open("string", size) + t + "</string>")
    ensures FromWire(VString(t)).Some?
    ensures PyParse(s, i) == Some((FromWire(VString(t)).value, i + |Open("string", size)| + |t| + 9))
  {
    hide PyKindOf, PyVertex.SizeOf, SizeText, SizeOk, Open, At, FindChar, Slice, PyParseInt, PyParseBinary,
      PyParseItems;
    SplitElement(s, i, Open("string", size), t, "</string>");
    OpenRead(s, i, "string", size, |t|);
    SizeRead("string", size, |t|);
    KindRead(size);
    SliceAt(s, i + |Open("string", size)|, t);
  }

  lemma BinaryRead(s: ByteString, i: nat, size: Size, pairs: seq<(char, char)>)
    requires SizeOk("binary", size, |pairs|) && Tidy(size) && Bytelike(pairs)
    requires At(s, i, Open("binary", size) + PairsText(pairs) + "</binary>")
    ensures PyParse(s, i) == Some((PyStr(ByteChars(PairsMeaning(pairs))),
                                   i + |Open("binary", size)| + |PairsText(pairs)| + 9))
  {
    hide PyKindOf, PyVertex.SizeOf, SizeText, SizeOk, Open, At, FindChar, Slice, PyParseInt, PyParseString,
      PyParseItems, PyHex, PairsText, PairsMeaning, ByteChars, Bytelike;
    SplitElement(s, i, Open("binary", size), PairsText(pairs), "</binary>");
    OpenRead(s, i, "binary", size, |pairs|);
    SizeRead("binary", size, |pairs|);
    KindRead(size);
    PairsRead(s, i + |Open("binary", size)|, pairs);
    PairsAt(s, i + |Open("binary", size)|, pairs);
  }

  lemma ListRead(s: ByteString, i: nat, size: Size, n: nat, items: seq<PyValue>, k: nat)
    requires SizeOk("list", size, n) && Tidy(size) && At(s, i, Open("list", size))
    requires PyParseItems(s, i + |Open("list", size)|, n) == Some((items, k))
    ensures PyParse(s, i) == Some((PyList(items), k + 7))
  {
    hide PyKindOf, PyVertex.SizeOf, SizeText, SizeOk, Open, At, FindChar, Slice, PyParseInt, PyParseString,
      PyParseBinary, PyParseItems;
    OpenRead(s, i, "list", size, n);
    SizeRead("list", size, n);
    KindRead(size);
  }

  /** Python reads such a text as the same value, and stops where C++ stops. */
  lemma {:induction false} Agree(s: ByteString, i: nat, t: Tree)
    requires TreeOk(t) && Shared(t) && At(s, i, TreeText(t))
    ensures FromWire(Meaning(t)).Some?
    ensures PyParse(s, i) == Some((FromWire(Meaning(t)).value, i + |TreeText(t)|))
    ensures i <= |s| && Parse(s, i) == Some((Meaning(t), i + |TreeText(t)|))
    decreases t, 0
  {
    hide PyParse, Parse, Open, At, PairsText, SizeOk, Tidy, Bytelike, NumberText, NumberOk, NumberValue, PyParseItems,
      ItemsText, ByteChars;
    TreeAt(s, i, t);
    match t
    case IntTree(x) => IntRead(s, i, x);
    case StringTree(size, u) => StringRead(s, i, size, u);
    case BinaryTree(size, pairs) => BinaryRead(s, i, size, pairs);
    case ListTree(size, items) =>
      var j := i + |Open("list", size)|;
      SplitElement(s, i, Open("list", size), ItemsText(items), "</list>");
      AgreeAll(s, j, items);
      ListRead(s, i, size, |items|, FromWireAll(MeaningAll(items)).value, j + |ItemsText(items)|);
  }

  lemma {:induction false} AgreeAll(s: ByteString, i: nat, items: seq<Tree>)
    requires (forall k :: 0 <= k < |items| ==> TreeOk(items[k]) && Shared(items[k])) && At(s, i, ItemsText(items))
    ensures FromWireAll(MeaningAll(items)).Some?
    ensures PyParseItems(s, i, |items|) == Some((FromWireAll(MeaningAll(items)).value, i + |ItemsText(items)|))
    decreases items, 1
  {
    hide PyParse, Parse, TreeText, Meaning, At, TreeOk, Shared, FromWire;
    if items != [] {
      AtConcat(s, i, TreeText(items[0]), ItemsText(items[1..]));
      Agree(s, i, items[0]);
      AgreeAll(s, i + |TreeText(items[0])|, items[1..]);
    }
  }

  // What Python prints.

  /** The two upper-case digits of a byte. */
  function ByteDigits(b: Byte): string {
    ["0123456789ABCDEF"[b / 16], "0123456789ABCDEF"[b % 16]]
  }

  /** The digits of all bytes of a string, in order. */
  function AllDigitsOf(s: ByteString): string {
    Concat(seq(|s|, k requires 0 <= k < |s| => ByteDigits(s[k] as int)))
  }

  lemma {:induction false} HexIsDigits(s: ByteString)
    ensures HexBytes(Bytes(s)) == AllDigitsOf(s)
  {
    hide HexToChar, ByteDigits;
    if s != [] {
      HexIsDigits(s[1..]);
      OneByte(s[0] as int);
      var all := seq(|s|, k requires 0 <= k < |s| => ByteDigits(s[k] as int));
      assert all[1..] == seq(|s[1..]|, k requires 0 <= k < |s[1..]| => ByteDigits(s[1..][k] as int));
    }
  }

  lemma OneByte(b: Byte)
    ensures ByteDigits(b) == [HexToChar(b / 16), HexToChar(b % 16)]
  {
    var digits := "0123456789ABCDEF";
    assert forall d :: 0 <= d < 16 ==> digits[d] == if d < 10 then (48 + d) as char else (55 + d) as char;
  }

  /** A string of the characters from blank to tilde is sent as it is, every other one as the
      digits of its bytes. */
  lemma StringSent(s: ByteString)
    ensures var n := NatToString(|s|);
      PyPrint(PyStr(s)) ==
        if forall c :: c in s ==> 32 <= c as int <= 126 then "<string " + n + ">" + s + "</string>"
        else "<binary " + n + ">" + AllDigitsOf(s) + "</binary>"
  {
    hide NatToString, HexBytes, AllDigitsOf, Bytes, IsPrintable;
    HexIsDigits(s);
    PrintableIs(s);
    TagIs(|s|);
    hide Tag;
  }

  lemma TagIs(n: nat)
    ensures Tag("string", n) == "<string " + NatToString(n) + ">"
    ensures Tag("binary", n) == "<binary " + NatToString(n) + ">"
  {
    hide NatToString;
    var t := NatToString(n);
    assert "string" + " " + t == "string " + t && "<" + ("string " + t) == "<string " + t;
    assert "binary" + " " + t == "binary " + t && "<" + ("binary " + t) == "<binary " + t;
  }

  lemma PrintableIs(s: ByteString)
    ensures IsPrintable(s) <==> forall c :: c in s ==> 32 <= c as int <= 126
  {
    assert forall k :: 0 <= k < |s| ==> s[k] in s;
  }

  /** An integer is sent exactly when 64 bits hold it. */
  lemma IntSent(n: int)
    ensures PyPrint(PyInt(n)) ==
      if -0x8000_0000_0000_0000 <= n < 0x8000_0000_0000_0000 then "<int>" + IntToString(n) + "</int>" else ""
  {
  }
}
