/** Every text that the C++ parser of vertices accepts, and no other: numbers with blanks,
    signs and leading zeros, and tags with something behind the size. */
module VertexGrammar {
  import opened Text
  import opened Vertex

  // Numbers.

  /** A number as `%d` and `atoi` take it. */
  datatype Number = Number(blanks: string, sign: string, digits: string)

  predicate IsBlank(c: char) {
    c == ' ' || c == '\t' || c == '\n' || c == 11 as char || c == 12 as char || c == '\r'
  }

  predicate NumberOk(x: Number) {
    (forall c :: c in x.blanks ==> IsBlank(c)) && (x.sign == "" || x.sign == "+" || x.sign == "-") && x.digits != [] &&
    forall c :: c in x.digits ==> '0' <= c <= '9'
  }

  function NumberText(x: Number): string {
    x.blanks + (x.sign + x.digits)
  }

  /** The value of digits behind a number that has been read already. */
  function ValueBehind(n: nat, digits: string): nat
    decreases |digits|
  {
    if digits == [] then n
    else ValueBehind(n * 10 + (if '0' <= digits[0] <= '9' then digits[0] as int - '0' as int else 0), digits[1..])
  }

  function NumberValue(x: Number): int {
    if x.sign == "-" then -(ValueBehind(0, x.digits) as int) else ValueBehind(0, x.digits)
  }

  lemma {:induction false} ValueIs(a: string, b: string)
    requires AllDigits(a) && AllDigits(b)
    ensures AllDigits(a + b) && ValueBehind(DigitsValue(a), b) == DigitsValue(a + b)
    decreases |b|
  {
    if b == [] {
      assert a + b == a;
    } else {
      var more := a + [b[0]];
      assert more[..|more| - 1] == a;
      assert more + b[1..] == a + b;
      ValueIs(more, b[1..]);
    }
  }

  lemma DigitsOk(digits: string)
    requires forall c :: c in digits ==> '0' <= c <= '9'
    ensures AllDigits(digits) && ValueBehind(0, digits) == DigitsValue(digits)
  {
    assert forall k :: 0 <= k < |digits| ==> digits[k] in digits;
    ValueIs([], digits);
    assert [] + digits == digits;
  }

  lemma Chars(s: string, i: nat, t: string)
    requires At(s, i, t)
    ensures i + |t| <= |s| && forall k :: i <= k < i + |t| ==> s[k] == t[k - i]
  {
    forall k | i <= k < i + |t| ensures s[k] == t[k - i] {
      AtChar(s, i, t, k - i);
    }
  }

  lemma {:induction false} SkipsTo(s: string, i: nat, j: nat)
    requires i <= j <= |s| && (forall k :: i <= k < j ==> IsSpace(s[k])) && (j < |s| ==> !IsSpace(s[j]))
    ensures SkipSpace(s, i) == j
    decreases j - i
  {
    if i < j {
      SkipsTo(s, i + 1, j);
    }
  }

  lemma SignedAt(s: string, j: nat, x: Number)
    requires NumberOk(x) && At(s, j, x.sign + x.digits)
    ensures var k := j + |x.sign|;
      k < |s| && IsDigit(s[k]) && At(s, k, x.digits) && !IsSpace(s[j]) &&
      (x.sign == "-" ==> s[j] == '-') && (x.sign == "+" ==> s[j] == '+') && (x.sign == "" ==> s[j] == s[k])
  {
    AtConcat(s, j, x.sign, x.digits);
    Chars(s, j, x.sign);
    Chars(s, j + |x.sign|, x.digits);
    assert x.digits[0] in x.digits && s[j + |x.sign|] == x.digits[0];
  }

  lemma DigitsAt(s: string, k: nat, digits: string, negative: bool)
    requires At(s, k, digits) && digits != [] && (forall c :: c in digits ==> '0' <= c <= '9')
    requires k + |digits| < |s| ==> !IsDigit(s[k + |digits|])
    ensures k <= |s|
    ensures var n: int := if negative then -(ValueBehind(0, digits) as int) else ValueBehind(0, digits);
      ScanDigits(s, k, negative) == if INT_MIN <= n <= INT_MAX then Some((n, k + |digits|)) else None
  {
    hide At, ValueBehind, DigitsValue;
    DigitsOk(digits);
    DigitRunAt(s, k, digits);
    Chars(s, k, digits);
    assert s[k..k + |digits|] == digits;
  }

  lemma BlanksAt(s: string, i: nat, x: Number)
    requires NumberOk(x) && At(s, i, NumberText(x))
    ensures i <= |s| && SkipSpace(s, i) == i + |x.blanks| && At(s, i + |x.blanks|, x.sign + x.digits)
  {
    hide At;
    var j := i + |x.blanks|;
    AtConcat(s, i, x.blanks, x.sign + x.digits);
    Chars(s, i, x.blanks);
    forall q | i <= q < j ensures IsSpace(s[q]) {
      assert x.blanks[q - i] in x.blanks;
    }
    SignedAt(s, j, x);
    SkipsTo(s, i, j);
  }

  /** A number is read, however it is written. */
  lemma NumberAt(s: string, i: nat, x: Number)
    requires NumberOk(x) && INT_MIN <= NumberValue(x) <= INT_MAX && At(s, i, NumberText(x))
    requires i + |NumberText(x)| < |s| ==> !IsDigit(s[i + |NumberText(x)|])
    ensures i <= |s| && ScanInt(s, i) == Some((NumberValue(x), i + |NumberText(x)|))
  {
    hide At, ValueBehind, ScanDigits, SkipSpace;
    var j := i + |x.blanks|;
    BlanksAt(s, i, x);
    SignedAt(s, j, x);
    DigitsAt(s, j + |x.sign|, x.digits, x.sign == "-");
  }

  lemma {:induction false} Skipped(s: string, i: nat)
    requires i <= |s|
    ensures i <= SkipSpace(s, i) <= |s| && forall c :: c in s[i..SkipSpace(s, i)] ==> IsBlank(c)
    decreases |s| - i
  {
    if i < |s| && IsSpace(s[i]) {
      Skipped(s, i + 1);
      assert s[i..SkipSpace(s, i)] == [s[i]] + s[i + 1..SkipSpace(s, i)];
    }
  }

  lemma DigitsOf(s: string, k: nat, negative: bool)
    requires k <= |s| && ScanDigits(s, k, negative).Some?
    ensures var (n, e) := ScanDigits(s, k, negative).value;
      k < e <= |s| && (forall c :: c in s[k..e] ==> '0' <= c <= '9') && INT_MIN <= n <= INT_MAX &&
      n == (if negative then -(ValueBehind(0, s[k..e]) as int) else ValueBehind(0, s[k..e])) &&
      (e < |s| ==> !IsDigit(s[e]))
  {
    hide ValueBehind, DigitsValue;
    DigitsOk(s[k..DigitRun(s, k)]);
  }

  /** What is read as a number is one. */
  lemma NumberOf(s: string, i: nat) returns (x: Number)
    requires i <= |s| && ScanInt(s, i).Some?
    ensures NumberOk(x) && INT_MIN <= NumberValue(x) <= INT_MAX && At(s, i, NumberText(x))
    ensures ScanInt(s, i) == Some((NumberValue(x), i + |NumberText(x)|))
    ensures i + |NumberText(x)| < |s| ==> !IsDigit(s[i + |NumberText(x)|])
  {
    hide ValueBehind, ScanDigits, SkipSpace, IsBlank;
    Skipped(s, i);
    var j := SkipSpace(s, i);
    var k := if j < |s| && (s[j] == '-' || s[j] == '+') then j + 1 else j;
    var negative := j < |s| && s[j] == '-';
    DigitsOf(s, k, negative);
    var e := ScanDigits(s, k, negative).value.1;
    x := Number(s[i..j], s[j..k], s[k..e]);
    assert NumberText(x) == s[i..e];
  }

  // Elements.

  /** What stands behind the type in an opening tag: a character, the size, and anything
      that does not prolong it. */
  datatype Size = Size(gap: char, number: Number, junk: string)

  function SizeText(t: Size): string {
    [t.gap] + (NumberText(t.number) + t.junk)
  }

  /** The whole tag has less than 20 characters. */
  predicate SizeOk(name: string, t: Size, n: nat) {
    NumberOk(t.number) && NumberValue(t.number) == n <= 0x7fff_ffff && '>' !in SizeText(t) &&
    |name| + |SizeText(t)| < 20 && (t.junk != [] ==> !('0' <= t.junk[0] <= '9'))
  }

  datatype Tree =
    | IntTree(number: Number)
    | StringTree(size: Size, s: string)
    | BinaryTree(size: Size, pairs: seq<(char, char)>)
    | ListTree(size: Size, items: seq<Tree>)

  predicate TreeOk(t: Tree) {
    match t
    case IntTree(x) => NumberOk(x) && -0x8000_0000 <= NumberValue(x) <= 0x7fff_ffff
    case StringTree(size, s) => SizeOk("string", size, |s|)
    case BinaryTree(size, pairs) => SizeOk("binary", size, |pairs|)
    case ListTree(size, items) => SizeOk("list", size, |items|) && forall k :: 0 <= k < |items| ==> TreeOk(items[k])
  }

  function Open(name: string, size: Size): string {
    "<" + (name + SizeText(size)) + ">"
  }

  function PairsText(pairs: seq<(char, char)>): string {
    if pairs == [] then [] else [pairs[0].0, pairs[0].1] + PairsText(pairs[1..])
  }

  function TreeText(t: Tree): string
    decreases t, 0
  {
    match t
    case IntTree(x) => "<int>" + NumberText(x) + "</int>"
    case StringTree(size, s) => Open("string", size) + s + "</string>"
    case BinaryTree(size, pairs) => Open("binary", size) + PairsText(pairs) + "</binary>"
    case ListTree(size, items) => Open("list", size) + ItemsText(items) + "</list>"
  }

  function ItemsText(items: seq<Tree>): string
    decreases items, 1
  {
    if items == [] then [] else TreeText(items[0]) + ItemsText(items[1..])
  }

  /** The value of a hexadecimal digit in upper case, and -1 for every other character. */
  function Nibble(c: char): int {
    if '0' <= c <= '9' then c as int - '0' as int
    else match c
         case 'A' => 10 case 'B' => 11 case 'C' => 12 case 'D' => 13 case 'E' => 14 case 'F' => 15
         case _ => -1
  }

  function Meaning(t: Tree): Value
    decreases t, 0
  {
    match t
    case IntTree(x) => VInteger(NumberValue(x))
    case StringTree(_, s) => VString(s)
    case BinaryTree(_, pairs) => VBinary(PairsMeaning(pairs))
    case ListTree(_, items) => VList(MeaningAll(items))
  }

  function PairsMeaning(pairs: seq<(char, char)>): (b: seq<Byte>)
    ensures |b| == |pairs|
  {
    if pairs == [] then []
    else [(Nibble(pairs[0].0) * 16 + Nibble(pairs[0].1)) % 256] + PairsMeaning(pairs[1..])
  }

  function MeaningAll(items: seq<Tree>): (vs: seq<Value>)
    ensures |vs| == |items|
    decreases items, 1
  {
    if items == [] then [] else [Meaning(items[0])] + MeaningAll(items[1..])
  }

  // Opening tags.

  lemma OpenAt(s: string, i: nat, name: string, size: Size, n: nat)
    requires SizeOk(name, size, n) && '>' !in name && At(s, i, Open(name, size))
    ensures i <= |s| && ScanTag(s, i) == Some((name + SizeText(size), i + |Open(name, size)|))
  {
    hide SizeText;
    Chars(s, i, Open(name, size));
    assert |name + SizeText(size)| > 0 by { SizeNotEmpty(size); }
    assert "<" + (name + SizeText(size)) + ">" == Open(name, size);
    ScanTagAt(s, i, name + SizeText(size));
  }

  lemma SizeNotEmpty(size: Size)
    ensures |SizeText(size)| > 0
  {
  }

  lemma SizeIs(name: string, size: Size, n: nat)
    requires SizeOk(name, size, n)
    ensures TagSize(name + SizeText(size), |name| + 1) == Some(n)
  {
    hide NumberText, NumberOk, NumberValue, ScanInt, SizeText;
    SizeAt(name, size);
    SizeNotEmpty(size);
    NumberAt(name + SizeText(size), |name| + 1, size.number);
  }

  lemma SizeAt(name: string, size: Size)
    ensures var tag := name + SizeText(size); var k := |name| + 1 + |NumberText(size.number)|;
      At(tag, |name| + 1, NumberText(size.number)) && k <= |tag| &&
      (k < |tag| ==> size.junk != [] && tag[k] == size.junk[0])
  {
    hide NumberText;
    var text := NumberText(size.number);
    assert name + SizeText(size) == (name + [size.gap]) + text + size.junk;
    AtContext(name + [size.gap], text, size.junk);
  }

  lemma KindOfNamed(rest: string)
    ensures KindOf("string" + rest) == StringTag && KindOf("binary" + rest) == BinaryTag
    ensures KindOf("list" + rest) == ListTag
  {
    assert ("string" + rest)[0] == 's' && ("binary" + rest)[0] == 'b' && ("list" + rest)[0] == 'l';
    assert ("string" + rest)[..6] == "string" && ("binary" + rest)[..6] == "binary" && ("list" + rest)[..4] == "list";
  }

  /** The tag and the size that were read are those of an opening tag. */
  lemma OpenOf(s: string, i: nat, name: string) returns (size: Size)
    requires i <= |s| && ScanTag(s, i).Some? && name <= ScanTag(s, i).value.0 && '>' !in name
    requires TagSize(ScanTag(s, i).value.0, |name| + 1).Some?
    ensures SizeOk(name, size, TagSize(ScanTag(s, i).value.0, |name| + 1).value)
    ensures At(s, i, Open(name, size)) && ScanTag(s, i).value == (name + SizeText(size), i + |Open(name, size)|)
  {
    hide ScanTag, TagSize, SizeText, At;
    var (tag, j) := ScanTag(s, i).value;
    size := SizeOf(tag, name);
    TagText(s, i);
    NoBracket(s, i);
    assert forall c :: c in SizeText(size) ==> c in tag;
  }

  lemma SizeOf(tag: string, name: string) returns (size: Size)
    requires name <= tag && TagSize(tag, |name| + 1).Some?
    ensures tag == name + SizeText(size) && NumberOk(size.number)
    ensures NumberValue(size.number) == TagSize(tag, |name| + 1).value <= 0x7fff_ffff
    ensures size.junk != [] ==> !('0' <= size.junk[0] <= '9')
  {
    hide NumberText, NumberOk, NumberValue, ScanInt;
    var x := NumberOf(tag, |name| + 1);
    var end := |name| + 1 + |NumberText(x)|;
    Chars(tag, |name| + 1, NumberText(x));
    size := Size(tag[|name|], x, tag[end..]);
    assert tag[|name| + 1..end] == NumberText(x);
    assert tag == tag[..|name|] + ([tag[|name|]] + (tag[|name| + 1..end] + tag[end..]));
  }

  lemma TagText(s: string, i: nat)
    requires i <= |s| && ScanTag(s, i).Some?
    ensures var (tag, j) := ScanTag(s, i).value;
      At(s, i, "<" + tag + ">") && j == i + |tag| + 2 && 0 < |tag| < 20
  {
    var (tag, j) := ScanTag(s, i).value;
    assert s[i..j] == [s[i]] + s[i + 1..j - 1] + [s[j - 1]];
  }

  lemma NoBracket(s: string, i: nat)
    requires i <= |s| && ScanTag(s, i).Some?
    ensures '>' !in ScanTag(s, i).value.0
  {
  }

  // Reading trees.

  lemma NibbleIs(c: char)
    ensures Nibble(c) == CharToHex(c)
  {
  }

  lemma {:induction false} PairsAt(s: string, i: nat, pairs: seq<(char, char)>)
    requires At(s, i, PairsText(pairs))
    ensures |PairsText(pairs)| == 2 * |pairs| && ScanHex(s, i, |pairs|) == Some(PairsMeaning(pairs))
    decreases |pairs|
  {
    hide CharToHex, Nibble, At;
    Chars(s, i, PairsText(pairs));
    if pairs != [] {
      var first := [pairs[0].0, pairs[0].1];
      AtConcat(s, i, first, PairsText(pairs[1..]));
      Chars(s, i, first);
      NibbleIs(pairs[0].0);
      NibbleIs(pairs[0].1);
      PairsAt(s, i + 2, pairs[1..]);
      assert s[i] == first[0] && s[i + 1] == first[1];
    }
  }

  lemma IntTreeAt(s: string, i: nat, x: Number)
    requires TreeOk(IntTree(x)) && At(s, i, TreeText(IntTree(x)))
    ensures i <= |s| && Parse(s, i) == Some((Meaning(IntTree(x)), i + |TreeText(IntTree(x))|))
  {
    hide NumberText, NumberOk, NumberValue, ScanTag, ScanInt, KindOf, At;
    Chars(s, i, TreeText(IntTree(x)));
    SplitElement(s, i, "<int>", NumberText(x), "</int>");
    IntTagAt(s, i);
    AtChar(s, i + 5 + |NumberText(x)|, "</int>", 0);
    NumberAt(s, i + 5, x);
  }

  lemma StringTreeAt(s: string, i: nat, size: Size, t: string)
    requires TreeOk(StringTree(size, t)) && At(s, i, TreeText(StringTree(size, t)))
    ensures i <= |s| && Parse(s, i) == Some((VString(t), i + |TreeText(StringTree(size, t))|))
  {
    hide SizeOk, SizeText, Open, ScanTag, TagSize, KindOf;
    SplitElement(s, i, Open("string", size), t, "</string>");
    OpenAt(s, i, "string", size, |t|);
    SizeIs("string", size, |t|);
    KindOfNamed(SizeText(size));
  }

  lemma BinaryTreeAt(s: string, i: nat, size: Size, pairs: seq<(char, char)>)
    requires TreeOk(BinaryTree(size, pairs)) && At(s, i, TreeText(BinaryTree(size, pairs)))
    ensures i <= |s|
    ensures Parse(s, i) == Some((VBinary(PairsMeaning(pairs)), i + |TreeText(BinaryTree(size, pairs))|))
  {
    hide SizeOk, SizeText, Open, ScanTag, TagSize, KindOf, ScanHex, PairsText, PairsMeaning;
    SplitElement(s, i, Open("binary", size), PairsText(pairs), "</binary>");
    OpenAt(s, i, "binary", size, |pairs|);
    SizeIs("binary", size, |pairs|);
    KindOfNamed(SizeText(size));
    PairsAt(s, i + |Open("binary", size)|, pairs);
  }

  /** Every text of the grammar is read as what it means. */
  lemma {:induction false} TreeAt(s: string, i: nat, t: Tree)
    requires TreeOk(t) && At(s, i, TreeText(t))
    ensures i <= |s| && Parse(s, i) == Some((Meaning(t), i + |TreeText(t)|))
    decreases t, 1
  {
    hide Parse, At;
    if t.IntTree? {
      IntTreeAt(s, i, t.number);
    } else if t.StringTree? {
      StringTreeAt(s, i, t.size, t.s);
    } else if t.BinaryTree? {
      hide TreeOk;
      BinaryTreeAt(s, i, t.size, t.pairs);
    } else {
      hide TreeOk;
      ListTreeAt(s, i, t);
    }
  }

  lemma ListTreeAt(s: string, i: nat, t: Tree)
    requires TreeOk(t) && t.ListTree? && At(s, i, TreeText(t))
    ensures i <= |s| && Parse(s, i) == Some((Meaning(t), i + |TreeText(t)|))
    decreases t, 0
  {
    hide Parse, SizeText, Open, At, SizeOk, ItemsText, MeaningAll;
    var j := i + |Open("list", t.size)|;
    SplitElement(s, i, Open("list", t.size), ItemsText(t.items), "</list>");
    Chars(s, j, ItemsText(t.items));
    ItemsAt(s, j, t.items);
    ListIs(s, i, t.size, t.items);
  }

  lemma ListIs(s: string, i: nat, size: Size, items: seq<Tree>)
    requires SizeOk("list", size, |items|) && At(s, i, Open("list", size))
    requires var j := i + |Open("list", size)|;
      j <= |s| && ParseItems(s, j, |items|) == Some((MeaningAll(items), j + |ItemsText(items)|)) &&
      At(s, j + |ItemsText(items)|, "</list>")
    ensures i <= |s|
    ensures Parse(s, i) == Some((VList(MeaningAll(items)), i + |Open("list", size)| + |ItemsText(items)| + 7))
  {
    hide SizeOk, SizeText, Open, ScanTag, TagSize, KindOf, ParseItems, ItemsText, MeaningAll;
    OpenAt(s, i, "list", size, |items|);
    SizeIs("list", size, |items|);
    KindOfNamed(SizeText(size));
  }

  lemma {:induction false} ItemsAt(s: string, i: nat, items: seq<Tree>)
    requires (forall k :: 0 <= k < |items| ==> TreeOk(items[k])) && At(s, i, ItemsText(items)) && i <= |s|
    ensures ParseItems(s, i, |items|) == Some((MeaningAll(items), i + |ItemsText(items)|))
    decreases items, 1
  {
    hide Parse, TreeText, Meaning, At, TreeOk;
    if items != [] {
      AtConcat(s, i, TreeText(items[0]), ItemsText(items[1..]));
      TreeAt(s, i, items[0]);
      ItemsAt(s, i + |TreeText(items[0])|, items[1..]);
    }
  }

  // Nothing else is read.

  lemma {:induction false} PairsOf(s: string, i: nat, n: nat) returns (pairs: seq<(char, char)>)
    requires ScanHex(s, i, n).Some?
    ensures |pairs| == n && At(s, i, PairsText(pairs)) && ScanHex(s, i, n).value == PairsMeaning(pairs)
    ensures |PairsText(pairs)| == 2 * n
    decreases n
  {
    hide CharToHex, Nibble;
    if n == 0 {
      pairs := [];
    } else {
      var rest := PairsOf(s, i + 2, n - 1);
      pairs := [(s[i], s[i + 1])] + rest;
      assert pairs[1..] == rest;
      NibbleIs(s[i]);
      NibbleIs(s[i + 1]);
      assert s[i..i + 2] == [s[i], s[i + 1]];
      AtConcat(s, i, [s[i], s[i + 1]], PairsText(rest));
    }
  }

  lemma KindIs(tag: string)
    ensures KindOf(tag) == IntTag ==> tag == "int"
    ensures KindOf(tag) == StringTag ==> "string" <= tag
    ensures KindOf(tag) == BinaryTag ==> "binary" <= tag
    ensures KindOf(tag) == ListTag ==> "list" <= tag
  {
  }

  lemma Joins(s: string, i: nat, a: string, b: string, c: string)
    requires At(s, i, a) && At(s, i + |a|, b) && At(s, i + |a| + |b|, c)
    ensures At(s, i, a + b + c)
  {
    AtConcat(s, i, a, b);
    AtConcat(s, i, a + b, c);
  }

  lemma IntTreeOf(s: string, i: nat) returns (t: Tree)
    requires i <= |s| && Parse(s, i).Some? && KindOf(ScanTag(s, i).value.0) == IntTag
    ensures TreeOk(t) && At(s, i, TreeText(t)) && Parse(s, i) == Some((Meaning(t), i + |TreeText(t)|))
  {
    hide NumberText, NumberOk, NumberValue, ScanTag, ScanInt, At;
    var j := ScanTag(s, i).value.1;
    TagText(s, i);
    assert "<" + "int" + ">" == "<int>";
    var x := NumberOf(s, j);
    t := IntTree(x);
    Joins(s, i, "<int>", NumberText(x), "</int>");
  }

  lemma StringTreeOf(s: string, i: nat) returns (t: Tree)
    requires i <= |s| && Parse(s, i).Some? && KindOf(ScanTag(s, i).value.0) == StringTag
    ensures TreeOk(t) && At(s, i, TreeText(t)) && Parse(s, i) == Some((Meaning(t), i + |TreeText(t)|))
  {
    hide ScanTag, TagSize, At, SizeOk, Open, SizeText;
    var (tag, j) := ScanTag(s, i).value;
    KindIs(tag);
    var size := OpenOf(s, i, "string");
    var n := TagSize(tag, 7).value;
    t := StringTree(size, s[j..j + n]);
    Here(s, j, j + n);
    Joins(s, i, Open("string", size), s[j..j + n], "</string>");
  }

  lemma Here(s: string, i: nat, j: nat)
    requires i <= j <= |s|
    ensures At(s, i, s[i..j])
  {
  }

  lemma BinaryTreeOf(s: string, i: nat) returns (t: Tree)
    requires i <= |s| && Parse(s, i).Some? && KindOf(ScanTag(s, i).value.0) == BinaryTag
    ensures TreeOk(t) && At(s, i, TreeText(t)) && Parse(s, i) == Some((Meaning(t), i + |TreeText(t)|))
  {
    hide ScanTag, TagSize, ScanHex, At, SizeOk, Open, SizeText, PairsText, PairsMeaning;
    var (tag, j) := ScanTag(s, i).value;
    KindIs(tag);
    var size := OpenOf(s, i, "binary");
    var n := TagSize(tag, 7).value;
    var pairs := PairsOf(s, j, n);
    t := BinaryTree(size, pairs);
    Joins(s, i, Open("binary", size), PairsText(pairs), "</binary>");
  }

  lemma ListTreeOf(s: string, i: nat) returns (t: Tree)
    requires i <= |s| && Parse(s, i).Some? && KindOf(ScanTag(s, i).value.0) == ListTag
    ensures TreeOk(t) && At(s, i, TreeText(t)) && Parse(s, i) == Some((Meaning(t), i + |TreeText(t)|))
    decreases |s| - i, 0, 0
  {
    hide ScanTag, TagSize, ParseItems, At, SizeOk, Open, SizeText, ItemsText, MeaningAll;
    var (tag, j) := ScanTag(s, i).value;
    KindIs(tag);
    var size := OpenOf(s, i, "list");
    var items := ItemsOf(s, j, TagSize(tag, 5).value);
    t := ListTree(size, items);
    Joins(s, i, Open("list", size), ItemsText(items), "</list>");
  }

  /** What the parser accepts is a text of the grammar, read as what it means. */
  lemma {:induction false} TreeOf(s: string, i: nat) returns (t: Tree)
    requires i <= |s| && Parse(s, i).Some?
    ensures TreeOk(t) && At(s, i, TreeText(t)) && Parse(s, i) == Some((Meaning(t), i + |TreeText(t)|))
    decreases |s| - i, 1, 0
  {
    hide Parse, TreeText, Meaning, TreeOk, At, KindOf, ScanTag;
    Tagged(s, i);
    match KindOf(ScanTag(s, i).value.0)
    case IntTag => t := IntTreeOf(s, i);
    case StringTag => t := StringTreeOf(s, i);
    case BinaryTag => t := BinaryTreeOf(s, i);
    case ListTag => t := ListTreeOf(s, i);
  }

  lemma Tagged(s: string, i: nat)
    requires i <= |s| && Parse(s, i).Some?
    ensures ScanTag(s, i).Some? && KindOf(ScanTag(s, i).value.0) != UnknownTag
  {
  }

  lemma {:induction false} ItemsOf(s: string, i: nat, n: nat) returns (items: seq<Tree>)
    requires i <= |s| && ParseItems(s, i, n).Some?
    ensures |items| == n && At(s, i, ItemsText(items)) && forall k :: 0 <= k < n ==> TreeOk(items[k])
    ensures ParseItems(s, i, n) == Some((MeaningAll(items), i + |ItemsText(items)|))
    decreases |s| - i, 2, n
  {
    hide Parse, TreeText, Meaning, TreeOk;
    if n == 0 {
      items := [];
    } else {
      var t := TreeOf(s, i);
      var rest := ItemsOf(s, i + |TreeText(t)|, n - 1);
      items := [t] + rest;
      assert items[1..] == rest;
      AtConcat(s, i, TreeText(t), ItemsText(rest));
    }
  }

  /** `s` has at `i` a text of the grammar for `v`, which ends at `k`. */
  ghost predicate Writes(s: string, i: nat, v: Value, k: nat) {
    exists t: Tree :: TreeOk(t) && At(s, i, TreeText(t)) && k == i + |TreeText(t)| && Meaning(t) == v
  }

  /** The parser accepts exactly the texts of the grammar, each as what it means. */
  lemma ParseIff(s: string, i: nat, v: Value, k: nat)
    requires i <= |s|
    ensures Writes(s, i, v, k) <==> Parse(s, i) == Some((v, k))
  {
    hide Parse, TreeText, Meaning, TreeOk, At;
    if Writes(s, i, v, k) {
      var t: Tree :| TreeOk(t) && At(s, i, TreeText(t)) && k == i + |TreeText(t)| && Meaning(t) == v;
      TreeAt(s, i, t);
    }
    if Parse(s, i) == Some((v, k)) {
      var t := TreeOf(s, i);
    }
  }
}
