/** Typed messages of SCOP: the vertex values, the text that every port prints for
    them, and the C++ parser (scopxml.cpp). */
module Vertex {
  import opened Text

  type Byte = b: int | 0 <= b < 256

  const INT_MAX := 0x7fff_ffff
  const INT_MIN := -0x8000_0000

  datatype Value =
    | VInteger(n: int)
    | VString(s: string)
    | VBinary(buf: seq<Byte>)
    | VList(items: seq<Value>)

  /** What a C++ vertex can hold: 32-bit integers and sizes, and C strings. */
  predicate WellFormed(v: Value) {
    match v
    case VInteger(n) => INT_MIN <= n <= INT_MAX
    case VString(s) => |s| <= INT_MAX && '\0' !in s
    case VBinary(buf) => |buf| <= INT_MAX
    case VList(items) => |items| <= INT_MAX && forall w :: w in items ==> WellFormed(w)
  }

  // Hexadecimal digits of binary vertices.

  function CharToHex(c: char): int {
    if '0' <= c <= '9' then c as int - '0' as int
    else if 'A' <= c <= 'F' then c as int - 'A' as int + 10
    else -1
  }

  function HexToChar(n: int): char {
    if n < 0 || n > 15 then '?'
    else if n < 10 then '0' + n as char
    else 'A' + (n - 10) as char
  }

  lemma HexRoundTrip(n: int)
    requires 0 <= n <= 15
    ensures CharToHex(HexToChar(n)) == n
  {
  }

  function HexBytes(buf: seq<Byte>): (s: string)
    ensures |s| == 2 * |buf|
  {
    if buf == [] then [] else [HexToChar(buf[0] / 16), HexToChar(buf[0] % 16)] + HexBytes(buf[1..])
  }

  lemma HexBytesAppend(b: seq<Byte>, k: nat)
    requires k < |b|
    ensures HexBytes(b[..k + 1]) == HexBytes(b[..k]) + [HexToChar(b[k] / 16), HexToChar(b[k] % 16)]
    decreases k
  {
    if k > 0 {
      HexBytesAppend(b[1..], k - 1);
      assert b[1..][..k] == b[..k + 1][1..] && b[1..][..k - 1] == b[..k][1..];
    } else {
      assert b[..1] == [b[0]];
    }
  }

  // Printing.

  function SizedName(name: string, size: nat): string {
    name + " " + NatToString(size)
  }

  function Tag(name: string, size: nat): string {
    "<" + SizedName(name, size) + ">"
  }

  function Print(v: Value): (s: string)
    ensures |s| > 0 && s[0] == '<'
    decreases v, 0
  {
    match v
    case VInteger(n) => "<int>" + IntToString(n) + "</int>"
    case VString(s) => Tag("string", |s|) + s + "</string>"
    case VBinary(buf) => Tag("binary", |buf|) + HexBytes(buf) + "</binary>"
    case VList(items) => Tag("list", |items|) + PrintAll(items) + "</list>"
  }

  function PrintAll(items: seq<Value>): string
    decreases items, 1
  {
    if items == [] then [] else Print(items[0]) + PrintAll(items[1..])
  }

  lemma {:induction false} PrintAllAppend(a: seq<Value>, b: seq<Value>)
    ensures PrintAll(a + b) == PrintAll(a) + PrintAll(b)
  {
    if a == [] {
      assert a + b == b;
    } else {
      assert (a + b)[1..] == a[1..] + b;
      PrintAllAppend(a[1..], b);
    }
  }

  /** `vertex_to_string(v, method)`: a call is the list of a method name and its argument. */
  function Request(method_: string, args: Option<Value>): Value {
    VList([VString(method_), if args.Some? then args.value else VInteger(0)])
  }

  function ExtractMethod(v: Value): Option<string> {
    if !v.VList? || |v.items| != 2 || !v.items[0].VString? then None else Some(v.items[0].s)
  }

  function ExtractArgs(v: Value): Option<Value> {
    if !v.VList? || |v.items| != 2 then None else Some(v.items[1])
  }

  /** Method and argument are found exactly in a pair, the method in one that begins with a
      string. */
  lemma ExtractIff(v: Value, m: string, a: Value)
    ensures ExtractMethod(v) == Some(m) <==> exists w :: v == VList([VString(m), w])
    ensures ExtractArgs(v) == Some(a) <==> exists w :: v == VList([w, a])
  {
    if v.VList? && |v.items| == 2 {
      assert v == VList([v.items[0], v.items[1]]);
    }
  }

  // Parsing, with the position in place of the character pointer.

  function SkipSpace(s: string, i: nat): (j: nat)
    requires i <= |s|
    ensures i <= j <= |s|
    decreases |s| - i
  {
    if i < |s| && IsSpace(s[i]) then SkipSpace(s, i + 1) else i
  }

  /** `%d` of sscanf, and atoi: optional blanks, an optional sign, at least one digit,
      and a value that fits an int (C leaves larger numerals undefined). */
  function ScanInt(s: string, i: nat): (r: Option<(int, nat)>)
    requires i <= |s|
    ensures r.Some? ==> i < r.value.1 <= |s|
  {
    var j := SkipSpace(s, i);
    if j < |s| && s[j] == '-' then ScanDigits(s, j + 1, true)
    else if j < |s| && s[j] == '+' then ScanDigits(s, j + 1, false)
    else ScanDigits(s, j, false)
  }

  function ScanDigits(s: string, k: nat, negative: bool): (r: Option<(int, nat)>)
    requires k <= |s|
    ensures r.Some? ==> k < r.value.1 <= |s|
  {
    var e := DigitRun(s, k);
    var magnitude: int := DigitsValue(s[k..e]);
    var n := if negative then -magnitude else magnitude;
    if e == k || !(INT_MIN <= n <= INT_MAX) then None else Some((n, e))
  }

  /** `sscanf(s, "<%[^>]>%n", type, &pos)` into the 20 characters of `type`. */
  function ScanTag(s: string, i: nat): (r: Option<(string, nat)>)
    requires i <= |s|
    ensures r.Some? ==> i < r.value.1 <= |s|
  {
    if i == |s| || s[i] != '<' then None
    else
      var e := FindChar(s, '>', i + 1);
      if e == i + 1 || e == |s| || e - (i + 1) >= 20 then None else Some((s[i + 1..e], e + 1))
  }

  /** `atoi(type + skip)` for a size, where a negative or missing size has no meaning. */
  function TagSize(tag: string, skip: nat): Option<nat> {
    if |tag| < skip then None
    else match ScanInt(tag, skip)
         case None => None
         case Some((n, _)) => if n < 0 then None else Some(n)
  }

  function ScanHex(s: string, i: nat, n: nat): (r: Option<seq<Byte>>)
    ensures r.Some? ==> |r.value| == n && i + 2 * n <= |s|
    decreases n
  {
    if n == 0 then if i <= |s| then Some([]) else None
    else if i + 2 > |s| then None
    else match ScanHex(s, i + 2, n - 1)
         case None => None
         case Some(rest) => Some([(CharToHex(s[i]) * 16 + CharToHex(s[i + 1])) % 256] + rest)
  }

  /** The comparisons of the opening tag with the type names, in the order of the parser. */
  datatype Kind = IntTag | StringTag | BinaryTag | ListTag | UnknownTag

  function KindOf(tag: string): Kind {
    if tag == "int" then IntTag
    else if "string" <= tag then StringTag
    else if "binary" <= tag then BinaryTag
    else if "list" <= tag then ListTag
    else UnknownTag
  }

  /** The value that `string_to_vertex` reads at `i` and the position where it stops. */
  function Parse(s: string, i: nat): (r: Option<(Value, nat)>)
    requires i <= |s|
    ensures r.Some? ==> i < r.value.1 <= |s|
    decreases |s| - i, 0, 0
  {
    match ScanTag(s, i)
    case None => None
    case Some((tag, j)) =>
      match KindOf(tag)
      case IntTag => ParseInt(s, j)
      case StringTag => ParseString(s, j, TagSize(tag, 7))
      case BinaryTag => ParseBinary(s, j, TagSize(tag, 7))
      case ListTag =>
        (match TagSize(tag, 5)
         case None => None
         case Some(n) =>
           match ParseItems(s, j, n)
           case None => None
           case Some((items, k)) => Close(s, k, "</list>", VList(items)))
      case UnknownTag => None
  }

  function ParseInt(s: string, j: nat): (r: Option<(Value, nat)>)
    requires j <= |s|
    ensures r.Some? ==> j <= r.value.1 <= |s|
  {
    match ScanInt(s, j)
    case None => None
    case Some((n, k)) => Close(s, k, "</int>", VInteger(n))
  }

  function ParseString(s: string, j: nat, size: Option<nat>): (r: Option<(Value, nat)>)
    requires j <= |s|
    ensures r.Some? ==> j <= r.value.1 <= |s|
  {
    match size
    case None => None
    case Some(n) => if j + n > |s| then None else Close(s, j + n, "</string>", VString(s[j..j + n]))
  }

  function ParseBinary(s: string, j: nat, size: Option<nat>): (r: Option<(Value, nat)>)
    requires j <= |s|
    ensures r.Some? ==> j <= r.value.1 <= |s|
  {
    match size
    case None => None
    case Some(n) =>
      match ScanHex(s, j, n)
      case None => None
      case Some(buf) => Close(s, j + 2 * n, "</binary>", VBinary(buf))
  }

  function ParseItems(s: string, i: nat, n: nat): (r: Option<(seq<Value>, nat)>)
    requires i <= |s|
    ensures r.Some? ==> |r.value.0| == n && i <= r.value.1 <= |s|
    decreases |s| - i, 1, n
  {
    if n == 0 then Some(([], i))
    else match Parse(s, i)
         case None => None
         case Some((v, j)) =>
           match ParseItems(s, j, n - 1)
           case None => None
           case Some((rest, k)) => Some(([v] + rest, k))
  }

  /** The closing tag, which every element must end with. */
  function Close(s: string, i: nat, tag: string, v: Value): (r: Option<(Value, nat)>)
    requires i <= |s|
    ensures r.Some? ==> r.value == (v, i + |tag|) && r.value.1 <= |s|
  {
    if At(s, i, tag) then Some((v, i + |tag|)) else None
  }

  // Reading back what was printed.

  lemma ScanDigitsAt(s: string, k: nat, magnitude: nat, negative: bool)
    requires At(s, k, NatToString(magnitude))
    requires INT_MIN <= (if negative then -(magnitude as int) else magnitude) <= INT_MAX
    requires k + |NatToString(magnitude)| < |s| ==> !IsDigit(s[k + |NatToString(magnitude)|])
    ensures ScanDigits(s, k, negative)
         == Some((if negative then -(magnitude as int) else magnitude, k + |NatToString(magnitude)|))
  {
    var digits := NatToString(magnitude);
    hide DigitsValue, DigitRun, NatToString;
    DigitRunAt(s, k, digits);
    DigitsOfNat(magnitude);
  }

  lemma ScanIntAt(s: string, i: nat, n: int)
    requires At(s, i, IntToString(n)) && INT_MIN <= n <= INT_MAX
    requires i + |IntToString(n)| < |s| ==> !IsDigit(s[i + |IntToString(n)|])
    ensures ScanInt(s, i) == Some((n, i + |IntToString(n)|))
  {
    var magnitude := if n < 0 then -n else n;
    hide ScanDigits, NatToString;
    AtChar(s, i, IntToString(n), 0);
    if n < 0 {
      AtConcat(s, i, "-", NatToString(magnitude));
      ScanDigitsAt(s, i + 1, magnitude, true);
    } else {
      ScanDigitsAt(s, i, magnitude, false);
    }
  }

  lemma NatToStringLength(n: nat, bound: nat, k: nat)
    requires n < bound
    requires k > 0 && bound == Power10(k)
    ensures |NatToString(n)| <= k
    decreases k
  {
    if n >= 10 {
      assert bound == 10 * Power10(k - 1);
      hide Power10;
      NatToStringLength(n / 10, Power10(k - 1), k - 1);
    }
  }

  function Power10(k: nat): nat {
    if k == 0 then 1 else 10 * Power10(k - 1)
  }

  lemma SizeLength(n: nat)
    requires n <= INT_MAX
    ensures |NatToString(n)| <= 10
  {
    assert Power10(10) == 100_0000_0000;
    NatToStringLength(n, Power10(10), 10);
  }

  /** An opening tag is scanned back into what stands between its brackets. */
  lemma ScanTagAt(s: string, i: nat, tag: string)
    requires At(s, i, "<" + tag + ">") && 0 < |tag| < 20 && '>' !in tag
    ensures ScanTag(s, i) == Some((tag, i + |tag| + 2))
  {
    assert "<" + tag + ">" == "<" + (tag + ">");
    AtConcat(s, i, "<", tag + ">");
    AtChar(s, i, "<", 0);
    FindCharAt(s, '>', i + 1, tag);
    AtConcat(s, i + 1, tag, ">");
  }

  lemma TagSizeOf(name: string, size: nat)
    requires size <= INT_MAX
    ensures TagSize(SizedName(name, size), |name| + 1) == Some(size)
  {
    var tag := SizedName(name, size);
    AtContext(name + " ", NatToString(size), "");
    assert name + " " + NatToString(size) + "" == tag;
    assert At(tag, |name| + 1, IntToString(size));
    ScanIntAt(tag, |name| + 1, size);
  }

  lemma KindOfSized(size: nat)
    ensures KindOf(SizedName("string", size)) == StringTag
    ensures KindOf(SizedName("binary", size)) == BinaryTag
    ensures KindOf(SizedName("list", size)) == ListTag
  {
    var d := NatToString(size);
    assert ("string" + " " + d)[0] == 's' && ("string" + " " + d)[..6] == "string";
    assert ("binary" + " " + d)[0] == 'b' && ("binary" + " " + d)[..6] == "binary";
    assert ("list" + " " + d)[0] == 'l' && ("list" + " " + d)[..4] == "list";
  }

  lemma ScanSizedTag(s: string, i: nat, name: string, size: nat)
    requires At(s, i, Tag(name, size)) && size <= INT_MAX
    requires 0 < |name| <= 6 && '>' !in name
    ensures ScanTag(s, i) == Some((SizedName(name, size), i + |Tag(name, size)|))
  {
    var tag := SizedName(name, size);
    SizeLength(size);
    IntToStringChars(size, '>');
    ScanTagAt(s, i, tag);
  }

  lemma {:induction false} ScanHexAt(s: string, i: nat, buf: seq<Byte>)
    requires At(s, i, HexBytes(buf))
    ensures ScanHex(s, i, |buf|) == Some(buf)
    decreases |buf|
  {
    hide CharToHex, HexToChar;
    if buf != [] {
      var pair := [HexToChar(buf[0] / 16), HexToChar(buf[0] % 16)];
      AtConcat(s, i, pair, HexBytes(buf[1..]));
      AtChar(s, i, pair, 0);
      AtChar(s, i, pair, 1);
      HexRoundTrip(buf[0] / 16);
      HexRoundTrip(buf[0] % 16);
      ScanHexAt(s, i + 2, buf[1..]);
      assert (CharToHex(s[i]) * 16 + CharToHex(s[i + 1])) % 256 == buf[0];
      assert [buf[0]] + buf[1..] == buf;
    }
  }

  lemma ParsePrintedInt(s: string, i: nat, n: int)
    requires INT_MIN <= n <= INT_MAX && At(s, i, Print(VInteger(n)))
    ensures Parse(s, i) == Some((VInteger(n), i + |Print(VInteger(n))|))
  {
    hide IntToString, ScanTag, ScanInt, KindOf, At;
    var t := IntToString(n);
    assert Print(VInteger(n)) == "<int>" + (t + "</int>");
    AtConcat(s, i, "<int>", t + "</int>");
    AtConcat(s, i + 5, t, "</int>");
    IntTagAt(s, i);
    AtChar(s, i + 5 + |t|, "</int>", 0);
    ScanIntAt(s, i + 5, n);
  }

  lemma IntTagAt(s: string, i: nat)
    requires At(s, i, "<int>")
    ensures i + 5 <= |s| && ScanTag(s, i) == Some(("int", i + 5)) && KindOf("int") == IntTag
  {
    assert "<int>" == "<" + "int" + ">";
    ScanTagAt(s, i, "int");
  }

  /** A sized element is its opening tag, its body and its closing tag. */
  lemma SplitElement(s: string, i: nat, open: string, body: string, close: string)
    requires At(s, i, open + body + close)
    ensures At(s, i, open) && At(s, i + |open|, body) && At(s, i + |open| + |body|, close)
  {
    AtConcat(s, i, open + body, close);
    AtConcat(s, i, open, body);
  }

  lemma ParsePrintedString(s: string, i: nat, t: string)
    requires |t| <= INT_MAX && At(s, i, Print(VString(t)))
    ensures Parse(s, i) == Some((VString(t), i + |Print(VString(t))|))
  {
    hide ScanTag, KindOf, TagSize, SizedName;
    SplitElement(s, i, Tag("string", |t|), t, "</string>");
    ScanSizedTag(s, i, "string", |t|);
    KindOfSized(|t|);
    TagSizeOf("string", |t|);
  }

  lemma ParsePrintedBinary(s: string, i: nat, buf: seq<Byte>)
    requires |buf| <= INT_MAX && At(s, i, Print(VBinary(buf)))
    ensures Parse(s, i) == Some((VBinary(buf), i + |Print(VBinary(buf))|))
  {
    hide ScanTag, KindOf, TagSize, ScanHex, HexBytes, SizedName;
    var open := Tag("binary", |buf|);
    SplitElement(s, i, open, HexBytes(buf), "</binary>");
    ScanSizedTag(s, i, "binary", |buf|);
    KindOfSized(|buf|);
    TagSizeOf("binary", |buf|);
    ScanHexAt(s, i + |open|, buf);
  }

  lemma ParsePrintedList(s: string, i: nat, items: seq<Value>)
    requires |items| <= INT_MAX && At(s, i, Print(VList(items)))
    requires var j := i + |Tag("list", |items|)|;
      j <= |s| && ParseItems(s, j, |items|) == Some((items, j + |PrintAll(items)|))
    ensures Parse(s, i) == Some((VList(items), i + |Print(VList(items))|))
  {
    hide ScanTag, KindOf, TagSize, ParseItems, PrintAll, SizedName, Tag, At, ParseInt, ParseString, ParseBinary;
    SplitElement(s, i, Tag("list", |items|), PrintAll(items), "</list>");
    ScanSizedTag(s, i, "list", |items|);
    KindOfSized(|items|);
    TagSizeOf("list", |items|);
  }

  /** Parsing a printed vertex, wherever it stands in the text, returns that vertex and
      stops exactly at its end. */
  lemma {:induction false} ParsePrinted(s: string, i: nat, v: Value)
    requires WellFormed(v) && At(s, i, Print(v))
    ensures Parse(s, i) == Some((v, i + |Print(v)|))
    decreases v, 0
  {
    hide Parse, PrintAll, ParseItems, Tag;
    match v
    case VInteger(n) => ParsePrintedInt(s, i, n);
    case VString(t) => ParsePrintedString(s, i, t);
    case VBinary(buf) => ParsePrintedBinary(s, i, buf);
    case VList(items) =>
      SplitElement(s, i, Tag("list", |items|), PrintAll(items), "</list>");
      ParsePrintedItems(s, i + |Tag("list", |items|)|, items);
      ParsePrintedList(s, i, items);
  }

  lemma {:induction false} ParsePrintedItems(s: string, i: nat, items: seq<Value>)
    requires forall w :: w in items ==> WellFormed(w)
    requires At(s, i, PrintAll(items))
    ensures ParseItems(s, i, |items|) == Some((items, i + |PrintAll(items)|))
    decreases items, 1
  {
    hide Parse, Print, At;
    if items != [] {
      AtConcat(s, i, Print(items[0]), PrintAll(items[1..]));
      ParsePrinted(s, i, items[0]);
      ParsePrintedItems(s, i + |Print(items[0])|, items[1..]);
      assert [items[0]] + items[1..] == items;
    }
  }

  /** `string_to_vertex(vertex_to_string(v))`. */
  lemma RoundTrip(v: Value)
    requires WellFormed(v)
    ensures Parse(Print(v), 0) == Some((v, |Print(v)|))
  {
    hide Parse, Print;
    assert At(Print(v), 0, Print(v));
    ParsePrinted(Print(v), 0, v);
  }

  /** No printed vertex starts another one, so the encoding is injective and prefix-free. */
  lemma PrefixFree(v: Value, w: Value)
    requires WellFormed(v) && WellFormed(w) && Print(v) <= Print(w)
    ensures v == w
  {
    hide Parse, Print;
    assert At(Print(w), 0, Print(v)) && At(Print(w), 0, Print(w));
    ParsePrinted(Print(w), 0, v);
    ParsePrinted(Print(w), 0, w);
  }
}
