/** The Python port of the typed messages (scopxml.py): its own printer and parser, in
    their imperative form, against the printed form of module Vertex. */
module PyVertex {
  import opened Text
  import opened Vertex

  /** A byte string, as Python 2's str. */
  type ByteString = s: string | forall k :: 0 <= k < |s| ==> s[k] < 256 as char

  datatype PyValue =
    | PyInt(n: int)
    | PyStr(s: ByteString)
    | PyList(items: seq<PyValue>)

  const MAXINT := 0x7fff_ffff_ffff_ffff

  predicate IsPrintable(s: ByteString) {
    forall k :: 0 <= k < |s| ==> ' ' <= s[k] <= '~'
  }

  function Bytes(s: ByteString): (b: seq<Byte>)
    ensures |b| == |s| && forall k :: 0 <= k < |s| ==> b[k] == s[k] as int
  {
    if s == [] then [] else [s[0] as int] + Bytes(s[1..])
  }

  function ByteChars(b: seq<Byte>): (s: ByteString)
    ensures |s| == |b| && forall k :: 0 <= k < |s| ==> s[k] as int == b[k]
  {
    if b == [] then [] else [b[0] as char] + ByteChars(b[1..])
  }

  lemma ByteCharsOfBytes(s: ByteString)
    ensures ByteChars(Bytes(s)) == s
  {
  }

  /** The vertex that stands for a Python value: strings with an unprintable character
      travel as binary. */
  function ToWire(p: PyValue): Value {
    match p
    case PyInt(n) => VInteger(n)
    case PyStr(s) => if IsPrintable(s) then VString(s) else VBinary(Bytes(s))
    case PyList(items) => VList(ToWireAll(items))
  }

  function ToWireAll(items: seq<PyValue>): (r: seq<Value>)
    ensures |r| == |items| && forall k :: 0 <= k < |r| ==> r[k] == ToWire(items[k])
  {
    if items == [] then [] else [ToWire(items[0])] + ToWireAll(items[1..])
  }

  /** What Python makes of a vertex. */
  function FromWire(v: Value): Option<PyValue> {
    match v
    case VInteger(n) => Some(PyInt(n))
    case VString(s) => if forall k :: 0 <= k < |s| ==> s[k] < 256 as char then Some(PyStr(s)) else None
    case VBinary(buf) => Some(PyStr(ByteChars(buf)))
    case VList(items) =>
      match FromWireAll(items)
      case None => None
      case Some(ps) => Some(PyList(ps))
  }

  function FromWireAll(items: seq<Value>): (r: Option<seq<PyValue>>)
    ensures r.Some? ==> |r.value| == |items|
  {
    if items == [] then Some([])
    else match (FromWire(items[0]), FromWireAll(items[1..]))
         case (Some(p), Some(ps)) => Some([p] + ps)
         case _ => None
  }

  /** Values without a long integer, which the printer does not know. */
  predicate Sendable(p: PyValue) {
    match p
    case PyInt(n) => -MAXINT - 1 <= n <= MAXINT
    case PyStr(s) => true
    case PyList(items) => forall q :: q in items ==> Sendable(q)
  }

  // Printing.

  /** What the printer appends: nothing for a long integer. */
  function PyPrint(p: PyValue): string
    decreases p, 0
  {
    match p
    case PyInt(n) => if Sendable(p) then Print(VInteger(n)) else []
    case PyStr(s) => Print(ToWire(p))
    case PyList(items) => Tag("list", |items|) + PyPrintAll(items) + "</list>"
  }

  function PyPrintAll(items: seq<PyValue>): string
    decreases items, 1
  {
    if items == [] then [] else PyPrint(items[0]) + PyPrintAll(items[1..])
  }

  lemma {:induction false} PyPrintAllAppend(a: seq<PyValue>, b: seq<PyValue>)
    ensures PyPrintAll(a + b) == PyPrintAll(a) + PyPrintAll(b)
  {
    if a == [] {
      assert a + b == b;
    } else {
      assert (a + b)[1..] == a[1..] + b;
      PyPrintAllAppend(a[1..], b);
    }
  }

  /** Both ports print the same text for the same message. */
  lemma {:induction false} PyPrintIsPrint(p: PyValue)
    requires Sendable(p)
    ensures PyPrint(p) == Print(ToWire(p))
    decreases p, 0
  {
    if p.PyList? {
      PyPrintAllIsPrintAll(p.items);
    }
  }

  lemma {:induction false} PyPrintAllIsPrintAll(items: seq<PyValue>)
    requires forall q :: q in items ==> Sendable(q)
    ensures PyPrintAll(items) == PrintAll(ToWireAll(items))
    decreases items, 1
  {
    if items != [] {
      PyPrintIsPrint(items[0]);
      PyPrintAllIsPrintAll(items[1..]);
      assert ToWireAll(items)[1..] == ToWireAll(items[1..]);
    }
  }

  /** The list `sb` of the source, joined at the end. */
  class StringList {
    var parts: seq<string>

    constructor ()
      ensures parts == []
    {
      parts := [];
    }

    method Append(s: string)
      modifies this
      ensures parts == old(parts) + [s]
      ensures Concat(parts) == Concat(old(parts)) + s
    {
      ConcatAppend(parts, [s]);
      ConcatSingle(s);
      parts := parts + [s];
    }
  }

  method CheckPrintable(s: ByteString) returns (r: bool)
    ensures r == IsPrintable(s)
  {
    for k := 0 to |s|
      invariant forall j :: 0 <= j < k ==> ' ' <= s[j] <= '~'
    {
      var o := s[k] as int;
      if o < 32 || o > 126 {
        return false;
      }
    }
    return true;
  }

  lemma HexBytesNone()
    ensures HexBytes([]) == []
  {
  }

  method AppendHex(s: ByteString, sb: StringList)
    modifies sb
    ensures Concat(sb.parts) == Concat(old(sb.parts)) + HexBytes(Bytes(s))
  {
    hide Concat, HexBytes, HexToChar;
    HexBytesNone();
    ghost var b := Bytes(s);
    for k := 0 to |s|
      invariant Concat(sb.parts) == Concat(old(sb.parts)) + HexBytes(b[..k])
    {
      HexBytesAppend(b, k);
      sb.Append([HexToChar(s[k] as int / 16)]);
      sb.Append([HexToChar(s[k] as int % 16)]);
    }
    assert b[..|s|] == b;
  }

  /** `do_vertex_to_string(v, sb, -1)`. */
  method DoVertexToString(p: PyValue, sb: StringList)
    modifies sb
    ensures Concat(sb.parts) == Concat(old(sb.parts)) + PyPrint(p)
    decreases p, 0
  {
    hide Concat, PyPrintAll, Tag, IntToString;
    match p
    case PyInt(n) =>
      if -MAXINT - 1 <= n <= MAXINT {
        sb.Append("<int>" + IntToString(n) + "</int>");
      }
    case PyStr(s) =>
      AppendString(s, sb);
    case PyList(items) =>
      sb.Append(Tag("list", |items|));
      AppendItems(items, sb);
      sb.Append("</list>");
  }

  method AppendString(s: ByteString, sb: StringList)
    modifies sb
    ensures Concat(sb.parts) == Concat(old(sb.parts)) + PyPrint(PyStr(s))
  {
    hide Concat, Tag, Bytes, HexBytes;
    var printable := CheckPrintable(s);
    if printable {
      sb.Append(Tag("string", |s|) + s + "</string>");
    } else {
      sb.Append(Tag("binary", |s|));
      AppendHex(s, sb);
      sb.Append("</binary>");
    }
  }

  method AppendItems(items: seq<PyValue>, sb: StringList)
    modifies sb
    ensures Concat(sb.parts) == Concat(old(sb.parts)) + PyPrintAll(items)
    decreases items, 1
  {
    hide PyPrint, Concat;
    for k := 0 to |items|
      invariant Concat(sb.parts) == Concat(old(sb.parts)) + PyPrintAll(items[..k])
    {
      DoVertexToString(items[k], sb);
      PyPrintAllAppend(items[..k], [items[k]]);
      assert items[..k] + [items[k]] == items[..k + 1];
      assert PyPrintAll([items[k]]) == PyPrint(items[k]) + PyPrintAll([]);
    }
    assert items[..|items|] == items;
  }

  method VertexToString(p: PyValue) returns (s: string)
    ensures s == PyPrint(p)
  {
    var sb := new StringList();
    DoVertexToString(p, sb);
    s := Concat(sb.parts);
  }

  // Parsing.

  function Strip(s: string): string {
    if s != [] && IsSpace(s[0]) then Strip(s[1..])
    else if s != [] && IsSpace(s[|s| - 1]) then Strip(s[..|s| - 1])
    else s
  }

  /** Python's int(): blanks around, an optional sign, at least one digit. */
  function PyIntOf(s: string): Option<int> {
    var t := Strip(s);
    var digits := if t != [] && (t[0] == '-' || t[0] == '+') then t[1..] else t;
    if digits == [] || !AllDigits(digits) then None
    else
      var magnitude: int := DigitsValue(digits);
      Some(if t[0] == '-' then -magnitude else magnitude)
  }

  /** The first position at or after `i` where `t` occurs, as in `s.find(t, i)`. */
  function Find(s: string, t: string, i: nat): (r: Option<nat>)
    ensures r.Some? ==> i <= r.value && At(s, r.value, t)
    decreases |s| - i
  {
    if i + |t| > |s| then None
    else if At(s, i, t) then Some(i)
    else Find(s, t, i + 1)
  }

  function SizeOf(tag: string, skip: nat): Option<nat>
    requires skip <= |tag|
  {
    match PyIntOf(tag[skip..])
    case None => None
    case Some(n) => if n < 0 then None else Some(n)
  }

  /** A slice of Python: clamped to the length of the string. */
  function Slice(s: string, i: nat, j: nat): string {
    if j <= i || |s| <= i then [] else if j <= |s| then s[i..j] else s[i..]
  }

  /** The n characters that 2n hexadecimal digits denote; `chr` refuses negative codes. */
  function PyHex(s: string, i: nat, n: nat): (r: Option<ByteString>)
    ensures r.Some? ==> |r.value| == n
    decreases n
  {
    if n == 0 then Some([])
    else if i + 2 > |s| then None
    else
      var code := CharToHex(s[i]) * 16 + CharToHex(s[i + 1]);
      if code < 0 then None
      else match PyHex(s, i + 2, n - 1)
           case None => None
           case Some(rest) => Some([code as char] + rest)
  }

  datatype PyKind = PyIntTag | PyStringTag | PyBinaryTag | PyListTag | PyUnknownTag

  function PyKindOf(tag: string): (k: PyKind)
    ensures k.PyStringTag? || k.PyBinaryTag? ==> |tag| >= 7
    ensures k.PyListTag? ==> |tag| >= 5
  {
    if tag == "int" then PyIntTag
    else if "string " <= tag then PyStringTag
    else if "binary " <= tag then PyBinaryTag
    else if "list " <= tag then PyListTag
    else PyUnknownTag
  }

  /** The value that `do_string_to_vertex` reads at `offset` of a byte string, and the
      position after it. Closing tags are stepped over, not compared. */
  function PyParse(s: ByteString, offset: nat): (r: Option<(PyValue, nat)>)
    ensures r.Some? ==> offset < |s| && offset < r.value.1
    decreases |s| - offset, 0, 0
  {
    if offset >= |s| then None
    else
      var pos := FindChar(s, '>', offset);
      if pos == |s| then None
      else
        var tag := Slice(s, offset + 1, pos);
        match PyKindOf(tag)
        case PyIntTag => PyParseInt(s, pos + 1)
        case PyStringTag => PyParseString(s, pos + 1, SizeOf(tag, 7))
        case PyBinaryTag => PyParseBinary(s, pos + 1, SizeOf(tag, 7))
        case PyListTag =>
          (match SizeOf(tag, 5)
           case None => None
           case Some(n) =>
             match PyParseItems(s, pos + 1, n)
             case None => None
             case Some((items, k)) => Some((PyList(items), k + |"</list>"|)))
        case PyUnknownTag => None
  }

  function PyParseInt(s: ByteString, j: nat): (r: Option<(PyValue, nat)>)
    ensures r.Some? ==> j <= r.value.1
  {
    match Find(s, "</int>", j)
    case None => None
    case Some(pos) =>
      match PyIntOf(Slice(s, j, pos))
      case None => None
      case Some(n) => Some((PyInt(n), pos + |"</int>"|))
  }

  function PyParseString(s: ByteString, j: nat, size: Option<nat>): (r: Option<(PyValue, nat)>)
    ensures r.Some? ==> j <= r.value.1
  {
    match size
    case None => None
    case Some(n) => Some((PyStr(Slice(s, j, j + n)), j + n + |"</string>"|))
  }

  function PyParseBinary(s: ByteString, j: nat, size: Option<nat>): (r: Option<(PyValue, nat)>)
    ensures r.Some? ==> j <= r.value.1
  {
    match size
    case None => None
    case Some(n) =>
      match PyHex(s, j, n)
      case None => None
      case Some(t) => Some((PyStr(t), j + 2 * n + |"</binary>"|))
  }

  function PyParseItems(s: ByteString, offset: nat, n: nat): (r: Option<(seq<PyValue>, nat)>)
    ensures r.Some? ==> |r.value.0| == n && offset <= r.value.1
    decreases |s| - offset, 1, n
  {
    if n == 0 then Some(([], offset))
    else match PyParse(s, offset)
         case None => None
         case Some((v, j)) =>
           match PyParseItems(s, j, n - 1)
           case None => None
           case Some((rest, k)) => Some(([v] + rest, k))
  }

  /** The loop of the binary case. */
  method ScanBinary(s: ByteString, offset: nat, n: nat) returns (r: Option<ByteString>)
    ensures r == PyHex(s, offset, n)
  {
    hide PyHex;
    var l: ByteString := [];
    var o := offset;
    HexJoined(l, PyHex(s, offset, n));
    for k := 0 to n
      invariant |l| == k && o == offset + 2 * k
      invariant PyHex(s, offset, n) == Joined(l, PyHex(s, o, n - k))
    {
      PyHexStep(s, o, n - k);
      if o + 2 > |s| {
        return None;
      }
      var code := CharToHex(s[o]) * 16 + CharToHex(s[o + 1]);
      if code < 0 {
        return None;
      }
      JoinedJoined(l, [code as char], PyHex(s, o + 2, n - k - 1));
      l := l + [code as char];
      o := o + 2;
    }
    PyHexStep(s, o, 0);
    assert l + [] == l;
    return Some(l);
  }

  /** What the loop has collected, before what is still to be read. */
  function Joined(l: ByteString, r: Option<ByteString>): Option<ByteString> {
    if r == None then None else Some(l + r.value)
  }

  lemma HexJoined(l: ByteString, r: Option<ByteString>)
    requires l == []
    ensures Joined(l, r) == r
  {
    assert r.Some? ==> l + r.value == r.value;
  }

  lemma JoinedJoined(l: ByteString, m: ByteString, r: Option<ByteString>)
    ensures Joined(l, Joined(m, r)) == Joined(l + m, r)
  {
    assert r.Some? ==> l + (m + r.value) == l + m + r.value;
  }

  lemma PyHexStep(s: string, i: nat, n: nat)
    ensures n == 0 ==> PyHex(s, i, n) == Some([])
    ensures n > 0 && i + 2 > |s| ==> PyHex(s, i, n) == None
    ensures n > 0 && i + 2 <= |s| ==> var code := CharToHex(s[i]) * 16 + CharToHex(s[i + 1]);
      PyHex(s, i, n) == if code < 0 then None else Joined([code as char], PyHex(s, i + 2, n - 1))
  {
  }

  /** `do_string_to_vertex(s, offset)`. */
  method DoStringToVertex(s: ByteString, offset: nat) returns (r: Option<(PyValue, nat)>)
    ensures r == PyParse(s, offset)
    decreases |s| - offset, 0, 0
  {
    hide PyKindOf, SizeOf, Slice, PyHex, PyParseItems;
    if offset >= |s| {
      return None;
    }
    var pos := FindChar(s, '>', offset);
    if pos == |s| {
      return None;
    }
    var tag := Slice(s, offset + 1, pos);
    var kind := PyKindOf(tag);
    match kind
    case PyIntTag =>
      r := PyParseInt(s, pos + 1);
    case PyStringTag =>
      r := PyParseString(s, pos + 1, SizeOf(tag, 7));
    case PyBinaryTag =>
      var size := SizeOf(tag, 7);
      if size == None {
        return None;
      }
      var l := ScanBinary(s, pos + 1, size.value);
      r := if l == None then None else Some((PyStr(l.value), pos + 1 + 2 * size.value + |"</binary>"|));
    case PyListTag =>
      var size := SizeOf(tag, 5);
      if size == None {
        return None;
      }
      var items := ScanItems(s, pos + 1, size.value);
      r := if items == None then None else Some((PyList(items.value.0), items.value.1 + |"</list>"|));
    case PyUnknownTag =>
      r := None;
  }

  /** The loop of the list case. */
  method ScanItems(s: ByteString, offset: nat, n: nat) returns (r: Option<(seq<PyValue>, nat)>)
    ensures r == PyParseItems(s, offset, n)
    decreases |s| - offset, 1, n
  {
    hide PyParse;
    var v: seq<PyValue> := [];
    var o := offset;
    PrependAssociates(v, v, PyParseItems(s, o, n));
    for k := 0 to n
      invariant offset <= o && (if k == 0 then o == offset else offset < |s|)
      invariant PyParseItems(s, offset, n) == Prepend(v, PyParseItems(s, o, n - k))
    {
      var w := DoStringToVertex(s, o);
      if w == None {
        return None;
      }
      PrependAssociates(v, [w.value.0], PyParseItems(s, w.value.1, n - k - 1));
      v := v + [w.value.0];
      o := w.value.1;
    }
    assert v + [] == v;
    return Some((v, o));
  }

  // Reading back what either port printed.

  lemma StripNumeral(n: int)
    ensures Strip(IntToString(n)) == IntToString(n)
    ensures PyIntOf(IntToString(n)) == Some(n)
  {
    hide NatToString, DigitsValue, Strip;
    var magnitude := if n < 0 then -n else n;
    var digits, t := NatToString(magnitude), IntToString(n);
    assert IsDigit(digits[|digits| - 1]) && IsDigit(digits[0]);
    assert t[|t| - 1] == digits[|digits| - 1];
    StripNothing(t);
    if n < 0 {
      assert t[1..] == digits;
    }
    DigitsOfNat(magnitude);
  }

  lemma StripNothing(s: string)
    requires s != [] && !IsSpace(s[0]) && !IsSpace(s[|s| - 1])
    ensures Strip(s) == s
  {
  }

  lemma FindAt(s: string, i: nat, t: string, tail: string)
    requires At(s, i, t) && At(s, i + |t|, tail) && |tail| > 0
    requires tail[0] !in t
    ensures Find(s, tail, i) == Some(i + |t|)
    decreases |t|
  {
    hide At;
    AtFits(s, i + |t|, tail);
    if t != [] {
      AtStep(s, i, t);
      NotHere(s, i, t, tail);
      FindAt(s, i + 1, t[1..], tail);
    }
  }

  lemma AtFits(s: string, i: nat, t: string)
    requires At(s, i, t)
    ensures i + |t| <= |s|
  {
  }

  lemma AtStep(s: string, i: nat, t: string)
    requires At(s, i, t) && t != []
    ensures At(s, i + 1, t[1..])
  {
    AtConcat(s, i, [t[0]], t[1..]);
    assert [t[0]] + t[1..] == t;
  }

  /** A text does not start where its first character does not stand. */
  lemma NotHere(s: string, i: nat, t: string, tail: string)
    requires At(s, i, t) && t != [] && tail != [] && tail[0] !in t
    ensures !At(s, i, tail)
  {
    AtChar(s, i, t, 0);
    assert t[0] in t;
  }

  lemma TagAt(s: ByteString, i: nat, tag: string)
    requires At(s, i, "<" + tag + ">") && '>' !in tag
    ensures i < |s| && FindChar(s, '>', i) == i + |tag| + 1 < |s|
    ensures Slice(s, i + 1, i + |tag| + 1) == tag
  {
    assert "<" + tag + ">" == ("<" + tag) + ['>'];
    assert '>' !in "<" + tag;
    FindCharAt(s, '>', i, "<" + tag);
    AtConcat(s, i, "<" + tag, ">");
    AtConcat(s, i, "<", tag);
  }

  lemma SizedTagAt(s: ByteString, i: nat, name: string, size: nat)
    requires At(s, i, Tag(name, size)) && '>' !in name
    ensures i < |s| && FindChar(s, '>', i) == i + |Tag(name, size)| - 1 < |s|
    ensures Slice(s, i + 1, i + |Tag(name, size)| - 1) == SizedName(name, size)
    ensures |SizedName(name, size)| > |name| && SizeOf(SizedName(name, size), |name| + 1) == Some(size)
  {
    IntToStringChars(size, '>');
    TagAt(s, i, SizedName(name, size));
    assert SizedName(name, size)[|name| + 1..] == NatToString(size) == IntToString(size);
    StripNumeral(size);
  }

  lemma PyKindOfSized(size: nat)
    ensures PyKindOf(SizedName("string", size)) == PyStringTag
    ensures PyKindOf(SizedName("binary", size)) == PyBinaryTag
    ensures PyKindOf(SizedName("list", size)) == PyListTag
  {
    var d := NatToString(size);
    assert ("string" + " " + d)[0] == 's' && ("string" + " " + d)[..7] == "string ";
    assert ("binary" + " " + d)[0] == 'b' && ("binary" + " " + d)[..7] == "binary ";
    assert ("list" + " " + d)[0] == 'l' && ("list" + " " + d)[..5] == "list ";
  }

  lemma PyParsePrintedInt(s: ByteString, i: nat, n: int)
    requires At(s, i, Print(VInteger(n)))
    ensures PyParse(s, i) == Some((PyInt(n), i + |Print(VInteger(n))|))
  {
    hide Strip, PyIntOf, Find;
    SplitElement(s, i, "<int>", IntToString(n), "</int>");
    assert "<int>" == "<" + "int" + ">";
    TagAt(s, i, "int");
    IntToStringChars(n, '<');
    FindAt(s, i + 5, IntToString(n), "</int>");
    StripNumeral(n);
  }

  lemma PyParsePrintedString(s: ByteString, i: nat, t: string)
    requires At(s, i, Print(VString(t)))
    ensures FromWire(VString(t)).Some?
    ensures PyParse(s, i) == Some((FromWire(VString(t)).value, i + |Print(VString(t))|))
  {
    hide PyKindOf, SizeOf, SizedName, Tag, At, FindChar, Slice, PyParseInt, PyParseBinary, PyParseItems;
    var open := Tag("string", |t|);
    SplitElement(s, i, open, t, "</string>");
    SizedTagAt(s, i, "string", |t|);
    PyKindOfSized(|t|);
    SliceAt(s, i + |open|, t);
  }

  lemma SliceAt(s: ByteString, j: nat, t: string)
    requires At(s, j, t)
    ensures Slice(s, j, j + |t|) == t && forall k :: 0 <= k < |t| ==> t[k] < 256 as char
  {
    forall k | 0 <= k < |t| ensures t[k] < 256 as char {
      AtChar(s, j, t, k);
    }
  }

  lemma {:induction false} PyHexAt(s: ByteString, i: nat, buf: seq<Byte>)
    requires At(s, i, HexBytes(buf))
    ensures PyHex(s, i, |buf|) == Some(ByteChars(buf))
    decreases |buf|
  {
    hide CharToHex, HexToChar;
    if buf != [] {
      var pair := [HexToChar(buf[0] / 16), HexToChar(buf[0] % 16)];
      AtConcat(s, i, pair, HexBytes(buf[1..]));
      AtChar(s, i, pair, 0);
      AtChar(s, i, pair, 1);
      HexRoundTrip(buf[0] / 16);
      HexRoundTrip(buf[0] % 16);
      PyHexAt(s, i + 2, buf[1..]);
      assert CharToHex(s[i]) * 16 + CharToHex(s[i + 1]) == buf[0];
    }
  }

  lemma PyParsePrintedBinary(s: ByteString, i: nat, buf: seq<Byte>)
    requires At(s, i, Print(VBinary(buf)))
    ensures PyParse(s, i) == Some((PyStr(ByteChars(buf)), i + |Print(VBinary(buf))|))
  {
    hide PyKindOf, SizeOf, SizedName, PyHex, HexBytes, ByteChars, Tag, At, FindChar, Slice, PyParseInt,
      PyParseString, PyParseItems;
    var open := Tag("binary", |buf|);
    SplitElement(s, i, open, HexBytes(buf), "</binary>");
    SizedTagAt(s, i, "binary", |buf|);
    PyKindOfSized(|buf|);
    PyHexAt(s, i + |open|, buf);
  }

  lemma PyParseList(s: ByteString, i: nat, size: nat, r: Option<(seq<PyValue>, nat)>)
    requires At(s, i, Tag("list", size))
    requires PyParseItems(s, i + |Tag("list", size)|, size) == r
    ensures PyParse(s, i) == match r case None => None case Some((items, k)) => Some((PyList(items), k + 7))
  {
    hide PyKindOf, SizeOf, SizedName, PyParseItems, Tag, At, FindChar, Slice, PyParseString, PyParseBinary,
      PyParseInt;
    SizedTagAt(s, i, "list", size);
    PyKindOfSized(size);
  }

  /** Python reads whatever either port printed, wherever it stands in a byte string. */
  lemma {:induction false} PyParsePrinted(s: ByteString, i: nat, v: Value)
    requires At(s, i, Print(v))
    ensures FromWire(v).Some?
    ensures PyParse(s, i) == Some((FromWire(v).value, i + |Print(v)|))
    decreases v, 0
  {
    hide PyParse, PrintAll, PyParseItems, Tag, At, IntToString, HexBytes;
    match v
    case VInteger(n) => PyParsePrintedInt(s, i, n);
    case VString(t) => PyParsePrintedString(s, i, t);
    case VBinary(buf) => PyParsePrintedBinary(s, i, buf);
    case VList(items) =>
      var open := Tag("list", |items|);
      SplitElement(s, i, open, PrintAll(items), "</list>");
      PyParsePrintedItems(s, i + |open|, items);
      PyParseList(s, i, |items|, PyParseItems(s, i + |open|, |items|));
  }

  lemma {:induction false} PyParsePrintedItems(s: ByteString, i: nat, items: seq<Value>)
    requires At(s, i, PrintAll(items))
    ensures FromWireAll(items).Some?
    ensures PyParseItems(s, i, |items|) == Some((FromWireAll(items).value, i + |PrintAll(items)|))
    decreases items, 1
  {
    hide PyParse, Print;
    if items != [] {
      AtConcat(s, i, Print(items[0]), PrintAll(items[1..]));
      PyParsePrinted(s, i, items[0]);
      PyParsePrintedItems(s, i + |Print(items[0])|, items[1..]);
    }
  }

  lemma {:induction false} FromToWire(p: PyValue)
    ensures FromWire(ToWire(p)) == Some(p)
    decreases p, 0
  {
    match p
    case PyInt(n) =>
    case PyStr(s) => ByteCharsOfBytes(s);
    case PyList(items) => FromToWireAll(items);
  }

  lemma {:induction false} FromToWireAll(items: seq<PyValue>)
    ensures FromWireAll(ToWireAll(items)) == Some(items)
    decreases items, 1
  {
    if items != [] {
      FromToWire(items[0]);
      FromToWireAll(items[1..]);
      assert ToWireAll(items)[1..] == ToWireAll(items[1..]);
      assert [items[0]] + items[1..] == items;
    }
  }

  /** A value is read back where it was printed, and reading stops exactly at its end. */
  lemma PyParsePyPrinted(s: ByteString, i: nat, p: PyValue)
    requires Sendable(p) && At(s, i, PyPrint(p))
    ensures PyParse(s, i) == Some((p, i + |PyPrint(p)|))
  {
    hide PyParse, PyPrint, Print, ToWire, FromWire;
    PyPrintIsPrint(p);
    PyParsePrinted(s, i, ToWire(p));
    FromToWire(p);
  }

  /** A list with a long integer anywhere inside is never read back: its size counts an
      element that was not printed. */
  lemma {:induction false} LongListLost(s: ByteString, i: nat, items: seq<PyValue>)
    requires !Sendable(PyList(items)) && At(s, i, PyPrint(PyList(items)))
    ensures PyParse(s, i) == None
    decreases items, 2
  {
    hide PyParse;
    var open := Tag("list", |items|);
    SplitElement(s, i, open, PyPrintAll(items), "</list>");
    LongItemsLost(s, i + |open|, items, |items|);
    PyParseList(s, i, |items|, None);
  }

  lemma {:induction false} LongItemsLost(s: ByteString, i: nat, items: seq<PyValue>, n: nat)
    requires At(s, i, PyPrintAll(items)) && At(s, i + |PyPrintAll(items)|, "</list>")
    requires n >= |items| && (n > |items| || exists q :: q in items && !Sendable(q))
    ensures PyParseItems(s, i, n) == None
    decreases items, 1
  {
    hide PyPrint;
    if items == [] {
      hide PyKindOf;
      assert "</list>" == "<" + "/list" + ">";
      TagAt(s, i, "/list");
      assert PyKindOf("/list") == PyUnknownTag by { LastTag(); }
      assert PyParse(s, i) == None;
    } else {
      var rest := items[1..];
      AtConcat(s, i, PyPrint(items[0]), PyPrintAll(rest));
      LongItemLost(s, i, items, n);
    }
  }

  lemma LastTag()
    ensures PyKindOf("/list") == PyUnknownTag
  {
    assert "/list"[0] == '/' && "list "[0] == 'l';
  }

  lemma {:induction false} LongItemLost(s: ByteString, i: nat, items: seq<PyValue>, n: nat)
    requires items != [] && At(s, i, PyPrint(items[0]))
    requires At(s, i + |PyPrint(items[0])|, PyPrintAll(items[1..]))
    requires At(s, i + |PyPrint(items[0])| + |PyPrintAll(items[1..])|, "</list>")
    requires n >= |items| && (n > |items| || exists q :: q in items && !Sendable(q))
    ensures PyParseItems(s, i, n) == None
    decreases items, 0
  {
    hide PyParse, PyPrintAll, PyPrint, At, Sendable;
    var first, rest := items[0], items[1..];
    if Sendable(first) {
      PyParsePyPrinted(s, i, first);
      assert n - 1 > |rest| || exists q :: q in rest && !Sendable(q);
      LongItemsLost(s, i + |PyPrint(first)|, rest, n - 1);
    } else if first.PyList? {
      LongListLost(s, i, first.items);
    } else {
      LongPrintsNothing(first);
      LongItemsLost(s, i, rest, n);
    }
  }

  lemma LongPrintsNothing(p: PyValue)
    requires !Sendable(p) && !p.PyList?
    ensures PyPrint(p) == []
  {
  }

  ghost predicate Narrow(s: string) {
    forall k :: 0 <= k < |s| ==> s[k] < 256 as char
  }

  lemma NarrowElement(open: string, body: string, close: string)
    requires Narrow(open) && Narrow(body) && Narrow(close)
    ensures Narrow(open + body + close)
  {
  }

  lemma NarrowTag(name: string, size: nat)
    requires Narrow(name)
    ensures Narrow(Tag(name, size))
  {
    assert Narrow(NatToString(size));
  }

  lemma {:induction false} PyPrintBytes(p: PyValue)
    ensures Narrow(PyPrint(p))
    decreases p, 0
  {
    hide Print, Narrow;
    match p
    case PyInt(n) =>
      NarrowInt(n);
    case PyStr(s) =>
      NarrowString(s);
    case PyList(items) =>
      PyPrintAllBytes(items);
      NarrowList(items);
  }

  lemma NarrowList(items: seq<PyValue>)
    requires Narrow(PyPrintAll(items))
    ensures Narrow(PyPrint(PyList(items)))
  {
    hide Tag, PyPrintAll;
    NarrowTag("list", |items|);
    NarrowElement(Tag("list", |items|), PyPrintAll(items), "</list>");
  }

  lemma NarrowInt(n: int)
    ensures Narrow(PyPrint(PyInt(n)))
  {
    assert Narrow(IntToString(n)) && Narrow("<int>") && Narrow("</int>");
    NarrowElement("<int>", IntToString(n), "</int>");
  }

  lemma NarrowString(s: ByteString)
    ensures Narrow(PyPrint(PyStr(s)))
  {
    hide Tag, Narrow, HexBytes;
    if IsPrintable(s) {
      NarrowTag("string", |s|);
      NarrowElement(Tag("string", |s|), s, "</string>");
    } else {
      NarrowTag("binary", |s|);
      HexBytesBytes(Bytes(s));
      NarrowElement(Tag("binary", |s|), HexBytes(Bytes(s)), "</binary>");
    }
  }

  lemma {:induction false} PyPrintAllBytes(items: seq<PyValue>)
    ensures Narrow(PyPrintAll(items))
    decreases items, 1
  {
    hide PyPrint;
    if items != [] {
      PyPrintBytes(items[0]);
      PyPrintAllBytes(items[1..]);
    }
  }

  lemma HexBytesBytes(b: seq<Byte>)
    ensures Narrow(HexBytes(b))
  {
  }

  /** `string_to_vertex(vertex_to_string(v)) == v` exactly for the values without long
      integers. */
  lemma PyRoundTrip(p: PyValue, s: ByteString)
    requires s == PyPrint(p)
    ensures PyParse(s, 0) == Some((p, |s|)) <==> Sendable(p)
  {
    hide PyParse, PyPrintAll, Print, ToWire, Tag;
    assert At(s, 0, s);
    match p
    case PyInt(n) =>
      if Sendable(p) {
        PyParsePyPrinted(s, 0, p);
      } else {
        NothingToParse(s);
      }
    case PyStr(_) =>
      PyParsePyPrinted(s, 0, p);
    case PyList(items) =>
      if Sendable(p) {
        PyParsePyPrinted(s, 0, p);
      } else {
        LongListLost(s, 0, items);
      }
  }

  lemma NothingToParse(s: ByteString)
    requires s == []
    ensures PyParse(s, 0) == None
  {
  }
}
