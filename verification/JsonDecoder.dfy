/** The pure-Python decoder of simplejson (decoder.py, scanner.py), with its whitespace fast
    paths, on unicode text. */
module JsonDecoder {
  import opened Text

  datatype PyJson =
    | PNone
    | PBool(b: bool)
    | PInt(n: int)
    | PFloat(lexeme: string)
    | PConstant(name: string)
    | PStr(s: string)
    | PList(items: seq<PyJson>)
    | PDict(pairs: map<string, PyJson>)

  /** The ValueErrors of the decoder, each with the position it reports, and StopIteration. */
  datatype Error =
    | StopIteration
    | NoObject
    | UnterminatedString(pos: int)
    | InvalidControl(pos: int)
    | InvalidEscape(pos: int)
    | InvalidUnicodeEscape(pos: int)
    | ExpectingPropertyName(pos: int)
    | ExpectingColon(pos: int)
    | ExpectingObject(pos: int)
    | ExpectingComma(pos: int)
    | ExtraData(pos: int)

  datatype Result<+T> = Ok(value: T, end: nat) | Err(error: Error)

  // Characters.

  predicate IsWs(c: char) {
    c == ' ' || c == 9 as char || c == 10 as char || c == 13 as char
  }

  /** `_w(s, i).end()`; a position past the end is clamped. */
  function WsEnd(s: string, i: nat): (j: nat)
    ensures j <= |s| && (i <= |s| ==> i <= j)
    ensures j < |s| ==> !IsWs(s[j])
    decreases |s| - i
  {
    if i >= |s| then |s| else if IsWs(s[i]) then WsEnd(s, i + 1) else i
  }

  predicate EndsChunk(c: char) {
    c == '"' || c == '\\' || c <= 31 as char
  }

  /** The terminator that STRINGCHUNK finds from `i`, or the end. */
  function ChunkEnd(s: string, i: nat): (j: nat)
    requires i <= |s|
    ensures i <= j <= |s|
    ensures forall k :: i <= k < j ==> !EndsChunk(s[k])
    ensures j < |s| ==> EndsChunk(s[j])
    decreases |s| - i
  {
    if i < |s| && !EndsChunk(s[i]) then ChunkEnd(s, i + 1) else i
  }

  /** The table BACKSLASH. */
  function Backslash(c: char): Option<char> {
    if c == '"' then Some('"')
    else if c == '\\' then Some('\\')
    else if c == '/' then Some('/')
    else if c == 'b' then Some(8 as char)
    else if c == 'f' then Some(12 as char)
    else if c == 'n' then Some(10 as char)
    else if c == 'r' then Some(13 as char)
    else if c == 't' then Some(9 as char)
    else None
  }

  function HexDigitValue(c: char): (r: Option<nat>)
    ensures r.Some? ==> r.value < 16
  {
    if '0' <= c <= '9' then Some(c as int - '0' as int)
    else if 'a' <= c <= 'f' then Some(c as int - 'a' as int + 10)
    else if 'A' <= c <= 'F' then Some(c as int - 'A' as int + 10)
    else None
  }

  /** `int(esc, 16)` for four hexadecimal digits at `i`. */
  function Hex4(s: string, i: nat): (r: Option<nat>)
    ensures r.Some? ==> r.value < 0x10000 && i + 4 <= |s|
  {
    if i + 4 > |s| then None
    else match (HexDigitValue(s[i]), HexDigitValue(s[i + 1]), HexDigitValue(s[i + 2]), HexDigitValue(s[i + 3]))
         case (Some(a), Some(b), Some(c), Some(d)) => Some(((a * 16 + b) * 16 + c) * 16 + d)
         case _ => None
  }

  /** The character of a \u escape whose digits start at `i`, and the position after it;
      a high surrogate needs a second escape. A lone surrogate is no character here. */
  function UnicodeEscape(s: string, i: nat): (r: Option<(char, nat)>)
    ensures r.Some? ==> i < r.value.1 <= |s|
  {
    match Hex4(s, i)
    case None => None
    case Some(uni) =>
      if 0xd800 <= uni <= 0xdbff then
        if !At(s, i + 4, "\\u") then None
        else match Hex4(s, i + 6)
             case None => None
             case Some(uni2) =>
               if 0xdc00 <= uni2 <= 0xdfff
               then Some(((0x10000 + (uni - 0xd800) * 0x400 + (uni2 - 0xdc00)) as char, i + 10))
               else None
      else if uni < 0xd800 || uni >= 0xe000 then Some((uni as char, i + 4))
      else None
  }

  // Strings.

  /** The loop of `py_scanstring` from `i`, where `acc` joins the chunks so far and the
      string began at `begin`. */
  function ScanString(s: string, i: nat, begin: int, acc: string): (r: Result<string>)
    requires i <= |s|
    ensures r.Ok? ==> i < r.end <= |s|
    decreases |s| - i, 1
  {
    var j := ChunkEnd(s, i);
    Terminated(s, j, begin, acc + s[i..j])
  }

  /** What it does at the terminator of a chunk. */
  function Terminated(s: string, j: nat, begin: int, text: string): (r: Result<string>)
    requires j <= |s| && (j < |s| ==> EndsChunk(s[j]))
    ensures r.Ok? ==> j < r.end <= |s|
    decreases |s| - j, 0
  {
    if j == |s| then Err(UnterminatedString(begin))
    else if s[j] == '"' then Ok(text, j + 1)
    else if s[j] != '\\' then Err(InvalidControl(j + 1))
    else if j + 1 == |s| then Err(UnterminatedString(begin))
    else if s[j + 1] != 'u' then
      match Backslash(s[j + 1])
      case None => Err(InvalidEscape(j + 1))
      case Some(m) => ScanString(s, j + 2, begin, text + [m])
    else
      match UnicodeEscape(s, j + 2)
      case None => Err(InvalidUnicodeEscape(j + 1))
      case Some((m, next)) => ScanString(s, next, begin, text + [m])
  }

  // Numbers.

  /** The integer part that NUMBER_RE matches at `i`. */
  function IntegerEnd(s: string, i: nat): (r: Option<nat>)
    ensures r.Some? ==> i < r.value <= |s|
  {
    var j := if i < |s| && s[i] == '-' then i + 1 else i;
    if j < |s| && s[j] == '0' then Some(j + 1)
    else if j < |s| && IsDigit(s[j]) then Some(DigitRun(s, j))
    else None
  }

  function FractionEnd(s: string, i: nat): (j: nat)
    requires i <= |s|
    ensures i <= j <= |s|
  {
    if i < |s| && s[i] == '.' && DigitRun(s, i + 1) > i + 1 then DigitRun(s, i + 1) else i
  }

  function ExponentEnd(s: string, i: nat): (j: nat)
    requires i <= |s|
    ensures i <= j <= |s|
  {
    if i < |s| && (s[i] == 'e' || s[i] == 'E') then
      var k := if i + 1 < |s| && (s[i + 1] == '-' || s[i + 1] == '+') then i + 2 else i + 1;
      if DigitRun(s, k) > k then DigitRun(s, k) else i
    else i
  }

  /** `int(t)` of an integer that NUMBER_RE matched. */
  function IntegerValue(t: string): int {
    if t != [] && t[0] == '-' then (if AllDigits(t[1..]) then -(DigitsValue(t[1..]) as int) else 0)
    else if AllDigits(t) then DigitsValue(t) else 0
  }

  // Values.

  /** `_scan_once`. */
  function ScanOnce(s: string, i: nat): (r: Result<PyJson>)
    ensures r.Ok? ==> i < r.end <= |s|
    decreases |s| - i, 1
  {
    if i >= |s| then Err(StopIteration)
    else if s[i] == '"' then
      match ScanString(s, i + 1, i, [])
      case Ok(t, end) => Ok(PStr(t), end)
      case Err(e) => Err(e)
    else if s[i] == '{' then ScanObject(s, i + 1)
    else if s[i] == '[' then ScanArray(s, i + 1)
    else if At(s, i, "null") then Ok(PNone, i + 4)
    else if At(s, i, "true") then Ok(PBool(true), i + 4)
    else if At(s, i, "false") then Ok(PBool(false), i + 5)
    else ScanNumber(s, i)
  }

  function ScanNumber(s: string, i: nat): (r: Result<PyJson>)
    requires i < |s|
    ensures r.Ok? ==> i < r.end <= |s|
  {
    match IntegerEnd(s, i)
    case Some(j) =>
      var end := ExponentEnd(s, FractionEnd(s, j));
      Ok(if end > j then PFloat(s[i..end]) else PInt(IntegerValue(s[i..j])), end)
    case None =>
      if At(s, i, "NaN") then Ok(PConstant("NaN"), i + 3)
      else if At(s, i, "Infinity") then Ok(PConstant("Infinity"), i + 8)
      else if At(s, i, "-Infinity") then Ok(PConstant("-Infinity"), i + 9)
      else Err(StopIteration)
  }

  function Expecting(e: Error, pos: nat): Error {
    if e == StopIteration then ExpectingObject(pos) else e
  }

  /** `JSONArray` behind the '['. */
  function ScanArray(s: string, i: nat): (r: Result<PyJson>)
    requires i <= |s|
    ensures r.Ok? ==> i < r.end <= |s|
    decreases |s| - i, 3
  {
    var end := WsEnd(s, i);
    if end < |s| && s[end] == ']' then Ok(PList([]), end + 1) else ArrayItems(s, end, [])
  }

  /** Its loop, with a value expected at `i`. */
  function ArrayItems(s: string, i: nat, values: seq<PyJson>): (r: Result<PyJson>)
    requires i <= |s|
    ensures r.Ok? ==> i < r.end <= |s|
    decreases |s| - i, 2
  {
    match ScanOnce(s, i)
    case Err(e) => Err(Expecting(e, i))
    case Ok(v, j) =>
      var end := WsEnd(s, j);
      if end == |s| then Err(ExpectingComma(end + 1))
      else if s[end] == ']' then Ok(PList(values + [v]), end + 1)
      else if s[end] != ',' then Err(ExpectingComma(end + 1))
      else ArrayItems(s, WsEnd(s, end + 1), values + [v])
  }

  /** `JSONObject` behind the '{'. */
  function ScanObject(s: string, i: nat): (r: Result<PyJson>)
    requires i <= |s|
    ensures r.Ok? ==> i < r.end <= |s|
    decreases |s| - i, 4
  {
    var end := if i < |s| && s[i] == '"' then i else WsEnd(s, i);
    if end < |s| && s[end] == '}' then Ok(PDict(map[]), end + 1)
    else if end == |s| || s[end] != '"' then Err(ExpectingPropertyName(end))
    else ObjectPairs(s, end + 1, map[])
  }

  /** One pair, behind the quotation mark that opens its key. */
  function ScanPair(s: string, i: nat): (r: Result<(string, PyJson)>)
    requires i <= |s|
    ensures r.Ok? ==> i < r.end <= |s|
    decreases |s| - i, 2
  {
    match ScanString(s, i, i - 1, [])
    case Err(e) => Err(e)
    case Ok(key, j) =>
      var colon := if j < |s| && s[j] == ':' then j else WsEnd(s, j);
      if colon == |s| || s[colon] != ':' then Err(ExpectingColon(colon))
      else
        var start := WsEnd(s, colon + 1);
        match ScanOnce(s, start)
        case Err(e) => Err(Expecting(e, start))
        case Ok(v, k) => Ok((key, v), k)
  }

  /** The loop of `JSONObject`, at a pair. */
  function ObjectPairs(s: string, i: nat, pairs: map<string, PyJson>): (r: Result<PyJson>)
    requires i <= |s|
    ensures r.Ok? ==> i < r.end <= |s|
    decreases |s| - i, 3
  {
    match ScanPair(s, i)
    case Err(e) => Err(e)
    case Ok((key, v), k) => NextPair(s, k, pairs[key := v])
  }

  /** What follows a pair: the end, or a comma and the next key. */
  function NextPair(s: string, k: nat, pairs: map<string, PyJson>): (r: Result<PyJson>)
    requires k <= |s|
    ensures r.Ok? ==> k < r.end <= |s|
    decreases |s| - k, 4
  {
    var end := WsEnd(s, k);
    if end == |s| then Err(ExpectingComma(end))
    else if s[end] == '}' then Ok(PDict(pairs), end + 1)
    else if s[end] != ',' then Err(ExpectingComma(end))
    else
      var quote := WsEnd(s, end + 1);
      if quote == |s| || s[quote] != '"' then Err(ExpectingPropertyName(quote))
      else ObjectPairs(s, quote + 1, pairs)
  }

  /** `decode`: one value, with blanks around it and nothing else. */
  function Decode(s: string): Result<PyJson> {
    match ScanOnce(s, WsEnd(s, 0))
    case Err(e) => Err(if e == StopIteration then NoObject else e)
    case Ok(v, j) =>
      var end := WsEnd(s, j);
      if end != |s| then Err(ExtraData(end)) else Ok(v, end)
  }
}
