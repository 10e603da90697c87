/** The decoder's loops as they are written, proved against the functions of JsonDecoder. */
module JsonLoops {
  import opened Text
  import opened JsonDecoder

  /** The slice s[i:i+1]. */
  function CharAt(s: string, i: nat): (c: string)
    ensures |c| <= 1
  {
    if i < |s| then [s[i]] else []
  }

  /** `c in _ws` for a slice of at most one character; the empty string is in every string. */
  predicate InWs(c: string) {
    c == [] || IsWs(c[0])
  }

  /** The fast path after ':' and ',': two looks before the regular expression. */
  method SkipFast(s: string, i: nat) returns (end: nat)
    requires i <= |s|
    ensures end == WsEnd(s, i)
  {
    end := i;
    if end < |s| && IsWs(s[end]) {
      end := end + 1;
      if end < |s| && IsWs(s[end]) {
        end := WsEnd(s, end + 1);
      }
    }
  }

  /** The next character that is not blank, and where it stands: the look behind a value. */
  method NextChar(s: string, i: nat) returns (nextchar: string, end: nat)
    requires i <= |s|
    ensures end == WsEnd(s, i) && nextchar == CharAt(s, end)
  {
    nextchar, end := CharAt(s, i), i;
    if InWs(nextchar) {
      end := WsEnd(s, i + 1);
      nextchar := CharAt(s, end);
    }
  }

  /** `py_scanstring`. */
  method PyScanString(s: string, start: nat) returns (r: Result<string>)
    requires start <= |s|
    ensures r == ScanString(s, start, start - 1, [])
  {
    var chunks, end, begin := [], start, start - 1;
    while true
      invariant start <= end <= |s|
      invariant ScanString(s, end, begin, Concat(chunks)) == ScanString(s, start, begin, [])
      decreases |s| - end
    {
      var stop := ChunkEnd(s, end);
      if stop == |s| {
        return Err(UnterminatedString(begin));
      }
      var content, terminator := s[end..stop], s[stop];
      ghost var joined := Concat(chunks) + content;
      end := stop + 1;
      if content != [] {
        chunks := Appended(chunks, content);
      }
      assert Concat(chunks) == joined;
      if terminator == '"' {
        break;
      } else if terminator != '\\' {
        return Err(InvalidControl(end));
      }
      if end == |s| {
        return Err(UnterminatedString(begin));
      }
      var escape := Escaped(s, end, begin, joined);
      if escape.Err? {
        return Err(escape.error);
      }
      chunks := Appended(chunks, [escape.value]);
      end := escape.end;
    }
    return Ok(Concat(chunks), end);
  }

  /** The character behind a backslash, in the loop of `py_scanstring`. */
  method Escaped(s: string, i: nat, ghost begin: int, ghost text: string) returns (r: Result<char>)
    requires 0 < i < |s| && s[i - 1] == '\\'
    ensures match r
      case Ok(m, end) => i < end <= |s| && Terminated(s, i - 1, begin, text) == ScanString(s, end, begin, text + [m])
      case Err(e) => Terminated(s, i - 1, begin, text) == Err(e)
  {
    hide ScanString;
    if s[i] != 'u' {
      var m := Backslash(s[i]);
      if m == None {
        return Err(InvalidEscape(i));
      }
      return Ok(m.value, i + 1);
    } else {
      var escape := UnicodeEscape(s, i + 1);
      if escape == None {
        return Err(InvalidUnicodeEscape(i));
      }
      return Ok(escape.value.0, escape.value.1);
    }
  }

  function Appended(chunks: seq<string>, chunk: string): (r: seq<string>)
    ensures Concat(r) == Concat(chunks) + chunk
  {
    ConcatAppend(chunks, [chunk]);
    ConcatSingle(chunk);
    chunks + [chunk]
  }

  /** `_scan_once`. */
  method ScanOnceAt(s: string, i: nat) returns (r: Result<PyJson>)
    ensures r == ScanOnce(s, i)
    decreases |s| - i, 1
  {
    if i >= |s| {
      return Err(StopIteration);
    }
    if s[i] == '"' {
      var t := PyScanString(s, i + 1);
      return if t.Ok? then Ok(PStr(t.value), t.end) else Err(t.error);
    } else if s[i] == '{' {
      r := JSONObject(s, i + 1);
    } else if s[i] == '[' {
      r := JSONArray(s, i + 1);
    } else if s[i] == 'n' && At(s, i, "null") {
      return Ok(PNone, i + 4);
    } else if s[i] == 't' && At(s, i, "true") {
      return Ok(PBool(true), i + 4);
    } else if s[i] == 'f' && At(s, i, "false") {
      return Ok(PBool(false), i + 5);
    } else {
      LiteralHeads(s, i);
      var integer := IntegerEnd(s, i);
      if integer.Some? {
        var frac := FractionEnd(s, integer.value);
        var exp := ExponentEnd(s, frac);
        if frac > integer.value || exp > frac {
          return Ok(PFloat(s[i..exp]), exp);
        }
        return Ok(PInt(IntegerValue(s[i..exp])), exp);
      } else if s[i] == 'N' && At(s, i, "NaN") {
        return Ok(PConstant("NaN"), i + 3);
      } else if s[i] == 'I' && At(s, i, "Infinity") {
        return Ok(PConstant("Infinity"), i + 8);
      } else if s[i] == '-' && At(s, i, "-Infinity") {
        return Ok(PConstant("-Infinity"), i + 9);
      }
      return Err(StopIteration);
    }
  }

  /** Looking at the first character of a literal before the literal changes nothing. */
  lemma LiteralHeads(s: string, i: nat)
    requires i < |s|
    ensures At(s, i, "null") ==> s[i] == 'n'
    ensures At(s, i, "true") ==> s[i] == 't'
    ensures At(s, i, "false") ==> s[i] == 'f'
    ensures At(s, i, "NaN") ==> s[i] == 'N'
    ensures At(s, i, "Infinity") ==> s[i] == 'I'
    ensures At(s, i, "-Infinity") ==> s[i] == '-'
  {
    LiteralHead(s, i, "null");
    LiteralHead(s, i, "true");
    LiteralHead(s, i, "false");
    LiteralHead(s, i, "NaN");
    LiteralHead(s, i, "Infinity");
    LiteralHead(s, i, "-Infinity");
  }

  lemma LiteralHead(s: string, i: nat, literal: string)
    requires i < |s| && literal != []
    ensures At(s, i, literal) ==> s[i] == literal[0]
  {
    if At(s, i, literal) {
      AtChar(s, i, literal, 0);
    }
  }

  /** `JSONArray`. */
  method JSONArray(s: string, i: nat) returns (r: Result<PyJson>)
    requires i <= |s|
    ensures r == ScanArray(s, i)
    decreases |s| - i, 2
  {
    hide ScanOnce;
    var values, end := [], i;
    var nextchar: string;
    nextchar, end := NextChar(s, end);
    if nextchar == "]" {
      return Ok(PList(values), end + 1);
    }
    while true
      invariant i <= end <= |s|
      invariant ArrayItems(s, end, values) == ScanArray(s, i)
      decreases |s| - end
    {
      var value := ScanOnceAt(s, end);
      if value.Err? {
        return Err(Expecting(value.error, end));
      }
      end := value.end;
      values := values + [value.value];
      nextchar, end := NextChar(s, end);
      end := end + 1;
      if nextchar == "]" {
        break;
      } else if nextchar != "," {
        return Err(ExpectingComma(end));
      }
      end := SkipFast(s, end);
    }
    return Ok(PList(values), end);
  }

  /** A key, a colon and a value, as in the loop of `JSONObject`. */
  method ObjectPair(s: string, i: nat) returns (r: Result<(string, PyJson)>)
    requires i <= |s|
    ensures r == ScanPair(s, i)
    decreases |s| - i, 2
  {
    hide ScanOnce, ScanString;
    var key := PyScanString(s, i);
    if key.Err? {
      return Err(key.error);
    }
    var end := key.end;
    if CharAt(s, end) != ":" {
      end := WsEnd(s, end);
      if CharAt(s, end) != ":" {
        return Err(ExpectingColon(end));
      }
    }
    end := SkipFast(s, end + 1);
    var value := ScanOnceAt(s, end);
    if value.Err? {
      return Err(Expecting(value.error, end));
    }
    return Ok((key.value, value.value), value.end);
  }

  /** `JSONObject`. */
  method JSONObject(s: string, i: nat) returns (r: Result<PyJson>)
    requires i <= |s|
    ensures r == ScanObject(s, i)
    decreases |s| - i, 3
  {
    hide ScanPair;
    var pairs, end := map[], i;
    var nextchar := CharAt(s, end);
    if nextchar != "\"" {
      if InWs(nextchar) {
        end := WsEnd(s, end);
        nextchar := CharAt(s, end);
      }
      if nextchar == "}" {
        return Ok(PDict(pairs), end + 1);
      } else if nextchar != "\"" {
        return Err(ExpectingPropertyName(end));
      }
    }
    end := end + 1;
    while true
      invariant i < end <= |s|
      invariant ObjectPairs(s, end, pairs) == ScanObject(s, i)
      decreases |s| - end
    {
      var pair := ObjectPair(s, end);
      if pair.Err? {
        return Err(pair.error);
      }
      end := pair.end;
      pairs := pairs[pair.value.0 := pair.value.1];
      nextchar, end := NextChar(s, end);
      end := end + 1;
      if nextchar == "}" {
        break;
      } else if nextchar != "," {
        return Err(ExpectingComma(end - 1));
      }
      end := SkipFast(s, end);
      nextchar := CharAt(s, end);
      end := end + 1;
      if nextchar != "\"" {
        return Err(ExpectingPropertyName(end - 1));
      }
    }
    return Ok(PDict(pairs), end);
  }

  /** `decode` over `raw_decode`. */
  method DecodeText(s: string) returns (r: Result<PyJson>)
    ensures r == Decode(s)
  {
    var obj := ScanOnceAt(s, WsEnd(s, 0));
    if obj.Err? {
      return Err(if obj.error == StopIteration then NoObject else obj.error);
    }
    var end := WsEnd(s, obj.end);
    if end != |s| {
      return Err(ExtraData(end));
    }
    return Ok(obj.value, end);
  }
}
