/** Decoding inverts serialising: simplejson reads what MochiKit prints. */
module JsonRoundTrip {
  import opened Text
  import opened JsonPrinter
  import opened JsonDecoder

  /** The Python value of a JavaScript value. */
  function ToPy(v: JsValue): PyJson
    decreases v, 0
  {
    match v
    case JNull => PNone
    case JBool(b) => PBool(b)
    case JNumber(n) => PInt(n)
    case JString(s) => PStr(s)
    case JArray(items) => PList(ToPyAll(items))
    case JObject(members) => PDict(AddAll(map[], members))
  }

  function ToPyAll(items: seq<JsValue>): (r: seq<PyJson>)
    ensures |r| == |items|
    ensures forall k :: 0 <= k < |items| ==> r[k] == ToPy(items[k])
    decreases items, 1
  {
    if items == [] then [] else [ToPy(items[0])] + ToPyAll(items[1..])
  }

  function AddAll(pairs: map<string, PyJson>, members: seq<Member>): map<string, PyJson>
    decreases members, 1
  {
    if members == [] then pairs else AddAll(pairs[members[0].key := ToPy(members[0].value)], members[1..])
  }

  // Strings.

  lemma PlainStep(s: string, i: nat, begin: int, acc: string)
    requires i < |s| && !EndsChunk(s[i])
    ensures ScanString(s, i, begin, acc) == ScanString(s, i + 1, begin, acc + [s[i]])
  {
    hide Terminated;
    var j := ChunkEnd(s, i);
    assert acc + s[i..j] == acc + [s[i]] + s[i + 1..j];
  }

  lemma ShortEscapeStep(s: string, i: nat, begin: int, acc: string, m: char)
    requires i + 1 < |s| && s[i] == '\\' && s[i + 1] != 'u' && Backslash(s[i + 1]) == Some(m)
    ensures ScanString(s, i, begin, acc) == ScanString(s, i + 2, begin, acc + [m])
  {
    assert acc + s[i..i] == acc;
  }

  lemma UnicodeEscapeStep(s: string, i: nat, begin: int, acc: string, m: char, end: nat)
    requires i + 1 < |s| && s[i] == '\\' && s[i + 1] == 'u' && UnicodeEscape(s, i + 2) == Some((m, end))
    ensures ScanString(s, i, begin, acc) == ScanString(s, end, begin, acc + [m])
  {
    hide UnicodeEscape;
    assert acc + s[i..i] == acc;
  }

  lemma ControlEscape(s: string, i: nat, c: char)
    requires c <= 31 as char
    requires At(s, i, "\\u00" + [HexUpper(c as int / 16), HexUpper(c as int % 16)])
    ensures i + 1 < |s| && s[i] == '\\' && s[i + 1] == 'u' && UnicodeEscape(s, i + 2) == Some((c, i + 6))
  {
    var t := "\\u00" + [HexUpper(c as int / 16), HexUpper(c as int % 16)];
    forall k | 0 <= k < 6 ensures s[i + k] == t[k] {
      AtChar(s, i, t, k);
    }
    assert s[i + 1] == t[1] && s[i + 2] == t[2] && s[i + 3] == t[3];
    assert HexDigitValue(s[i + 4]) == Some(c as int / 16) && HexDigitValue(s[i + 5]) == Some(c as int % 16);
  }

  /** Every escape the printer writes is read back as the character it stands for. */
  lemma EscapeStep(s: string, i: nat, begin: int, acc: string, c: char)
    requires At(s, i, Escape(c))
    ensures ScanString(s, i, begin, acc) == ScanString(s, i + |Escape(c)|, begin, acc + [c])
  {
    hide ScanString, UnicodeEscape;
    var e := Escape(c);
    AtChar(s, i, e, 0);
    if e == [c] {
      PlainStep(s, i, begin, acc);
    } else {
      AtChar(s, i, e, 1);
      if |e| == 2 {
        ShortEscapeStep(s, i, begin, acc, c);
      } else {
        ControlEscape(s, i, c);
        UnicodeEscapeStep(s, i, begin, acc, c, i + 6);
      }
    }
  }

  /** The scanner reads an escaped text and its closing quotation mark. */
  lemma {:induction false} StringAt(s: string, i: nat, begin: int, acc: string, t: string)
    requires At(s, i, EscapeAll(t) + "\"")
    ensures ScanString(s, i, begin, acc) == Ok(acc + t, i + |EscapeAll(t)| + 1)
    decreases |t|
  {
    hide ScanString, Escape;
    if t == [] {
      AtChar(s, i, "\"", 0);
      EmptyString(s, i, begin, acc);
      AppendAssociates(acc, [], []);
    } else {
      AppendAssociates(Escape(t[0]), EscapeAll(t[1..]), "\"");
      AtConcat(s, i, Escape(t[0]), EscapeAll(t[1..]) + "\"");
      EscapeStep(s, i, begin, acc, t[0]);
      StringAt(s, i + |Escape(t[0])|, begin, acc + [t[0]], t[1..]);
      assert acc + t == acc + [t[0]] + t[1..];
    }
  }

  lemma EmptyString(s: string, i: nat, begin: int, acc: string)
    requires i < |s| && s[i] == '"'
    ensures ScanString(s, i, begin, acc) == Ok(acc, i + 1)
  {
    assert acc + s[i..i] == acc;
  }

  lemma QuotedAt(s: string, i: nat, t: string)
    requires At(s, i, Quote(t))
    ensures |Quote(t)| > 1 && i + |Quote(t)| <= |s| && s[i] == '"'
    ensures ScanString(s, i + 1, i, []) == Ok(t, i + |Quote(t)|)
  {
    hide ScanString, EscapeAll;
    AtConcat(s, i, "\"", EscapeAll(t) + "\"");
    AtChar(s, i, "\"", 0);
    StringAt(s, i + 1, i, [], t);
    AppendAssociates([], [], t);
  }

  // Numbers.

  /** No character at `k` could prolong a number that ends there. */
  predicate Delimited(s: string, k: nat) {
    k < |s| ==> !IsDigit(s[k]) && s[k] != '.' && s[k] != 'e' && s[k] != 'E'
  }

  lemma IntegerValueOfPrinted(n: int)
    ensures IntegerValue(IntToString(n)) == n
  {
    var digits := NatToString(if n < 0 then -n else n);
    DigitsOfNat(if n < 0 then -n else n);
    if n < 0 {
      assert IntToString(n)[1..] == digits;
    }
  }

  lemma DigitsAt(s: string, j: nat, m: nat)
    requires At(s, j, NatToString(m)) && Delimited(s, j + |NatToString(m)|)
    ensures j < |s| && IsDigit(s[j])
    ensures (if s[j] == '0' then j + 1 else DigitRun(s, j)) == j + |NatToString(m)|
  {
    AtChar(s, j, NatToString(m), 0);
    DigitRunAt(s, j, NatToString(m));
  }

  lemma IntegerAt(s: string, i: nat, n: int)
    requires At(s, i, IntToString(n)) && Delimited(s, i + |IntToString(n)|)
    ensures i < |s| && (s[i] == '-' || IsDigit(s[i]))
    ensures IntegerEnd(s, i) == Some(i + |IntToString(n)|)
  {
    hide NatToString, DigitRun, At;
    if n < 0 {
      AtConcat(s, i, "-", NatToString(-n));
      AtWithin(s, i, "-");
      DigitsAt(s, i + 1, -n);
    } else {
      DigitsAt(s, i, n);
    }
  }

  lemma NumberAt(s: string, i: nat, n: int)
    requires At(s, i, IntToString(n)) && Delimited(s, i + |IntToString(n)|)
    ensures ScanOnce(s, i) == Ok(PInt(n), i + |IntToString(n)|)
  {
    hide IntToString, DigitRun, IntegerEnd, IntegerValue, ScanString, ScanObject, ScanArray;
    IntegerAt(s, i, n);
    IntegerValueOfPrinted(n);
    forall t | t in {"null", "true", "false"} ensures !At(s, i, t) {
      if At(s, i, t) {
        AtChar(s, i, t, 0);
      }
    }
    assert "null" in {"null", "true", "false"} && "true" in {"null", "true", "false"} &&
      "false" in {"null", "true", "false"};
    var end := i + |IntToString(n)|;
    assert s[i..end] == IntToString(n);
    assert ScanNumber(s, i) == Ok(PInt(n), end);
  }

  // Values.

  lemma NoBlanks(s: string, i: nat)
    requires i < |s| && !IsWs(s[i])
    ensures WsEnd(s, i) == i
  {
  }

  /** No printed value starts with a blank or a closing bracket. */
  lemma FirstChar(v: JsValue)
    ensures !IsWs(Json(v)[0]) && Json(v)[0] != ']' && Json(v)[0] != '}'
  {
    if v.JNumber? {
      var m: nat := if v.n < 0 then -v.n else v.n;
      assert IsDigit(NatToString(m)[0]);
    }
  }

  lemma KeywordAt(s: string, i: nat, v: JsValue)
    requires (v.JNull? || v.JBool?) && At(s, i, Json(v))
    ensures ScanOnce(s, i) == Ok(ToPy(v), i + |Json(v)|)
  {
    hide ScanString, ScanObject, ScanArray, ScanNumber;
    AtChar(s, i, Json(v), 0);
    forall t | t in {"null", "true", "false"} && t[0] != Json(v)[0] ensures !At(s, i, t) {
      if At(s, i, t) {
        AtChar(s, i, t, 0);
      }
    }
    assert "null" in {"null", "true", "false"} && "true" in {"null", "true", "false"};
  }

  /** A printed value is read back, wherever it stands, and the scanner stops at its end. */
  lemma {:induction false} ValueAt(s: string, i: nat, v: JsValue)
    requires At(s, i, Json(v)) && Delimited(s, i + |Json(v)|)
    ensures ScanOnce(s, i) == Ok(ToPy(v), i + |Json(v)|)
    decreases v, 0
  {
    hide ScanString, ScanArray, ScanObject, ScanNumber, IntToString, Quote, At;
    AtWithin(s, i, Json(v));
    match v
    case JNull => KeywordAt(s, i, v);
    case JBool(b) => KeywordAt(s, i, v);
    case JNumber(n) => NumberAt(s, i, n);
    case JString(t) => QuotedAt(s, i, t);
    case JArray(items) =>
      AtConcat(s, i, "[", Join(JsonAll(items)) + "]");
      AtWithin(s, i, "[");
      ArrayAt(s, i + 1, items);
    case JObject(members) =>
      AtConcat(s, i, "{", Join(JsonMembers(members)) + "}");
      AtWithin(s, i, "{");
      ObjectAt(s, i + 1, members);
  }

  lemma AtWithin(s: string, i: nat, t: string)
    requires At(s, i, t)
    ensures i + |t| <= |s| && (t != [] ==> s[i] == t[0])
  {
    if t != [] {
      AtChar(s, i, t, 0);
    }
  }

  lemma JoinStep(first: string, rest: seq<string>, close: string)
    ensures Join([first]) + close == first + close
    ensures rest != [] ==> Join([first] + rest) + close == first + (", " + (Join(rest) + close))
  {
    if rest != [] {
      assert ([first] + rest)[1..] == rest;
      AppendAssociates(first, ", " + Join(rest), close);
      AppendAssociates(", ", Join(rest), close);
    }
  }

  lemma ArrayAt(s: string, i: nat, items: seq<JsValue>)
    requires At(s, i, Join(JsonAll(items)) + "]")
    ensures ScanArray(s, i) == Ok(PList(ToPyAll(items)), i + |Join(JsonAll(items))| + 1)
    decreases items, 3
  {
    hide At, ArrayItems, Json;
    AtWithin(s, i, Join(JsonAll(items)) + "]");
    if items != [] {
      ItemsAt(s, i, items, []);
      AppendAssociates([], [], ToPyAll(items));
    }
  }

  lemma {:induction false} ItemsAt(s: string, i: nat, items: seq<JsValue>, values: seq<PyJson>)
    requires items != [] && At(s, i, Join(JsonAll(items)) + "]")
    ensures i < |s| && !IsWs(s[i]) && s[i] != ']'
    ensures ArrayItems(s, i, values) == Ok(PList(values + ToPyAll(items)), i + |Join(JsonAll(items))| + 1)
    decreases items, 2
  {
    hide At, Json, ToPy, ScanOnce, Join;
    var v, rest := items[0], items[1..];
    var k := i + |Json(v)|;
    JoinStep(Json(v), JsonAll(rest), "]");
    FirstChar(v);
    if rest == [] {
      assert JsonAll(items) == [Json(v)];
      AtConcat(s, i, Json(v), "]");
      AtWithin(s, i, Json(v));
      AtWithin(s, k, "]");
      NoBlanks(s, k);
      ValueAt(s, i, v);
      assert ToPyAll(items) == [ToPy(v)];
    } else {
      AtConcat(s, i, Json(v), ", " + (Join(JsonAll(rest)) + "]"));
      AtConcat(s, k, ", ", Join(JsonAll(rest)) + "]");
      AtWithin(s, i, Json(v));
      CommaBlank(s, k);
      ValueAt(s, i, v);
      ItemsAt(s, k + 2, rest, values + [ToPy(v)]);
      assert WsEnd(s, k + 1) == k + 2;
      AppendAssociates(values, [ToPy(v)], ToPyAll(rest));
    }
  }

  lemma CommaBlank(s: string, k: nat)
    requires At(s, k, ", ")
    ensures k + 2 <= |s| && s[k] == ',' && s[k + 1] == ' ' && WsEnd(s, k) == k
  {
    AtChar(s, k, ", ", 0);
    AtChar(s, k, ", ", 1);
  }

  function PairText(m: Member): string {
    Quote(m.key) + (":" + Json(m.value))
  }

  lemma {:induction false} PairAt(s: string, i: nat, m: Member)
    requires At(s, i, PairText(m)) && Delimited(s, i + |PairText(m)|)
    ensures i < |s| && s[i] == '"'
    ensures ScanPair(s, i + 1) == Ok((m.key, ToPy(m.value)), i + |PairText(m)|)
    decreases m, 4
  {
    hide At, Json, ToPy, ScanOnce, ScanString, Quote;
    var k := i + |Quote(m.key)|;
    AtConcat(s, i, Quote(m.key), ":" + Json(m.value));
    AtConcat(s, k, ":", Json(m.value));
    QuotedAt(s, i, m.key);
    AtWithin(s, k, ":");
    AtWithin(s, k + 1, Json(m.value));
    FirstChar(m.value);
    NoBlanks(s, k + 1);
    ValueAt(s, k + 1, m.value);
  }

  lemma ObjectAt(s: string, i: nat, members: seq<Member>)
    requires At(s, i, Join(JsonMembers(members)) + "}")
    ensures ScanObject(s, i) == Ok(PDict(AddAll(map[], members)), i + |Join(JsonMembers(members))| + 1)
    decreases members, 3
  {
    hide At, ObjectPairs, Json, Quote;
    AtWithin(s, i, Join(JsonMembers(members)) + "}");
    if members != [] {
      MembersAt(s, i, members, map[]);
    }
  }

  lemma {:induction false} MembersAt(s: string, i: nat, members: seq<Member>, pairs: map<string, PyJson>)
    requires members != [] && At(s, i, Join(JsonMembers(members)) + "}")
    ensures i < |s| && s[i] == '"'
    ensures ObjectPairs(s, i + 1, pairs) == Ok(PDict(AddAll(pairs, members)), i + |Join(JsonMembers(members))| + 1)
    decreases members, 2
  {
    hide At, Json, ToPy, ScanPair, Join, PairText, Quote;
    var m, rest := members[0], members[1..];
    var k := i + |PairText(m)|;
    PairFirst(members);
    JoinStep(PairText(m), JsonMembers(rest), "}");
    if rest == [] {
      AtConcat(s, i, PairText(m), "}");
      AtWithin(s, i, PairText(m));
      AtWithin(s, k, "}");
      NoBlanks(s, k);
      PairAt(s, i, m);
    } else {
      AtConcat(s, i, PairText(m), ", " + (Join(JsonMembers(rest)) + "}"));
      AtConcat(s, k, ", ", Join(JsonMembers(rest)) + "}");
      AtWithin(s, i, PairText(m));
      CommaBlank(s, k);
      PairAt(s, i, m);
      MembersAt(s, k + 2, rest, pairs[m.key := ToPy(m.value)]);
      assert WsEnd(s, k + 1) == k + 2;
    }
  }

  lemma PairFirst(members: seq<Member>)
    requires members != []
    ensures JsonMembers(members) == [PairText(members[0])] + JsonMembers(members[1..])
    ensures members[1..] == [] ==> JsonMembers(members) == [PairText(members[0])]
  {
  }

  /** Decoding a printed text gives the printed value back and consumes the whole text. */
  lemma DecodePrinted(v: JsValue)
    ensures Decode(Json(v)) == Ok(ToPy(v), |Json(v)|)
  {
    hide Json, ToPy, ScanOnce;
    var s := Json(v);
    assert s[0..|s|] == s;
    FirstChar(v);
    NoBlanks(s, 0);
    ValueAt(s, 0, v);
  }

  // Which values are printed as themselves.

  /** No object in `v` has a number under the key `length`. */
  predicate NoNumericLength(v: JsValue) {
    match v
    case JArray(items) => forall w :: w in items ==> NoNumericLength(w)
    case JObject(members) => NumericLength(members) == None && forall m :: m in members ==> NoNumericLength(m.value)
    case _ => true
  }

  lemma {:induction false} AddAllKeeps(pairs: map<string, PyJson>, members: seq<Member>, key: string)
    requires key in pairs && forall m :: m in members ==> m.key != key
    ensures key in AddAll(pairs, members) && AddAll(pairs, members)[key] == pairs[key]
    decreases |members|
  {
    hide ToPy;
    if members != [] {
      AddAllKeeps(pairs[members[0].key := ToPy(members[0].value)], members[1..], key);
    }
  }

  lemma {:induction false} AddAllAt(pairs: map<string, PyJson>, members: seq<Member>, k: nat)
    requires DistinctKeys(members) && k < |members|
    ensures members[k].key in AddAll(pairs, members)
    ensures AddAll(pairs, members)[members[k].key] == ToPy(members[k].value)
    decreases k
  {
    hide ToPy;
    var next := pairs[members[0].key := ToPy(members[0].value)];
    if k == 0 {
      AddAllKeeps(next, members[1..], members[0].key);
    } else {
      AddAllAt(next, members[1..], k - 1);
    }
  }

  /** What is printed of `v` means `v`. */
  predicate Faithful(v: JsValue) {
    Printed(v).Some? && ToPy(Printed(v).value) == ToPy(v)
  }

  lemma {:induction false} AllPrinted(v: JsValue, items: seq<JsValue>)
    requires forall k :: 0 <= k < |items| ==> items[k] < v && Printed(items[k]).Some?
    ensures PrintedAll(v, items).Some?
  {
    hide Printed;
    if items != [] {
      AllPrinted(v, items[1..]);
    }
  }

  lemma {:induction false} AllMembersPrinted(v: JsValue, members: seq<Member>)
    requires forall k :: 0 <= k < |members| ==> members[k].value < v && Printed(members[k].value).Some?
    ensures PrintedMembers(v, members).Some?
  {
    hide Printed;
    if members != [] {
      AllMembersPrinted(v, members[1..]);
    }
  }

  lemma ArrayFaithful(v: JsValue, items: seq<JsValue>)
    requires v == JArray(items)
    ensures Faithful(v) <==> forall k :: 0 <= k < |items| ==> Faithful(items[k])
  {
    if forall k :: 0 <= k < |items| ==> Faithful(items[k]) {
      AllPrinted(v, items);
      assert ToPyAll(PrintedAll(v, items).value) == ToPyAll(items);
    }
    if Faithful(v) {
      var ws := PrintedAll(v, items).value;
      forall k | 0 <= k < |items| ensures Faithful(items[k]) {
        assert ToPyAll(ws)[k] == ToPyAll(items)[k];
      }
    }
  }

  lemma {:induction false} AddAllSame(pairs: map<string, PyJson>, ms: seq<Member>, members: seq<Member>)
    requires |ms| == |members|
    requires forall k :: 0 <= k < |ms| ==> ms[k].key == members[k].key && ToPy(ms[k].value) == ToPy(members[k].value)
    ensures AddAll(pairs, ms) == AddAll(pairs, members)
    decreases |ms|
  {
    hide ToPy;
    if ms != [] {
      AddAllSame(pairs[ms[0].key := ToPy(ms[0].value)], ms[1..], members[1..]);
    }
  }

  lemma ObjectFaithful(v: JsValue, members: seq<Member>)
    requires v == JObject(members) && DistinctKeys(members)
    ensures Faithful(v) <==>
      (NumericLength(members) == None && forall k :: 0 <= k < |members| ==> Faithful(members[k].value))
  {
    hide NumericLength;
    if NumericLength(members) == None {
      if forall k :: 0 <= k < |members| ==> Faithful(members[k].value) {
        AllMembersPrinted(v, members);
        AddAllSame(map[], PrintedMembers(v, members).value, members);
      }
      if Faithful(v) {
        var ms := PrintedMembers(v, members).value;
        forall k | 0 <= k < |members| ensures Faithful(members[k].value) {
          AddAllAt(map[], ms, k);
          AddAllAt(map[], members, k);
        }
      }
    }
  }

  /** What is printed means the same value exactly when no object in it has a number
      under `length`. */
  lemma {:induction false} FaithfulIff(v: JsValue)
    requires WellFormed(v)
    ensures Faithful(v) <==> NoNumericLength(v)
    decreases v
  {
    hide NumericLength;
    match v
    case JArray(items) =>
      forall k | 0 <= k < |items| ensures Faithful(items[k]) <==> NoNumericLength(items[k]) {
        FaithfulIff(items[k]);
      }
      ArrayFaithful(v, items);
    case JObject(members) =>
      forall k | 0 <= k < |members| ensures Faithful(members[k].value) <==> NoNumericLength(members[k].value) {
        FaithfulIff(members[k].value);
      }
      ObjectFaithful(v, members);
    case _ => assert Printed(v) == Some(v);
  }

  /** Decoding inverts serialising exactly on the values without a numeric `length`. */
  lemma DecodeSerialized(v: JsValue)
    requires WellFormed(v)
    ensures NoNumericLength(v) <==>
      (Serialize(v).Some? && Decode(Serialize(v).value) == Ok(ToPy(v), |Serialize(v).value|))
  {
    hide Decode, Json, ToPy;
    FaithfulIff(v);
    if Printed(v).Some? {
      DecodePrinted(Printed(v).value);
    }
  }

  /** Distinct values have distinct texts. */
  lemma SerializeInjective(v: JsValue, w: JsValue)
    requires WellFormed(v) && WellFormed(w) && NoNumericLength(v) && NoNumericLength(w)
    requires Serialize(v) == Serialize(w)
    ensures ToPy(v) == ToPy(w)
  {
    DecodeSerialized(v);
    DecodeSerialized(w);
  }
}
