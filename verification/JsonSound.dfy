/** The decoder of simplejson accepts no other texts than those of the grammar. */
module JsonSound {
  import opened Text
  import opened JsonDecoder
  import opened JsonGrammar
  import R = JsonRoundTrip
  import C = JsonComplete

  lemma Joined(s: string, i: nat, a: string, b: string)
    requires At(s, i, a) && At(s, i + |a|, b)
    ensures At(s, i, a + b)
  {
    AtConcat(s, i, a, b);
  }

  lemma Here(s: string, i: nat, j: nat)
    requires i <= j <= |s|
    ensures At(s, i, s[i..j])
  {
  }

  lemma OneChar(s: string, i: nat, c: char)
    requires i < |s| && s[i] == c
    ensures At(s, i, [c])
  {
  }

  lemma {:induction false} GapOf(s: string, i: nat)
    requires i <= |s|
    ensures i <= WsEnd(s, i) <= |s| && IsGap(s[i..WsEnd(s, i)])
    decreases |s| - i
  {
    if i < |s| && IsWs(s[i]) {
      GapOf(s, i + 1);
      var j := WsEnd(s, i + 1);
      assert s[i..j] == [s[i]] + s[i + 1..j];
    }
  }

  // Strings.

  lemma HexDigitOf(c: char) returns (h: Hex)
    requires HexDigitValue(c).Some?
    ensures HexDigit(h) == c && h.value == HexDigitValue(c).value
  {
    h := Hex(HexDigitValue(c).value, 'A' <= c <= 'F');
    assert "0123456789ABCDEF"[h.value] == if h.value < 10 then '0' + h.value as char else 'A' + (h.value - 10) as char;
    assert "0123456789abcdef"[h.value] == if h.value < 10 then '0' + h.value as char else 'a' + (h.value - 10) as char;
  }

  lemma UnitOf(s: string, i: nat) returns (u: Unit)
    requires At(s, i, "\\u") && Hex4(s, i + 2).Some?
    ensures At(s, i, u.Text()) && u.Code() == Hex4(s, i + 2).value
  {
    C.AtEnds(s, i, "\\u");
    var a := HexDigitOf(s[i + 2]);
    var b := HexDigitOf(s[i + 3]);
    var c := HexDigitOf(s[i + 4]);
    var d := HexDigitOf(s[i + 5]);
    u := Unit(a, b, c, d);
    AtChar(s, i, "\\u", 0);
    AtChar(s, i, "\\u", 1);
    assert s[i..i + 6] == [s[i], s[i + 1], s[i + 2], s[i + 3], s[i + 4], s[i + 5]];
    hide HexDigitValue, HexDigit;
  }

  lemma UnicodeOf(s: string, i: nat) returns (p: Valid)
    requires At(s, i, "\\u") && UnicodeEscape(s, i + 2).Some?
    ensures At(s, i, PieceText(p))
    ensures UnicodeEscape(s, i + 2).value == (PieceMeaning(p), i + |PieceText(p)|)
  {
    hide Hex4, Unit.Code, HexDigit;
    var u := UnitOf(s, i);
    if 0xd800 <= u.Code() <= 0xdbff {
      var low := UnitOf(s, i + 6);
      p := Surrogates(u, low);
      Joined(s, i, u.Text(), low.Text());
    } else {
      p := Unicode(u);
    }
  }

  /** The first piece of a string that is not at its end, and what is scanned behind it. */
  lemma PieceOf(s: string, i: nat, begin: int, acc: string) returns (p: Valid)
    requires i <= |s| && ScanString(s, i, begin, acc).Ok? && (i < |s| ==> s[i] != '"')
    ensures i < |s| && At(s, i, PieceText(p))
    ensures i + |PieceText(p)| <= |s|
    ensures ScanString(s, i, begin, acc) == ScanString(s, i + |PieceText(p)|, begin, acc + [PieceMeaning(p)])
  {
    hide ScanString, UnicodeEscape, Backslash, ShortMeaning;
    ScansOn(s, i, begin, acc);
    if !EndsChunk(s[i]) {
      p := Plain(s[i]);
      OneChar(s, i, s[i]);
    } else if s[i + 1] != 'u' {
      Letters(s[i + 1]);
      p := Short(s[i + 1]);
      assert s[i..i + 2] == ['\\', s[i + 1]];
    } else {
      assert s[i..i + 2] == "\\u";
      p := UnicodeOf(s, i);
    }
    C.PieceAt(s, i, begin, acc, p);
  }

  lemma Letters(c: char)
    ensures Backslash(c) == ShortMeaning(c)
  {
  }

  /** What a string that is not at its end must begin with. */
  lemma ScansOn(s: string, i: nat, begin: int, acc: string)
    requires i <= |s| && ScanString(s, i, begin, acc).Ok? && (i < |s| ==> s[i] != '"')
    ensures i < |s|
    ensures EndsChunk(s[i]) ==> s[i] == '\\' && i + 1 < |s|
    ensures EndsChunk(s[i]) ==> if s[i + 1] == 'u' then UnicodeEscape(s, i + 2).Some? else Backslash(s[i + 1]).Some?
  {
    hide UnicodeEscape, Backslash;
  }

  lemma {:induction false} PiecesOf(s: string, i: nat, begin: int, acc: string) returns (ps: seq<Valid>)
    requires i <= |s| && ScanString(s, i, begin, acc).Ok?
    ensures At(s, i, PiecesText(ps) + "\"")
    ensures ScanString(s, i, begin, acc) == Ok(acc + PiecesMeaning(ps), i + |PiecesText(ps)| + 1)
    decreases |s| - i
  {
    hide ScanString, PieceText, PieceMeaning, At;
    if i < |s| && s[i] == '"' {
      ps := [];
      R.EmptyString(s, i, begin, acc);
      OneChar(s, i, '"');
      AppendAssociates(acc, [], []);
      assert PiecesText(ps) + "\"" == "\"";
    } else {
      var p := PieceOf(s, i, begin, acc);
      var t, m := PieceText(p), PieceMeaning(p);
      var rest := PiecesOf(s, i + |t|, begin, acc + [m]);
      ps := [p] + rest;
      assert ps[1..] == rest;
      Joined(s, i, t, PiecesText(rest) + "\"");
      AppendAssociates(t, PiecesText(rest), "\"");
      AppendAssociates(acc, [m], PiecesMeaning(rest));
    }
  }

  // Numbers.

  lemma NumeralOf(s: string, i: nat)
    requires i < |s| && IsDigit(s[i])
    ensures i < DigitRun(s, i) <= |s| && IsNumeral(s[i..DigitRun(s, i)])
  {
  }

  lemma WholeOf(s: string, i: nat)
    requires IntegerEnd(s, i).Some?
    ensures IsWhole(s[i..IntegerEnd(s, i).value])
  {
    var k := if s[i] == '-' then i + 1 else i;
    var j := IntegerEnd(s, i).value;
    assert s[i..j][0] == s[i] && s[k..j][0] == s[k];
    assert s[i] == '-' ==> s[i..j][1..] == s[k..j];
    if s[k] == '0' {
      assert s[k..j] == "0";
    } else {
      NumeralOf(s, k);
    }
  }

  lemma FractionOf(s: string, j: nat)
    requires j <= |s|
    ensures var k := FractionEnd(s, j); k == j || IsFraction(s[j..k])
  {
    var k := FractionEnd(s, j);
    if k > j {
      NumeralOf(s, j + 1);
      assert s[j..k][1..] == s[j + 1..k] && s[j..k][0] == '.';
    }
  }

  lemma ExponentOf(s: string, j: nat)
    requires j <= |s|
    ensures var k := ExponentEnd(s, j); k == j || IsExponent(s[j..k])
  {
    var k := ExponentEnd(s, j);
    if k > j {
      var d := if s[j + 1] == '-' || s[j + 1] == '+' then j + 2 else j + 1;
      NumeralOf(s, d);
      var t := s[j..k];
      assert t[0] == s[j] && t[1] == s[j + 1] && t[d - j..] == s[d..k];
    }
  }

  lemma {:induction false} PrintsBack(t: string)
    requires AllDigits(t) && t != [] && (t[0] == '0' ==> |t| == 1)
    ensures NatToString(DigitsValue(t)) == t
    ensures t[0] != '0' ==> DigitsValue(t) > 0
    decreases |t|
  {
    var front, last := t[..|t| - 1], t[|t| - 1];
    if |t| == 1 {
      assert front == [];
      assert Text.Digit(last as int - '0' as int) == last;
    } else {
      PrintsBack(front);
      assert DigitsValue(t) == DigitsValue(front) * 10 + (last as int - '0' as int);
      assert t == front + [last];
    }
  }

  lemma NumeralDigits(t: string)
    requires IsNumeral(t)
    ensures AllDigits(t)
  {
    assert forall k :: 0 <= k < |t| ==> t[k] in t;
  }

  lemma NegativeOf(t: string, digits: string)
    requires t == ['-'] + digits && AllDigits(digits) && digits != []
    ensures IntegerValue(t) == -(DigitsValue(digits) as int)
  {
    assert t[1..] == digits;
  }

  lemma PositiveOf(t: string)
    requires AllDigits(t) && t != []
    ensures IntegerValue(t) == DigitsValue(t)
  {
    assert t[0] != '-';
  }

  /** A whole number is the one numeral of its value, or "-0". */
  lemma IntOf(t: string) returns (tree: Tree)
    requires IsWhole(t)
    ensures TreeText(tree) == t && Meaning(tree) == PInt(IntegerValue(t))
  {
    hide IntegerValue, DigitsValue, NatToString, AllDigits;
    if t[0] == '-' {
      var digits := t[1..];
      assert t == ['-'] + digits;
      NumeralDigits(digits);
      NegativeOf(t, digits);
      if digits[0] == '0' {
        ZeroValue(digits);
        tree := MinusZero;
      } else {
        PrintsBack(digits);
        tree := Int(-(DigitsValue(digits) as int));
      }
    } else {
      NumeralDigits(t);
      PositiveOf(t);
      PrintsBack(t);
      tree := Int(DigitsValue(t));
    }
  }

  lemma ZeroValue(digits: string)
    requires |digits| == 1 && digits[0] == '0'
    ensures AllDigits(digits) && digits == "0" && DigitsValue(digits) == 0
  {
    assert digits[..0] == [];
  }

  lemma FloatOf(s: string, i: nat, j: nat, k: nat, end: nat) returns (text: FloatText)
    requires IntegerEnd(s, i) == Some(j) && FractionEnd(s, j) == k && ExponentEnd(s, k) == end && end > j
    ensures i < end <= |s| && text == s[i..end]
  {
    hide IntegerEnd, FractionEnd, ExponentEnd, IsWhole, IsFraction, IsExponent, IsFloatCut;
    WholeOf(s, i);
    FractionOf(s, j);
    ExponentOf(s, k);
    FloatCut(s, i, j, k, end);
    text := s[i..end];
  }

  lemma FloatCut(s: string, i: nat, j: nat, k: nat, end: nat)
    requires i <= j <= k <= end <= |s| && end > j && IsWhole(s[i..j])
    requires (k == j || IsFraction(s[j..k])) && (end == k || IsExponent(s[k..end]))
    ensures IsFloatCut(s[i..end], j - i, k - i)
  {
    hide IsWhole, IsFraction, IsExponent;
    SliceOfSlice(s, i, end, 0, j - i);
    SliceOfSlice(s, i, end, j - i, k - i);
    SliceOfSlice(s, i, end, k - i, end - i);
  }

  lemma SliceOfSlice(s: string, i: nat, end: nat, a: nat, b: nat)
    requires i <= end <= |s| && a <= b <= end - i
    ensures s[i..end][a..b] == s[i + a..i + b]
    ensures a == 0 ==> s[i..end][..b] == s[i..i + b]
    ensures b == end - i ==> s[i..end][a..] == s[i + a..end]
  {
    var t, u := s[i..end][a..b], s[i + a..i + b];
    assert |t| == |u| && forall k :: 0 <= k < |t| ==> t[k] == u[k];
    assert t == u;
  }

  /** A number's text, with the fraction and the exponent that the scanner takes. */
  lemma NumberOf(s: string, i: nat) returns (t: Tree)
    requires i < |s| && IntegerEnd(s, i).Some? && ScanNumber(s, i).Ok?
    ensures At(s, i, TreeText(t)) && ScanNumber(s, i) == Ok(Meaning(t), i + |TreeText(t)|)
  {
    hide IntegerEnd, FractionEnd, ExponentEnd, IntegerValue, IsWhole, IsFloat;
    var j := IntegerEnd(s, i).value;
    var end := ExponentEnd(s, FractionEnd(s, j));
    WholeOf(s, i);
    Here(s, i, end);
    if end > j {
      var text := FloatOf(s, i, j, FractionEnd(s, j), end);
      t := Float(text);
    } else {
      t := IntOf(s[i..j]);
    }
  }

  lemma NamedOf(s: string, i: nat) returns (t: Tree)
    requires i < |s| && IntegerEnd(s, i) == None && ScanNumber(s, i).Ok?
    ensures At(s, i, TreeText(t)) && ScanNumber(s, i) == Ok(Meaning(t), i + |TreeText(t)|)
  {
    t := if At(s, i, "NaN") then NaN else if At(s, i, "Infinity") then Infinity else MinusInfinity;
  }

  // Values.

  lemma AppendsNothing<T>(t: seq<T>)
    ensures t + [] == t && [] + t == t
  {
  }

  /** Whatever the scanner accepts is a text of the grammar, read as what it means. */
  lemma {:induction false} TreeOf(s: string, i: nat) returns (t: Tree)
    requires ScanOnce(s, i).Ok?
    ensures At(s, i, TreeText(t)) && ScanOnce(s, i) == Ok(Meaning(t), i + |TreeText(t)|)
    decreases |s| - i, 1
  {
    hide ScanString, ScanNumber, ScanArray, ScanObject, At;
    if s[i] == '"' {
      var ps := PiecesOf(s, i + 1, i, []);
      t := Str(ps);
      OneChar(s, i, '"');
      Joined(s, i, "\"", PiecesText(ps) + "\"");
      AppendAssociates([], [], PiecesMeaning(ps));
    } else if s[i] == '{' {
      t := ObjectOf(s, i);
    } else if s[i] == '[' {
      t := ArrayOf(s, i);
    } else if At(s, i, "null") {
      t := Null;
    } else if At(s, i, "true") {
      t := True;
    } else if At(s, i, "false") {
      t := False;
    } else if IntegerEnd(s, i).Some? {
      t := NumberOf(s, i);
    } else {
      t := NamedOf(s, i);
    }
  }

  lemma ArrayOf(s: string, i: nat) returns (t: Tree)
    requires i < |s| && s[i] == '[' && ScanArray(s, i + 1).Ok?
    ensures At(s, i, TreeText(t)) && ScanArray(s, i + 1) == Ok(Meaning(t), i + |TreeText(t)|)
    decreases |s| - i, 0
  {
    hide ArrayItems, At, WsEnd, IsGap, OthersText, MeaningAll;
    var p := WsEnd(s, i + 1);
    GapOf(s, i + 1);
    var gap := s[i + 1..p];
    Here(s, i + 1, p);
    OneChar(s, i, '[');
    if s[p] == ']' {
      t := EmptyList(gap);
      OneChar(s, p, ']');
      Joined(s, i + 1, gap, "]");
      Joined(s, i, "[", gap + "]");
    } else {
      var value, after, others := ItemsOf(s, p, []);
      var first := Item(gap, value, after);
      t := List(first, others);
      ItemHere(s, i + 1, first, OthersText(others));
      Joined(s, i, "[", ItemText(first) + OthersText(others));
      AppendsNothing([Meaning(value)] + MeaningAll(others));
    }
  }

  /** The blanks before an item, which its array has skipped. */
  lemma ItemHere(s: string, i: nat, x: Item, rest: string)
    requires At(s, i, x.before) && At(s, i + |x.before|, TreeText(x.value) + x.after + rest)
    ensures At(s, i, ItemText(x) + rest)
    ensures |ItemText(x)| == |x.before| + |TreeText(x.value) + x.after|
  {
    hide At, TreeText;
    Joined(s, i, x.before, TreeText(x.value) + x.after + rest);
    assert x.before + (TreeText(x.value) + x.after + rest) == ItemText(x) + rest;
  }

  /** One turn of the array's loop. */
  lemma ArrayTurn(s: string, i: nat, values: seq<PyJson>, v: PyJson, j: nat)
    requires i <= |s| && ArrayItems(s, i, values).Ok? && ScanOnce(s, i) == Ok(v, j)
    ensures var end := WsEnd(s, j);
      end < |s| && (s[end] == ']' || s[end] == ',') && ArrayItems(s, i, values) ==
        if s[end] == ']' then Ok(PList(values + [v]), end + 1)
        else ArrayItems(s, WsEnd(s, end + 1), values + [v])
  {
    hide ScanOnce, WsEnd;
  }

  lemma {:induction false} ItemsOf(s: string, i: nat, values: seq<PyJson>)
    returns (value: Tree, after: Gap, others: seq<Item>)
    requires i <= |s| && ArrayItems(s, i, values).Ok?
    ensures At(s, i, TreeText(value) + after + OthersText(others))
    ensures ArrayItems(s, i, values) == Ok(PList(values + ([Meaning(value)] + MeaningAll(others))),
                                           i + |TreeText(value) + after| + |OthersText(others)|)
    decreases |s| - i, 2
  {
    hide ArrayItems, ScanOnce, At, WsEnd, IsGap, TreeText, Meaning, ItemText;
    assert ScanOnce(s, i).Ok? by { FirstScans(s, i, values); }
    value := TreeOf(s, i);
    var j := i + |TreeText(value)|;
    var end := WsEnd(s, j);
    ArrayTurn(s, i, values, Meaning(value), j);
    GapOf(s, j);
    after := s[j..end];
    Here(s, j, end);
    Joined(s, i, TreeText(value), after);
    if s[end] == ']' {
      others := [];
      OneChar(s, end, ']');
      assert [Meaning(value)] + MeaningAll(others) == [Meaning(value)];
    } else {
      others := OthersOf(s, end, values + [Meaning(value)]);
      AppendAssociates(values, [Meaning(value)], MeaningAll(others));
    }
    Joined(s, i, TreeText(value) + after, OthersText(others));
  }

  lemma FirstScans(s: string, i: nat, values: seq<PyJson>)
    requires i <= |s| && ArrayItems(s, i, values).Ok?
    ensures ScanOnce(s, i).Ok?
  {
    hide ScanOnce;
  }

  /** The items from a comma on. */
  lemma OthersOf(s: string, end: nat, values: seq<PyJson>) returns (others: seq<Item>)
    requires end < |s| && s[end] == ',' && ArrayItems(s, WsEnd(s, end + 1), values).Ok?
    ensures At(s, end, OthersText(others))
    ensures ArrayItems(s, WsEnd(s, end + 1), values)
         == Ok(PList(values + MeaningAll(others)), end + |OthersText(others)|)
    decreases |s| - end, 0
  {
    hide ArrayItems, ScanOnce, At, WsEnd, IsGap, TreeText, Meaning, ItemText;
    var next := WsEnd(s, end + 1);
    GapOf(s, end + 1);
    var before := s[end + 1..next];
    Here(s, end + 1, next);
    var v, a, more := ItemsOf(s, next, values);
    var item := Item(before, v, a);
    others := [item] + more;
    assert others[1..] == more;
    OneChar(s, end, ',');
    ItemHere(s, end + 1, item, OthersText(more));
    Joined(s, end, ",", ItemText(item) + OthersText(more));
  }

  // Objects.

  lemma ObjectOf(s: string, i: nat) returns (t: Tree)
    requires i < |s| && s[i] == '{' && ScanObject(s, i + 1).Ok?
    ensures At(s, i, TreeText(t)) && ScanObject(s, i + 1) == Ok(Meaning(t), i + |TreeText(t)|)
    decreases |s| - i, 0
  {
    hide ObjectPairs, At, WsEnd, IsGap, TailText, Extended, EntryText, PiecesMeaning;
    var p := WsEnd(s, i + 1);
    BracesOf(s, i);
    GapOf(s, i + 1);
    var gap := s[i + 1..p];
    Here(s, i + 1, p);
    OneChar(s, i, '{');
    if s[p] == '}' {
      t := EmptyDict(gap);
      OneChar(s, p, '}');
      Joined(s, i + 1, gap, "}");
      Joined(s, i, "{", gap + "}");
    } else {
      var head, tail := EntriesOf(s, p, gap, map[]);
      t := Dict(head, tail);
      Joined(s, i, "{", EntryText(head) + TailText(tail));
    }
  }

  /** What stands behind the '{' and the blanks. */
  lemma BracesOf(s: string, i: nat)
    requires i < |s| && s[i] == '{' && ScanObject(s, i + 1).Ok?
    ensures var p := WsEnd(s, i + 1);
      p < |s| && (s[p] == '}' || s[p] == '"') && ScanObject(s, i + 1) ==
        if s[p] == '}' then Ok(PDict(map[]), p + 1) else ObjectPairs(s, p + 1, map[])
  {
    hide ObjectPairs;
  }

  lemma PairShape(s: string, p: nat)
    requires p < |s| && ScanPair(s, p + 1).Ok?
    ensures ScanString(s, p + 1, p, []).Ok?
    ensures var j := ScanString(s, p + 1, p, []).end; var colon := WsEnd(s, j);
      j <= colon < |s| && s[colon] == ':' && ScanOnce(s, WsEnd(s, colon + 1)).Ok? &&
      ScanPair(s, p + 1) == Ok((ScanString(s, p + 1, p, []).value, ScanOnce(s, WsEnd(s, colon + 1)).value),
                               ScanOnce(s, WsEnd(s, colon + 1)).end)
  {
    hide ScanString, ScanOnce;
  }

  lemma KeyOf(s: string, p: nat) returns (ps: seq<Valid>)
    requires p < |s| && s[p] == '"' && ScanString(s, p + 1, p, []).Ok?
    ensures At(s, p, Quoted(ps)) && ScanString(s, p + 1, p, []) == Ok(PiecesMeaning(ps), p + |Quoted(ps)|)
  {
    hide ScanString, PiecesText, PiecesMeaning, At;
    ps := PiecesOf(s, p + 1, p, []);
    OneChar(s, p, '"');
    Joined(s, p, "\"", PiecesText(ps) + "\"");
    AppendsNothing(PiecesMeaning(ps));
  }

  /** An entry up to its value: the blanks behind that belong to what follows. */
  lemma PairOf(s: string, p: nat, before: Gap) returns (x: Entry)
    requires p < |s| && s[p] == '"' && ScanPair(s, p + 1).Ok? && |before| <= p && At(s, p - |before|, before)
    ensures x.before == before && x.after == [] && At(s, p - |before|, EntryText(x))
    ensures ScanPair(s, p + 1) == Ok((PiecesMeaning(x.key), Meaning(x.value)), p - |before| + |EntryText(x)|)
    decreases |s| - p, 0
  {
    hide ScanString, ScanOnce, ScanPair, WsEnd, PiecesMeaning, Quoted, TreeText, Meaning, At;
    PairShape(s, p);
    var ps := KeyOf(s, p);
    var j := p + |Quoted(ps)|;
    var colon := WsEnd(s, j);
    var start := WsEnd(s, colon + 1);
    GapOf(s, j);
    GapOf(s, colon + 1);
    var value := TreeOf(s, start);
    x := Entry(before, ps, s[j..colon], s[colon + 1..start], value, []);
    Here(s, j, colon);
    OneChar(s, colon, ':');
    Here(s, colon + 1, start);
    EntryHere(s, p - |before|, x);
  }

  lemma EntryHere(s: string, i: nat, x: Entry)
    requires x.after == [] && At(s, i, x.before)
    requires var p := i + |x.before|; var colon := p + |Quoted(x.key)| + |x.between|;
      At(s, p, Quoted(x.key)) && At(s, p + |Quoted(x.key)|, x.between) && At(s, colon, ":") &&
      At(s, colon + 1, x.behind) && At(s, colon + 1 + |x.behind|, TreeText(x.value))
    ensures At(s, i, EntryText(x))
    ensures |EntryText(x)| == |x.before| + |Quoted(x.key)| + |x.between| + 1 + |x.behind| + |TreeText(x.value)|
  {
    hide Quoted, TreeText, At;
    var p := i + |x.before|;
    var colon := p + |Quoted(x.key)| + |x.between|;
    var text := TreeText(x.value) + x.after;
    assert text == TreeText(x.value);
    Joined(s, colon + 1, x.behind, text);
    Joined(s, colon, ":", x.behind + text);
    Joined(s, p + |Quoted(x.key)|, x.between, ":" + (x.behind + text));
    Joined(s, p, Quoted(x.key), x.between + (":" + (x.behind + text)));
    Joined(s, i, x.before, Quoted(x.key) + (x.between + (":" + (x.behind + text))));
  }

  lemma WithBlanks(x: Entry, after: Gap)
    requires x.after == []
    ensures EntryText(x.(after := after)) == EntryText(x) + after
  {
    hide Quoted, TreeText;
  }

  /** One turn of the object's loop. */
  lemma ObjectTurn(s: string, p: nat, pairs: map<string, PyJson>)
    requires p < |s| && ObjectPairs(s, p + 1, pairs).Ok?
    ensures ScanPair(s, p + 1).Ok?
    ensures var ((key, v), k) := (ScanPair(s, p + 1).value, ScanPair(s, p + 1).end); var end := WsEnd(s, k);
      end < |s| && (s[end] == '}' || s[end] == ',') &&
      (s[end] == '}' ==> ObjectPairs(s, p + 1, pairs) == Ok(PDict(pairs[key := v]), end + 1)) &&
      (s[end] == ',' ==> WsEnd(s, end + 1) < |s| && s[WsEnd(s, end + 1)] == '"') &&
      (s[end] == ',' ==> ObjectPairs(s, p + 1, pairs) == ObjectPairs(s, WsEnd(s, end + 1) + 1, pairs[key := v]))
  {
    hide ScanPair, WsEnd;
  }

  lemma {:induction false} EntriesOf(s: string, p: nat, before: Gap, pairs: map<string, PyJson>)
    returns (head: Entry, tail: seq<Entry>)
    requires p < |s| && s[p] == '"' && ObjectPairs(s, p + 1, pairs).Ok?
    requires |before| <= p && At(s, p - |before|, before)
    ensures At(s, p - |before|, EntryText(head) + TailText(tail))
    ensures ObjectPairs(s, p + 1, pairs) ==
      Ok(PDict(Extended(pairs[PiecesMeaning(head.key) := Meaning(head.value)], tail)),
         p - |before| + |EntryText(head)| + |TailText(tail)|)
    decreases |s| - p, 1
  {
    hide ObjectPairs, ScanPair, WsEnd, IsGap, PiecesMeaning, Meaning, At, EntryText;
    ObjectTurn(s, p, pairs);
    var i := p - |before|;
    var x := PairOf(s, p, before);
    var k := i + |EntryText(x)|;
    var end := WsEnd(s, k);
    GapOf(s, k);
    var after := s[k..end];
    head := x.(after := after);
    WithBlanks(x, after);
    Here(s, k, end);
    Joined(s, i, EntryText(x), after);
    if s[end] == '}' {
      tail := [];
      OneChar(s, end, '}');
    } else {
      tail := TailOf(s, end, pairs[PiecesMeaning(x.key) := Meaning(x.value)]);
    }
    Joined(s, i, EntryText(head), TailText(tail));
  }

  /** The entries from a comma on. */
  lemma TailOf(s: string, end: nat, pairs: map<string, PyJson>) returns (tail: seq<Entry>)
    requires end < |s| && s[end] == ',' && WsEnd(s, end + 1) < |s| && s[WsEnd(s, end + 1)] == '"'
    requires ObjectPairs(s, WsEnd(s, end + 1) + 1, pairs).Ok?
    ensures At(s, end, TailText(tail))
    ensures ObjectPairs(s, WsEnd(s, end + 1) + 1, pairs) == Ok(PDict(Extended(pairs, tail)), end + |TailText(tail)|)
    decreases |s| - end, 0
  {
    hide ObjectPairs, WsEnd, IsGap, PiecesMeaning, Meaning, At, EntryText;
    var quote := WsEnd(s, end + 1);
    GapOf(s, end + 1);
    var before := s[end + 1..quote];
    Here(s, end + 1, quote);
    var head, more := EntriesOf(s, quote, before, pairs);
    tail := [head] + more;
    assert tail[1..] == more;
    OneChar(s, end, ',');
    Joined(s, end, ",", EntryText(head) + TailText(more));
  }

  // Whole texts.

  /** `s` is a text of the grammar for `v`, with blanks around it. */
  ghost predicate Writes(s: string, v: PyJson) {
    exists before: Gap, t: Tree, after: Gap :: s == before + (TreeText(t) + after) && Meaning(t) == v
  }

  /** The decoder accepts exactly the texts of the grammar, each as what it means. */
  lemma DecodeIff(s: string, v: PyJson)
    ensures Writes(s, v) <==> Decode(s) == Ok(v, |s|)
    ensures Decode(s).Ok? ==> Writes(s, Decode(s).value)
  {
    hide Meaning, TreeText, Decode;
    if Writes(s, v) {
      var before: Gap, t: Tree, after: Gap :| s == before + (TreeText(t) + after) && Meaning(t) == v;
      C.DecodeReads(before, t, after);
    }
    if Decode(s).Ok? {
      Accepted(s);
    }
  }

  lemma Accepted(s: string)
    requires Decode(s).Ok?
    ensures Writes(s, Decode(s).value) && Decode(s).end == |s|
  {
    hide ScanOnce, WsEnd, IsGap, Meaning, TreeText, At;
    var i := WsEnd(s, 0);
    GapOf(s, 0);
    var t := TreeOf(s, i);
    var j := i + |TreeText(t)|;
    GapOf(s, j);
    var before: Gap, after: Gap := s[0..i], s[j..WsEnd(s, j)];
    Here(s, 0, i);
    Here(s, j, |s|);
    Joined(s, i, TreeText(t), after);
    Joined(s, 0, before, TreeText(t) + after);
    Whole(s, before + (TreeText(t) + after));
  }

  lemma Whole(s: string, t: string)
    requires At(s, 0, t) && |t| == |s|
    ensures s == t
  {
  }
}
