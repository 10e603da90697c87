/** The decoder of simplejson reads every text of the grammar as what it means. */
module JsonComplete {
  import opened Text
  import opened JsonDecoder
  import opened JsonGrammar
  import R = JsonRoundTrip

  // Blanks.

  predicate NoBlank(s: string, i: nat) {
    i < |s| ==> s[i] != ' ' && s[i] != '\t' && s[i] != '\n' && s[i] != '\r'
  }

  lemma GapTail(g: Gap)
    requires g != []
    ensures IsGap(g[1..]) && g == [g[0]] + g[1..] && IsWs(g[0])
  {
    assert g[0] in g;
    assert forall c :: c in g[1..] ==> c in g;
  }

  lemma {:induction false} GapAt(s: string, i: nat, g: Gap)
    requires At(s, i, g) && NoBlank(s, i + |g|)
    ensures i + |g| <= |s| && WsEnd(s, i) == i + |g|
    decreases |g|
  {
    hide IsGap, At;
    AtEnds(s, i, g);
    if g != [] {
      GapTail(g);
      AtConcat(s, i, [g[0]], g[1..]);
      GapAt(s, i + 1, g[1..]);
    }
  }

  lemma AtEnds(s: string, i: nat, t: string)
    requires At(s, i, t)
    ensures i + |t| <= |s| && forall k :: 0 <= k < |t| ==> s[i + k] == t[k]
  {
    forall k | 0 <= k < |t| ensures s[i + k] == t[k] {
      AtChar(s, i, t, k);
    }
  }

  // Strings.

  lemma HexDigitRead(h: Hex)
    ensures HexDigitValue(HexDigit(h)) == Some(h.value)
  {
    if h.upper {
      assert HexDigit(h) == if h.value < 10 then '0' + h.value as char else 'A' + (h.value - 10) as char;
    } else {
      assert HexDigit(h) == if h.value < 10 then '0' + h.value as char else 'a' + (h.value - 10) as char;
    }
  }

  lemma UnitAt(s: string, i: nat, u: Unit)
    requires At(s, i, u.Text())
    ensures i + 6 <= |s| && s[i] == '\\' && s[i + 1] == 'u' && Hex4(s, i + 2) == Some(u.Code())
  {
    var t := u.Text();
    forall k | 0 <= k < 6 ensures s[i + k] == t[k] {
      AtChar(s, i, t, k);
    }
    assert s[i + 2] == t[2] && s[i + 3] == t[3] && s[i + 4] == t[4] && s[i + 5] == t[5] && s[i + 1] == t[1];
    HexDigitRead(u.a);
    HexDigitRead(u.b);
    HexDigitRead(u.c);
    HexDigitRead(u.d);
    hide HexDigitValue, HexDigit;
  }

  lemma UnicodeAt(s: string, i: nat, p: Valid)
    requires (p.Unicode? || p.Surrogates?) && At(s, i, PieceText(p))
    ensures i + 1 < |s| && s[i] == '\\' && s[i + 1] == 'u'
    ensures UnicodeEscape(s, i + 2) == Some((PieceMeaning(p), i + |PieceText(p)|))
  {
    hide Hex4, Unit.Code, HexDigit, At;
    if p.Unicode? {
      UnitAt(s, i, p.unit);
    } else {
      SurrogatesAt(s, i, p.high, p.low);
    }
  }

  lemma SurrogatesAt(s: string, i: nat, high: Unit, low: Unit)
    requires At(s, i, high.Text() + low.Text())
    ensures i + 12 <= |s| && s[i] == '\\' && s[i + 1] == 'u' && At(s, i + 6, "\\u")
    ensures Hex4(s, i + 2) == Some(high.Code()) && Hex4(s, i + 8) == Some(low.Code())
  {
    hide Hex4, Unit.Code, HexDigit;
    AtConcat(s, i, high.Text(), low.Text());
    UnitAt(s, i, high);
    UnitAt(s, i + 6, low);
    assert s[i + 6..i + 8] == "\\u";
  }

  /** Every way to write a character in a string is read as that character. */
  lemma PieceAt(s: string, i: nat, begin: int, acc: string, p: Valid)
    requires At(s, i, PieceText(p))
    ensures i + |PieceText(p)| <= |s|
    ensures ScanString(s, i, begin, acc) == ScanString(s, i + |PieceText(p)|, begin, acc + [PieceMeaning(p)])
  {
    hide ScanString, UnicodeEscape;
    match p
    case Plain(c) =>
      AtChar(s, i, [c], 0);
      R.PlainStep(s, i, begin, acc);
    case Short(c) =>
      AtChar(s, i, ['\\', c], 0);
      AtChar(s, i, ['\\', c], 1);
      R.ShortEscapeStep(s, i, begin, acc, PieceMeaning(p));
    case _ =>
      UnicodeAt(s, i, p);
      R.UnicodeEscapeStep(s, i, begin, acc, PieceMeaning(p), i + |PieceText(p)|);
  }

  lemma {:induction false} PiecesAt(s: string, i: nat, begin: int, acc: string, ps: seq<Valid>)
    requires At(s, i, PiecesText(ps) + "\"")
    ensures i <= |s|
    ensures ScanString(s, i, begin, acc) == Ok(acc + PiecesMeaning(ps), i + |PiecesText(ps)| + 1)
    decreases |ps|
  {
    hide ScanString, PieceText, PieceMeaning;
    if ps == [] {
      AtChar(s, i, "\"", 0);
      R.EmptyString(s, i, begin, acc);
      AppendAssociates(acc, [], []);
    } else {
      var t, m := PieceText(ps[0]), PieceMeaning(ps[0]);
      AppendAssociates(t, PiecesText(ps[1..]), "\"");
      AtConcat(s, i, t, PiecesText(ps[1..]) + "\"");
      PieceAt(s, i, begin, acc, ps[0]);
      PiecesAt(s, i + |t|, begin, acc + [m], ps[1..]);
      AppendAssociates(acc, [m], PiecesMeaning(ps[1..]));
    }
  }

  lemma QuotedAt(s: string, i: nat, ps: seq<Valid>)
    requires At(s, i, Quoted(ps))
    ensures |Quoted(ps)| > 1 && i + |Quoted(ps)| <= |s| && s[i] == '"'
    ensures ScanString(s, i + 1, i, []) == Ok(PiecesMeaning(ps), i + |Quoted(ps)|)
  {
    hide ScanString, PiecesText;
    AtConcat(s, i, "\"", PiecesText(ps) + "\"");
    AtChar(s, i, "\"", 0);
    PiecesAt(s, i + 1, i, [], ps);
    AppendAssociates([], [], PiecesMeaning(ps));
  }

  // Numbers.

  lemma NumeralRun(s: string, i: nat, t: string)
    requires At(s, i, t) && IsNumeral(t) && (i + |t| < |s| ==> !IsDigit(s[i + |t|]))
    ensures i < |s| && IsDigit(s[i]) && s[i] == t[0] && DigitRun(s, i) == i + |t|
  {
    assert forall k :: 0 <= k < |t| ==> t[k] in t;
    DigitRunAt(s, i, t);
    AtChar(s, i, t, 0);
  }

  lemma WholeAt(s: string, i: nat, t: string)
    requires At(s, i, t) && IsWhole(t) && (i + |t| < |s| ==> !IsDigit(s[i + |t|]))
    ensures IntegerEnd(s, i) == Some(i + |t|)
    ensures i < |s| && (s[i] == '-' || IsDigit(s[i]))
  {
    if t[0] == '-' {
      assert t == ['-'] + t[1..];
      AtConcat(s, i, ['-'], t[1..]);
      AtChar(s, i, t, 0);
      NumeralRun(s, i + 1, t[1..]);
    } else {
      NumeralRun(s, i, t);
    }
  }

  lemma FractionAt(s: string, i: nat, t: string)
    requires At(s, i, t) && IsFraction(t) && (i + |t| < |s| ==> !IsDigit(s[i + |t|]))
    ensures i < |s| && s[i] == '.' && FractionEnd(s, i) == i + |t|
  {
    assert t == ['.'] + t[1..];
    AtConcat(s, i, ['.'], t[1..]);
    AtChar(s, i, t, 0);
    NumeralRun(s, i + 1, t[1..]);
  }

  lemma ExponentAt(s: string, i: nat, t: string)
    requires At(s, i, t) && IsExponent(t) && (i + |t| < |s| ==> !IsDigit(s[i + |t|]))
    ensures i < |s| && (s[i] == 'e' || s[i] == 'E') && ExponentEnd(s, i) == i + |t|
  {
    hide IsNumeral, At, DigitRun;
    AtEnds(s, i, t);
    if IsNumeral(t[1..]) {
      assert t == t[..1] + t[1..];
      AtConcat(s, i, t[..1], t[1..]);
      NumeralRun(s, i + 1, t[1..]);
    } else {
      assert t == t[..2] + t[2..];
      AtConcat(s, i, t[..2], t[2..]);
      NumeralRun(s, i + 2, t[2..]);
    }
  }

  /** A fraction or an exponent is scanned with the whole number before it. */
  lemma FloatAt(s: string, i: nat, t: FloatText)
    requires At(s, i, t) && R.Delimited(s, i + |t|)
    ensures ScanOnce(s, i) == Ok(PFloat(t), i + |t|)
    ensures i < |s| && (s[i] == '-' || IsDigit(s[i]))
  {
    hide IsFloatCut, IntegerEnd, FractionEnd, ExponentEnd, ScanOnce;
    var j: nat, k: nat :| IsFloatCut(t, j, k);
    CutAt(s, i, t, j, k);
    ExponentOf(s, i, t, j, k);
    FractionOf(s, i, t, j, k);
    WholeOf(s, i, t, j, k);
    NumberIs(s, i, i + j, i + |t|);
    assert s[i..i + |t|] == t;
  }

  lemma CutAt(s: string, i: nat, t: string, j: nat, k: nat)
    requires At(s, i, t) && IsFloatCut(t, j, k)
    ensures j <= k <= |t| && j < |t| && i + |t| <= |s|
    ensures At(s, i, t[..j]) && At(s, i + j, t[j..k]) && At(s, i + k, t[k..])
  {
    hide IsWhole, IsFraction, IsExponent;
    assert t == t[..j] + (t[j..k] + t[k..]);
    AtConcat(s, i, t[..j], t[j..k] + t[k..]);
    AtConcat(s, i + j, t[j..k], t[k..]);
  }

  lemma ExponentOf(s: string, i: nat, t: string, j: nat, k: nat)
    requires IsFloatCut(t, j, k) && i + |t| <= |s| && At(s, i + k, t[k..]) && R.Delimited(s, i + |t|)
    ensures ExponentEnd(s, i + k) == i + |t|
    ensures i + k < |s| ==> !IsDigit(s[i + k]) && s[i + k] != '.'
  {
    hide IsWhole, IsFraction, IsExponent, ExponentEnd, At;
    if k < |t| {
      ExponentAt(s, i + k, t[k..]);
    } else {
      NoExponent(s, i + k);
    }
  }

  lemma FractionOf(s: string, i: nat, t: string, j: nat, k: nat)
    requires IsFloatCut(t, j, k) && i + |t| <= |s| && At(s, i + j, t[j..k])
    requires i + k < |s| ==> !IsDigit(s[i + k]) && s[i + k] != '.'
    ensures FractionEnd(s, i + j) == i + k
    ensures i + j < |s| ==> !IsDigit(s[i + j])
  {
    hide IsWhole, IsFraction, IsExponent, FractionEnd, At;
    if j < k {
      FractionAt(s, i + j, t[j..k]);
    } else {
      NoFraction(s, i + j);
    }
  }

  lemma WholeOf(s: string, i: nat, t: string, j: nat, k: nat)
    requires IsFloatCut(t, j, k) && At(s, i, t[..j]) && (i + j < |s| ==> !IsDigit(s[i + j]))
    ensures IntegerEnd(s, i) == Some(i + j)
    ensures i < |s| && (s[i] == '-' || IsDigit(s[i]))
  {
    hide IsWhole, IsFraction, IsExponent, IntegerEnd, At;
    WholeAt(s, i, t[..j]);
  }

  lemma NoExponent(s: string, i: nat)
    requires i <= |s| && R.Delimited(s, i)
    ensures ExponentEnd(s, i) == i
  {
  }

  lemma NoFraction(s: string, i: nat)
    requires i <= |s| && (i < |s| ==> s[i] != '.')
    ensures FractionEnd(s, i) == i
  {
  }

  lemma NumberIs(s: string, i: nat, j: nat, end: nat)
    requires i < |s| && (s[i] == '-' || IsDigit(s[i])) && IntegerEnd(s, i) == Some(j)
    requires ExponentEnd(s, FractionEnd(s, j)) == end
    ensures i < j <= end <= |s|
    ensures ScanOnce(s, i) == Ok(if end > j then PFloat(s[i..end]) else PInt(IntegerValue(s[i..j])), end)
  {
    hide IntegerEnd, FractionEnd, ExponentEnd, IntegerValue, ScanString, ScanObject, ScanArray;
    NoKeyword(s, i);
  }

  lemma NoKeyword(s: string, i: nat)
    requires i < |s| && s[i] != 'n' && s[i] != 't' && s[i] != 'f'
    ensures !At(s, i, "null") && !At(s, i, "true") && !At(s, i, "false")
  {
    if At(s, i, "null") {
      AtChar(s, i, "null", 0);
    }
    if At(s, i, "true") {
      AtChar(s, i, "true", 0);
    }
    if At(s, i, "false") {
      AtChar(s, i, "false", 0);
    }
  }

  lemma MinusZeroAt(s: string, i: nat)
    requires At(s, i, "-0") && R.Delimited(s, i + 2)
    ensures ScanOnce(s, i) == Ok(PInt(0), i + 2)
  {
    hide FractionEnd, ExponentEnd, ScanOnce;
    WholeAt(s, i, "-0");
    NoFraction(s, i + 2);
    NoExponent(s, i + 2);
    NumberIs(s, i, i + 2, i + 2);
    assert s[i..i + 2] == "-0" && "-0"[1..] == "0" && "0"[..0] == [];
  }

  lemma NamedAt(s: string, i: nat, name: string)
    requires name == "NaN" || name == "Infinity" || name == "-Infinity"
    requires At(s, i, name)
    ensures ScanOnce(s, i) == Ok(PConstant(name), i + |name|)
  {
    hide FractionEnd, ExponentEnd, IntegerValue, ScanString, ScanObject, ScanArray;
    AtChar(s, i, name, 0);
    AtChar(s, i, name, 1);
    NoKeyword(s, i);
    assert IntegerEnd(s, i) == None;
    if name != "NaN" && At(s, i, "NaN") {
      AtChar(s, i, "NaN", 0);
    }
    if name == "-Infinity" && At(s, i, "Infinity") {
      AtChar(s, i, "Infinity", 0);
    }
  }

  // Values.

  /** The characters that stand around values: blanks, closing brackets, comma and colon. */
  predicate Mark(c: char) {
    c == ' ' || c == '\t' || c == '\n' || c == '\r' || c == ']' || c == '}' || c == ',' || c == ':'
  }

  lemma FirstOf(t: Tree)
    ensures TreeText(t) != [] && !Mark(TreeText(t)[0])
  {
    match t
    case Int(n) =>
      var digits := NatToString(if n < 0 then -n else n);
      assert IsDigit(digits[0]);
    case Float(text) => FloatFirst(text);
    case _ =>
  }

  lemma FloatFirst(t: FloatText)
    ensures t != [] && !Mark(t[0])
  {
    var j: nat, k: nat :| IsFloatCut(t, j, k);
    var whole := t[..j];
    assert whole[0] == t[0];
    if t[0] != '-' {
      assert t[0] in whole;
    }
  }

  lemma TreeStarts(s: string, i: nat, t: Tree)
    requires At(s, i, TreeText(t))
    ensures i + |TreeText(t)| <= |s| && |TreeText(t)| > 0 && !Mark(s[i]) && NoBlank(s, i)
  {
    hide TreeText, At;
    FirstOf(t);
    AtEnds(s, i, TreeText(t));
  }

  /** Behind a value stands a blank, a comma or a closing bracket, or nothing. */
  lemma AfterValue(s: string, k: nat, g: Gap, c: char)
    requires At(s, k, g + [c]) && (c == ',' || c == ']' || c == '}')
    ensures R.Delimited(s, k) && WsEnd(s, k) == k + |g| < |s| && s[k + |g|] == c
  {
    AtConcat(s, k, g, [c]);
    AtEnds(s, k, g + [c]);
    GapAt(s, k, g);
    if g != [] {
      assert g[0] in g && s[k] == g[0];
    }
  }

  lemma NullAt(s: string, i: nat)
    requires At(s, i, "null")
    ensures ScanOnce(s, i) == Ok(PNone, i + 4)
  {
    hide ScanString, ScanArray, ScanObject, ScanNumber;
    AtChar(s, i, "null", 0);
  }

  lemma TrueAt(s: string, i: nat)
    requires At(s, i, "true")
    ensures ScanOnce(s, i) == Ok(PBool(true), i + 4)
  {
    hide ScanString, ScanArray, ScanObject, ScanNumber;
    AtChar(s, i, "true", 0);
    if At(s, i, "null") {
      AtChar(s, i, "null", 0);
    }
  }

  lemma FalseAt(s: string, i: nat)
    requires At(s, i, "false")
    ensures ScanOnce(s, i) == Ok(PBool(false), i + 5)
  {
    hide ScanString, ScanArray, ScanObject, ScanNumber;
    AtChar(s, i, "false", 0);
    if At(s, i, "null") {
      AtChar(s, i, "null", 0);
    }
    if At(s, i, "true") {
      AtChar(s, i, "true", 0);
    }
  }

  lemma StrAt(s: string, i: nat, ps: seq<Valid>)
    requires At(s, i, Quoted(ps))
    ensures ScanOnce(s, i) == Ok(PStr(PiecesMeaning(ps)), i + |Quoted(ps)|)
  {
    hide ScanString, ScanArray, ScanObject, ScanNumber, Quoted;
    QuotedAt(s, i, ps);
  }

  lemma EmptyListAt(s: string, i: nat, gap: Gap)
    requires At(s, i, "[" + (gap + "]"))
    ensures ScanOnce(s, i) == Ok(PList([]), i + |gap| + 2)
  {
    hide ScanString, ScanObject, ScanNumber, ArrayItems, At;
    AtConcat(s, i, "[", gap + "]");
    AtChar(s, i, "[", 0);
    AfterValue(s, i + 1, gap, ']');
  }

  lemma EmptyDictAt(s: string, i: nat, gap: Gap)
    requires At(s, i, "{" + (gap + "}"))
    ensures ScanOnce(s, i) == Ok(PDict(map[]), i + |gap| + 2)
  {
    hide ScanString, ScanArray, ScanNumber, ObjectPairs, At;
    AtConcat(s, i, "{", gap + "}");
    AtChar(s, i, "{", 0);
    AfterValue(s, i + 1, gap, '}');
    assert s[i + 1] != '"' by {
      AtConcat(s, i + 1, gap, "}");
      AtEnds(s, i + 1, gap);
      assert gap != [] ==> gap[0] in gap;
    }
  }

  /** Every text of the grammar is read as what it means, wherever it stands. */
  lemma {:induction false} TreeAt(s: string, i: nat, t: Tree)
    requires At(s, i, TreeText(t)) && R.Delimited(s, i + |TreeText(t)|)
    ensures ScanOnce(s, i) == Ok(Meaning(t), i + |TreeText(t)|)
    decreases |TreeText(t)|, 0
  {
    hide ScanOnce, IntToString, Quoted, At, ItemText, EntryText, OthersText, TailText, R.Delimited, WsEnd, ArrayItems,
      ObjectPairs, MeaningAll, Extended, PiecesMeaning;
    match t
    case Null => NullAt(s, i);
    case True => TrueAt(s, i);
    case False => FalseAt(s, i);
    case Int(n) => R.NumberAt(s, i, n);
    case MinusZero => MinusZeroAt(s, i);
    case Float(text) => FloatAt(s, i, text);
    case NaN => NamedAt(s, i, "NaN");
    case Infinity => NamedAt(s, i, "Infinity");
    case MinusInfinity => NamedAt(s, i, "-Infinity");
    case Str(ps) => StrAt(s, i, ps);
    case EmptyList(gap) => EmptyListAt(s, i, gap);
    case EmptyDict(gap) => EmptyDictAt(s, i, gap);
    case List(first, others) =>
      AtConcat(s, i, "[", ItemText(first) + OthersText(others));
      ItemsAt(s, i + 1, first, others, []);
      ListFrom(s, i);
      AppendAssociates([], [], [Meaning(first.value)] + MeaningAll(others));
    case Dict(head, tail) =>
      AtConcat(s, i, "{", EntryText(head) + TailText(tail));
      EntriesAt(s, i + 1, head, tail, map[]);
      DictFrom(s, i);
  }

  lemma ListFrom(s: string, i: nat)
    requires At(s, i, "[") && WsEnd(s, i + 1) < |s| && s[WsEnd(s, i + 1)] != ']'
    ensures ScanOnce(s, i) == ArrayItems(s, WsEnd(s, i + 1), [])
  {
    hide ScanString, ScanObject, ScanNumber, ArrayItems, WsEnd;
    AtChar(s, i, "[", 0);
  }

  lemma DictFrom(s: string, i: nat)
    requires At(s, i, "{") && WsEnd(s, i + 1) < |s| && s[WsEnd(s, i + 1)] == '"'
    ensures ScanOnce(s, i) == ObjectPairs(s, WsEnd(s, i + 1) + 1, map[])
  {
    hide ScanString, ScanArray, ScanNumber, ObjectPairs;
    AtChar(s, i, "{", 0);
  }

  /** One item and the mark behind it: the loop of the array reads it and goes on. */
  lemma ItemAt(s: string, i: nat, x: Item, c: char, values: seq<PyJson>)
    requires At(s, i, ItemText(x) + [c]) && (c == ',' || c == ']')
    ensures var p := WsEnd(s, i); var k := i + |ItemText(x)|;
      p < k < |s| && s[p] != ']' && ScanOnce(s, p).Ok? && ScanOnce(s, p).value == Meaning(x.value) &&
      WsEnd(s, ScanOnce(s, p).end) == k && s[k] == c
    decreases |ItemText(x)|, 1
  {
    hide At, ScanOnce, TreeText, WsEnd, R.Delimited, NoBlank;
    var p, text := i + |x.before|, TreeText(x.value);
    assert ItemText(x) + [c] == x.before + (text + (x.after + [c]));
    AtConcat(s, i, x.before, text + (x.after + [c]));
    AtConcat(s, p, text, x.after + [c]);
    TreeStarts(s, p, x.value);
    GapAt(s, i, x.before);
    AfterValue(s, p + |text|, x.after, c);
    TreeAt(s, p, x.value);
  }

  lemma {:induction false} ItemsAt(s: string, i: nat, first: Item, others: seq<Item>, values: seq<PyJson>)
    requires At(s, i, ItemText(first) + OthersText(others))
    ensures WsEnd(s, i) < |s| && s[WsEnd(s, i)] != ']'
    ensures ArrayItems(s, WsEnd(s, i), values) ==
      Ok(PList(values + ([Meaning(first.value)] + MeaningAll(others))), i + |ItemText(first)| + |OthersText(others)|)
    decreases |ItemText(first)| + |OthersText(others)|, 2
  {
    hide At, ScanOnce, ItemText, Meaning, WsEnd;
    var v, k := Meaning(first.value), i + |ItemText(first)|;
    if others == [] {
      ItemAt(s, i, first, ']', values);
      assert [v] + MeaningAll(others) == [v];
    } else {
      assert ItemText(first) + OthersText(others)
          == ItemText(first) + "," + (ItemText(others[0]) + OthersText(others[1..]));
      AtConcat(s, i, ItemText(first) + ",", ItemText(others[0]) + OthersText(others[1..]));
      ItemAt(s, i, first, ',', values);
      ItemsAt(s, k + 1, others[0], others[1..], values + [v]);
      AppendAssociates(values, [v], [Meaning(others[0].value)] + MeaningAll(others[1..]));
    }
  }

  /** A key, its colon and the blanks around it. */
  lemma KeyAt(s: string, p: nat, x: Entry, rest: string)
    requires At(s, p, Quoted(x.key) + (x.between + (":" + (x.behind + rest))))
    requires NoBlank(s, p + |Quoted(x.key)| + |x.between| + 1 + |x.behind|)
    ensures p < |s| && s[p] == '"'
    ensures var colon := p + |Quoted(x.key)| + |x.between|; var start := colon + 1 + |x.behind|;
      ScanString(s, p + 1, p, []) == Ok(PiecesMeaning(x.key), p + |Quoted(x.key)|) && colon < |s| && s[colon] == ':' &&
      WsEnd(s, p + |Quoted(x.key)|) == colon && WsEnd(s, colon + 1) == start && At(s, start, rest)
  {
    hide At, WsEnd, Quoted, ScanString;
    var colon := p + |Quoted(x.key)| + |x.between|;
    AtConcat(s, p, Quoted(x.key), x.between + (":" + (x.behind + rest)));
    AtConcat(s, p + |Quoted(x.key)|, x.between, ":" + (x.behind + rest));
    AtConcat(s, colon, ":", x.behind + rest);
    AtConcat(s, colon + 1, x.behind, rest);
    QuotedAt(s, p, x.key);
    AtChar(s, colon, ":", 0);
    GapAt(s, p + |Quoted(x.key)|, x.between);
    GapAt(s, colon + 1, x.behind);
  }

  lemma PairIs(s: string, p: nat, key: string, j: nat, colon: nat, start: nat, v: PyJson, end: nat)
    requires p < |s| && j <= |s| && ScanString(s, p + 1, p, []) == Ok(key, j)
    requires WsEnd(s, j) == colon < |s| && s[colon] == ':' && WsEnd(s, colon + 1) == start
    requires ScanOnce(s, start) == Ok(v, end)
    ensures ScanPair(s, p + 1) == Ok((key, v), end)
  {
    hide ScanString, ScanOnce;
  }

  /** The text of an entry with what follows, from its key on. */
  lemma EntryParts(s: string, i: nat, x: Entry, c: char)
    requires At(s, i, EntryText(x) + [c])
    ensures var text := TreeText(x.value); var start := i + |EntryText(x)| - |x.after| - |text|;
      start == i + |x.before| + |Quoted(x.key)| + |x.between| + 1 + |x.behind| &&
      At(s, i, x.before) && At(s, start, text) && At(s, start + |text|, x.after + [c]) &&
      At(s, i + |x.before|, Quoted(x.key) + (x.between + (":" + (x.behind + (text + (x.after + [c]))))))
  {
    hide At, TreeText, Quoted;
    var text := TreeText(x.value);
    var rest := text + (x.after + [c]);
    var start := i + |EntryText(x)| - |x.after| - |text|;
    EntryWith(x, c);
    hide EntryText;
    AtConcat(s, i, x.before, Quoted(x.key) + (x.between + (":" + (x.behind + rest))));
    AtConcat(s, i + |x.before|, Quoted(x.key), x.between + (":" + (x.behind + rest)));
    AtConcat(s, i + |x.before| + |Quoted(x.key)|, x.between, ":" + (x.behind + rest));
    AtConcat(s, start - |x.behind| - 1, ":", x.behind + rest);
    AtConcat(s, start - |x.behind|, x.behind, rest);
    AtConcat(s, start, text, x.after + [c]);
  }

  lemma EntryWith(x: Entry, c: char)
    ensures EntryText(x) + [c] ==
      x.before + (Quoted(x.key) + (x.between + (":" + (x.behind + (TreeText(x.value) + (x.after + [c]))))))
    ensures |EntryText(x)|
         == |x.before| + |Quoted(x.key)| + |x.between| + 1 + |x.behind| + |TreeText(x.value)| + |x.after|
  {
    hide TreeText, Quoted;
  }

  /** The entry with its key at `p` and `c` behind it, at `k`, is read as what it means. */
  predicate EntryRead(s: string, p: nat, k: nat, x: Entry, c: char) {
    p < k < |s| && s[p] == '"' && s[k] == c &&
    var r := ScanPair(s, p + 1);
    r.Ok? && r.value == (PiecesMeaning(x.key), Meaning(x.value)) && WsEnd(s, r.end) == k
  }

  /** One entry and the mark behind it. */
  lemma EntryAt(s: string, i: nat, x: Entry, c: char)
    requires At(s, i, EntryText(x) + [c]) && (c == ',' || c == '}')
    ensures EntryRead(s, WsEnd(s, i), i + |EntryText(x)|, x, c)
    decreases |EntryText(x)|, 1
  {
    hide At, ScanOnce, TreeText, WsEnd, Quoted, ScanString, ScanPair, PiecesMeaning, EntryText, R.Delimited, Meaning;
    var p, text := i + |x.before|, TreeText(x.value);
    var colon := p + |Quoted(x.key)| + |x.between|;
    var start := colon + 1 + |x.behind|;
    EntryWith(x, c);
    EntryParts(s, i, x, c);
    TreeStarts(s, start, x.value);
    KeyAt(s, p, x, text + (x.after + [c]));
    GapAt(s, i, x.before);
    AfterValue(s, start + |text|, x.after, c);
    TreeAt(s, start, x.value);
    PairIs(s, p, PiecesMeaning(x.key), p + |Quoted(x.key)|, colon, start, Meaning(x.value), start + |text|);
  }

  lemma {:induction false} EntriesAt(s: string, i: nat, head: Entry, tail: seq<Entry>, pairs: map<string, PyJson>)
    requires At(s, i, EntryText(head) + TailText(tail))
    ensures WsEnd(s, i) < |s| && s[WsEnd(s, i)] == '"'
    ensures ObjectPairs(s, WsEnd(s, i) + 1, pairs) ==
      Ok(PDict(Extended(pairs[PiecesMeaning(head.key) := Meaning(head.value)], tail)),
         i + |EntryText(head)| + |TailText(tail)|)
    decreases |EntryText(head)| + |TailText(tail)|, 2
  {
    hide At, ScanPair, EntryText, Meaning, WsEnd, PiecesMeaning;
    var k := i + |EntryText(head)|;
    if tail == [] {
      EntryAt(s, i, head, '}');
    } else {
      assert EntryText(head) + TailText(tail) == EntryText(head) + "," + (EntryText(tail[0]) + TailText(tail[1..]));
      AtConcat(s, i, EntryText(head) + ",", EntryText(tail[0]) + TailText(tail[1..]));
      EntryAt(s, i, head, ',');
      EntriesAt(s, k + 1, tail[0], tail[1..], pairs[PiecesMeaning(head.key) := Meaning(head.value)]);
    }
  }

  /** At the end of a text nothing can prolong a value either. */
  lemma AtTheEnd(s: string, k: nat, g: Gap)
    requires At(s, k, g) && k + |g| == |s|
    ensures R.Delimited(s, k) && WsEnd(s, k) == |s|
  {
    AtEnds(s, k, g);
    GapAt(s, k, g);
    if g != [] {
      assert g[0] in g && s[k + 0] == g[0];
    }
  }

  /** Decoding any text of the grammar, with blanks around every token, gives its meaning. */
  lemma DecodeReads(before: Gap, t: Tree, after: Gap)
    ensures var s := before + (TreeText(t) + after); Decode(s) == Ok(Meaning(t), |s|)
  {
    hide ScanOnce, TreeText, Meaning, At, R.Delimited, WsEnd, IsGap;
    var s, i := before + (TreeText(t) + after), |before|;
    WholeText(s);
    AtConcat(s, 0, before, TreeText(t) + after);
    AtConcat(s, i, TreeText(t), after);
    TreeStarts(s, i, t);
    GapAt(s, 0, before);
    AtTheEnd(s, i + |TreeText(t)|, after);
    TreeAt(s, i, t);
  }

  lemma WholeText(s: string)
    ensures At(s, 0, s)
  {
    assert s[0..|s|] == s;
  }
}
