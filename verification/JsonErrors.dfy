/** Which error the decoder of simplejson reports, and where, at the place where a text leaves
    the grammar. */
module JsonErrors {
  import opened Text
  import opened JsonDecoder
  import opened JsonGrammar
  import C = JsonComplete
  import R = JsonRoundTrip

  // Strings.

  lemma {:induction false} Within(s: string, i: nat, begin: int, acc: string, ps: seq<Valid>)
    requires At(s, i, PiecesText(ps))
    ensures i + |PiecesText(ps)| <= |s|
    ensures ScanString(s, i, begin, acc) == ScanString(s, i + |PiecesText(ps)|, begin, acc + PiecesMeaning(ps))
    decreases |ps|
  {
    hide ScanString, PieceText, PieceMeaning, At;
    C.AtEnds(s, i, PiecesText(ps));
    if ps == [] {
      AppendAssociates(acc, [], []);
    } else {
      AtConcat(s, i, PieceText(ps[0]), PiecesText(ps[1..]));
      C.PieceAt(s, i, begin, acc, ps[0]);
      Within(s, i + |PieceText(ps[0])|, begin, acc + [PieceMeaning(ps[0])], ps[1..]);
      AppendAssociates(acc, [PieceMeaning(ps[0])], PiecesMeaning(ps[1..]));
    }
  }

  predicate FourDigits(s: string, i: nat) {
    i + 4 <= |s| && forall k :: i <= k < i + 4 ==>
      '0' <= s[k] <= '9' || 'a' <= s[k] <= 'f' || 'A' <= s[k] <= 'F'
  }

  /** A string that began at `begin` and has been read up to `i`, where it goes wrong. */
  lemma StopsAt(s: string, i: nat, begin: int, acc: string)
    requires i <= |s|
    ensures i == |s| ==> ScanString(s, i, begin, acc) == Err(UnterminatedString(begin))
    ensures i < |s| && s[i] < ' ' ==> ScanString(s, i, begin, acc) == Err(InvalidControl(i + 1))
    ensures i + 1 == |s| && s[i] == '\\' ==> ScanString(s, i, begin, acc) == Err(UnterminatedString(begin))
    ensures i + 1 < |s| && s[i] == '\\' && s[i + 1] !in "\"\\/bfnrtu" ==>
      ScanString(s, i, begin, acc) == Err(InvalidEscape(i + 1))
    ensures i + 1 < |s| && s[i] == '\\' && s[i + 1] == 'u' && !FourDigits(s, i + 2) ==>
      ScanString(s, i, begin, acc) == Err(InvalidUnicodeEscape(i + 1))
  {
    NoLetter(s, i);
    NoDigits(s, i);
    hide Backslash, UnicodeEscape, FourDigits;
  }

  lemma NoLetter(s: string, i: nat)
    ensures i + 1 < |s| && s[i + 1] !in "\"\\/bfnrtu" ==> Backslash(s[i + 1]) == None
  {
    var all := "\"\\/bfnrtu";
    assert all[0] == '"' && all[1] == '\\' && all[2] == '/' && all[3] == 'b' && all[4] == 'f';
    assert all[5] == 'n' && all[6] == 'r' && all[7] == 't' && all[8] == 'u';
  }

  lemma NoDigits(s: string, i: nat)
    ensures !FourDigits(s, i + 2) ==> UnicodeEscape(s, i + 2) == None
  {
    if Hex4(s, i + 2).Some? {
      assert FourDigits(s, i + 2);
    }
  }

  /** What is wrong with a string is reported wherever it stands in it. */
  lemma StringError(s: string, i: nat, ps: seq<Valid>)
    requires i < |s| && s[i] == '"' && At(s, i + 1, PiecesText(ps))
    ensures var k := i + 1 + |PiecesText(ps)|;
      k <= |s| &&
      (k == |s| ==> ScanOnce(s, i) == Err(UnterminatedString(i))) &&
      (k < |s| && s[k] < ' ' ==> ScanOnce(s, i) == Err(InvalidControl(k + 1))) &&
      (k + 1 == |s| && s[k] == '\\' ==> ScanOnce(s, i) == Err(UnterminatedString(i))) &&
      (k + 1 < |s| && s[k] == '\\' && s[k + 1] !in "\"\\/bfnrtu" ==> ScanOnce(s, i) == Err(InvalidEscape(k + 1))) &&
      (k + 1 < |s| && s[k] == '\\' && s[k + 1] == 'u' && !FourDigits(s, k + 2) ==>
         ScanOnce(s, i) == Err(InvalidUnicodeEscape(k + 1)))
  {
    hide ScanString, PiecesText, PiecesMeaning, FourDigits, At, ScanObject, ScanArray, ScanNumber;
    Within(s, i + 1, i, [], ps);
    StopsAt(s, i + 1 + |PiecesText(ps)|, i, [] + PiecesMeaning(ps));
  }

  // Lists and dictionaries.

  /** A mark, or the end, where a value should stand. */
  lemma NoValue(s: string, i: nat)
    requires i >= |s| || C.Mark(s[i])
    ensures ScanOnce(s, i) == Err(StopIteration)
  {
    hide ScanString, ScanObject, ScanArray;
    if i < |s| {
      C.NoKeyword(s, i);
      forall t | t in {"NaN", "Infinity", "-Infinity"} ensures !At(s, i, t) {
        if At(s, i, t) {
          AtChar(s, i, t, 0);
        }
      }
      assert "NaN" in {"NaN", "Infinity", "-Infinity"} && "Infinity" in {"NaN", "Infinity", "-Infinity"};
      assert "-Infinity" in {"NaN", "Infinity", "-Infinity"};
    }
  }

  /** Behind an item a list needs a comma or its bracket, and behind a comma another item. */
  lemma ListError(s: string, i: nat, v: Tree, after: Gap, values: seq<PyJson>)
    requires At(s, i, TreeText(v)) && At(s, i + |TreeText(v)|, after) && R.Delimited(s, i + |TreeText(v)|)
    requires C.NoBlank(s, i + |TreeText(v)| + |after|)
    ensures var k := i + |TreeText(v)| + |after|;
      k <= |s| &&
      (k == |s| || (s[k] != ',' && s[k] != ']') ==> ArrayItems(s, i, values) == Err(ExpectingComma(k + 1))) &&
      (k < |s| && s[k] == ',' ==> var next := WsEnd(s, k + 1);
         next == |s| || C.Mark(s[next]) ==> ArrayItems(s, i, values) == Err(ExpectingObject(next)))
  {
    hide ScanOnce, TreeText, At, IsGap, Meaning, C.Mark;
    var k := i + |TreeText(v)| + |after|;
    C.AtEnds(s, i, TreeText(v));
    C.TreeAt(s, i, v);
    C.GapAt(s, i + |TreeText(v)|, after);
    if k < |s| {
      if WsEnd(s, k + 1) == |s| || C.Mark(s[WsEnd(s, k + 1)]) {
        NoValue(s, WsEnd(s, k + 1));
      }
    }
  }

  /** Behind a key stand a colon and a value. */
  lemma EntryError(s: string, p: nat, key: seq<Valid>, between: Gap)
    requires At(s, p, Quoted(key)) && At(s, p + |Quoted(key)|, between)
    requires C.NoBlank(s, p + |Quoted(key)| + |between|)
    ensures var k := p + |Quoted(key)| + |between|;
      p + 1 <= |s| && k <= |s| &&
      (k == |s| || s[k] != ':' ==> ScanPair(s, p + 1) == Err(ExpectingColon(k))) &&
      (k < |s| && s[k] == ':' ==> var next := WsEnd(s, k + 1);
         next == |s| || C.Mark(s[next]) ==> ScanPair(s, p + 1) == Err(ExpectingObject(next)))
  {
    hide ScanOnce, Quoted, At, IsGap, ScanString, PiecesMeaning, C.Mark;
    var k := p + |Quoted(key)| + |between|;
    C.QuotedAt(s, p, key);
    C.GapAt(s, p + |Quoted(key)|, between);
    if k < |s| {
      if WsEnd(s, k + 1) == |s| || C.Mark(s[WsEnd(s, k + 1)]) {
        NoValue(s, WsEnd(s, k + 1));
      }
    }
  }

  /** Behind an entry a dictionary needs a comma or its brace, and behind a comma or the
      opening brace a key. */
  lemma DictError(s: string, k: nat, pairs: map<string, PyJson>)
    requires k <= |s|
    ensures var end := WsEnd(s, k);
      (end == |s| || (s[end] != ',' && s[end] != '}') ==> NextPair(s, k, pairs) == Err(ExpectingComma(end))) &&
      (end < |s| && s[end] == ',' ==> var next := WsEnd(s, end + 1);
         next == |s| || s[next] != '"' ==> NextPair(s, k, pairs) == Err(ExpectingPropertyName(next)))
    ensures var end := WsEnd(s, k);
      end == |s| || (s[end] != '}' && s[end] != '"') ==> ScanObject(s, k) == Err(ExpectingPropertyName(end))
  {
  }

  // Whole texts.

  /** A text without a value: blanks, and the end or a mark. */
  lemma NothingToDecode(s: string)
    requires WsEnd(s, 0) == |s| || C.Mark(s[WsEnd(s, 0)])
    ensures Decode(s) == Err(NoObject)
  {
    hide ScanOnce, C.Mark;
    NoValue(s, WsEnd(s, 0));
  }

  lemma Cut(before: Gap, text: string, after: Gap, rest: string)
    ensures var s := before + (text + (after + rest)); var k := |before| + |text|;
      At(s, 0, before) && At(s, |before|, text) && At(s, k, after) && At(s, k + |after|, rest)
    ensures forall j :: |text| <= j < |text + (after + rest)| ==>
      (before + (text + (after + rest)))[|before| + j] == (text + (after + rest))[j]
  {
    hide At, IsGap;
    var s := before + (text + (after + rest));
    C.WholeText(s);
    AtConcat(s, 0, before, text + (after + rest));
    AtConcat(s, |before|, text, after + rest);
    AtConcat(s, |before| + |text|, after, rest);
  }

  /** What stands behind a value is reported at its first character that is no blank. */
  lemma Extra(before: Gap, t: Tree, after: Gap, rest: string)
    requires rest != [] && C.NoBlank(rest, 0)
    requires R.Delimited(TreeText(t) + (after + rest), |TreeText(t)|)
    ensures Decode(before + (TreeText(t) + (after + rest))) == Err(ExtraData(|before| + |TreeText(t)| + |after|))
  {
    hide ScanOnce, TreeText, At, IsGap, Meaning, WsEnd;
    var s, i := before + (TreeText(t) + (after + rest)), |before|;
    var k := i + |TreeText(t)|;
    Cut(before, TreeText(t), after, rest);
    C.TreeStarts(s, i, t);
    C.GapAt(s, 0, before);
    assert s[k + |after|] == rest[0] by {
      AtChar(s, k + |after|, rest, 0);
    }
    C.GapAt(s, k, after);
    assert R.Delimited(s, k);
    C.TreeAt(s, i, t);
  }

  /** An error inside a value is the error of the whole, but for a missing value. */
  lemma ErrorPasses(s: string, i: nat, e: Error, values: seq<PyJson>, p: nat)
    requires ScanOnce(s, i) == Err(e)
    ensures i <= |s| ==> ArrayItems(s, i, values) == Err(if e == StopIteration then ExpectingObject(i) else e)
    ensures WsEnd(s, 0) == i ==> Decode(s) == Err(if e == StopIteration then NoObject else e)
    ensures p < |s| && ScanString(s, p + 1, p, []).Ok? ==>
      var colon := WsEnd(s, ScanString(s, p + 1, p, []).end);
      (colon < |s| && s[colon] == ':' && WsEnd(s, colon + 1) == i ==>
         ScanPair(s, p + 1) == Err(if e == StopIteration then ExpectingObject(i) else e))
  {
    hide ScanOnce, ScanString;
  }
}
