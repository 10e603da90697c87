/** All ways to write a JavaScript value as JSON: the printer of MochiKit uses one of them,
    and the decoder of simplejson reads them all. */
module JsonSpelling {
  import opened Text
  import opened JsonPrinter
  import opened JsonDecoder
  import opened JsonGrammar
  import R = JsonRoundTrip
  import C = JsonComplete

  /** `t` is a way to write `v`: any blanks, any escapes. */
  predicate Spells(t: Tree, v: JsValue)
    decreases t, 0
  {
    match v
    case JNull => t == Null
    case JBool(b) => t == if b then True else False
    case JNumber(n) => t == Int(n) || (n == 0 && t == MinusZero)
    case JString(s) => t.Str? && PiecesMeaning(t.pieces) == s
    case JArray(items) =>
      if items == [] then t.EmptyList?
      else t.List? && Spells(t.first.value, items[0]) && SpellAll(t.others, items[1..])
    case JObject(members) =>
      if members == [] then t.EmptyDict?
      else (t.Dict? && PiecesMeaning(t.head.key) == members[0].key && Spells(t.head.value, members[0].value) &&
            SpellMembers(t.tail, members[1..]))
  }

  predicate SpellAll(items: seq<Item>, vs: seq<JsValue>)
    decreases items, 1
  {
    |items| == |vs| && (items == [] || (Spells(items[0].value, vs[0]) && SpellAll(items[1..], vs[1..])))
  }

  predicate SpellMembers(entries: seq<Entry>, members: seq<Member>)
    decreases entries, 1
  {
    |entries| == |members| &&
    (entries == [] ||
     (PiecesMeaning(entries[0].key) == members[0].key && Spells(entries[0].value, members[0].value) &&
      SpellMembers(entries[1..], members[1..])))
  }

  lemma {:induction false} SpellingMeans(t: Tree, v: JsValue)
    requires Spells(t, v)
    ensures Meaning(t) == R.ToPy(v)
    decreases t, 0
  {
    match v
    case JArray(items) =>
      if items != [] {
        SpellingMeans(t.first.value, items[0]);
        AllMean(t.others, items[1..]);
      }
    case JObject(members) =>
      if members != [] {
        SpellingMeans(t.head.value, members[0].value);
        MembersMean(map[members[0].key := R.ToPy(members[0].value)], t.tail, members[1..]);
      }
    case _ =>
  }

  lemma {:induction false} AllMean(items: seq<Item>, vs: seq<JsValue>)
    requires SpellAll(items, vs)
    ensures MeaningAll(items) == R.ToPyAll(vs)
    decreases items, 1
  {
    hide R.ToPy, Meaning;
    if items != [] {
      SpellingMeans(items[0].value, vs[0]);
      AllMean(items[1..], vs[1..]);
      assert R.ToPyAll(vs) == [R.ToPy(vs[0])] + R.ToPyAll(vs[1..]);
    }
  }

  lemma {:induction false} MembersMean(pairs: map<string, PyJson>, entries: seq<Entry>, members: seq<Member>)
    requires SpellMembers(entries, members)
    ensures Extended(pairs, entries) == R.AddAll(pairs, members)
    decreases entries, 1
  {
    hide R.ToPy, Meaning;
    if entries != [] {
      SpellingMeans(entries[0].value, members[0].value);
      MembersMean(pairs[members[0].key := R.ToPy(members[0].value)], entries[1..], members[1..]);
    }
  }

  /** However a value is written, with whatever blanks, it is read as that value. */
  lemma DecodeSpelled(before: Gap, t: Tree, after: Gap, v: JsValue)
    requires Spells(t, v)
    ensures var s := before + (TreeText(t) + after); Decode(s) == Ok(R.ToPy(v), |s|)
  {
    SpellingMeans(t, v);
    C.DecodeReads(before, t, after);
  }

  // The printer's own way.

  /** The piece that the printer writes for a character. */
  function Written(c: char): (p: Valid)
    ensures PieceText(p) == Escape(c) && PieceMeaning(p) == c
  {
    if c <= 31 as char && c != BS && c != FF && c != LF && c != CR && c != TAB then Unicode(ControlUnit(c))
    else if Escape(c) == [c] then Plain(c)
    else Short(Escape(c)[1])
  }

  function ControlUnit(c: char): (u: Unit)
    requires c <= 31 as char
    ensures u.Text() == "\\u00" + [HexUpper(c as int / 16), HexUpper(c as int % 16)] && u.Code() == c as int
  {
    UpperDigit(c as int / 16);
    UpperDigit(c as int % 16);
    var u := Unit(Hex(0, true), Hex(0, true), Hex(c as int / 16, true), Hex(c as int % 16, true));
    assert u.Text() == ['\\', 'u', '0', '0', HexDigit(u.c), HexDigit(u.d)];
    u
  }

  lemma UpperDigit(d: Nibble)
    ensures HexDigit(Hex(d, true)) == HexUpper(d)
  {
    assert "0123456789ABCDEF"[d] == if d < 10 then '0' + d as char else 'A' + (d - 10) as char;
  }

  function WrittenAll(t: string): seq<Valid> {
    if t == [] then [] else [Written(t[0])] + WrittenAll(t[1..])
  }

  lemma PiecesStep(p: Valid, ps: seq<Valid>)
    ensures PiecesText([p] + ps) == PieceText(p) + PiecesText(ps)
    ensures PiecesMeaning([p] + ps) == [PieceMeaning(p)] + PiecesMeaning(ps)
  {
    hide PieceText, PieceMeaning;
    assert ([p] + ps)[1..] == ps;
  }

  lemma {:induction false} WrittenMeans(t: string)
    ensures PiecesMeaning(WrittenAll(t)) == t && PiecesText(WrittenAll(t)) == EscapeAll(t)
  {
    hide Written, PieceText, PieceMeaning, Escape, PiecesText, PiecesMeaning;
    if t == [] {
      NoPieces();
    } else {
      WrittenMeans(t[1..]);
      PiecesStep(Written(t[0]), WrittenAll(t[1..]));
    }
  }

  lemma NoPieces()
    ensures PiecesText([]) == [] && PiecesMeaning([]) == []
  {
  }

  /** The tree of what the printer writes: one blank behind a comma and no other. */
  lemma {:induction false} PrinterSpells(v: JsValue) returns (t: Tree)
    ensures TreeText(t) == Json(v) && Spells(t, v)
    decreases v, 0
  {
    hide EscapeAll, PiecesText, WrittenAll, PiecesMeaning, IntToString;
    match v
    case JNull => t := Null;
    case JBool(b) => t := if b then True else False;
    case JNumber(n) => t := Int(n);
    case JString(s) =>
      t := Str(WrittenAll(s));
      WrittenMeans(s);
    case JArray(items) => t := ArraySpelled(items);
    case JObject(members) => t := ObjectSpelled(members);
  }

  lemma ArraySpelled(items: seq<JsValue>) returns (t: Tree)
    ensures TreeText(t) == Json(JArray(items)) && Spells(t, JArray(items))
    decreases items, 2
  {
    hide ItemText, OthersText, Join, SpellAll;
    if items == [] {
      t := EmptyList([]);
      assert JsonAll(items) == [] && Join([]) == [] by { JoinNone(); }
    } else {
      var first, others := ItemsSpelled([], items);
      t := List(first, others);
      AppendAssociates([], [], Join(JsonAll(items)) + "]");
    }
  }

  lemma ObjectSpelled(members: seq<Member>) returns (t: Tree)
    ensures TreeText(t) == Json(JObject(members)) && Spells(t, JObject(members))
    decreases members, 2
  {
    hide EntryText, TailText, Join, SpellMembers, PiecesMeaning;
    if members == [] {
      t := EmptyDict([]);
      assert JsonMembers(members) == [] && Join([]) == [] by { JoinNone(); }
    } else {
      var head, tail := MembersSpelled([], members);
      t := Dict(head, tail);
      AppendAssociates([], [], Join(JsonMembers(members)) + "}");
    }
  }

  lemma JoinNone()
    ensures Join([]) == []
  {
  }

  lemma {:induction false} ItemsSpelled(before: Gap, items: seq<JsValue>) returns (first: Item, others: seq<Item>)
    requires items != []
    ensures Spells(first.value, items[0]) && SpellAll(others, items[1..])
    ensures ItemText(first) + OthersText(others) == before + (Join(JsonAll(items)) + "]")
    decreases items, 1
  {
    hide Json, TreeText, Join, Spells;
    var t := PrinterSpells(items[0]);
    first := Item(before, t, []);
    assert ItemText(first) == before + Json(items[0]);
    R.JoinStep(Json(items[0]), JsonAll(items[1..]), "]");
    if |items| == 1 {
      others := [];
      assert JsonAll(items) == [Json(items[0])];
      AppendAssociates(before, Json(items[0]), "]");
    } else {
      var second, more := ItemsSpelled(" ", items[1..]);
      others := [second] + more;
      assert others[1..] == more;
      var rest := Join(JsonAll(items[1..])) + "]";
      assert "," + (" " + rest) == ", " + rest;
      AppendAssociates(before, Json(items[0]), ", " + rest);
    }
  }

  lemma {:induction false} MembersSpelled(before: Gap, members: seq<Member>) returns (head: Entry, tail: seq<Entry>)
    requires members != []
    ensures PiecesMeaning(head.key) == members[0].key && Spells(head.value, members[0].value)
    ensures SpellMembers(tail, members[1..])
    ensures EntryText(head) + TailText(tail) == before + (Join(JsonMembers(members)) + "}")
    decreases members, 1
  {
    hide Json, TreeText, Join, Spells, PiecesText, EscapeAll, WrittenAll, PiecesMeaning;
    var m := members[0];
    var t := PrinterSpells(m.value);
    WrittenMeans(m.key);
    head := Entry(before, WrittenAll(m.key), [], [], t, []);
    var text := R.PairText(m);
    assert EntryText(head) == before + text by {
      AppendAssociates([], [], ":" + ([] + (TreeText(t) + [])));
    }
    R.PairFirst(members);
    R.JoinStep(text, JsonMembers(members[1..]), "}");
    if |members| == 1 {
      tail := [];
      AppendAssociates(before, text, "}");
    } else {
      var second, more := MembersSpelled(" ", members[1..]);
      tail := [second] + more;
      assert tail[1..] == more;
      var rest := Join(JsonMembers(members[1..])) + "}";
      assert "," + (" " + rest) == ", " + rest;
      AppendAssociates(before, text, ", " + rest);
    }
  }
}
