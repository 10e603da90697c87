/** `serializeJSON` of MochiKit.Base, on values without adapters: null, booleans, integers,
    strings, arrays and objects. */
module JsonPrinter {
  import opened Text

  /** Integers that every JavaScript number of their value prints digit by digit. */
  type SafeInteger = n: int | -0x20_0000_0000_0000 <= n <= 0x20_0000_0000_0000

  datatype Member = Member(key: string, value: JsValue)

  /** An object is its members in enumeration order. */
  datatype JsValue =
    | JNull
    | JBool(b: bool)
    | JNumber(n: SafeInteger)
    | JString(s: string)
    | JArray(items: seq<JsValue>)
    | JObject(members: seq<Member>)

  predicate DistinctKeys(members: seq<Member>) {
    forall i, j :: 0 <= i < j < |members| ==> members[i].key != members[j].key
  }

  predicate WellFormed(v: JsValue) {
    match v
    case JArray(items) => forall w :: w in items ==> WellFormed(w)
    case JObject(members) => DistinctKeys(members) && forall m :: m in members ==> WellFormed(m.value)
    case _ => true
  }

  // Strings.

  function HexUpper(d: nat): char
    requires d < 16
  {
    if d < 10 then '0' + d as char else 'A' + (d - 10) as char
  }

  const BS := 8 as char
  const TAB := 9 as char
  const LF := 10 as char
  const FF := 12 as char
  const CR := 13 as char

  /** One character of a string literal. */
  function Escape(c: char): (e: string)
    ensures e != []
  {
    if c == '"' then "\\\""
    else if c == '\\' then "\\\\"
    else if c == BS then "\\b"
    else if c == FF then "\\f"
    else if c == LF then "\\n"
    else if c == CR then "\\r"
    else if c == TAB then "\\t"
    else if c <= 31 as char then "\\u00" + [HexUpper(c as int / 16), HexUpper(c as int % 16)]
    else [c]
  }

  function EscapeAll(s: string): string {
    if s == [] then [] else Escape(s[0]) + EscapeAll(s[1..])
  }

  function Quote(s: string): string {
    "\"" + (EscapeAll(s) + "\"")
  }

  // What an object is printed as.

  function IndexOfKey(members: seq<Member>, key: string): (i: nat)
    ensures i <= |members|
    ensures forall k :: 0 <= k < i ==> members[k].key != key
    ensures i < |members| ==> members[i].key == key
  {
    if members == [] || members[0].key == key then 0 else 1 + IndexOfKey(members[1..], key)
  }

  /** `typeof(o.length) == "number"`: such an object is taken for an array. */
  function NumericLength(members: seq<Member>): Option<int> {
    var i := IndexOfKey(members, "length");
    if i < |members| && members[i].value.JNumber? then Some(members[i].value.n) else None
  }

  /** The value whose members and items are printed, or None where the printer fails with
      a TypeError because an element that `length` promises is undefined. */
  function Printed(v: JsValue): Option<JsValue>
    decreases v, 1, 0
  {
    match v
    case JArray(items) =>
      (match PrintedAll(v, items)
       case None => None
       case Some(ws) => Some(JArray(ws)))
    case JObject(members) =>
      (match NumericLength(members)
       case Some(n) =>
         (match PrintedElements(v, 0, if n < 0 then 0 else n)
          case None => None
          case Some(ws) => Some(JArray(ws)))
       case None =>
         match PrintedMembers(v, members)
         case None => None
         case Some(ms) => Some(JObject(ms)))
    case _ => Some(v)
  }

  function PrintedAll(ghost v: JsValue, items: seq<JsValue>): (r: Option<seq<JsValue>>)
    requires forall k :: 0 <= k < |items| ==> items[k] < v
    ensures r.Some? ==> |r.value| == |items|
    ensures r.Some? ==> forall k :: 0 <= k < |items| ==> Printed(items[k]) == Some(r.value[k])
    decreases v, 0, |items|
  {
    if items == [] then Some([])
    else match (Printed(items[0]), PrintedAll(v, items[1..]))
         case (Some(w), Some(ws)) => Some([w] + ws)
         case _ => None
  }

  function PrintedMembers(ghost v: JsValue, members: seq<Member>): (r: Option<seq<Member>>)
    requires forall k :: 0 <= k < |members| ==> members[k].value < v
    ensures r.Some? ==> |r.value| == |members|
    ensures r.Some? ==> forall k :: 0 <= k < |members| ==>
      members[k].key == r.value[k].key && Printed(members[k].value) == Some(r.value[k].value)
    decreases v, 0, |members|
  {
    if members == [] then Some([])
    else match (Printed(members[0].value), PrintedMembers(v, members[1..]))
         case (Some(w), Some(ms)) => Some([Member(members[0].key, w)] + ms)
         case _ => None
  }

  /** The elements o[i], ..., o[n - 1] of an object. */
  function PrintedElements(v: JsValue, i: nat, n: nat): (r: Option<seq<JsValue>>)
    requires v.JObject?
    decreases v, 0, n - i
  {
    if i >= n then Some([])
    else
      var k := IndexOfKey(v.members, NatToString(i));
      if k == |v.members| then None
      else match (Printed(v.members[k].value), PrintedElements(v, i + 1, n))
           case (Some(w), Some(ws)) => Some([w] + ws)
           case _ => None
  }

  // The text.

  function Join(parts: seq<string>): string {
    if parts == [] then []
    else if |parts| == 1 then parts[0]
    else parts[0] + (", " + Join(parts[1..]))
  }

  /** The JSON text of a value, member by member. */
  function Json(v: JsValue): (t: string)
    ensures t != []
    decreases v, 0
  {
    match v
    case JNull => "null"
    case JBool(b) => if b then "true" else "false"
    case JNumber(n) => IntToString(n)
    case JString(s) => Quote(s)
    case JArray(items) => "[" + (Join(JsonAll(items)) + "]")
    case JObject(members) => "{" + (Join(JsonMembers(members)) + "}")
  }

  function JsonAll(items: seq<JsValue>): (r: seq<string>)
    ensures |r| == |items|
    decreases items, 1
  {
    if items == [] then [] else [Json(items[0])] + JsonAll(items[1..])
  }

  function JsonMembers(members: seq<Member>): (r: seq<string>)
    ensures |r| == |members|
    decreases members, 1
  {
    if members == [] then []
    else [Quote(members[0].key) + (":" + Json(members[0].value))] + JsonMembers(members[1..])
  }

  /** `serializeJSON(v)`. */
  function Serialize(v: JsValue): Option<string> {
    match Printed(v)
    case None => None
    case Some(w) => Some(Json(w))
  }

  // Array-like objects.

  /** The member with a key, when keys are distinct. */
  lemma KeyAt(members: seq<Member>, m: Member)
    requires DistinctKeys(members) && m in members
    ensures var i := IndexOfKey(members, m.key); i < |members| && members[i] == m
  {
  }

  /** A number under "length" makes an object array-like. */
  lemma ArrayLikeIff(members: seq<Member>, n: SafeInteger)
    requires DistinctKeys(members)
    ensures NumericLength(members) == Some(n) <==> Member("length", JNumber(n)) in members
    ensures NumericLength(members) == None <==> forall k: SafeInteger :: Member("length", JNumber(k)) !in members
  {
    hide DistinctKeys;
    var i := IndexOfKey(members, "length");
    if i < |members| && members[i].value.JNumber? {
      assert members[i] == Member("length", JNumber(members[i].value.n));
    }
    forall k: SafeInteger | Member("length", JNumber(k)) in members ensures NumericLength(members) == Some(k) {
      KeyAt(members, Member("length", JNumber(k)));
    }
  }

  /** `v` has a printable member under the key that is the numeral of `k`. */
  predicate HasElement(v: JsValue, k: nat)
    requires v.JObject?
  {
    exists m :: m in v.members && m.key == NatToString(k) && Printed(m.value).Some?
  }

  /** `w` is printed of the member under the numeral of `k`. */
  predicate IsElement(v: JsValue, k: nat, w: JsValue)
    requires v.JObject?
  {
    exists m :: m in v.members && m.key == NatToString(k) && Printed(m.value) == Some(w)
  }

  /** `ws` are the printed members from `i` on. */
  predicate AreElements(v: JsValue, i: nat, ws: seq<JsValue>)
    requires v.JObject?
  {
    forall k: nat :: k < |ws| ==> IsElement(v, i + k, ws[k])
  }

  lemma {:induction false} ElementsIff(v: JsValue, i: nat, n: nat)
    requires v.JObject? && DistinctKeys(v.members) && i <= n
    ensures PrintedElements(v, i, n).Some? <==> forall k: nat :: i <= k < n ==> HasElement(v, k)
    ensures PrintedElements(v, i, n).Some? ==> |PrintedElements(v, i, n).value| == n - i
    ensures PrintedElements(v, i, n).Some? ==> AreElements(v, i, PrintedElements(v, i, n).value)
    decreases n - i
  {
    hide DistinctKeys, Printed, HasElement, IsElement, NatToString;
    if i < n {
      ElementsIff(v, i + 1, n);
      ElementAt(v, i);
      if PrintedElements(v, i, n).Some? {
        MoreElements(v, i, PrintedElements(v, i, n).value);
      }
    }
  }

  lemma MoreElements(v: JsValue, i: nat, ws: seq<JsValue>)
    requires v.JObject? && ws != []
    ensures IsElement(v, i, ws[0]) && AreElements(v, i + 1, ws[1..]) ==> AreElements(v, i, ws)
  {
    hide IsElement;
    if IsElement(v, i, ws[0]) && AreElements(v, i + 1, ws[1..]) {
      forall k: nat | k < |ws| ensures IsElement(v, i + k, ws[k]) {
        if k > 0 {
          assert IsElement(v, i + 1 + (k - 1), ws[1..][k - 1]);
        }
      }
    }
  }

  lemma ElementAt(v: JsValue, k: nat)
    requires v.JObject? && DistinctKeys(v.members)
    ensures var j := IndexOfKey(v.members, NatToString(k));
      (HasElement(v, k) <==> j < |v.members| && Printed(v.members[j].value).Some?) &&
      (HasElement(v, k) ==> IsElement(v, k, Printed(v.members[j].value).value))
  {
    hide DistinctKeys, Printed, NatToString;
    var j := IndexOfKey(v.members, NatToString(k));
    if j < |v.members| {
      assert v.members[j] in v.members;
    }
    forall m | m in v.members && m.key == NatToString(k) ensures j < |v.members| && v.members[j] == m {
      KeyAt(v.members, m);
    }
  }

  /** An object with the number n under "length" is printed as the array of its members
      "0" to n - 1, and cannot be printed if one of them is missing or cannot. */
  lemma ArrayLikePrinted(v: JsValue, n: SafeInteger)
    requires v.JObject? && DistinctKeys(v.members) && Member("length", JNumber(n)) in v.members
    ensures Printed(v).Some? <==> forall k: nat :: k < n ==> HasElement(v, k)
    ensures Printed(v).Some? ==>
      Printed(v).value.JArray? && |Printed(v).value.items| == (if n < 0 then 0 else n)
    ensures Printed(v).Some? ==> forall k: nat :: k < n ==> IsElement(v, k, Printed(v).value.items[k])
  {
    hide DistinctKeys, NumericLength, PrintedElements, PrintedMembers, HasElement, IsElement;
    ArrayLikeIff(v.members, n);
    ElementsIff(v, 0, if n < 0 then 0 else n);
    if Printed(v).Some? {
      var ws := Printed(v).value.items;
      forall k: nat | k < n ensures IsElement(v, k, ws[k]) {
        assert IsElement(v, 0 + k, ws[k]);
      }
    }
  }

  // The printer as it is written.

  method QuoteLoop(o: string) returns (r: string)
    ensures r == Quote(o)
  {
    var res := "";
    for i := 0 to |o|
      invariant res + EscapeAll(o[i..]) == EscapeAll(o)
    {
      assert o[i..][1..] == o[i + 1..];
      AppendAssociates(res, Escape(o[i]), EscapeAll(o[i + 1..]));
      res := res + Escape(o[i]);
    }
    AppendAssociates(res, [], []);
    return "\"" + (res + "\"");
  }

  lemma {:induction false} AllSerialized(v: JsValue, items: seq<JsValue>, res: seq<string>)
    requires forall k :: 0 <= k < |items| ==> items[k] < v
    requires |res| == |items| && forall k :: 0 <= k < |items| ==> Serialize(items[k]) == Some(res[k])
    ensures PrintedAll(v, items).Some? && JsonAll(PrintedAll(v, items).value) == res
  {
    hide Printed, Json;
    if items != [] {
      AllSerialized(v, items[1..], res[1..]);
      var w, ws := Printed(items[0]).value, PrintedAll(v, items[1..]).value;
      assert ([w] + ws)[1..] == ws && [res[0]] + res[1..] == res;
      assert Serialize(items[0]) == Some(Json(w));
    }
  }

  lemma {:induction false} SomeUnserializable(v: JsValue, items: seq<JsValue>, k: nat)
    requires forall j :: 0 <= j < |items| ==> items[j] < v
    requires k < |items| && Serialize(items[k]) == None
    ensures PrintedAll(v, items) == None
    decreases k
  {
    hide Printed, Json;
    if k > 0 {
      SomeUnserializable(v, items[1..], k - 1);
    }
  }

  lemma {:induction false} MembersSerialized(v: JsValue, members: seq<Member>, res: seq<string>)
    requires forall k :: 0 <= k < |members| ==> members[k].value < v
    requires |res| == |members| && forall k :: 0 <= k < |members| ==>
      Serialize(members[k].value).Some? && res[k] == Quote(members[k].key) + (":" + Serialize(members[k].value).value)
    ensures PrintedMembers(v, members).Some? && JsonMembers(PrintedMembers(v, members).value) == res
  {
    hide Printed, Json, Quote;
    if members != [] {
      MembersSerialized(v, members[1..], res[1..]);
      var w, ms := Printed(members[0].value).value, PrintedMembers(v, members[1..]).value;
      var m := Member(members[0].key, w);
      assert ([m] + ms)[0] == m && ([m] + ms)[1..] == ms && [res[0]] + res[1..] == res;
      assert Serialize(members[0].value) == Some(Json(w));
      assert JsonMembers([m] + ms) == [Quote(m.key) + (":" + Json(m.value))] + JsonMembers(ms);
    }
  }

  lemma {:induction false} SomeMemberUnserializable(v: JsValue, members: seq<Member>, k: nat)
    requires forall j :: 0 <= j < |members| ==> members[j].value < v
    requires k < |members| && Serialize(members[k].value) == None
    ensures PrintedMembers(v, members) == None
    decreases k
  {
    hide Printed, Json;
    if k > 0 {
      SomeMemberUnserializable(v, members[1..], k - 1);
    }
  }

  /** What the array loop has printed of an object's elements, and what is left. */
  ghost predicate Elements(v: JsValue, n: nat, res: seq<string>)
    requires v.JObject?
  {
    match (PrintedElements(v, 0, n), PrintedElements(v, |res|, n))
    case (Some(all), Some(rest)) => JsonAll(all) == res + JsonAll(rest)
    case (None, None) => true
    case _ => false
  }

  lemma ElementsStep(v: JsValue, n: nat, res: seq<string>)
    requires v.JObject? && |res| < n && Elements(v, n, res)
    ensures var k := IndexOfKey(v.members, NatToString(|res|));
      if k < |v.members| && Serialize(v.members[k].value).Some?
      then Elements(v, n, res + [Serialize(v.members[k].value).value])
      else PrintedElements(v, 0, n) == None
  {
    var k := IndexOfKey(v.members, NatToString(|res|));
    hide Printed, Json;
    if k < |v.members| && Serialize(v.members[k].value).Some? && PrintedElements(v, |res| + 1, n).Some? {
      var w, ws := Printed(v.members[k].value).value, PrintedElements(v, |res| + 1, n).value;
      assert ([w] + ws)[1..] == ws;
      AppendAssociates(res, [Json(w)], JsonAll(ws));
    }
  }

  /** `serializeJSON`. */
  method SerializeJSON(o: JsValue) returns (r: Option<string>)
    ensures r == Serialize(o)
    decreases o, 1
  {
    match o
    case JNull => r := Some("null");
    case JBool(b) => r := Some(if b then "true" else "false");
    case JNumber(n) => r := Some(IntToString(n));
    case JString(s) =>
      var q := QuoteLoop(s);
      r := Some(q);
    case JArray(items) => r := SerializeArray(o);
    case JObject(members) =>
      var n := NumericLength(members);
      if n.Some? {
        r := SerializeArrayLike(o, n.value);
      } else {
        r := SerializeObject(o);
      }
  }

  method SerializeArray(o: JsValue) returns (r: Option<string>)
    requires o.JArray?
    ensures r == Serialize(o)
    decreases o, 0
  {
    hide Json;
    var res := [];
    for i := 0 to |o.items|
      invariant |res| == i && forall k :: 0 <= k < i ==> Serialize(o.items[k]) == Some(res[k])
    {
      var val := SerializeJSON(o.items[i]);
      if val == None {
        SomeUnserializable(o, o.items, i);
        return None;
      }
      res := res + [val.value];
    }
    AllSerialized(o, o.items, res);
    r := Some("[" + (Join(res) + "]"));
    JsonOfArray(PrintedAll(o, o.items).value);
  }

  lemma JsonOfArray(items: seq<JsValue>)
    ensures Json(JArray(items)) == "[" + (Join(JsonAll(items)) + "]")
  {
  }

  lemma JsonOfObject(members: seq<Member>)
    ensures Json(JObject(members)) == "{" + (Join(JsonMembers(members)) + "}")
  {
  }

  /** The array branch, taken by an object whose member `length` is a number. */
  method SerializeArrayLike(o: JsValue, n: int) returns (r: Option<string>)
    requires o.JObject? && NumericLength(o.members) == Some(n)
    ensures r == Serialize(o)
    decreases o, 0
  {
    hide Json;
    var res := [];
    var i := 0;
    while i < n
      invariant |res| == i && (n < 0 ==> i == 0) && (n >= 0 ==> i <= n)
      invariant n >= 0 ==> Elements(o, n, res)
    {
      ElementsStep(o, n, res);
      var k := IndexOfKey(o.members, NatToString(i));
      if k == |o.members| {
        return None;
      }
      var val := SerializeJSON(o.members[k].value);
      if val == None {
        return None;
      }
      res := res + [val.value];
      i := i + 1;
    }
    r := Some("[" + (Join(res) + "]"));
    ghost var m := if n < 0 then 0 else n;
    AppendAssociates(res, [], []);
    assert PrintedElements(o, 0, m).Some?;
    JsonOfArray(PrintedElements(o, 0, m).value);
  }

  method SerializeObject(o: JsValue) returns (r: Option<string>)
    requires o.JObject? && NumericLength(o.members) == None
    ensures r == Serialize(o)
    decreases o, 0
  {
    hide Json, Quote;
    var res := [];
    for i := 0 to |o.members|
      invariant |res| == i && forall k :: 0 <= k < i ==>
        Serialize(o.members[k].value).Some? &&
        res[k] == Quote(o.members[k].key) + (":" + Serialize(o.members[k].value).value)
    {
      var useKey := QuoteLoop(o.members[i].key);
      var val := SerializeJSON(o.members[i].value);
      if val == None {
        SomeMemberUnserializable(o, o.members, i);
        return None;
      }
      res := res + [useKey + (":" + val.value)];
    }
    MembersSerialized(o, o.members, res);
    r := Some("{" + (Join(res) + "}"));
    JsonOfObject(PrintedMembers(o, o.members).value);
  }
}
