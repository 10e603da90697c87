/** The texts that the decoder of simplejson is for: JSON values with blanks around every
    token, every escape in strings, fractions and exponents, and Python's three extra
    constants; and what each of them means. */
module JsonGrammar {
  import opened Text
  import opened JsonDecoder

  // Strings.

  type Nibble = d: nat | d < 16

  datatype Hex = Hex(value: Nibble, upper: bool)

  /** A `\u` escape with its four digits, each in upper or lower case. */
  datatype Unit = Unit(a: Hex, b: Hex, c: Hex, d: Hex) {
    function Code(): nat {
      a.value * 4096 + b.value * 256 + c.value * 16 + d.value
    }
    function Text(): string {
      ['\\', 'u', HexDigit(a), HexDigit(b), HexDigit(c), HexDigit(d)]
    }
  }

  function HexDigit(h: Hex): char {
    if h.upper then "0123456789ABCDEF"[h.value] else "0123456789abcdef"[h.value]
  }

  datatype Piece =
    | Plain(c: char)
    | Short(c: char)
    | Unicode(unit: Unit)
    | Surrogates(high: Unit, low: Unit)

  /** The character that a backslash and a letter stand for. */
  function ShortMeaning(c: char): Option<char> {
    match c
    case '"' => Some('"')
    case '\\' => Some('\\')
    case '/' => Some('/')
    case 'b' => Some(8 as char)
    case 'f' => Some(12 as char)
    case 'n' => Some('\n')
    case 'r' => Some('\r')
    case 't' => Some('\t')
    case _ => None
  }

  /** The characters 0 to 31, the quotation mark and the backslash need an escape; surrogates
      come in pairs. */
  predicate PieceOk(p: Piece) {
    match p
    case Plain(c) => c != '"' && c != '\\' && ' ' <= c
    case Short(c) => ShortMeaning(c).Some?
    case Unicode(u) => u.Code() < 0xd800 || 0xe000 <= u.Code()
    case Surrogates(h, l) => 0xd800 <= h.Code() < 0xdc00 <= l.Code() < 0xe000
  }

  function PieceText(p: Piece): (t: string)
    ensures t != []
  {
    match p
    case Plain(c) => [c]
    case Short(c) => ['\\', c]
    case Unicode(u) => u.Text()
    case Surrogates(h, l) => h.Text() + l.Text()
  }

  function PieceMeaning(p: Piece): char
    requires PieceOk(p)
  {
    match p
    case Plain(c) => c
    case Short(c) => ShortMeaning(c).value
    case Unicode(u) => u.Code() as char
    case Surrogates(h, l) => (0x10000 + (h.Code() - 0xd800) * 0x400 + (l.Code() - 0xdc00)) as char
  }

  type Valid = p: Piece | PieceOk(p) witness Plain('a')

  function PiecesText(ps: seq<Valid>): string {
    if ps == [] then [] else PieceText(ps[0]) + PiecesText(ps[1..])
  }

  function PiecesMeaning(ps: seq<Valid>): string {
    if ps == [] then [] else [PieceMeaning(ps[0])] + PiecesMeaning(ps[1..])
  }

  /** A string with its quotation marks. */
  function Quoted(ps: seq<Valid>): string {
    "\"" + (PiecesText(ps) + "\"")
  }

  // Numbers.

  predicate IsNumeral(t: string) {
    t != [] && forall c :: c in t ==> '0' <= c <= '9'
  }

  /** An optional minus and a numeral without a superfluous 0. */
  predicate IsWhole(t: string) {
    var digits := if t != [] && t[0] == '-' then t[1..] else t;
    IsNumeral(digits) && (digits[0] == '0' ==> |digits| == 1)
  }

  predicate IsFraction(t: string) {
    t != [] && t[0] == '.' && IsNumeral(t[1..])
  }

  predicate IsExponent(t: string) {
    t != [] && (t[0] == 'e' || t[0] == 'E') &&
    (IsNumeral(t[1..]) || (|t| > 1 && (t[1] == '+' || t[1] == '-') && IsNumeral(t[2..])))
  }

  /** A whole number up to `i`, a fraction up to `j` and an exponent, one of them at least. */
  ghost predicate IsFloatCut(t: string, i: nat, j: nat) {
    i <= j <= |t| && i < |t| && IsWhole(t[..i]) && (i == j || IsFraction(t[i..j])) && (j == |t| || IsExponent(t[j..]))
  }

  ghost predicate IsFloat(t: string) {
    exists i: nat, j: nat :: IsFloatCut(t, i, j)
  }

  type FloatText = t: string | IsFloat(t) ghost witness (assert IsFloatCut("0.0", 1, 3); "0.0")

  // Values.

  predicate IsGap(t: string) {
    forall c :: c in t ==> c == ' ' || c == '\t' || c == '\n' || c == '\r'
  }

  /** The blanks between two tokens. */
  type Gap = t: string | IsGap(t)

  datatype Tree =
    | Null | True | False
    | Int(n: int)
    | MinusZero
    | Float(text: FloatText)
    | NaN | Infinity | MinusInfinity
    | Str(pieces: seq<Valid>)
    | EmptyList(gap: Gap)
    | List(first: Item, others: seq<Item>)
    | EmptyDict(gap: Gap)
    | Dict(head: Entry, tail: seq<Entry>)

  datatype Item = Item(before: Gap, value: Tree, after: Gap)

  datatype Entry =
    Entry(before: Gap, key: seq<Valid>, between: Gap, behind: Gap, value: Tree, after: Gap)

  function TreeText(t: Tree): string
    decreases t, 0
  {
    match t
    case Null => "null"
    case True => "true"
    case False => "false"
    case Int(n) => IntToString(n)
    case MinusZero => "-0"
    case Float(text) => text
    case NaN => "NaN"
    case Infinity => "Infinity"
    case MinusInfinity => "-Infinity"
    case Str(ps) => Quoted(ps)
    case EmptyList(gap) => "[" + (gap + "]")
    case List(first, others) => "[" + (ItemText(first) + OthersText(others))
    case EmptyDict(gap) => "{" + (gap + "}")
    case Dict(head, tail) => "{" + (EntryText(head) + TailText(tail))
  }

  function ItemText(x: Item): string
    decreases x, 1
  {
    x.before + (TreeText(x.value) + x.after)
  }

  /** The items behind the first one, each after a comma, and the closing bracket. */
  function OthersText(items: seq<Item>): string
    decreases items, 2
  {
    if items == [] then "]" else "," + (ItemText(items[0]) + OthersText(items[1..]))
  }

  function EntryText(x: Entry): string
    decreases x, 1
  {
    x.before + (Quoted(x.key) + (x.between + (":" + (x.behind + (TreeText(x.value) + x.after)))))
  }

  function TailText(entries: seq<Entry>): string
    decreases entries, 2
  {
    if entries == [] then "}" else "," + (EntryText(entries[0]) + TailText(entries[1..]))
  }

  /** The Python value of a text; a later entry of a dictionary replaces an earlier one with
      the same key. */
  function Meaning(t: Tree): PyJson
    decreases t, 0
  {
    match t
    case Null => PNone
    case True => PBool(true)
    case False => PBool(false)
    case Int(n) => PInt(n)
    case MinusZero => PInt(0)
    case Float(text) => PFloat(text)
    case NaN => PConstant("NaN")
    case Infinity => PConstant("Infinity")
    case MinusInfinity => PConstant("-Infinity")
    case Str(ps) => PStr(PiecesMeaning(ps))
    case EmptyList(_) => PList([])
    case List(first, others) => PList([Meaning(first.value)] + MeaningAll(others))
    case EmptyDict(_) => PDict(map[])
    case Dict(head, tail) => PDict(Extended(map[PiecesMeaning(head.key) := Meaning(head.value)], tail))
  }

  function MeaningAll(items: seq<Item>): (vs: seq<PyJson>)
    decreases items, 1
  {
    if items == [] then [] else [Meaning(items[0].value)] + MeaningAll(items[1..])
  }

  function Extended(pairs: map<string, PyJson>, entries: seq<Entry>): map<string, PyJson>
    decreases entries, 1
  {
    if entries == [] then pairs
    else Extended(pairs[PiecesMeaning(entries[0].key) := Meaning(entries[0].value)], entries[1..])
  }
}
