/** Strings shared by every printer and parser of the project: occurrences at a
    position, decimal numerals, concatenation. */
module Text {
  datatype Option<+T> = None | Some(value: T) {
    function GetOr(default: T): T {
      if Some? then value else default
    }
  }

  /** `t` occurs in `s` at position `i`. */
  predicate At(s: string, i: nat, t: string) {
    i + |t| <= |s| && s[i..i + |t|] == t
  }

  lemma AtConcat(s: string, i: nat, a: string, b: string)
    ensures At(s, i, a + b) <==> At(s, i, a) && At(s, i + |a|, b)
  {
    if At(s, i, a + b) {
      assert s[i..i + |a|] == s[i..i + |a + b|][..|a|] == a;
      assert s[i + |a|..i + |a| + |b|] == s[i..i + |a + b|][|a|..] == b;
    }
    if At(s, i, a) && At(s, i + |a|, b) {
      assert s[i..i + |a + b|] == s[i..i + |a|] + s[i + |a|..i + |a| + |b|];
    }
  }

  lemma AtChar(s: string, i: nat, t: string, k: nat)
    requires At(s, i, t) && k < |t|
    ensures s[i + k] == t[k]
  {
    assert s[i..i + |t|][k] == t[k];
  }

  lemma AtContext(before: string, t: string, after: string)
    ensures At(before + t + after, |before|, t)
  {
    assert (before + t + after)[|before|..|before| + |t|] == t;
  }

  /** The first position at or after `i` where `c` stands, as in `%[^c]` and `find`. */
  function FindChar(s: string, c: char, i: nat): (j: nat)
    requires i <= |s|
    ensures i <= j <= |s|
    ensures forall k :: i <= k < j ==> s[k] != c
    ensures j < |s| ==> s[j] == c
    decreases |s| - i
  {
    if i < |s| && s[i] != c then FindChar(s, c, i + 1) else i
  }

  lemma FindCharAt(s: string, c: char, i: nat, t: string)
    requires At(s, i, t + [c]) && c !in t
    ensures FindChar(s, c, i) == i + |t|
  {
    AtConcat(s, i, t, [c]);
    AtChar(s, i + |t|, [c], 0);
    forall k | i <= k < i + |t| ensures s[k] == t[k - i] {
      AtChar(s, i, t, k - i);
    }
  }

  /** The blanks of C's isspace and of Python's strip. */
  predicate IsSpace(c: char) {
    c == ' ' || '\t' <= c <= '\r'
  }

  // Decimal numerals.

  predicate IsDigit(c: char) {
    '0' <= c <= '9'
  }

  predicate AllDigits(s: string) {
    forall k :: 0 <= k < |s| ==> IsDigit(s[k])
  }

  function Digit(d: nat): char
    requires d < 10
  {
    '0' + d as char
  }

  function NatToString(n: nat): (s: string)
    ensures s != [] && AllDigits(s)
    ensures s[0] == '0' ==> n == 0
    ensures n == 0 ==> s == "0"
  {
    if n < 10 then [Digit(n)] else NatToString(n / 10) + [Digit(n % 10)]
  }

  function IntToString(n: int): string {
    if n < 0 then "-" + NatToString(-n) else NatToString(n)
  }

  function DigitsValue(s: string): nat
    requires AllDigits(s)
  {
    if s == [] then 0
    else DigitsValue(s[..|s| - 1]) * 10 + (s[|s| - 1] as int - '0' as int)
  }

  lemma {:induction false} DigitsOfNat(n: nat)
    ensures DigitsValue(NatToString(n)) == n
  {
    var s := NatToString(n);
    if n >= 10 {
      DigitsOfNat(n / 10);
      assert s[..|s| - 1] == NatToString(n / 10);
    } else {
      assert s[..0] == [];
    }
  }

  /** A numeral is the numeral of its tenth and one of the ten digits, which stand for 0 to 9. */
  lemma NumeralDigits(n: nat)
    ensures NatToString(n) == (if n < 10 then "" else NatToString(n / 10)) + ["0123456789"[n % 10]]
    ensures IntToString(-(n as int)) == if n == 0 then "0" else "-" + NatToString(n)
  {
    assert forall d :: 0 <= d < 10 ==> "0123456789"[d] == (48 + d) as char;
  }

  lemma IntToStringChars(n: int, c: char)
    requires c != '-' && !IsDigit(c)
    ensures c !in IntToString(n)
  {
    var digits := NatToString(if n < 0 then -n else n);
    assert forall k :: 0 <= k < |digits| ==> digits[k] != c;
  }

  /** The end of the run of digits that starts at `i`. */
  function DigitRun(s: string, i: nat): (j: nat)
    requires i <= |s|
    ensures i <= j <= |s|
    ensures forall k :: i <= k < j ==> IsDigit(s[k])
    ensures j < |s| ==> !IsDigit(s[j])
    decreases |s| - i
  {
    if i < |s| && IsDigit(s[i]) then DigitRun(s, i + 1) else i
  }

  lemma DigitRunAt(s: string, i: nat, t: string)
    requires At(s, i, t) && AllDigits(t)
    requires i + |t| < |s| ==> !IsDigit(s[i + |t|])
    ensures DigitRun(s, i) == i + |t|
  {
    forall k | i <= k < i + |t| ensures s[k] == t[k - i] {
      AtChar(s, i, t, k - i);
    }
  }

  // Other helpers.

  function Min(a: int, b: int): int {
    if a < b then a else b
  }

  /** What is left of a list without its element `i`. */
  lemma Left<T>(s: seq<T>, i: nat)
    requires i < |s|
    ensures var rest := s[..i] + s[i + 1..];
      && |rest| == |s| - 1 && rest[..i] == s[..i] && rest[i..] == s[i + 1..]
      && (forall k :: 0 <= k < |rest| ==> rest[k] == if k < i then s[k] else s[k + 1])
      && forall k :: 0 <= k < |rest| ==> rest[k] in s
  {
  }

  lemma SubsetSize<T>(a: set<T>, b: set<T>)
    requires a <= b
    ensures |a| <= |b|
  {
    assert b == a + (b - a);
  }

  /** `a` is what is left of `b` when some elements are dropped. */
  predicate IsSubsequence<T(==)>(a: seq<T>, b: seq<T>) {
    if a == [] then true
    else if b == [] then false
    else if a[0] == b[0] then IsSubsequence(a[1..], b[1..])
    else IsSubsequence(a, b[1..])
  }

  function Concat(parts: seq<string>): string {
    if parts == [] then [] else parts[0] + Concat(parts[1..])
  }

  lemma {:induction false} ConcatAppend(a: seq<string>, b: seq<string>)
    ensures Concat(a + b) == Concat(a) + Concat(b)
  {
    if a == [] {
      assert a + b == b;
    } else {
      assert (a + b)[1..] == a[1..] + b;
      ConcatAppend(a[1..], b);
    }
  }

  lemma AppendAssociates<T>(a: seq<T>, b: seq<T>, c: seq<T>)
    ensures a + (b + c) == a + b + c
    ensures [] + c == c && a + [] == a
  {
  }

  lemma ConcatSingle(t: string)
    ensures Concat([t]) == t
  {
    assert Concat([t]) == t + Concat([]);
  }

  /** What a loop has collected so far, before what is still to be read. */
  function Prepend<T>(l: seq<T>, r: Option<(seq<T>, nat)>): Option<(seq<T>, nat)> {
    if r == None then None else Some((l + r.value.0, r.value.1))
  }

  lemma PrependAssociates<T>(l: seq<T>, m: seq<T>, r: Option<(seq<T>, nat)>)
    ensures Prepend([], r) == r
    ensures Prepend(l, Prepend(m, r)) == Prepend(l + m, r)
  {
    if r.Some? {
      assert [] + r.value.0 == r.value.0;
      assert l + (m + r.value.0) == l + m + r.value.0;
    }
  }
}
