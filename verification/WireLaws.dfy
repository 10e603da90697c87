/** The bytes of the SCOP protocol, digit by digit: what a header and an integer look like, and
    exactly which headers are accepted. */
module WireLaws {
  import opened Text
  import opened Wire

  const DIGITS := "0123456789ABCDEF"

  /** The digits 0 to 9 and A to F have their values, every other character counts as 0. */
  lemma DigitValues(c: char)
    ensures |DIGITS| == 16 && forall d :: 0 <= d < 16 ==> Dec(DIGITS[d]) == d
    ensures c !in DIGITS ==> Dec(c) == 0
  {
    var digits := DIGITS;
    assert forall d :: 0 <= d < 16 ==> digits[d] == if d < 10 then (48 + d) as char else (55 + d) as char;
    if '0' <= c <= '9' {
      assert digits[c as int - 48] == c;
    } else if 'A' <= c <= 'F' {
      assert digits[c as int - 55] == c;
    }
  }

  lemma {:induction false} OnlyDigits(n: nat, k: nat)
    ensures forall c :: c in HexDigits(n, k) ==> c in DIGITS
  {
    if k > 0 {
      OnlyDigits(n, k - 1);
      var d := (n / Pow16(k - 1)) % 16;
      DigitValues('0');
      assert DIGITS[d] == Hex(d);
    }
  }

  /** Eight digits stand for their sum, each weighted by its place. */
  lemma EightDigits(s: string)
    requires |s| == 8
    ensures HexValue(s) ==
      Dec(s[0]) * 0x1000_0000 + Dec(s[1]) * 0x100_0000 + Dec(s[2]) * 0x10_0000 + Dec(s[3]) * 0x1_0000 +
      Dec(s[4]) * 0x1000 + Dec(s[5]) * 0x100 + Dec(s[6]) * 0x10 + Dec(s[7])
  {
    hide Dec;
    Powers();
    var a, b, c, d, e, f, g := s[1..], s[2..], s[3..], s[4..], s[5..], s[6..], s[7..];
    assert a[1..] == b && b[1..] == c && c[1..] == d && d[1..] == e && e[1..] == f && f[1..] == g && g[1..] == [];
    hide Pow16;
    Peel(s);
    Peel(a);
    Peel(b);
    Peel(c);
    Peel(d);
    Peel(e);
    Peel(f);
    Peel(g);
  }

  lemma Peel(s: string)
    requires s != []
    ensures HexValue([]) == 0 && HexValue(s) == Dec(s[0]) * Pow16(|s| - 1) + HexValue(s[1..])
  {
  }

  lemma Powers()
    ensures Pow16(0) == 1 && Pow16(1) == 0x10 && Pow16(2) == 0x100 && Pow16(3) == 0x1000 && Pow16(4) == 0x1_0000
    ensures Pow16(5) == 0x10_0000 && Pow16(6) == 0x100_0000 && Pow16(7) == 0x1000_0000
  {
    assert Pow16(2) == 256;
    assert Pow16(4) == 0x1_0000;
  }

  /** An integer is written as the eight digits of its value, or of its value and 2^32. */
  lemma IntWritten(n: int)
    requires -0x8000_0000 <= n < 0x8000_0000
    ensures var s := IntDigits(n);
      |s| == 8 && (forall c :: c in s ==> c in DIGITS) && HexValue(s) == if n < 0 then n + 0x1_0000_0000 else n
  {
    hide HexDigits, HexValue;
    var u := if n < 0 then n + 0x1_0000_0000 else n;
    WideEnough();
    OnlyDigits(u, 8);
    HexRoundTripSmall(u, 8);
  }

  /** A header: the magic, version 1.2.0 and the length, each behind a blank. */
  lemma HeaderWritten(len: nat)
    requires len < 0x8000_0000
    ensures var h := Header(len);
      |h| == 21 && h[..12] == "sCoP 010200 " && h[20] == ' ' &&
      (forall c :: c in h[12..20] ==> c in DIGITS) && HexValue(h[12..20]) == len
  {
    var h := Header(len);
    hide HexValue;
    VersionDigits();
    hide HexDigits;
    HeaderFields(len);
    OnlyDigits(len, 8);
    assert h[12..20] == HexDigits(len, 8);
    assert h[..12] == "sCoP " + HexDigits(VERSION, 6) + " ";
  }

  lemma VersionDigits()
    ensures HexDigits(VERSION, 6) == "010200"
  {
    Powers();
    hide Pow16;
    assert VERSION == 0x1_0200;
    NextDigit(0x1_0200, 0);
    NextDigit(0x1_0200, 1);
    NextDigit(0x1_0200, 2);
    NextDigit(0x1_0200, 3);
    NextDigit(0x1_0200, 4);
    NextDigit(0x1_0200, 5);
  }

  lemma NextDigit(n: nat, k: nat)
    ensures HexDigits(n, 0) == [] && HexDigits(n, k + 1) == [Hex((n / Pow16(k)) % 16)] + HexDigits(n, k)
  {
  }

  /** Exactly the headers with the magic and version 1.2, whatever its last part, are
      accepted; what is no digit counts as 0. */
  lemma AcceptedIff(h: string)
    requires |h| == 21
    ensures HeaderAccepted(h) <==>
      h[..4] == "sCoP" && Dec(h[5]) == 0 && Dec(h[6]) == 1 && Dec(h[7]) == 0 && Dec(h[8]) == 2
  {
    hide Dec, HexValue;
    SixDigits(h[5..11]);
    VersionIff(Dec(h[5]), Dec(h[6]), Dec(h[7]), Dec(h[8]), Dec(h[9]), Dec(h[10]));
  }

  lemma SixDigits(s: string)
    requires |s| == 6
    ensures HexValue(s) == Dec(s[0]) * 0x10_0000 + Dec(s[1]) * 0x1_0000 + Dec(s[2]) * 0x1000 + Dec(s[3]) * 0x100 +
      Dec(s[4]) * 0x10 + Dec(s[5])
  {
    hide Dec;
    Powers();
    var a, b, c, d, e := s[1..], s[2..], s[3..], s[4..], s[5..];
    assert a[1..] == b && b[1..] == c && c[1..] == d && d[1..] == e && e[1..] == [];
    hide Pow16;
    Peel(s);
    Peel(a);
    Peel(b);
    Peel(c);
    Peel(d);
    Peel(e);
  }

  lemma VersionIff(a: nat, b: nat, c: nat, d: nat, e: nat, f: nat)
    requires a < 16 && b < 16 && c < 16 && d < 16 && e < 16 && f < 16
    ensures VersionAccepted(a * 0x10_0000 + b * 0x1_0000 + c * 0x1000 + d * 0x100 + e * 0x10 + f) <==>
      a == 0 && b == 1 && c == 0 && d == 2
  {
    var version := a * 0x10_0000 + b * 0x1_0000 + c * 0x1000 + d * 0x100 + e * 0x10 + f;
    assert version / 0x1_0000 == a * 16 + b;
    assert version / 0x100 == (a * 16 + b) * 256 + (c * 16 + d);
  }

  /** A whole header that is not accepted, or announces a length of 2^31 or more. */
  predicate Refused(stream: string) {
    |stream| >= 21 && (!HeaderAccepted(stream[..21]) || HexValue(stream[12..20]) >= 0x8000_0000)
  }

  /** A message is read exactly when a whole header that is accepted announces its length,
      below 2^31, and that many characters follow; the rest is left. */
  lemma ReadIff(stream: string, m: string)
    ensures ReadMessage(stream).0 == Some(m) <==>
      |stream| >= 21 + |m| && HeaderAccepted(stream[..21]) && HexValue(stream[12..20]) == |m| < 0x8000_0000 &&
      stream[21..21 + |m|] == m
    ensures ReadMessage(stream).0.Some? ==> ReadMessage(stream).1 == stream[21 + |ReadMessage(stream).0.value|..]
    ensures ReadMessage(stream).0 == None ==> ReadMessage(stream).1 == if Refused(stream) then stream[21..] else []
  {
    hide HexValue, HeaderAccepted;
    if |stream| >= 21 {
      assert stream[..21][12..20] == stream[12..20];
      var rest := stream[21..];
      assert |rest| >= |m| ==> rest[..|m|] == stream[21..21 + |m|];
      var len := HexValue(stream[12..20]);
      assert |rest| >= len ==> rest[..len] == stream[21..21 + len] && rest[len..] == stream[21 + len..];
    }
  }

  /** A receiver takes every message up to the first thing that is none, and nothing behind it. */
  lemma {:induction false} MessagesUntil(msgs: seq<string>, rest: string)
    requires (forall m :: m in msgs ==> |m| < 0x8000_0000) && ReadMessage(rest).0 == None
    ensures Messages(Frames(msgs) + rest) == msgs
  {
    hide ReadMessage, Frame;
    if msgs == [] {
      assert Frames(msgs) + rest == rest;
    } else {
      var more := Frames(msgs[1..]) + rest;
      assert Frames(msgs) + rest == Frame(msgs[0]) + more;
      ReadFrame(msgs[0], more);
      MessagesUntil(msgs[1..], rest);
    }
  }
}
