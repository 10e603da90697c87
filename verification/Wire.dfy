/** The framing of SCOP (scoplib.cpp, and scoplib.py with the same digits): a 21-character
    header with the protocol version and the length, then the message; bare integers as
    eight digits. Reads may return any part of what was asked for. */
module Wire {
  import opened Text

  const MAJOR := 1
  const MINOR := 2
  const RELEASE := 0
  const HEADER_SIZE := 21

  // Hexadecimal numerals of a fixed width.

  function Hex(d: int): char {
    if 0 <= d <= 9 then '0' + d as char
    else if 10 <= d <= 15 then 'A' + (d - 10) as char
    else '0'
  }

  function Dec(c: char): (d: nat)
    ensures d <= 15
  {
    if '0' <= c <= '9' then c as int - '0' as int
    else if 'A' <= c <= 'F' then c as int - 'A' as int + 10
    else 0
  }

  function Pow16(k: nat): (p: nat)
    ensures p > 0
  {
    if k == 0 then 1 else 16 * Pow16(k - 1)
  }

  /** The k low digits of n, most significant first: one step of mask and shift a digit. */
  function HexDigits(n: nat, k: nat): (s: string)
    ensures |s| == k
  {
    if k == 0 then [] else [Hex((n / Pow16(k - 1)) % 16)] + HexDigits(n, k - 1)
  }

  function HexValue(s: string): nat {
    if s == [] then 0 else Dec(s[0]) * Pow16(|s| - 1) + HexValue(s[1..])
  }

  lemma DecOfHex(d: nat)
    requires d < 16
    ensures Dec(Hex(d)) == d
  {
  }

  lemma MulAtLeast(k: int, m: nat)
    ensures k >= 1 ==> k * m >= m
    ensures k <= -1 ==> k * m <= -(m as int)
  {
  }

  lemma Digits(c: nat, d: nat, p: nat)
    requires d < 16
    ensures (16 * c + d) * p == c * (16 * p) + d * p
    ensures d * p + p <= 16 * p
  {
    assert (d + 1) * p <= 16 * p;
  }

  /** Splitting a number at a digit boundary. */
  lemma SplitDigit(n: nat, p: nat)
    requires p > 0
    ensures n % (16 * p) == ((n / p) % 16) * p + n % p
  {
    var a, b := n / p, n % p;
    var c, d := a / 16, a % 16;
    Digits(c, d, p);
    ModUnique(n, 16 * p, c, d * p + b);
  }

  lemma ModUnique(n: nat, m: nat, q: nat, r: nat)
    requires n == q * m + r && r < m
    ensures n % m == r
  {
    var x := n / m;
    assert n == x * m + n % m;
    assert (x - q) * m == x * m - q * m == r - n % m;
    MulAtLeast(x - q, m);
  }

  /** Decoding k digits gives back the number, as far as k digits can hold it. */
  lemma {:induction false} HexRoundTrip(n: nat, k: nat)
    ensures HexValue(HexDigits(n, k)) == n % Pow16(k)
  {
    if k > 0 {
      var p := Pow16(k - 1);
      HexRoundTrip(n, k - 1);
      DecOfHex((n / p) % 16);
      assert HexDigits(n, k)[1..] == HexDigits(n, k - 1);
      SplitDigit(n, p);
    }
  }

  lemma HexRoundTripSmall(n: nat, k: nat)
    requires n < Pow16(k)
    ensures HexValue(HexDigits(n, k)) == n
  {
    HexRoundTrip(n, k);
    ModUnique(n, Pow16(k), 0, n);
  }

  // Integers on the wire: acknowledgements and counts.

  const TWO_32 := 0x1_0000_0000
  const TWO_31 := 0x8000_0000

  lemma WideEnough()
    ensures Pow16(8) == TWO_32 && Pow16(6) == 0x100_0000
  {
    assert Pow16(2) == 256;
    assert Pow16(4) == 65536;
    assert Pow16(6) == 0x100_0000;
  }

  /** `write_int`: the two's complement digits of an int. */
  function IntDigits(n: int): string
    requires -TWO_31 <= n < TWO_31
  {
    HexDigits(if n < 0 then n + TWO_32 else n, 8)
  }

  /** `read_int` of scoplib.cpp sums into an int, that of scoplib.py into a Python integer. */
  function ReadIntCpp(s: string): int {
    var u := HexValue(s);
    if u >= TWO_31 then u - TWO_32 else u
  }

  function ReadIntPython(s: string): int {
    HexValue(s)
  }

  lemma IntRoundTrip(n: int)
    requires -TWO_31 <= n < TWO_31
    ensures ReadIntCpp(IntDigits(n)) == n
    ensures ReadIntPython(IntDigits(n)) == n <==> n >= 0
  {
    WideEnough();
    HexRoundTripSmall(if n < 0 then n + TWO_32 else n, 8);
  }

  // Frames.

  const VERSION: nat := MAJOR * 65536 + MINOR * 256 + RELEASE

  function Header(len: nat): (h: string)
    ensures |h| == HEADER_SIZE
  {
    "sCoP " + HexDigits(VERSION, 6) + " " + HexDigits(len, 8) + " "
  }

  function Frame(msg: string): string {
    Header(|msg|) + msg
  }

  function Frames(msgs: seq<string>): string {
    if msgs == [] then [] else Frame(msgs[0]) + Frames(msgs[1..])
  }

  predicate HeaderAccepted(h: string)
    requires |h| == HEADER_SIZE
  {
    h[..4] == "sCoP"
    && VersionAccepted(HexValue(h[5..11]))
  }

  predicate VersionAccepted(version: nat) {
    version / 65536 % 256 == MAJOR && version / 256 % 256 == MINOR
  }

  /** What one `read_protocol` makes of the bytes to come: a message or NULL, and the
      bytes left. A length with its top bit set is a negative int, which has no buffer. */
  function ReadMessage(stream: string): (r: (Option<string>, string))
    ensures r.0.Some? ==> |r.1| < |stream|
  {
    if |stream| < HEADER_SIZE then (None, [])
    else
      var h, rest := stream[..HEADER_SIZE], stream[HEADER_SIZE..];
      if !HeaderAccepted(h) then (None, rest)
      else
        var len := HexValue(h[12..20]);
        if len >= TWO_31 then (None, rest)
        else if |rest| < len then (None, [])
        else (Some(rest[..len]), rest[len..])
  }

  /** The messages up to the first NULL. */
  function Messages(stream: string): seq<string>
    decreases |stream|
  {
    match ReadMessage(stream)
    case (None, _) => []
    case (Some(m), rest) => [m] + Messages(rest)
  }

  lemma HeaderFields(len: nat)
    requires len < TWO_31
    ensures HeaderAccepted(Header(len))
    ensures HexValue(Header(len)[12..20]) == len
  {
    hide HexDigits, HexValue;
    var h := Header(len);
    WideEnough();
    assert h[..4] == "sCoP";
    assert h[5..11] == HexDigits(VERSION, 6);
    assert h[12..20] == HexDigits(len, 8);
    HexRoundTripSmall(VERSION, 6);
    HexRoundTripSmall(len, 8);
  }

  /** A frame is read back whole, and nothing of what follows is touched. */
  lemma ReadFrame(msg: string, rest: string)
    requires |msg| < TWO_31
    ensures ReadMessage(Frame(msg) + rest) == (Some(msg), rest)
  {
    var stream := Frame(msg) + rest;
    HeaderFields(|msg|);
    assert stream[..HEADER_SIZE] == Header(|msg|);
    assert stream[HEADER_SIZE..] == msg + rest;
    assert (msg + rest)[..|msg|] == msg && (msg + rest)[|msg|..] == rest;
  }

  /** A frame that the connection cut short gives no message and leaves nothing. */
  lemma ReadCutFrame(msg: string, cut: string)
    requires |msg| < TWO_31 && cut < Frame(msg)
    ensures ReadMessage(cut) == (None, [])
  {
    if |cut| >= HEADER_SIZE {
      HeaderFields(|msg|);
      assert cut[..HEADER_SIZE] == Frame(msg)[..HEADER_SIZE] == Header(|msg|);
    }
  }

  /** The receiver gets exactly the messages that were sent in full, in order. */
  lemma {:induction false} MessagesSent(msgs: seq<string>, last: string, cut: string)
    requires forall m :: m in msgs ==> |m| < TWO_31
    requires |last| < TWO_31 && cut < Frame(last)
    ensures Messages(Frames(msgs) + cut) == msgs
  {
    if msgs == [] {
      assert Frames(msgs) + cut == cut;
      ReadCutFrame(last, cut);
    } else {
      var rest := Frames(msgs[1..]) + cut;
      assert Frames(msgs) + cut == Frame(msgs[0]) + rest;
      ReadFrame(msgs[0], rest);
      MessagesSent(msgs[1..], last, cut);
    }
  }

  // The same over a socket that delivers its bytes in arbitrary pieces.

  class Socket {
    var chunks: seq<string>

    ghost predicate Valid()
      reads this
    {
      forall k :: 0 <= k < |chunks| ==> chunks[k] != []
    }

    /** The bytes still to come. */
    ghost function Stream(): string
      reads this
    {
      Concat(chunks)
    }

    constructor (chunks: seq<string>)
      requires forall k :: 0 <= k < |chunks| ==> chunks[k] != []
      ensures Valid() && Stream() == Concat(chunks)
    {
      this.chunks := chunks;
    }

    /** `read`: at least one byte, unless the stream has ended. */
    method Read(buf: array<char>, pos: nat, max: nat) returns (amount: nat)
      requires Valid() && 0 < max && pos + max <= buf.Length
      modifies this, buf
      ensures Valid() && amount <= max
      ensures amount == 0 <==> old(Stream()) == []
      ensures amount <= |old(Stream())| && Stream() == old(Stream())[amount..]
      ensures buf[..] == old(buf[..pos]) + old(Stream())[..amount] + old(buf[pos + amount..])
    {
      hide Concat;
      ConcatNone();
      if chunks == [] {
        return 0;
      }
      var first := chunks[0];
      amount := if |first| <= max then |first| else max;
      ConcatDrop(chunks, amount);
      Copy(buf, pos, first[..amount]);
      if amount == |first| {
        chunks := chunks[1..];
      } else {
        chunks := [first[amount..]] + chunks[1..];
      }
    }
  }

  /** The bytes that a read puts into the buffer. */
  method Copy(buf: array<char>, pos: nat, bytes: string)
    requires pos + |bytes| <= buf.Length
    modifies buf
    ensures buf[..] == old(buf[..pos]) + bytes + old(buf[pos + |bytes|..])
  {
    ghost var before := buf[..];
    for k := 0 to |bytes|
      invariant buf[..] == before[..pos] + bytes[..k] + before[pos + k..]
    {
      CopiedAt(buf[..], before, pos, bytes, k);
      buf[pos + k] := bytes[k];
    }
    assert bytes[..|bytes|] == bytes;
  }

  lemma CopiedAt(now: string, before: string, pos: nat, bytes: string, k: nat)
    requires k < |bytes| && pos + |bytes| <= |before| && now == before[..pos] + bytes[..k] + before[pos + k..]
    ensures now[pos + k := bytes[k]] == before[..pos] + bytes[..k + 1] + before[pos + k + 1..]
  {
  }

  lemma ConcatNone()
    ensures Concat([]) == []
  {
  }

  /** Taking bytes from the first of several chunks. */
  lemma ConcatDrop(chunks: seq<string>, amount: nat)
    requires chunks != [] && amount <= |chunks[0]|
    ensures amount <= |Concat(chunks)| && Concat(chunks)[..amount] == chunks[0][..amount]
    ensures amount == |chunks[0]| ==> Concat(chunks)[amount..] == Concat(chunks[1..])
    ensures Concat(chunks)[amount..] == Concat([chunks[0][amount..]] + chunks[1..])
  {
    var rest := [chunks[0][amount..]] + chunks[1..];
    assert rest[1..] == chunks[1..];
  }

  /** `fixed_read`: fill the first `nbytes` of the buffer, or -1 at the end of the stream. */
  method FixedRead(sock: Socket, buf: array<char>, nbytes: nat) returns (status: int)
    requires sock.Valid() && nbytes <= buf.Length
    modifies sock, buf
    ensures sock.Valid()
    ensures status == if |old(sock.Stream())| < nbytes then -1 else 0
    ensures status == -1 ==> sock.Stream() == []
    ensures status == 0 ==>
      buf[..nbytes] == old(sock.Stream())[..nbytes] && sock.Stream() == old(sock.Stream())[nbytes..]
  {
    ghost var stream := sock.Stream();
    var remain: nat, pos: nat := nbytes, 0;
    while remain > 0
      invariant sock.Valid() && remain + pos == nbytes && pos <= |stream|
      invariant sock.Stream() == stream[pos..] && buf[..pos] == stream[..pos]
    {
      var amount := sock.Read(buf, pos, remain);
      if amount == 0 {
        return -1;
      }
      assert buf[..pos + amount] == stream[..pos] + stream[pos..][..amount] == stream[..pos + amount];
      remain := remain - amount;
      pos := pos + amount;
    }
    return 0;
  }

  /** The digit loop of `read_protocol`: each digit at its shift. */
  method ReadDigits(buf: array<char>, start: nat, k: nat) returns (n: nat)
    requires start + k <= buf.Length
    ensures n == HexValue(buf[start..start + k])
  {
    hide HexValue, Dec, Pow16;
    n := 0;
    for i := 0 to k
      invariant n + HexValue(buf[start + i..start + k]) == HexValue(buf[start..start + k])
    {
      HexValueStep(buf[start + i..start + k]);
      assert buf[start + i..start + k][1..] == buf[start + i + 1..start + k];
      n := n + Dec(buf[start + i]) * Pow16(k - 1 - i);
    }
    HexValueNone();
    assert buf[start + k..start + k] == [];
  }

  lemma HexValueStep(s: string)
    requires s != []
    ensures HexValue(s) == Dec(s[0]) * Pow16(|s| - 1) + HexValue(s[1..])
  {
  }

  lemma HexValueNone()
    ensures HexValue([]) == 0
  {
  }

  /** The digit loop of `write_header`: each digit under its mask. */
  method WriteDigits(buf: array<char>, start: nat, n: nat, k: nat)
    requires start + k <= buf.Length
    modifies buf
    ensures buf[..] == old(buf[..start]) + HexDigits(n, k) + old(buf[start + k..])
  {
    hide Hex, HexDigits, Pow16;
    ghost var before := buf[..];
    HexDigitsNone(n);
    for i := 0 to k
      invariant buf[..] == before[..start] + buf[start..start + i] + before[start + i..]
      invariant buf[start..start + i] + HexDigits(n, k - i) == HexDigits(n, k)
    {
      ghost var done, left := buf[start..start + i], HexDigits(n, k - i - 1);
      var digit := DigitAt(n, k - i - 1);
      HexDigitsStep(n, k - i);
      AppendAssociates(done, [digit], left);
      WrittenAt(buf[..], before, start, i, digit);
      buf[start + i] := digit;
      assert buf[start..start + i + 1] == done + [digit];
    }
    assert buf[start..start + k] + [] == buf[start..start + k];
  }

  /** The digit under the mask at place `k`. */
  function DigitAt(n: nat, k: nat): char {
    Hex((n / Pow16(k)) % 16)
  }

  lemma HexDigitsStep(n: nat, k: nat)
    requires k > 0
    ensures HexDigits(n, k) == [DigitAt(n, k - 1)] + HexDigits(n, k - 1)
  {
  }

  lemma HexDigitsNone(n: nat)
    ensures HexDigits(n, 0) == []
  {
  }

  lemma WrittenAt(now: string, before: string, start: nat, i: nat, c: char)
    requires |now| == |before| && start + i < |now|
    requires now == before[..start] + now[start..start + i] + before[start + i..]
    ensures var next := now[start + i := c];
      && next == before[..start] + next[start..start + i + 1] + before[start + i + 1..]
      && next[start..start + i + 1] == now[start..start + i] + [c]
  {
  }

  /** A header whose two numbers are written one after the other. */
  lemma SameHeader(blank: string, versioned: string, h: string, len: nat)
    requires |blank| == HEADER_SIZE && blank[..5] == "sCoP " && blank[11] == ' ' && blank[20] == ' '
    requires versioned == blank[..5] + HexDigits(VERSION, 6) + blank[11..]
    requires h == versioned[..12] + HexDigits(len, 8) + versioned[20..]
    ensures h == Header(len)
  {
    hide HexDigits;
    assert versioned[..12] == "sCoP " + HexDigits(VERSION, 6) + " ";
    assert versioned[20..] == " ";
  }

  /** `write_header`, up to the write itself. */
  method WriteHeader(len: nat) returns (header: string)
    ensures header == Header(len)
  {
    hide HexDigits;
    var buf := new char[HEADER_SIZE](_ => ' ');
    buf[0], buf[1], buf[2], buf[3] := 's', 'C', 'o', 'P';
    ghost var blank := buf[..];
    assert blank[..5] == "sCoP " && blank[11] == ' ' && blank[20] == ' ';
    WriteDigits(buf, 5, VERSION, 6);
    ghost var versioned := buf[..];
    WriteDigits(buf, 12, len, 8);
    header := buf[..];
    SameHeader(blank, versioned, header, len);
  }

  /** `read_protocol`. */
  method ReadProtocol(sock: Socket) returns (msg: Option<string>)
    requires sock.Valid()
    modifies sock
    ensures sock.Valid()
    ensures (msg, sock.Stream()) == ReadMessage(old(sock.Stream()))
  {
    hide HexValue, VersionAccepted, Concat;
    var header := new char[HEADER_SIZE](_ => ' ');
    var status := FixedRead(sock, header, HEADER_SIZE);
    if status == -1 {
      return None;
    }
    ghost var h := header[..];
    assert h == header[..HEADER_SIZE];
    if header[0] != 's' || header[1] != 'C' || header[2] != 'o' || header[3] != 'P' {
      return None;
    }
    assert h[..4] == "sCoP";
    var version := ReadDigits(header, 5, 6);
    if !VersionAccepted(version) {
      return None;
    }
    var len := ReadDigits(header, 12, 8);
    if len >= TWO_31 {
      return None;
    }
    var buf := new char[len](_ => '\0');
    status := FixedRead(sock, buf, len);
    if status == -1 {
      return None;
    }
    return Some(buf[..len]);
  }

  lemma EndOfStream()
    ensures ReadMessage([]) == (None, []) && Frames([]) == []
  {
  }

  /** Reading until NULL returns the messages sent, however the bytes arrive in pieces. */
  method ReceiveAll(sock: Socket, ghost sent: seq<string>) returns (msgs: seq<string>)
    requires sock.Valid() && sock.Stream() == Frames(sent)
    requires forall m :: m in sent ==> |m| < TWO_31
    modifies sock
    ensures msgs == sent && sock.Stream() == []
  {
    hide ReadMessage, Frame;
    EndOfStream();
    msgs := [];
    while true
      invariant sock.Valid() && msgs <= sent
      invariant sock.Stream() == Frames(sent[|msgs|..])
      decreases |sent| - |msgs|
    {
      ghost var left := sent[|msgs|..];
      if left != [] {
        ReadFrame(left[0], Frames(left[1..]));
      }
      var m := ReadProtocol(sock);
      if m == None {
        assert left == [];
        return;
      }
      msgs := msgs + [m.value];
    }
  }
}
