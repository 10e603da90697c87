/** The texts of the SCOP server's commands: which command a text is, and which endpoint and
    message it carries, for every text. */
module CommandTexts {
  import opened Text
  import opened Vertex
  import opened Broker

  // Texts.

  /** A message that holds the C string `text`: it ends there or goes on with a NUL. */
  predicate Holds(buf: string, text: string) {
    text <= buf && '\0' !in text && (|text| < |buf| ==> buf[|text|] == '\0')
  }

  lemma HoldsCString(buf: string, text: string)
    ensures Holds(buf, text) <==> CString(buf) == text
  {
    if Holds(buf, text) {
      forall k | 0 <= k < |text| ensures buf[k] != '\0' {
        assert buf[k] == text[k] && text[k] in text;
      }
    }
  }

  predicate Blank(c: char) {
    c == ' ' || c == '\t' || c == '\n' || c == 11 as char || c == 12 as char || c == '\r'
  }

  predicate Blanks(s: string) {
    forall c :: c in s ==> Blank(c)
  }

  predicate Unindented(s: string) {
    s == [] || !Blank(s[0])
  }

  /** The text behind a command word: blanks, an endpoint, and the end or a '!'. */
  predicate Addressed(blanks: string, x: string, tail: string) {
    Blanks(blanks) && Unindented(x) && '!' !in x && (tail == [] || tail[0] == '!')
  }

  /** The message behind the '!'; without one, the text at the position that was never set. */
  predicate Carries(tail: string, gap: string, m: string, stale: string) {
    if tail == [] then gap == [] && m == stale else tail == "!" + (gap + m) && Blanks(gap) && Unindented(m)
  }

  lemma {:induction false} SkipsBlanks(a: string, blanks: string, b: string)
    requires Blanks(blanks) && Unindented(b)
    ensures SkipSpace(a + (blanks + b), |a|) == |a| + |blanks|
    decreases |blanks|
  {
    var s := a + (blanks + b);
    if blanks == [] {
      assert blanks + b == b && (b != [] ==> s[|a|] == b[0]);
    } else {
      assert s[|a|] == blanks[0] && blanks[0] in blanks;
      var more := a + [blanks[0]];
      assert more + (blanks[1..] + b) == s;
      SkipsBlanks(more, blanks[1..], b);
    }
  }

  lemma ScansTo(word: string, blanks: string, x: string, tail: string)
    requires Addressed(blanks, x, tail)
    ensures word <= word + (blanks + (x + tail))
    ensures ScanEndpoint(word, word + (blanks + (x + tail)))
         == if x == [] then None else Some((x, |word| + |blanks| + |x|))
  {
    var buf, i := word + (blanks + (x + tail)), |word| + |blanks|;
    SkipsBlanks(word, blanks, x + tail);
    assert buf[i..] == x + tail;
    forall k | i <= k < i + |x| ensures buf[k] != '!' {
      assert buf[k] == x[k - i];
    }
    assert tail != [] ==> buf[i + |x|] == tail[0];
    assert buf[i..i + |x|] == x;
  }

  /** Every text that begins with a command word has these parts. */
  lemma Splits(word: string, t: string, stale: string)
    returns (blanks: string, x: string, tail: string, gap: string, m: string)
    requires word <= t
    ensures t == word + (blanks + (x + tail)) && Addressed(blanks, x, tail) && Carries(tail, gap, m, stale)
  {
    var rest := t[|word|..];
    var b: string;
    blanks, b := CutBlanks(rest);
    var j := FindChar(b, '!', 0);
    x, tail := b[..j], b[j..];
    assert Unindented(x) && b == x + tail && t == word + rest;
    if tail == [] {
      gap, m := [], stale;
    } else {
      gap, m := CutBlanks(tail[1..]);
      assert tail == ['!'] + tail[1..];
    }
  }

  lemma {:induction false} CutBlanks(t: string) returns (blanks: string, rest: string)
    ensures t == blanks + rest && Blanks(blanks) && Unindented(rest)
  {
    if t == [] || !Blank(t[0]) {
      blanks, rest := [], t;
    } else {
      blanks, rest := CutBlanks(t[1..]);
      blanks := [t[0]] + blanks;
      assert t == [t[0]] + t[1..];
    }
  }

  lemma BodyIs(head: string, tail: string, gap: string, m: string, stale: string)
    requires Carries(tail, gap, m, stale)
    ensures Body(head + tail, |head|, stale) == m
  {
    if tail != [] {
      SkipsBlanks(head + "!", gap, m);
      assert head + "!" + (gap + m) == head + tail;
    }
  }

  /** What follows the one character behind a command word. */
  function Argument(tail: string, stale: string): string {
    if tail == [] then stale else tail[1..]
  }

  lemma BehindIs(word: string, tail: string, stale: string)
    ensures Behind(word + tail, |word| + 1, stale) == Argument(tail, stale)
  {
  }

  // Which command a text is.

  /** Every word names its command, whatever follows; only "list" has a longer word to shun. */
  lemma Dispatch(rest: string)
    ensures CommandOf("message" + rest) == Message && CommandOf("verify" + rest) == Verify
    ensures CommandOf("emit" + rest) == Emit && CommandOf("query" + rest) == Query
    ensures CommandOf("get-cookie" + rest) == GetCookie && CommandOf("terminate" + rest) == Terminate
    ensures CommandOf("log" + rest) == Log && CommandOf("listen" + rest) == Listen
    ensures CommandOf("list" + rest) == if "en" <= rest then Listen else ListClients
    ensures CommandOf("register" + rest) == Register && CommandOf("reply" + rest) == Reply
    ensures CommandOf("reconfigure" + rest) == Reconfigure
    ensures CommandOf("call" + rest) == Call && CommandOf("clear" + rest) == Clear
    ensures CommandOf("set-cookie" + rest) == SetCookie && CommandOf("set-source-hint" + rest) == SetSourceHint
  {
    DispatchAlone(rest);
    DispatchL(rest);
    DispatchR(rest);
    DispatchCS(rest);
  }

  lemma Letter(t: string, w: string, k: nat)
    requires k < |w|
    ensures Prefix(t, w) ==> k < |t| && t[k] == w[k]
  {
  }

  lemma PrefixOf(w: string, rest: string)
    ensures Prefix(w + rest, w)
    ensures |w + rest| == |w| + |rest|
    ensures forall k :: 0 <= k < |w| ==> (w + rest)[k] == w[k]
  {
  }

  lemma FirstLetters(t: string)
    ensures t != [] && t[0] != 'l' ==> !Prefix(t, "log") && !Prefix(t, "listen") && !Prefix(t, "list")
    ensures t != [] && t[0] != 'r' ==>
      !Prefix(t, "register") && !Prefix(t, "reply") && !Prefix(t, "reconfigure")
    ensures t != [] && t[0] != 'c' ==> !Prefix(t, "call") && !Prefix(t, "clear")
    ensures t != [] && t[0] != 's' ==> !Prefix(t, "set-cookie") && !Prefix(t, "set-source-hint")
    ensures t != [] && t[0] != 'm' ==> !Prefix(t, "message")
    ensures t != [] && t[0] != 'v' ==> !Prefix(t, "verify")
    ensures t != [] && t[0] != 'e' ==> !Prefix(t, "emit")
    ensures t != [] && t[0] != 'q' ==> !Prefix(t, "query")
    ensures t != [] && t[0] != 'g' ==> !Prefix(t, "get-cookie")
  {
    hide Prefix;
    Letter(t, "log", 0);
    Letter(t, "listen", 0);
    Letter(t, "list", 0);
    Letter(t, "register", 0);
    Letter(t, "reply", 0);
    Letter(t, "reconfigure", 0);
    Letter(t, "call", 0);
    Letter(t, "clear", 0);
    Letter(t, "set-cookie", 0);
    Letter(t, "set-source-hint", 0);
    Letter(t, "message", 0);
    Letter(t, "verify", 0);
    Letter(t, "emit", 0);
    Letter(t, "query", 0);
    Letter(t, "get-cookie", 0);
  }

  lemma DispatchAlone(rest: string)
    ensures CommandOf("message" + rest) == Message && CommandOf("verify" + rest) == Verify
    ensures CommandOf("emit" + rest) == Emit && CommandOf("query" + rest) == Query
    ensures CommandOf("get-cookie" + rest) == GetCookie && CommandOf("terminate" + rest) == Terminate
  {
    hide Prefix;
    FirstLetters("message" + rest);
    PrefixOf("message", rest);
    FirstLetters("verify" + rest);
    PrefixOf("verify", rest);
    FirstLetters("emit" + rest);
    PrefixOf("emit", rest);
    FirstLetters("query" + rest);
    PrefixOf("query", rest);
    FirstLetters("get-cookie" + rest);
    PrefixOf("get-cookie", rest);
    FirstLetters("terminate" + rest);
    PrefixOf("terminate", rest);
  }

  lemma DispatchL(rest: string)
    ensures CommandOf("log" + rest) == Log && CommandOf("listen" + rest) == Listen
    ensures CommandOf("list" + rest) == if "en" <= rest then Listen else ListClients
  {
    var listen, list := "listen" + rest, "list" + rest;
    assert Prefix(list, "listen") <==> "en" <= rest by {
      if Prefix(list, "listen") {
        assert rest[0] == list[4] == 'e' && rest[1] == list[5] == 'n';
      }
      if "en" <= rest {
        assert list[..6] == "listen";
      }
    }
    hide Prefix;
    PrefixOf("log", rest);
    FirstLetters(listen);
    PrefixOf("listen", rest);
    Letter(listen, "log", 1);
    FirstLetters(list);
    PrefixOf("list", rest);
    Letter(list, "log", 1);
  }

  lemma DispatchR(rest: string)
    ensures CommandOf("register" + rest) == Register && CommandOf("reply" + rest) == Reply
    ensures CommandOf("reconfigure" + rest) == Reconfigure
  {
    hide Prefix;
    FirstLetters("register" + rest);
    PrefixOf("register", rest);
    FirstLetters("reply" + rest);
    PrefixOf("reply", rest);
    Letter("reply" + rest, "register", 2);
    FirstLetters("reconfigure" + rest);
    PrefixOf("reconfigure", rest);
    Letter("reconfigure" + rest, "register", 2);
    Letter("reconfigure" + rest, "reply", 2);
    Letter("reconfigure" + rest, "terminate", 0);
  }

  lemma DispatchCS(rest: string)
    ensures CommandOf("call" + rest) == Call && CommandOf("clear" + rest) == Clear
    ensures CommandOf("set-cookie" + rest) == SetCookie && CommandOf("set-source-hint" + rest) == SetSourceHint
  {
    hide Prefix;
    FirstLetters("call" + rest);
    PrefixOf("call", rest);
    FirstLetters("clear" + rest);
    PrefixOf("clear", rest);
    Letter("clear" + rest, "call", 1);
    FirstLetters("set-cookie" + rest);
    PrefixOf("set-cookie", rest);
    FirstLetters("set-source-hint" + rest);
    PrefixOf("set-source-hint", rest);
    Letter("set-source-hint" + rest, "set-cookie", 4);
  }

  /** None of the words of the protocol. */
  predicate NoWord(t: string) {
    !("log" <= t) && !("message" <= t) && !("verify" <= t) && !("emit" <= t) && !("register" <= t) &&
    !("listen" <= t) && !("list" <= t) && !("call" <= t) && !("reply" <= t) && !("query" <= t) && !("clear" <= t) &&
    !("set-cookie" <= t) && !("get-cookie" <= t) && !("set-source-hint" <= t) && !("terminate" <= t) &&
    !("reconfigure" <= t)
  }

  lemma InvalidIff(t: string)
    ensures CommandOf(t) == Invalid <==> NoWord(t)
  {
  }
}
