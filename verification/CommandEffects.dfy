/** What every command of the SCOP server does, from the text that a client sends to the
    client list and the outputs behind it. */
module CommandEffects {
  import opened Text
  import opened Broker
  import opened BrokerRuns
  import opened CommandTexts

  // One turn of the loop with such a text.

  /** A connected client sent this text. */
  predicate Sends(s: State, e: Event, text: string) {
    e.Received? && Connected(s, e.id) && Holds(e.buf, text)
  }

  lemma StepIs(s: State, e: Event, text: string)
    requires Sends(s, e, text)
    ensures var (cs, outs) := Process(s.clients, IndexOf(s.clients, e.id), text, e.dead, e.stale);
      Step(s, e) == (s.(clients := cs), outs)
  {
    hide Process, IndexOf, CString, Holds;
    HoldsCString(e.buf, text);
  }

  /** The sender's entry becomes `c` and nothing is written. */
  ghost predicate Becomes(s: State, e: Event, c: Client)
    requires e.Received? && Connected(s, e.id)
  {
    var (t, outs) := Step(s, e);
    outs == [] && t.nextId == s.nextId && |t.clients| == |s.clients| &&
    forall k :: 0 <= k < |s.clients| ==> t.clients[k] == if k == IndexOf(s.clients, e.id) then c else s.clients[k]
  }

  // Who a message reaches.

  function Answering(cs: seq<Client>, x: string): set<nat> {
    set c | c in cs && (c.name == Some(x) || c.interest == Some(x)) :: c.id
  }

  /** The clients with that name or interest that wait for no reply and whose connection works. */
  function Reachable(cs: seq<Client>, x: string, dead: set<nat>): set<nat> {
    set c | c in cs && (c.name == Some(x) || c.interest == Some(x)) && c.toId == 0 && c.id !in dead :: c.id
  }

  /** Each of `ids` is sent `msg` once, and nothing else is written. */
  predicate PostedTo(outs: seq<Output>, ids: set<nat>, msg: string) {
    |outs| == |ids| && (forall o :: o in outs ==> o.Posted? && o.msg == msg && o.to in ids) &&
    forall id :: id in ids ==> Posted(id, msg) in outs
  }

  /** What a send writes: the messages, and last of all the acknowledgement with their number. */
  predicate Sent(outs: seq<Output>, ids: set<nat>, msg: string, ack: Option<nat>) {
    if ack == None then PostedTo(outs, ids, msg)
    else outs != [] && outs[|outs| - 1] == Wrote(ack.value, |ids|) && PostedTo(outs[..|outs| - 1], ids, msg)
  }

  /** Only clients whose connection failed are dropped. */
  ghost predicate Kept(after: seq<Client>, cs: seq<Client>, x: string, dead: set<nat>) {
    IsSubsequence(after, cs) &&
    forall c :: c in after <==>
      c in cs && !((c.name == Some(x) || c.interest == Some(x)) && c.toId == 0 && c.id in dead)
  }

  /** The acknowledged number is that of the clients reached. */
  lemma Acknowledges(cs: seq<Client>, x: string, msg: string, dead: set<nat>, ack: Option<nat>)
    requires NewestFirst(cs)
    ensures Sent(DoSend(cs, x, msg, dead, ack).1, Reachable(cs, x, dead), msg, ack)
    ensures Kept(DoSend(cs, x, msg, dead, ack).0, cs, x, dead)
  {
    DeliverPosts(cs, x, msg, dead);
    DeliverKeeps(cs, x, msg, dead);
    hide Deliver;
    assert Recipients(cs, x, dead) == Reachable(cs, x, dead);
    var posts := Deliver(cs, x, msg, dead).1;
    if ack.Some? {
      assert (posts + [Wrote(ack.value, |posts|)])[..|posts|] == posts;
    }
  }

  ghost predicate Delivers(evs: seq<Event>, e: Event, x: string, m: string, ack: Option<nat>)
    requires e.Received?
  {
    var (before, after) := (Run(evs), Run(evs + [e]));
    after.nextId == before.nextId && Kept(after.clients, before.clients, x, e.dead) &&
    Sent(Outs(evs + [e]), Reachable(before.clients, x, e.dead), m, ack)
  }

  // The commands that send.

  lemma Turns(evs: seq<Event>, e: Event, text: string)
    requires Sends(Run(evs), e, text)
    ensures var s := Run(evs); var i := IndexOf(s.clients, e.id);
      var (cs, outs) := Process(s.clients, i, text, e.dead, e.stale);
      Run(evs + [e]) == s.(clients := cs) && Outs(evs + [e]) == outs && NewestFirst(s.clients)
  {
    hide Run, Step, Process, Holds;
    RunStep(evs, e);
    OrderedRun(evs);
    StepIs(Run(evs), e, text);
  }

  lemma SendsText(cs: seq<Client>, word: string, blanks: string, x: string, tail: string, gap: string, m: string,
                  dead: set<nat>, stale: string, ack: Option<nat>)
    requires NewestFirst(cs) && Addressed(blanks, x, tail) && Carries(tail, gap, m, stale)
    ensures word <= word + (blanks + (x + tail))
    ensures var (after, outs) := SendMessage(cs, word, word + (blanks + (x + tail)), dead, stale, ack);
      if x == [] then after == cs && outs == if ack.Some? then [Wrote(ack.value, -1)] else []
      else Sent(outs, Reachable(cs, x, dead), m, ack) && Kept(after, cs, x, dead)
  {
    hide ScanEndpoint, DoSend, Body, Addressed, Carries, Sent, Kept, Reachable;
    ScansTo(word, blanks, x, tail);
    if x != [] {
      var head := word + blanks + x;
      assert word + (blanks + (x + tail)) == head + tail;
      BodyIs(head, tail, gap, m, stale);
      Acknowledges(cs, x, m, dead, ack);
    }
  }

  /** `message x! m` reaches the clients of `x` in every run; without an endpoint it is ignored. */
  lemma MessageSends(evs: seq<Event>, e: Event, blanks: string, x: string, tail: string, gap: string, m: string)
    requires Sends(Run(evs), e, "message" + (blanks + (x + tail))) && Addressed(blanks, x, tail)
    requires Carries(tail, gap, m, e.stale)
    ensures if x == [] then Run(evs + [e]) == Run(evs) && Outs(evs + [e]) == [] else Delivers(evs, e, x, m, None)
  {
    hide Run, Step, CommandOf, ScanEndpoint, DoSend, Holds, Body, Addressed, Carries, Sent, Kept, Reachable;
    Turns(evs, e, "message" + (blanks + (x + tail)));
    Dispatch(blanks + (x + tail));
    SendsText(Run(evs).clients, "message", blanks, x, tail, gap, m, e.dead, e.stale, None);
  }

  /** `verify x! m` does the same and tells the sender how many clients were reached, or -1
      if it has no endpoint. */
  lemma VerifySends(evs: seq<Event>, e: Event, blanks: string, x: string, tail: string, gap: string, m: string)
    requires Sends(Run(evs), e, "verify" + (blanks + (x + tail))) && Addressed(blanks, x, tail)
    requires Carries(tail, gap, m, e.stale)
    ensures if x == [] then Run(evs + [e]) == Run(evs) && Outs(evs + [e]) == [Wrote(e.id, -1)]
            else Delivers(evs, e, x, m, Some(e.id))
  {
    hide Run, Step, CommandOf, ScanEndpoint, DoSend, Holds, Body, Addressed, Carries, Sent, Kept, Reachable;
    Turns(evs, e, "verify" + (blanks + (x + tail)));
    Dispatch(blanks + (x + tail));
    SendsText(Run(evs).clients, "verify", blanks, x, tail, gap, m, e.dead, e.stale, Some(e.id));
  }

  /** `emit m` goes to the clients of the sender's hint and is acknowledged likewise, with -1
      if there is no hint. */
  lemma EmitSends(evs: seq<Event>, e: Event, tail: string)
    requires Sends(Run(evs), e, "emit" + tail)
    ensures var hint := Get(Run(evs), e.id).hint;
      if hint == None then Run(evs + [e]) == Run(evs) && Outs(evs + [e]) == [Wrote(e.id, -1)]
      else Delivers(evs, e, hint.value, Argument(tail, e.stale), Some(e.id))
  {
    hide Run, Step, CommandOf, DoSend, Holds, Sent, Kept, Reachable, Behind, Argument, IndexOf;
    var s := Run(evs);
    Turns(evs, e, "emit" + tail);
    Dispatch(tail);
    BehindIs("emit", tail, e.stale);
    if Get(s, e.id).hint.Some? {
      Acknowledges(s.clients, Get(s, e.id).hint.value, Argument(tail, e.stale), e.dead, Some(e.id));
    }
  }

  // The commands that look.

  /** `query x` answers with the number of clients of `x`. */
  lemma QueryCounts(evs: seq<Event>, e: Event, blanks: string, x: string, tail: string)
    requires Sends(Run(evs), e, "query" + (blanks + (x + tail))) && Addressed(blanks, x, tail)
    ensures Run(evs + [e]) == Run(evs)
    ensures Outs(evs + [e]) == if x == [] then [] else [Wrote(e.id, |Answering(Run(evs).clients, x)|)]
  {
    hide Run, Step, CommandOf, ScanEndpoint, Holds, Addressed, Answering, Count, IndexOf;
    Turns(evs, e, "query" + (blanks + (x + tail)));
    Dispatch(blanks + (x + tail));
    ScansTo("query", blanks, x, tail);
    CountsAnswering(Run(evs).clients, x);
  }

  lemma AnsweringStep(cs: seq<Client>, x: string)
    requires NewestFirst(cs) && cs != []
    ensures var more := Answering(cs[1..], x);
      && cs[0].id !in more
      && Answering(cs, x) == if cs[0].name == Some(x) || cs[0].interest == Some(x) then {cs[0].id} + more else more
  {
    assert cs == [cs[0]] + cs[1..];
    assert forall d :: d in cs[1..] ==> d.id < cs[0].id;
  }

  lemma {:induction false} CountsAnswering(cs: seq<Client>, x: string)
    requires NewestFirst(cs)
    ensures Count(cs, x) == |Answering(cs, x)|
  {
    if cs != [] {
      CountsAnswering(cs[1..], x);
      AnsweringStep(cs, x);
      hide Answering;
    }
  }

  /** The newest client named `x`. */
  predicate NewestNamed(cs: seq<Client>, x: string, k: nat) {
    k < |cs| && cs[k].name == Some(x) && forall j :: 0 <= j < k ==> cs[j].name != Some(x)
  }

  /** `get-cookie x` sends the cookie of the newest client named `x`, if it has one. */
  lemma CookieIsSent(s: State, e: Event, blanks: string, x: string, tail: string)
    requires Sends(s, e, "get-cookie" + (blanks + (x + tail))) && Addressed(blanks, x, tail)
    ensures Step(s, e).0 == s
    ensures x == [] || (forall k: nat :: !NewestNamed(s.clients, x, k)) ==> Step(s, e).1 == []
    ensures forall k: nat :: x != [] && NewestNamed(s.clients, x, k) ==>
      Step(s, e).1 == if s.clients[k].cookie == None then [] else [Posted(e.id, s.clients[k].cookie.value)]
  {
    hide Step, CommandOf, ScanEndpoint, Holds, Addressed, FirstNamed, NewestNamed, IndexOf;
    StepIs(s, e, "get-cookie" + (blanks + (x + tail)));
    Dispatch(blanks + (x + tail));
    ScansTo("get-cookie", blanks, x, tail);
    FirstNamedIs(s.clients, x);
  }

  lemma FirstNamedIs(cs: seq<Client>, x: string)
    ensures FirstNamed(cs, x) == |cs| ==> forall k: nat :: !NewestNamed(cs, x, k)
    ensures forall k: nat :: NewestNamed(cs, x, k) ==> FirstNamed(cs, x) == k
    ensures FirstNamed(cs, x) < |cs| ==> NewestNamed(cs, x, FirstNamed(cs, x))
  {
  }

  /** `list` sends one text about all other clients. */
  lemma ListIsSent(s: State, e: Event, tail: string)
    requires Sends(s, e, "list" + tail) && !("en" <= tail)
    ensures Step(s, e) == (s, [Posted(e.id, Dump(s.clients, e.id))])
  {
    hide Step, CommandOf, Dump, Holds;
    StepIs(s, e, "list" + tail);
    Dispatch(tail);
  }

  /** Its parts are those of the clients in list order: name, interest and hint, each ended
      by a '!', where a missing name reads "Unnamed" and the others are empty. */
  lemma {:induction false} DumpParts(a: seq<Client>, c: Client, b: seq<Client>, id: nat)
    ensures Dump([], id) == []
    ensures var name := if c.name == None then "Unnamed" else c.name.value;
      var interest := if c.interest == None then "" else c.interest.value;
      var hint := if c.hint == None then "" else c.hint.value;
      Dump(a + ([c] + b), id) ==
        Dump(a, id) + ((if c.id == id then "" else name + "!" + interest + "!" + hint + "!") + Dump(b, id))
  {
    hide Shown;
    if a == [] {
      assert a + ([c] + b) == [c] + b && ([c] + b)[1..] == b;
      DumpOneIs(c);
    } else {
      assert (a + ([c] + b))[1..] == a[1..] + ([c] + b);
      DumpParts(a[1..], c, b, id);
    }
  }

  lemma DumpOneIs(c: Client)
    ensures DumpOne(c) == (if c.name == None then "Unnamed" else c.name.value) + "!" +
      (if c.interest == None then "" else c.interest.value) + "!" + (if c.hint == None then "" else c.hint.value) + "!"
  {
  }

  // The commands that change one client.

  lemma Changes(s: State, e: Event, text: string)
    requires Sends(s, e, text) && CommandOf(text) in {Register, Listen, SetCookie, SetSourceHint}
    ensures Becomes(s, e, Rename(Get(s, e.id), text, e.stale))
  {
    hide Step, CommandOf, Rename, Holds;
    StepIs(s, e, text);
  }

  /** `register x` names the sender. */
  lemma RegisterNames(s: State, e: Event, blanks: string, x: string, tail: string)
    requires Sends(s, e, "register" + (blanks + (x + tail))) && Addressed(blanks, x, tail)
    ensures var c := Get(s, e.id); Becomes(s, e, if x == [] then c else c.(name := Some(x)))
  {
    hide Step, CommandOf, ScanEndpoint, Holds, Addressed, Becomes;
    Dispatch(blanks + (x + tail));
    ScansTo("register", blanks, x, tail);
    Changes(s, e, "register" + (blanks + (x + tail)));
  }

  /** `listen x` sets the sender's interest. */
  lemma ListenSets(s: State, e: Event, blanks: string, x: string, tail: string)
    requires Sends(s, e, "listen" + (blanks + (x + tail))) && Addressed(blanks, x, tail)
    ensures var c := Get(s, e.id); Becomes(s, e, if x == [] then c else c.(interest := Some(x)))
  {
    hide Step, CommandOf, ScanEndpoint, Holds, Addressed, Becomes;
    Dispatch(blanks + (x + tail));
    ScansTo("listen", blanks, x, tail);
    Changes(s, e, "listen" + (blanks + (x + tail)));
  }

  /** `set-cookie v` keeps a cookie shorter than 4096 characters and no other. */
  lemma CookieIsSet(s: State, e: Event, tail: string)
    requires Sends(s, e, "set-cookie" + tail)
    ensures var (c, v) := (Get(s, e.id), Argument(tail, e.stale));
      Becomes(s, e, if |v| < 4096 then c.(cookie := Some(v)) else c)
  {
    hide Step, CommandOf, Holds, Becomes, Behind, Argument;
    Dispatch(tail);
    BehindIs("set-cookie", tail, e.stale);
    Changes(s, e, "set-cookie" + tail);
  }

  /** `set-source-hint v` sets the endpoint of the sender's later emits. */
  lemma HintIsSet(s: State, e: Event, tail: string)
    requires Sends(s, e, "set-source-hint" + tail)
    ensures Becomes(s, e, Get(s, e.id).(hint := Some(Argument(tail, e.stale))))
  {
    hide Step, CommandOf, Holds, Becomes, Behind, Argument;
    Dispatch(tail);
    BehindIs("set-source-hint", tail, e.stale);
    Changes(s, e, "set-source-hint" + tail);
  }

  /** `clear x` drops the clients of `x` and writes nothing. */
  lemma ClearDrops(s: State, e: Event, blanks: string, x: string, tail: string)
    requires Sends(s, e, "clear" + (blanks + (x + tail))) && Addressed(blanks, x, tail)
    ensures var (t, outs) := Step(s, e);
      outs == [] && t.nextId == s.nextId && (x == [] ==> t == s) &&
      (x != [] ==> IsSubsequence(t.clients, s.clients)) &&
      (x != [] ==> forall c :: c in t.clients <==> c in s.clients && c.name != Some(x) && c.interest != Some(x))
  {
    hide Step, CommandOf, ScanEndpoint, Holds, Addressed, Without, IsSubsequence;
    Dispatch(blanks + (x + tail));
    ScansTo("clear", blanks, x, tail);
    StepIs(s, e, "clear" + (blanks + (x + tail)));
    WithoutIsFilter(s.clients, x);
  }

  /** `log`, `reconfigure`, `terminate` and what is no command leave the clients alone. */
  lemma OthersAreQuiet(s: State, e: Event, word: string, rest: string)
    requires Sends(s, e, word + rest)
    requires word == "log" || word == "reconfigure" || word == "terminate" || NoWord(word + rest)
    ensures Step(s, e) == (s, [])
  {
    hide Step, CommandOf, Holds, NoWord, IndexOf;
    InvalidIff(word + rest);
    Dispatch(rest);
    StaysAsItIs(s, e, word + rest);
  }

  lemma StaysAsItIs(s: State, e: Event, text: string)
    requires Sends(s, e, text) && CommandOf(text) in {Log, Reconfigure, Terminate, Invalid}
    ensures Step(s, e) == (s, [])
  {
    hide Step, CommandOf, Holds, IndexOf;
    StepIs(s, e, text);
    var cs, i := s.clients, IndexOf(s.clients, e.id);
    assert cs[i := cs[i]] == cs;
    assert Process(cs, i, text, e.dead, e.stale) == (cs, []);
  }

  // Calls and replies.

  /** What a forwarded call makes of a client's entry: the caller waits for the next free
      number of `t`, which is then taken. */
  function Linked(c: Client, caller: nat, t: nat, number: nat): Client {
    var waiting := if c.id == caller then c.(toId := t, toSeq := number) else c;
    if c.id == t then waiting.(nextCall := number + 1) else waiting
  }

  /** The call goes to the client at position `k`, and nothing else happens. */
  predicate Forwards(before: seq<Client>, after: seq<Client>, outs: seq<Output>, caller: nat, k: nat, m: string)
    requires k < |before|
  {
    var (t, number) := (before[k].id, before[k].nextCall);
    outs == [Posted(t, "scop-rpc-call " + m)] && |after| == |before| &&
    forall j :: 0 <= j < |before| ==> after[j] == Linked(before[j], caller, t, number)
  }

  /** `call x! m` is refused if the sender waits already or `x` is not one client's alone;
      otherwise it goes to that client, and the sender waits. */
  lemma CallForwards(evs: seq<Event>, e: Event, blanks: string, x: string, tail: string, gap: string, m: string)
    requires Sends(Run(evs), e, "call" + (blanks + (x + tail))) && Addressed(blanks, x, tail)
    requires Carries(tail, gap, m, e.stale)
    ensures var (before, after, outs) := (Run(evs), Run(evs + [e]), Outs(evs + [e]));
      if Get(before, e.id).toId != 0 || x == [] || |Answering(before.clients, x)| != 1
      then after == before && outs == [Posted(e.id, "scop-rpc-error")]
      else (after.nextId == before.nextId &&
            exists k: nat :: k < |before.clients| && before.clients[k].id in Answering(before.clients, x) &&
              Forwards(before.clients, after.clients, outs, e.id, k, m))
  {
    hide Run, Step, CommandOf, RpcCall, Holds, Addressed, Carries, Answering;
    var cs, text := Run(evs).clients, "call" + (blanks + (x + tail));
    Turns(evs, e, text);
    Dispatch(blanks + (x + tail));
    CallsText(cs, IndexOf(cs, e.id), blanks, x, tail, gap, m, e.stale);
  }

  lemma CallsText(cs: seq<Client>, i: nat, blanks: string, x: string, tail: string, gap: string, m: string,
                  stale: string)
    requires NewestFirst(cs) && i < |cs| && Addressed(blanks, x, tail) && Carries(tail, gap, m, stale)
    ensures "call" <= "call" + (blanks + (x + tail))
    ensures var (after, outs) := RpcCall(cs, i, "call" + (blanks + (x + tail)), stale);
      if cs[i].toId != 0 || x == [] || |Answering(cs, x)| != 1
      then after == cs && outs == [Posted(cs[i].id, "scop-rpc-error")]
      else (exists k: nat :: k < |cs| && cs[k].id in Answering(cs, x) &&
              Forwards(cs, after, outs, cs[i].id, k, m))
  {
    hide ScanEndpoint, Body, Addressed, Carries, Answering, Count, Link;
    ScansTo("call", blanks, x, tail);
    if x != [] {
      assert "call" + (blanks + (x + tail)) == "call" + blanks + x + tail;
      BodyIs("call" + blanks + x, tail, gap, m, stale);
    }
    CountsAnswering(cs, x);
    CountFirstMatch(cs, x);
    var k := FirstMatch(cs, x);
    if k < |cs| {
      MatchAnswers(cs, x, k);
      LinkIs(cs, i, k);
    }
  }

  lemma MatchAnswers(cs: seq<Client>, x: string, k: nat)
    requires k < |cs| && Matches(cs[k], x)
    ensures cs[k].id in Answering(cs, x)
  {
  }

  lemma LinkIs(cs: seq<Client>, i: nat, k: nat)
    requires NewestFirst(cs) && i < |cs| && k < |cs|
    ensures forall j :: 0 <= j < |cs| ==> Link(cs, i, k)[j] == Linked(cs[j], cs[i].id, cs[k].id, cs[k].nextCall)
  {
  }

  /** The newest client that waits for reply `number` of `server`. */
  predicate NewestWaiter(cs: seq<Client>, server: nat, number: nat, k: nat) {
    k < |cs| && cs[k].toId == server && cs[k].toSeq == number &&
    forall j :: 0 <= j < k ==> cs[j].toId != server || cs[j].toSeq != number
  }

  /** What a reply makes of a client's entry. */
  function Answered(c: Client, server: nat, waiter: bool): Client {
    var counted := if c.id == server then c.(nextReply := c.nextReply + 1) else c;
    if waiter then counted.(toId := 0) else counted
  }

  predicate Counted(before: seq<Client>, after: seq<Client>, server: nat, number: nat) {
    |after| == |before| &&
    forall j :: 0 <= j < |before| ==>
      after[j] == Answered(before[j], server, NewestWaiter(before, server, number, j))
  }

  /** `reply m` takes the sender's next number; the client that waits for it is sent `m` and
      waits no more. */
  lemma ReplyAnswers(evs: seq<Event>, e: Event, tail: string)
    requires Sends(Run(evs), e, "reply" + tail)
    ensures var (before, after, outs) := (Run(evs), Run(evs + [e]), Outs(evs + [e]));
      var number := Get(before, e.id).nextReply;
      after.nextId == before.nextId && Counted(before.clients, after.clients, e.id, number) &&
      ((forall k: nat :: !NewestWaiter(before.clients, e.id, number, k)) ==> outs == []) &&
      forall k: nat :: NewestWaiter(before.clients, e.id, number, k) ==>
        outs == [Posted(before.clients[k].id, Argument(tail, e.stale))]
  {
    hide Run, Step, CommandOf, RpcReply, Holds, Behind, Argument, NewestWaiter, Counted;
    var cs, text := Run(evs).clients, "reply" + tail;
    Turns(evs, e, text);
    Dispatch(tail);
    BehindIs("reply", tail, e.stale);
    RepliesText(cs, IndexOf(cs, e.id), Argument(tail, e.stale));
  }

  lemma RepliesText(cs: seq<Client>, i: nat, m: string)
    requires NewestFirst(cs) && i < |cs|
    ensures var (after, outs) := RpcReply(cs, i, m); var number := cs[i].nextReply;
      Counted(cs, after, cs[i].id, number) &&
      ((forall k: nat :: !NewestWaiter(cs, cs[i].id, number, k)) ==> outs == []) &&
      forall k: nat :: NewestWaiter(cs, cs[i].id, number, k) ==> outs == [Posted(cs[k].id, m)]
  {
    hide NewestWaiter, FirstWaiter, NewestFirst;
    FirstWaiterIs(cs, i);
    OnlyOneAt(cs, i);
  }

  lemma OnlyOneAt(cs: seq<Client>, i: nat)
    requires NewestFirst(cs) && i < |cs|
    ensures forall j :: 0 <= j < |cs| ==> (cs[j].id == cs[i].id <==> j == i)
  {
  }

  lemma FirstWaiterIs(cs: seq<Client>, i: nat)
    requires i < |cs|
    ensures var number := cs[i].nextReply;
      var w := FirstWaiter(cs[i := cs[i].(nextReply := number + 1)], cs[i].id, number);
      (w == |cs| ==> forall k: nat :: !NewestWaiter(cs, cs[i].id, number, k)) &&
      (w < |cs| ==> forall k: nat :: NewestWaiter(cs, cs[i].id, number, k) <==> k == w)
  {
    var number := cs[i].nextReply;
    var counted := cs[i := cs[i].(nextReply := number + 1)];
    assert forall k :: 0 <= k < |cs| ==> counted[k].toId == cs[k].toId && counted[k].toSeq == cs[k].toSeq;
  }

  // The list of clients.

  /** A new client stands in front with the next id, no names, no wait and both numbers at 1. */
  lemma ConnectAdds(evs: seq<Event>)
    ensures Run([]) == State([], 1)
    ensures var s := Run(evs);
      Run(evs + [Connect]).clients == [Client(s.nextId, None, None, None, None, 0, 0, 1, 1)] + s.clients &&
      Run(evs + [Connect]).nextId == s.nextId + 1 && Outs(evs + [Connect]) == []
  {
    RunStep(evs, Connect);
  }

  /** A closed connection takes its client off the list and nobody else. */
  lemma CloseRemoves(evs: seq<Event>, id: nat)
    ensures var (before, after) := (Run(evs), Run(evs + [Closed(id)]));
      Outs(evs + [Closed(id)]) == [] && after.nextId == before.nextId &&
      IsSubsequence(after.clients, before.clients) &&
      forall c :: c in after.clients <==> c in before.clients && c.id != id
  {
    hide Run, IsSubsequence;
    RunStep(evs, Closed(id));
    OrderedRun(evs);
    var cs := Run(evs).clients;
    var i := IndexOf(cs, id);
    if i < |cs| {
      RemoveAtKeeps(cs, i);
      OnlyOneAt(cs, i);
    } else {
      SubsequenceRefl(cs);
    }
  }

  /** Who listens to `x` and waits for no reply is sent the next message to `x`. */
  lemma ListenerHears(evs: seq<Event>, listen: Event, e: Event, x: string, m: string)
    requires x != [] && Unindented(x) && '!' !in x && Unindented(m)
    requires Sends(Run(evs), listen, "listen " + x) && Get(Run(evs), listen.id).toId == 0
    requires Sends(Run(evs + [listen]), e, "message " + x + "! " + m) && listen.id !in e.dead
    ensures Posted(listen.id, m) in Outs(evs + [listen] + [e])
  {
    hide Run, Step, Holds, Outs;
    var s := Run(evs);
    assert "listen" + (" " + (x + [])) == "listen " + x;
    ListenSets(s, listen, " ", x, []);
    RunStep(evs, listen);
    var c := Get(s, listen.id).(interest := Some(x));
    assert Run(evs + [listen]).clients[IndexOf(s.clients, listen.id)] == c;
    assert "message" + (" " + (x + ("!" + (" " + m)))) == "message " + x + "! " + m;
    MessageSends(evs + [listen], e, " ", x, "!" + (" " + m), " ", m);
    assert listen.id in Reachable(Run(evs + [listen]).clients, x, e.dead);
  }
}
