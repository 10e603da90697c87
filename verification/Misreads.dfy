/** Two runs in which `scop_rpc` returns something else than the reply: a message that the
    server handled before the call, and a call that crossed it; and one run in which it does
    not. Client 1 is called "a" and client 2 "s"; client 1 calls "s" and has read nothing
    before. */
module Misreads {
  import opened Text
  import opened Vertex
  import opened Broker
  import opened BrokerRuns
  import opened BrokerTheorems
  import opened EndToEnd
  import opened EarlyReply

  const REGISTER_A := Received(1, "register" + " " + "a" + "", {}, "")
  const REGISTER_S := Received(2, "register" + " " + "s" + "", {}, "")
  const MESSAGE := Received(2, "message" + " " + "a" + "! hi", {}, "")
  const CALL_S := Received(1, CallCommand("s", "x"), {}, "")
  const CALL_A := Received(2, CallCommand("a", "z"), {}, "")
  const REPLY_S := Received(2, ReplyCommand("y"), {}, "")

  const SETUP := [Connect] + [Connect] + [REGISTER_A] + [REGISTER_S]

  const A := NewClient(1).(name := Some("a"))
  const S := NewClient(2).(name := Some("s"))
  const READY := State([S, A], 3)

  /** The server's state and its history, as far as clients 1 and 2 are concerned. */
  predicate At(evs: seq<Event>, s: State, calls: seq<nat>, written: seq<Output>) {
    && Run(evs) == s && Calls(evs, 2) == calls && Replies(evs, 2) == 0
    && Calls(evs, 1) == [] && Written(evs, 1) == written && Written(evs, 2) == []
  }

  /** One more event that is neither call nor reply. */
  lemma Quietly(evs: seq<Event>, e: Event, s: State, after: State, outs: seq<Output>)
    requires At(evs, s, [], []) && Step(s, e) == (after, outs) && !Says(s, e, Call) && !Says(s, e, Reply)
    requires WritesTo(outs, 2) == []
    ensures At(evs + [e], after, [], WritesTo(outs, 1))
  {
    hide Step, CommandOf, CString, WritesTo;
    RunStep(evs, e);
    WrittenStep(evs, e, 1);
    WrittenStep(evs, e, 2);
  }

  const ONE := State([NewClient(1)], 2)
  const TWO := State([NewClient(2), NewClient(1)], 3)
  const NAMED_A := State([NewClient(2), A], 3)

  lemma Connects()
    ensures Step(State([], 1), Connect) == (ONE, []) && Step(ONE, Connect) == (TWO, [])
    ensures At([], State([], 1), [], [])
  {
    var none: seq<Client> := [];
    assert [NewClient(1)] + none == [NewClient(1)];
    assert [NewClient(2)] + [NewClient(1)] == [NewClient(2), NewClient(1)];
  }

  lemma RegistersA()
    ensures Step(TWO, REGISTER_A) == (NAMED_A, []) && !Says(TWO, REGISTER_A, Call) && !Says(TWO, REGISTER_A, Reply)
  {
    hide Step, CommandOf;
    Registers(TWO, REGISTER_A, "a");
    assert TWO.clients[1 := A] == NAMED_A.clients;
  }

  lemma RegistersS()
    ensures Step(NAMED_A, REGISTER_S) == (READY, []) && !Says(NAMED_A, REGISTER_S, Call) &&
      !Says(NAMED_A, REGISTER_S, Reply)
  {
    hide Step, CommandOf;
    Registers(NAMED_A, REGISTER_S, "s");
    assert NAMED_A.clients[0 := S] == READY.clients;
  }

  lemma Setup()
    ensures At(SETUP, READY, [], [])
  {
    hide At, Step, CommandOf, CString, NewClient;
    Connects();
    Quietly([], Connect, State([], 1), ONE, []);
    assert [] + [Connect] == [Connect];
    Quietly([Connect], Connect, ONE, TWO, []);
    RegistersA();
    Quietly([Connect] + [Connect], REGISTER_A, TWO, NAMED_A, []);
    RegistersS();
    Quietly([Connect] + [Connect] + [REGISTER_A], REGISTER_S, NAMED_A, READY, []);
  }

  // A message before the call.

  lemma MessageText()
    ensures CString(MESSAGE.buf) == MESSAGE.buf && CommandOf(MESSAGE.buf) == Message && "message" <= MESSAGE.buf
    ensures SendMessage([S, A], "message", MESSAGE.buf, {}, "", None) == DoSend([S, A], "a", "hi", {}, None)
  {
    hide DoSend, ScanEndpoint, Body, CommandOf, CString;
    MessageCommand();
    MessageParts();
  }

  lemma MessageCommand()
    ensures var text := "message" + " " + "a" + "! hi";
      CString(text) == text && CommandOf(text) == Message && "message" <= text
  {
    var text := "message" + " " + "a" + "! hi";
    CStringWhole(text);
    assert text[0] == 'm' && text[..7] == "message";
  }

  lemma MessageParts()
    ensures var text := "message" + " " + "a" + "! hi";
      && "message" <= text && ScanEndpoint("message", text) == Some(("a", 9))
      && Body(text, 9, "") == "hi"
  {
    hide ScanEndpoint, Body, SkipSpace;
    ScanEndpointOf("message", "a", "! hi");
    BodyOf("message" + " " + "a", "hi", "");
    assert "message" + " " + "a" + "! hi" == "message" + " " + "a" + "! " + "hi";
    TrimNothing();
  }

  lemma TrimNothing()
    ensures Trim("hi") == "hi"
  {
  }

  lemma MessageDelivered()
    ensures DoSend([S, A], "a", "hi", {}, None) == ([S, A], [Posted(1, "hi")])
  {
    var none: seq<Client>, nothing: seq<Output> := [], [];
    assert "s"[0] != "a"[0];
    assert Reached(A, "a", {}) && !Reached(S, "a", {}) && !Lost(A, "a", {}) && !Lost(S, "a", {});
    DeliverStep([A], "a", "hi", {});
    DeliverStep([S, A], "a", "hi", {});
    hide Reached, Lost;
    assert [A][1..] == none && [S, A][1..] == [A];
    assert Deliver(none, "a", "hi", {}) == (none, nothing);
    assert [A] + none == [A] && [Posted(1, "hi")] + nothing == [Posted(1, "hi")] && [S] + [A] == [S, A];
  }

  lemma MessageStep()
    ensures Step(READY, MESSAGE) == (READY, [Posted(1, "hi")])
    ensures !Says(READY, MESSAGE, Call) && !Says(READY, MESSAGE, Reply)
  {
    MessageText();
    MessageDelivered();
    hide CString, CommandOf, SendMessage, DoSend;
  }

  // The call.

  /** A forwarded call in the state and in the histories of clients 1 and 2. */
  lemma Calls12(evs: seq<Event>, e: Event, s: State, endpoint: string, args: string, t: nat)
    requires Run(evs) == s && IsCallOf(e, endpoint, args) && Callable(s, e.id, endpoint) && Target(s, endpoint) == t
    ensures FirstMatch(s.clients, endpoint) < |s.clients|
    ensures Run(evs + [e]) == s.(clients := Link(s.clients, IndexOf(s.clients, e.id), FirstMatch(s.clients, endpoint)))
    ensures forall u: nat :: Replies(evs + [e], u) == Replies(evs, u)
    ensures forall u: nat :: Calls(evs + [e], u) == Calls(evs, u) + if u == t then [e.id] else []
    ensures forall u: nat ::
      Written(evs + [e], u) == Written(evs, u) + if u == t then [Posted(t, CallText(Trim(args)))] else []
  {
    hide Run, Step, CommandOf, CString, CallText, Count, Trim, Link, Callable, CallCommand;
    CallArrives(s, e, endpoint, args);
    CallSays(s, e, endpoint, args);
    RunStep(evs, e);
    forall u: nat
      ensures Written(evs + [e], u) == Written(evs, u) + if u == t then [Posted(t, CallText(Trim(args)))] else []
    {
      WrittenStep(evs, e, u);
    }
  }

  lemma CallSays(s: State, e: Event, endpoint: string, args: string)
    requires IsCallOf(e, endpoint, args) && Callable(s, e.id, endpoint)
    ensures Says(s, e, Call)
  {
    SaysCall(s, e, endpoint, args);
  }

  const CALLED := State([S.(nextCall := 2), A.(toId := 2, toSeq := 1)], 3)

  lemma ReadyToCall()
    ensures Callable(READY, 1, "s") && FirstMatch(READY.clients, "s") == 0 && IndexOf(READY.clients, 1) == 1
    ensures Target(READY, "s") == 2 && Link(READY.clients, 1, 0) == CALLED.clients
    ensures IsCallOf(CALL_S, "s", "x") && CallText(Trim("x")) == CallText("x")
  {
    assert "s"[0] != "a"[0];
    assert [S, A][1..] == [A] && [A][1..] == [];
    assert Count([A], "s") == 0;
    CStringWhole(CALL_S.buf);
  }

  lemma CallsS(evs: seq<Event>, written: seq<Output>)
    requires At(evs, READY, [], written)
    ensures var after := evs + [CALL_S];
      && Run(after) == CALLED && Calls(after, 2) == [1] && Replies(after, 2) == 0 && Calls(after, 1) == []
      && Written(after, 1) == written && Written(after, 2) == [Posted(2, CallText("x"))]
  {
    hide Run, Step, Calls, Replies, Written, CString, CallText, Count, Trim, Link, Callable, CallCommand,
      FirstMatch, IndexOf;
    ReadyToCall();
    Calls12(evs, CALL_S, READY, "s", "x", 2);
  }

  lemma RepliesY()
    ensures IsReplyOf(REPLY_S, "y")
  {
    CStringWhole(REPLY_S.buf);
    ReplyCommandIsReply("y", "");
  }

  lemma ReplyIsNoCall(evs: seq<Event>, e: Event, text: string)
    requires IsReplyOf(e, text)
    ensures forall u: nat :: Calls(evs + [e], u) == Calls(evs, u)
  {
    hide Run, Step, CommandOf, CString, Behind;
    RunStep(evs, e);
  }

  // The two runs.

  /** The message is handled while the call is on its way: the caller is not waiting yet. */
  const STALE := Exchange(1, 2, 0, SETUP, [MESSAGE], CALL_S, [], REPLY_S)

  predicate TwoAndOne(cs: seq<Client>) {
    |cs| == 2 && cs[0].id == 2 && cs[1].id == 1
  }

  lemma BothConnected(s: State)
    requires TwoAndOne(s.clients)
    ensures Connected(s, 1) && Connected(s, 2)
  {
  }

  /** An exchange in which the server takes the call in the state READY. */
  lemma ExchangeS(x: Exchange, written: seq<Output>)
    requires x.caller == 1 && x.server == 2 && x.taken == 0 && x.call == CALL_S && x.reply == REPLY_S
    requires At(x.AtCall(), READY, [], written) && Blocked(x.mid, 1)
    requires TwoAndOne(Run(x.BeforeReply()).clients) && Replies(x.BeforeReply(), 2) == 0
    ensures Calling(x, "s") && IsCallOf(x.call, "s", "x") && Replying(x) && IsReplyOf(x.reply, "y")
  {
    hide Run, Step, Calls, Replies, Written, CommandOf, CString, Callable, CallCommand, Target, Connected, Blocked,
      IsCallOf;
    ReadyToCall();
    CallsS(x.AtCall(), written);
    RepliesY();
    BothConnected(Run(x.BeforeReply()));
  }

  lemma WritesToOne()
    ensures WritesTo([Posted(1, "hi")], 2) == [] && WritesTo([Posted(1, "hi")], 1) == [Posted(1, "hi")]
  {
  }

  lemma StaleAtCall()
    ensures At(STALE.AtCall(), READY, [], [Posted(1, "hi")])
  {
    hide At, Step, CommandOf, WritesTo;
    Setup();
    MessageStep();
    WritesToOne();
    Quietly(SETUP, MESSAGE, READY, READY, [Posted(1, "hi")]);
  }

  lemma StaleCalls()
    ensures Calling(STALE, "s") && IsCallOf(STALE.call, "s", "x") && Replying(STALE) && IsReplyOf(STALE.reply, "y")
    ensures Written(STALE.AtCall(), 1) == [Posted(1, "hi")] && Calls(STALE.BeforeReply(), 1) == []
  {
    StaleAtCall();
    hide Run, Step, Calls, Replies, Written, CommandOf, CString, CallCommand, Calling, Replying, IsCallOf, IsReplyOf;
    CallsS(STALE.AtCall(), [Posted(1, "hi")]);
    assert STALE.BeforeReply() == STALE.AfterCall();
    ExchangeS(STALE, [Posted(1, "hi")]);
  }

  /** A message that reaches the server before the call is what `scop_rpc` returns, though
      nobody ever calls the caller; the reply stays behind it in the socket. */
  lemma StaleMessageIsMisread()
    ensures Calling(STALE, "s") && IsCallOf(STALE.call, "s", "x")
    ensures Replying(STALE) && IsReplyOf(STALE.reply, "y")
    ensures Unread(STALE.AfterReply(), 1, 0) == [Posted(1, "hi"), Posted(1, "y")]
    ensures Calls(STALE.AfterReply(), 1) == [] && RpcResult("hi") == Some("hi")
  {
    StaleCalls();
    hide Run, Step, Calls, Replies, Written, CommandOf, CString, CallCommand, Calling, Replying, IsCallOf, IsReplyOf;
    FirstReadIsReplyIff(STALE, "s", "x", "y");
    assert Inbox(STALE.AfterCall(), [], 1) == [];
    ReplyIsNoCall(STALE.BeforeReply(), REPLY_S, "y");
  }

  /** For comparison, the same call and reply with nothing in between. */
  const PLAIN := Exchange(1, 2, 0, SETUP, [], CALL_S, [], REPLY_S)

  lemma PlainAtCall()
    ensures At(PLAIN.AtCall(), READY, [], [])
  {
    hide At;
    Setup();
    assert PLAIN.AtCall() == SETUP;
  }

  lemma PlainCalls()
    ensures Calling(PLAIN, "s") && IsCallOf(PLAIN.call, "s", "x") && Replying(PLAIN) && IsReplyOf(PLAIN.reply, "y")
    ensures Written(PLAIN.AtCall(), 1) == []
  {
    PlainAtCall();
    hide Run, Step, Calls, Replies, Written, CommandOf, CString, CallCommand, Calling, Replying, IsCallOf, IsReplyOf;
    CallsS(PLAIN.AtCall(), []);
    assert PLAIN.BeforeReply() == PLAIN.AfterCall();
    ExchangeS(PLAIN, []);
  }

  lemma PlainCallIsAnswered()
    ensures Calling(PLAIN, "s") && IsCallOf(PLAIN.call, "s", "x")
    ensures Replying(PLAIN) && IsReplyOf(PLAIN.reply, "y") && Undisturbed(PLAIN)
    ensures Unread(PLAIN.AfterReply(), 1, 0) == [Posted(1, "y")]
  {
    PlainCalls();
    hide Run, Step, Calls, Replies, Written, CommandOf, CString, CallCommand, Calling, Replying, IsCallOf,
      IsReplyOf, Undisturbed;
    FirstReadIsReplyIff(PLAIN, "s", "x", "y");
    assert Inbox(PLAIN.AfterCall(), [], 1) == [];
  }

  /** Client 2 calls "a" before it has read the call from "a". */
  const CROSSED := Exchange(1, 2, 0, SETUP, [], CALL_S, [CALL_A], REPLY_S)

  lemma CalledToCall()
    ensures Callable(CALLED, 2, "a") && IsCallOf(CALL_A, "a", "z") && Target(CALLED, "a") == 1
    ensures Trim("z") == "z" && TwoAndOne(Link(CALLED.clients, 0, FirstMatch(CALLED.clients, "a")))
    ensures IndexOf(CALLED.clients, 2) == 0
  {
    assert "s"[0] != "a"[0];
    assert CALLED.clients[1..] == [CALLED.clients[1]] && [CALLED.clients[1]][1..] == [];
    assert Count([CALLED.clients[1]], "a") == 1;
    CStringWhole(CALL_A.buf);
  }

  lemma CrossedAfterCalls()
    ensures At(CROSSED.AtCall(), READY, [], [])
    ensures var evs := CROSSED.BeforeReply();
      && TwoAndOne(Run(evs).clients) && Replies(evs, 2) == 0
      && Written(evs, 1) == [Posted(1, CallText("z"))] && Written(evs, 2) == [Posted(2, CallText("x"))]
  {
    Setup();
    assert CROSSED.AtCall() == SETUP;
    hide Run, Step, Calls, Replies, Written, CString, CallText, Count, Trim, Link, Callable, CallCommand,
      FirstMatch, IndexOf, Target;
    CallsS(SETUP, []);
    CalledToCall();
    Calls12(CROSSED.AfterCall(), CALL_A, CALLED, "a", "z", 1);
  }

  lemma CrossedCalls()
    ensures Calling(CROSSED, "s") && IsCallOf(CROSSED.call, "s", "x") && Replying(CROSSED) &&
      IsReplyOf(CROSSED.reply, "y")
  {
    CrossedAfterCalls();
    hide Run, Step, Calls, Replies, Written, CommandOf, CString, CallCommand, Calling, Replying, IsCallOf,
      IsReplyOf, At, TwoAndOne;
    ExchangeS(CROSSED, []);
  }

  lemma CrossedReturns()
    ensures RpcResult(CallText("z")) == Some("z") && RpcResult(CallText("x")) == Some("x")
  {
    hide RpcResult, CallText;
    ForwardedCallIsMisread("z");
    ForwardedCallIsMisread("x");
    assert "z"[0] != RPC_ERROR[0] && "x"[0] != RPC_ERROR[0];
  }

  /** Two clients that call each other at once both return the other's call as the reply. */
  lemma CrossedCallsAreMisread()
    ensures Calling(CROSSED, "s") && IsCallOf(CROSSED.call, "s", "x")
    ensures Replying(CROSSED) && IsReplyOf(CROSSED.reply, "y")
    ensures Unread(CROSSED.AfterReply(), 1, 0) == [Posted(1, CallText("z")), Posted(1, "y")]
    ensures Unread(CROSSED.BeforeReply(), 2, 0) == [Posted(2, CallText("x"))]
    ensures RpcResult(CallText("z")) == Some("z") && RpcResult(CallText("x")) == Some("x")
  {
    hide Run, Step, Calls, Replies, Written, CommandOf, CString, CallCommand, Calling, Replying, IsCallOf,
      IsReplyOf, CallText, RpcResult, At, TwoAndOne, Undisturbed, Inbox;
    CrossedCalls();
    CrossedAfterCalls();
    FirstReadIsReplyIff(CROSSED, "s", "x", "y");
    CrossedReturns();
  }
}
