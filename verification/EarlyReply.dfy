/** A run of the SCOP server in which a reply is ahead of its call: the server has sent no
    more replies than calls were forwarded to it, and still its caller waits for a reply
    that has gone by. The client calls itself, after a reply that nobody asked for. */
module EarlyReply {
  import opened Text
  import opened Vertex
  import opened Broker
  import opened BrokerRuns
  import opened BrokerTheorems
  import opened EndToEnd

  const REGISTER := Received(1, "register" + " " + "s" + "", {}, "")
  const REPLY := Received(1, ReplyCommand("x"), {}, "")
  const CALL := Received(1, CallCommand("s", "y"), {}, "")

  const FRESH := NewClient(1)
  const NAMED := FRESH.(name := Some("s"))
  const AHEAD := NAMED.(nextReply := 2)

  /** Registering a plain name sets it, and nothing is written. */
  lemma Registers(s: State, e: Event, name: string)
    requires e.Received? && Connected(s, e.id) && PlainEndpoint(name) && e.buf == "register" + " " + name + ""
    ensures var i := IndexOf(s.clients, e.id);
      Step(s, e) == (s.(clients := s.clients[i := s.clients[i].(name := Some(name))]), [])
    ensures !Says(s, e, Call) && !Says(s, e, Reply)
  {
    hide CommandOf, ScanEndpoint, CString, PlainEndpoint, IndexOf;
    RegisterText(name);
  }

  lemma RegisterText(name: string)
    requires PlainEndpoint(name)
    ensures var text := "register" + " " + name + "";
      && CString(text) == text && CommandOf(text) == Register
      && ScanEndpoint("register", text) == Some((name, |text|))
  {
    var text := "register" + " " + name + "";
    CStringWhole(text);
    assert CommandOf(text) == Register by {
      assert text[0] == 'r' && text[..8] == "register";
    }
    ScanEndpointOf("register", name, "");
  }

  lemma RegisterStep()
    ensures Step(State([FRESH], 2), REGISTER) == (State([NAMED], 2), [])
    ensures !Says(State([FRESH], 2), REGISTER, Call) && !Says(State([FRESH], 2), REGISTER, Reply)
  {
    hide Step, CommandOf;
    Registers(State([FRESH], 2), REGISTER, "s");
    assert [FRESH][0 := NAMED] == [NAMED];
  }

  lemma ReplyText(x: string)
    requires '\0' !in x
    ensures CString(ReplyCommand(x)) == ReplyCommand(x) && CommandOf(ReplyCommand(x)) == Reply
  {
    CStringWhole(ReplyCommand(x));
    ReplyCommandIsReply(x, "");
  }

  lemma ReplyStep()
    ensures Says(State([NAMED], 2), REPLY, Reply) && !Says(State([NAMED], 2), REPLY, Call)
    ensures Step(State([NAMED], 2), REPLY) == (State([AHEAD], 2), [])
  {
    hide CommandOf, CString, ReplyCommand, Behind;
    ReplyText("x");
    StepReply(State([NAMED], 2), REPLY);
    assert [NAMED][0 := AHEAD] == [AHEAD];
    assert FirstWaiter([AHEAD], 1, 1) == 1;
  }

  lemma ConnectStep()
    ensures Run([Connect]) == State([FRESH], 2) && Calls([Connect], 1) == [] && Replies([Connect], 1) == 0
  {
    assert [Connect] == [] + [Connect];
    RunStep([], Connect);
  }

  /** One more event on a run whose state and history are known. */
  lemma Extend(evs: seq<Event>, e: Event, s: State, calls: seq<nat>, replies: nat)
    requires Run(evs) == s && Calls(evs, 1) == calls && Replies(evs, 1) == replies
    requires e.Received? && e.id == 1 && !Says(s, e, Call)
    ensures Run(evs + [e]) == Step(s, e).0 && Calls(evs + [e], 1) == calls
    ensures Replies(evs + [e], 1) == replies + if Says(s, e, Reply) then 1 else 0
  {
    hide Step, CommandOf, CString;
    RunStep(evs, e);
  }

  lemma ThreeEvents()
    ensures var evs := [Connect] + [REGISTER] + [REPLY];
      Run(evs) == State([AHEAD], 2) && Calls(evs, 1) == [] && Replies(evs, 1) == 1
  {
    hide Run, Step, Says, Calls, Replies, CommandOf, CString;
    ConnectStep();
    RegisterStep();
    Extend([Connect], REGISTER, State([FRESH], 2), [], 0);
    ReplyStep();
    Extend([Connect] + [REGISTER], REPLY, State([NAMED], 2), [], 0);
  }

  /** With one call and one reply, the caller still waits for reply 1, which has gone. */
  lemma EarlyReplyStrands()
    ensures var evs := [Connect] + [REGISTER] + [REPLY] + [CALL];
      Replies(evs, 1) == 1 && |Calls(evs, 1)| == 1 && Waiting(Run(evs), 1, 1, 1)
  {
    hide Run, Step, Calls, Replies, ForwardedTo, CString, CommandOf;
    var before := [Connect] + [REGISTER] + [REPLY];
    ThreeEvents();
    assert Count([AHEAD], "s") == 1;
    CStringWhole(CALL.buf);
    CallWaits(before, CALL, "s", "y");
    SaysCall(Run(before), CALL, "s", "y");
    RunStep(before, CALL);
  }
}
