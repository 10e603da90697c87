/** A remote procedure call from end to end: the client library (scoplib.cpp), the frames,
    the server and the typed messages together. */
module EndToEnd {
  import opened Text
  import opened Vertex
  import opened Broker
  import opened BrokerRuns
  import opened BrokerTheorems
  import Wire

  // The client library.

  function CallCommand(endpoint: string, args: string): string {
    "call" + " " + endpoint + ("! " + args)
  }

  function ReplyCommand(reply: string): string {
    "reply " + reply
  }

  /** `scop_get_message`: the text, and whether it was a call. */
  function GetMessage(buf: string): (string, bool) {
    if IsCallText(buf) then (buf[|RPC_CALL|..], true) else (buf, false)
  }

  /** What `scop_rpc` returns for the message it reads; it does not look at the flag. */
  function RpcResult(buf: string): Option<string> {
    var reply := GetMessage(buf).0;
    if reply == RPC_ERROR then None else Some(reply)
  }

  function ParseAll(s: string): Option<Value> {
    match Parse(s, 0)
    case None => None
    case Some((v, _)) => Some(v)
  }

  /** `scop_get_request`. */
  function GetRequest(buf: string): Option<Value> {
    var (body, called) := GetMessage(buf);
    if called then ParseAll(body) else None
  }

  /** `scop_rpc` on structures. */
  function StructResult(buf: string): Option<Value> {
    match RpcResult(buf)
    case None => None
    case Some(reply) => ParseAll(reply)
  }

  /** A text behind the marker of a call is a request; the error text is no result, and
      every other text is one. */
  lemma Markers(m: string, buf: string)
    ensures GetMessage("scop-rpc-call " + m) == (m, true)
    ensures !("scop-rpc-call " <= buf) ==> GetMessage(buf) == (buf, false) && GetRequest(buf) == None
    ensures RpcResult("scop-rpc-error") == None && StructResult("scop-rpc-error") == None
    ensures !("scop-rpc-call " <= buf) && buf != "scop-rpc-error" ==>
      RpcResult(buf) == Some(buf) && StructResult(buf) == ParseAll(buf)
    ensures m != "scop-rpc-error" ==> RpcResult("scop-rpc-call " + m) == Some(m)
    ensures GetRequest("scop-rpc-call " + m) == ParseAll(m)
  {
    hide ParseAll;
    CallTexts(m);
    assert (RPC_CALL + m)[|RPC_CALL|..] == m;
  }

  // One hop over the wire.

  /** The C string that a receiver holds after reading a frame. */
  lemma HopKeepsText(text: string, rest: string)
    requires |text| < Wire.TWO_31 && '\0' !in text
    ensures Wire.ReadMessage(Wire.Frame(text) + rest) == (Some(text), rest)
    ensures CString(text) == text
  {
    Wire.ReadFrame(text, rest);
    CStringWhole(text);
  }

  lemma CStringWhole(text: string)
    requires '\0' !in text
    ensures CString(text) == text
  {
    forall k | 0 <= k < |text| ensures text[k] != '\0' {
      assert text[k] in text;
    }
  }

  // Printed vertices as payload.

  lemma PrintIsNoMarker(v: Value)
    ensures !IsCallText(Print(v)) && Print(v) != RPC_ERROR && Trim(Print(v)) == Print(v)
  {
    assert RPC_CALL[0] == 's' && RPC_ERROR[0] == 's';
  }

  lemma HexBytesNoNul(buf: seq<Byte>)
    ensures '\0' !in HexBytes(buf)
  {
  }

  lemma {:induction false} PrintNoNul(v: Value)
    requires WellFormed(v)
    ensures '\0' !in Print(v)
    decreases v, 0
  {
    match v
    case VInteger(n) => IntToStringChars(n, '\0');
    case VString(s) => TagNoNul("string", |s|);
    case VBinary(buf) =>
      TagNoNul("binary", |buf|);
      HexBytesNoNul(buf);
    case VList(items) =>
      TagNoNul("list", |items|);
      PrintAllNoNul(items);
  }

  lemma TagNoNul(name: string, size: nat)
    requires '\0' !in name
    ensures '\0' !in Tag(name, size)
  {
    IntToStringChars(size, '\0');
  }

  lemma {:induction false} PrintAllNoNul(items: seq<Value>)
    requires forall w :: w in items ==> WellFormed(w)
    ensures '\0' !in PrintAll(items)
    decreases items, 1
  {
    hide Print;
    if items != [] {
      PrintNoNul(items[0]);
      PrintAllNoNul(items[1..]);
    }
  }

  lemma ParseAllPrinted(v: Value)
    requires WellFormed(v)
    ensures ParseAll(Print(v)) == Some(v)
  {
    hide Parse, Print;
    RoundTrip(v);
  }

  /** A structured reply comes back as the same vertex, and is neither an error nor a call. */
  lemma StructReplyIntact(w: Value)
    requires WellFormed(w)
    ensures GetMessage(Print(w)) == (Print(w), false) && StructResult(Print(w)) == Some(w)
  {
    hide Print, Parse, IsCallText;
    PrintIsNoMarker(w);
    ParseAllPrinted(w);
  }

  /** A structured request reaches its target as the same vertex. */
  lemma StructRequestIntact(v: Value)
    requires WellFormed(v)
    ensures GetRequest(CallText(Print(v))) == Some(v)
  {
    hide Print, Parse, IsCallText;
    CallTexts(Print(v));
    assert CallText(Print(v))[|RPC_CALL|..] == Print(v);
    ParseAllPrinted(v);
  }

  // The call.

  /** A connected client that may call, and an endpoint that exactly one client answers to. */
  predicate Callable(s: State, caller: nat, endpoint: string) {
    && Connected(s, caller) && Get(s, caller).toId == 0
    && PlainEndpoint(endpoint) && Count(s.clients, endpoint) == 1
  }

  function Target(s: State, endpoint: string): nat
    requires Count(s.clients, endpoint) == 1
  {
    CountFirstMatch(s.clients, endpoint);
    s.clients[FirstMatch(s.clients, endpoint)].id
  }

  lemma CallCommandNoNul(endpoint: string, args: string)
    requires '\0' !in endpoint && '\0' !in args
    ensures '\0' !in CallCommand(endpoint, args)
  {
  }

  lemma CallCommandIsCall(endpoint: string, args: string)
    ensures CommandOf(CallCommand(endpoint, args)) == Call
  {
    var text := CallCommand(endpoint, args);
    assert text[0] == 'c' && text[1] == 'a' && text[..4] == "call";
    assert "clear"[1] == 'l';
  }

  lemma SaysCall(s: State, e: Event, endpoint: string, args: string)
    requires e.Received? && Connected(s, e.id) && CString(e.buf) == CallCommand(endpoint, args)
    ensures Says(s, e, Call)
  {
    hide CommandOf;
    CallCommandIsCall(endpoint, args);
  }

  /** A call command goes to the one client that answers to the endpoint, with its
      arguments as they were sent but for leading blanks. */
  lemma CallArrives(s: State, e: Event, endpoint: string, args: string)
    requires e.Received? && Callable(s, e.id, endpoint)
    requires CString(e.buf) == CallCommand(endpoint, args)
    ensures FirstMatch(s.clients, endpoint) < |s.clients|
    ensures Step(s, e).1 == [Posted(Target(s, endpoint), CallText(Trim(args)))]
    ensures ForwardedTo(s, e) == Some(Target(s, endpoint))
    ensures Step(s, e).0 == s.(clients := Link(s.clients, IndexOf(s.clients, e.id), FirstMatch(s.clients, endpoint)))
  {
    hide CommandOf, Step, CallText, IsCallText, Trim, CString, Link;
    var i := IndexOf(s.clients, e.id);
    CountFirstMatch(s.clients, endpoint);
    SaysCall(s, e, endpoint, args);
    StepCall(s, e);
    CallResult(s.clients, i, endpoint, args, e.stale);
    CallTexts(Trim(args));
  }

  lemma CallResult(cs: seq<Client>, i: nat, endpoint: string, args: string, stale: string)
    requires i < |cs| && cs[i].toId == 0 && PlainEndpoint(endpoint) && Count(cs, endpoint) == 1
    ensures "call" <= CallCommand(endpoint, args) && FirstMatch(cs, endpoint) < |cs|
    ensures RpcCall(cs, i, CallCommand(endpoint, args), stale)
         == (Link(cs, i, FirstMatch(cs, endpoint)), [Posted(cs[FirstMatch(cs, endpoint)].id, CallText(Trim(args)))])
  {
    hide CallText, Trim, Link;
    ScanEndpointOf("call", endpoint, "! " + args);
    CountFirstMatch(cs, endpoint);
    BodyOf("call" + " " + endpoint, args, stale);
    assert CallCommand(endpoint, args) == "call" + " " + endpoint + "! " + args;
  }

  lemma ForwardedWaits(evs: seq<Event>, e: Event, t: nat)
    requires Ordered(Run(evs)) && Forwarding(Run(evs), e, t)
    ensures var id := Run(evs).clients[t].id;
      Waiting(Run(evs + [e]), e.id, id, |Calls(evs + [e], id)|)
  {
    hide Run, Step, Replies, CommandOf, CString, Link, Calls, WaitsFor, Ordered;
    var s := Run(evs);
    var cs, i := s.clients, IndexOf(s.clients, e.id);
    RunStep(evs, e);
    OneClientPerId(s, cs[t], cs[t]);
    ServerCounters(evs, cs[t].id);
    LinkWaits(cs, i, t);
    OrderedRun(evs + [e]);
    OneClientPerId(Run(evs + [e]), Link(cs, i, t)[i], Link(cs, i, t)[i]);
  }

  lemma LinkWaits(cs: seq<Client>, i: nat, t: nat)
    requires i < |cs| && t < |cs|
    ensures Link(cs, i, t)[i].id == cs[i].id && WaitsFor(Link(cs, i, t)[i], cs[t].id, cs[t].nextCall)
  {
  }

  /** From the moment a call is forwarded, its caller waits for the reply with its number. */
  lemma CallWaits(evs: seq<Event>, e: Event, endpoint: string, args: string)
    requires e.Received? && Callable(Run(evs), e.id, endpoint)
    requires CString(e.buf) == CallCommand(endpoint, args)
    ensures var t := Target(Run(evs), endpoint);
      && ForwardedTo(Run(evs), e) == Some(t)
      && Outs(evs + [e]) == [Posted(t, CallText(Trim(args)))]
      && Waiting(Run(evs + [e]), e.id, t, |Calls(evs + [e], t)|)
  {
    hide Run, Step, Calls, CallText, Trim, CString, CommandOf, IsCallText;
    OrderedRun(evs);
    CallArrives(Run(evs), e, endpoint, args);
    RunStep(evs, e);
    SaysCall(Run(evs), e, endpoint, args);
    CallEffect(Run(evs), e);
    var k :| Forwarding(Run(evs), e, k);
    ForwardedWaits(evs, e, k);
  }

  /** Nobody has a call forwarded to the client `id` during `more`. */
  ghost predicate Uncalled(evs: seq<Event>, more: seq<Event>, id: nat) {
    forall j :: 0 <= j < |more| ==> ForwardedTo(Run(evs + more[..j]), more[j]) != Some(id)
  }

  lemma {:induction false} RepliesGrow(evs: seq<Event>, more: seq<Event>, t: nat)
    ensures Replies(evs, t) <= Replies(evs + more, t)
    decreases |more|
  {
    hide Run, Says;
    if more == [] {
      assert evs + more == evs;
    } else {
      var before := evs + more[..|more| - 1];
      RepliesGrow(evs, more[..|more| - 1], t);
      assert before + [more[|more| - 1]] == evs + more;
      RunStep(before, more[|more| - 1]);
    }
  }

  /** Until its own reply, a blocked caller is written nothing but the calls forwarded to
      it, and nothing at all exactly when nobody calls it. */
  lemma {:induction false} OnlyCallsUntilTheReply(evs: seq<Event>, more: seq<Event>, id: nat, t: nat, k: nat)
    requires Waiting(Run(evs), id, t, k) && Blocked(more, id)
    requires Connected(Run(evs + more), id) && Replies(evs + more, t) < k
    ensures Waiting(Run(evs + more), id, t, k)
    ensures forall o :: o in Inbox(evs, more, id) ==> o.Posted? && IsCallText(o.msg)
    ensures Inbox(evs, more, id) == [] <==> Uncalled(evs, more, id)
    decreases |more|
  {
    hide Run, Step, Replies, Outs, WritesTo, ForwardedTo, Says, Waiting, Connected, IsCallText, Uncalled;
    if more == [] {
      assert evs + more == evs;
      UncalledStep(evs, more, id);
    } else {
      var less, e := more[..|more| - 1], more[|more| - 1];
      var before := evs + less;
      assert before + [e] == evs + more;
      StillConnected(evs, less, e, id, t, k);
      RepliesGrow(before, [e], t);
      UncalledStep(evs, more, id);
      OnlyCallsUntilTheReply(evs, less, id, t, k);
      OnlyACall(before, e, id, t, k);
      RunStep(before, e);
      StillWaiting(before, e, id, t, k);
    }
  }

  lemma UncalledStep(evs: seq<Event>, more: seq<Event>, id: nat)
    ensures more == [] ==> Uncalled(evs, more, id)
    ensures more != [] ==> var less := more[..|more| - 1];
      Uncalled(evs, more, id) == (Uncalled(evs, less, id) && ForwardedTo(Run(evs + less), more[|more| - 1]) != Some(id))
  {
    hide ForwardedTo, Run;
    if more != [] {
      assert forall j :: 0 <= j < |more| - 1 ==> more[..|more| - 1][..j] == more[..j];
    }
  }

  lemma WritesToOnly(outs: seq<Output>, id: nat)
    ensures forall o :: o in WritesTo(outs, id) ==> o in outs && o.to == id
  {
  }

  /** One event before the reply writes to the caller exactly when it forwards it a call. */
  lemma OnlyACall(evs: seq<Event>, e: Event, id: nat, t: nat, k: nat)
    requires Waiting(Run(evs), id, t, k) && (e.Received? ==> e.id != id) && Replies(evs + [e], t) < k
    ensures forall o :: o in WritesTo(Outs(evs + [e]), id) ==> o.Posted? && IsCallText(o.msg)
    ensures WritesTo(Outs(evs + [e]), id) == [] <==> ForwardedTo(Run(evs), e) != Some(id)
  {
    RunStep(evs, e);
    var outs := Outs(evs + [e]);
    WritesToSome(outs, id);
    WritesToOnly(outs, id);
    if ForwardedTo(Run(evs), e) == Some(id) {
      assert outs == Step(Run(evs), e).1 && outs[0] in outs && outs[0].to == id;
      hide Run, Step, Outs, ForwardedTo, WritesTo, IsCallText;
      OnlyCallsAndTheReply(evs, e, id, t, k, outs[0]);
    } else {
      NothingFrom(evs, e, id, t, k);
    }
  }

  lemma StillConnected(evs: seq<Event>, less: seq<Event>, e: Event, id: nat, t: nat, k: nat)
    requires Waiting(Run(evs), id, t, k) && Connected(Run(evs + less + [e]), id)
    ensures Connected(Run(evs + less), id)
  {
    hide Run, Step;
    OrderedRun(evs);
    NextIdGrows(evs + less, |evs|);
    assert (evs + less)[..|evs|] == evs;
    ConnectedBefore(evs + less, e, id);
  }

  lemma NothingFrom(evs: seq<Event>, e: Event, id: nat, t: nat, k: nat)
    requires Waiting(Run(evs), id, t, k) && (e.Received? ==> e.id != id)
    requires ForwardedTo(Run(evs), e) != Some(id) && Replies(evs + [e], t) < k
    ensures Avoids(Outs(evs + [e]), id)
  {
    RunStep(evs, e);
    hide Run, Step, Outs, ForwardedTo;
    forall o | o in Outs(evs + [e]) ensures o.to != id {
      if o.to == id {
        OnlyCallsAndTheReply(evs, e, id, t, k, o);
        assert false;
      }
    }
  }

  // The theorems.

  /** What `scop_rpc` sends for a structured call. */
  function RequestText(endpoint: string, method_: string, args: Option<Value>): string {
    CallCommand(endpoint, Print(Request(method_, args)))
  }

  predicate Packable(method_: string, args: Option<Value>) {
    WellFormed(VString(method_)) && (args.Some? ==> WellFormed(args.value))
  }

  /** The server reads `buf` where the library wrote the frame of `text`. */
  predicate ArrivesAs(text: string, rest: string, buf: string) {
    |text| + |RPC_CALL| < Wire.TWO_31 && Wire.ReadMessage(Wire.Frame(text) + rest).0 == Some(buf)
  }

  predicate IsCallOf(e: Event, endpoint: string, args: string) {
    e.Received? && CString(e.buf) == CallCommand(endpoint, args)
  }

  lemma CallTextNoNul(args: string)
    requires '\0' !in args
    ensures '\0' !in CallText(Trim(args))
  {
  }

  /** A call goes to the one client that answers to the endpoint, in a frame that is read
      back, however the bytes of the call travelled. */
  lemma CallArrivesFramed(evs: seq<Event>, e: Event, endpoint: string, args: string, rest: string)
    requires e.Received? && Callable(Run(evs), e.id, endpoint) && '\0' !in args
    requires ArrivesAs(CallCommand(endpoint, args), rest, e.buf)
    ensures IsCallOf(e, endpoint, args)
    ensures var t, m := Target(Run(evs), endpoint), CallText(Trim(args));
      && Outs(evs + [e]) == [Posted(t, m)]
      && Waiting(Run(evs + [e]), e.id, t, |Calls(evs + [e], t)|)
      && CString(m) == m && forall after :: Wire.ReadMessage(Wire.Frame(m) + after) == (Some(m), after)
  {
    var m := CallText(Trim(args));
    CallCommandNoNul(endpoint, args);
    CallTextNoNul(args);
    HopKeepsText(CallCommand(endpoint, args), rest);
    assert |m| < Wire.TWO_31;
    hide Run, Step, Calls, IsCallText, CommandOf, CString, Outs, CallText, Trim;
    CallWaits(evs, e, endpoint, args);
    forall after ensures Wire.ReadMessage(Wire.Frame(m) + after) == (Some(m), after) {
      HopKeepsText(m, after);
    }
    HopKeepsText(m, []);
  }

  /** A structured call reaches the one client that answers to the endpoint as an equal
      vertex, with the same method and argument, however its bytes travelled. */
  lemma RequestArrives(evs: seq<Event>, e: Event, endpoint: string, method_: string, args: Option<Value>, rest: string)
    requires e.Received? && Callable(Run(evs), e.id, endpoint) && Packable(method_, args)
    requires ArrivesAs(RequestText(endpoint, method_, args), rest, e.buf)
    ensures var t, m := Target(Run(evs), endpoint), CallText(Print(Request(method_, args)));
      && Outs(evs + [e]) == [Posted(t, m)]
      && Waiting(Run(evs + [e]), e.id, t, |Calls(evs + [e], t)|)
      && forall after :: Wire.ReadMessage(Wire.Frame(m) + after) == (Some(m), after)
    ensures RequestReadBack(CallText(Print(Request(method_, args))), method_, args)
  {
    var v := Request(method_, args);
    PrintNoNul(v);
    PrintIsNoMarker(v);
    hide Run, Step, Calls, Print, IsCallText, CommandOf, CString, Outs;
    CallArrivesFramed(evs, e, endpoint, Print(v), rest);
    RequestIs(method_, args);
  }

  /** The request in a message, with its method and its argument. */
  predicate RequestReadBack(m: string, method_: string, args: Option<Value>) {
    var v := Request(method_, args);
    && GetRequest(CString(m)) == Some(v)
    && ExtractMethod(v) == Some(method_) && ExtractArgs(v) == Some(args.GetOr(VInteger(0)))
  }

  // The caller's socket.

  /** What a write puts on the wire; the mask loop of `write_int` keeps 32 bits. */
  function WireBytes(o: Output): string {
    match o
    case Posted(_, msg) => Wire.Frame(msg)
    case Wrote(_, n) => Wire.HexDigits(n % Wire.TWO_32, 8)
  }

  function Bytes(outs: seq<Output>): string {
    if outs == [] then [] else WireBytes(outs[0]) + Bytes(outs[1..])
  }

  /** A read takes the first message that stands in the socket, and nothing else. */
  lemma ReadsFirst(queue: seq<Output>, rest: string)
    requires queue != [] && queue[0].Posted? && |queue[0].msg| < Wire.TWO_31
    ensures Wire.ReadMessage(Bytes(queue) + rest) == (Some(queue[0].msg), Bytes(queue[1..]) + rest)
  {
    hide Wire.ReadMessage, Wire.Frame;
    assert Bytes(queue) + rest == Wire.Frame(queue[0].msg) + (Bytes(queue[1..]) + rest);
    Wire.ReadFrame(queue[0].msg, Bytes(queue[1..]) + rest);
  }

  /** A `scop_rpc` of `caller`, which transmits its call after the run `sent`, having taken
      `taken` writes from its socket. The server handles the call after `wait`, in which it
      may still get what the caller sent before; from then on it gets nothing from it.
      After `mid` it handles a reply of `server`. */
  datatype Exchange = Exchange(
    caller: nat, server: nat, taken: nat,
    sent: seq<Event>, wait: seq<Event>, call: Event, mid: seq<Event>, reply: Event)
  {
    function AtCall(): seq<Event> { sent + wait }
    function AfterCall(): seq<Event> { AtCall() + [call] }
    function BeforeReply(): seq<Event> { AfterCall() + mid }
    function AfterReply(): seq<Event> { BeforeReply() + [reply] }
  }

  /** The server finds one client for the call, and the caller stays connected. */
  ghost predicate Calling(x: Exchange, endpoint: string) {
    && x.call.Received? && x.call.id == x.caller && x.taken <= |Written(x.sent, x.caller)|
    && Callable(Run(x.AtCall()), x.caller, endpoint) && Target(Run(x.AtCall()), endpoint) == x.server
    && Blocked(x.mid, x.caller) && Connected(Run(x.BeforeReply()), x.caller)
  }

  /** The reply is the server's reply to this call: it has the number of the call. */
  ghost predicate Replying(x: Exchange) {
    && x.server != x.caller && x.reply.Received? && x.reply.id == x.server
    && Connected(Run(x.BeforeReply()), x.server)
    && Replies(x.BeforeReply(), x.server) + 1 == |Calls(x.AfterCall(), x.server)|
  }

  predicate IsReplyOf(e: Event, text: string) {
    e.Received? && CommandOf(CString(e.buf)) == Reply && Behind(CString(e.buf), |"reply "|, e.stale) == text
  }

  /** Nothing is unread when the call is transmitted, nothing is written to the caller until
      the server has the call, and no call is forwarded to it from then on. */
  ghost predicate Undisturbed(x: Exchange) {
    && Unread(x.sent, x.caller, x.taken) == [] && Inbox(x.sent, x.wait, x.caller) == []
    && Uncalled(x.AfterCall(), x.mid, x.caller)
  }

  lemma TakenLater(evs: seq<Event>, more: seq<Event>, id: nat, taken: nat)
    requires taken <= |Written(evs, id)|
    ensures taken <= |Written(evs + more, id)|
    ensures Unread(evs + more, id, taken) == Unread(evs, id, taken) + Inbox(evs, more, id)
  {
    hide Written, Inbox;
    WrittenInbox(evs, more, id);
  }

  lemma InboxOne(evs: seq<Event>, e: Event, id: nat)
    ensures Inbox(evs, [e], id) == WritesTo(Outs(evs + [e]), id)
  {
    assert Inbox(evs, [e][..0], id) == [];
  }

  /** The call is forwarded and not written to the caller; then come only calls. */
  lemma WrittenDuringCall(x: Exchange, endpoint: string, args: string)
    requires Calling(x, endpoint) && IsCallOf(x.call, endpoint, args) && x.server != x.caller
    requires Replies(x.BeforeReply(), x.server) < |Calls(x.AfterCall(), x.server)|
    ensures Inbox(x.AtCall(), [x.call], x.caller) == []
    ensures forall o :: o in Inbox(x.AfterCall(), x.mid, x.caller) ==> o.Posted? && IsCallText(o.msg)
    ensures Inbox(x.AfterCall(), x.mid, x.caller) == [] <==> Uncalled(x.AfterCall(), x.mid, x.caller)
    ensures Waiting(Run(x.BeforeReply()), x.caller, x.server, |Calls(x.AfterCall(), x.server)|)
  {
    var before, k := x.AtCall(), |Calls(x.AfterCall(), x.server)|;
    hide Run, Calls, Replies, Outs, CString, IsCallText, Inbox, Uncalled, CallText, Trim, Blocked, CallCommand,
      Written, Callable, Connected, Waiting, ForwardedTo, Target;
    CallWaits(before, x.call, endpoint, args);
    InboxOne(before, x.call, x.caller);
    OnlyCallsUntilTheReply(x.AfterCall(), x.mid, x.caller, x.server, k);
  }

  lemma WrittenByReply(x: Exchange, text: string)
    requires Replying(x) && IsReplyOf(x.reply, text)
    requires Waiting(Run(x.BeforeReply()), x.caller, x.server, |Calls(x.AfterCall(), x.server)|)
    ensures Inbox(x.BeforeReply(), [x.reply], x.caller) == [Posted(x.caller, text)]
  {
    hide Run, Calls, Replies, Outs, CString, CommandOf, Behind, Inbox, Waiting, Connected;
    AnsweredInTime(x.BeforeReply(), x.reply, x.caller, |Calls(x.AfterCall(), x.server)|);
    InboxOne(x.BeforeReply(), x.reply, x.caller);
    assert WritesTo([Posted(x.caller, text)], x.caller) == [Posted(x.caller, text)];
  }

  /** What stands in the caller's socket when its reply has been posted: what was there
      when the server took the call, then the calls forwarded to the caller since, then the
      reply. So `scop_rpc` reads the reply exactly when nothing disturbed the call; else it
      takes the older message, or the call, for the reply. */
  lemma FirstReadIsReplyIff(x: Exchange, endpoint: string, args: string, text: string)
    requires Calling(x, endpoint) && IsCallOf(x.call, endpoint, args)
    requires Replying(x) && IsReplyOf(x.reply, text)
    ensures var calls := Inbox(x.AfterCall(), x.mid, x.caller);
      && Unread(x.BeforeReply(), x.caller, x.taken) == Unread(x.AtCall(), x.caller, x.taken) + calls
      && forall o :: o in calls ==> o.Posted? && IsCallText(o.msg)
    ensures Unread(x.AfterReply(), x.caller, x.taken)
         == Unread(x.BeforeReply(), x.caller, x.taken) + [Posted(x.caller, text)]
    ensures Unread(x.BeforeReply(), x.caller, x.taken) == [] <==> Undisturbed(x)
  {
    hide Run, Calls, Replies, CString, IsCallText, Behind, Inbox, Uncalled, Blocked, CallCommand, Written, Unread,
      Callable, Target, Connected, CommandOf, Waiting;
    TakenLater(x.sent, x.wait, x.caller, x.taken);
    TakenLater(x.AtCall(), [x.call], x.caller, x.taken);
    TakenLater(x.AfterCall(), x.mid, x.caller, x.taken);
    TakenLater(x.BeforeReply(), [x.reply], x.caller, x.taken);
    WrittenDuringCall(x, endpoint, args);
    WrittenByReply(x, text);
  }

  // The whole exchange.

  lemma ReplyCommandIsReply(reply: string, stale: string)
    ensures CommandOf(ReplyCommand(reply)) == Reply
    ensures Behind(ReplyCommand(reply), |"reply "|, stale) == reply
  {
    var text := ReplyCommand(reply);
    assert text[0] == 'r' && text[2] == 'p' && text[..5] == "reply";
    assert "register"[2] == 'g' && "reconfigure"[2] == 'c';
  }

  lemma BytesNone()
    ensures Bytes([]) == []
  {
  }

  lemma ReplyArrives(reply: Event, text: string, rest: string)
    requires reply.Received? && '\0' !in text && ArrivesAs(ReplyCommand(text), rest, reply.buf)
    ensures IsReplyOf(reply, text) && |text| < Wire.TWO_31 && CString(text) == text
  {
    hide CommandOf, IsCallText, Behind;
    HopKeepsText(ReplyCommand(text), rest);
    CStringWhole(text);
    ReplyCommandIsReply(text, reply.stale);
  }

  lemma WrittenToTarget(evs: seq<Event>, call: Event, t: nat, m: string)
    requires Outs(evs + [call]) == [Posted(t, m)]
    ensures Written(evs + [call], t) == Written(evs, t) + [Posted(t, m)]
  {
    hide Written, Outs;
    WrittenStep(evs, call, t);
    assert WritesTo([Posted(t, m)], t) == [Posted(t, m)];
  }

  /** The socket holds one message: every continuation of the stream gives it. */
  lemma ReadsOnly(queue: seq<Output>, to: nat, msg: string)
    requires queue == [Posted(to, msg)] && |msg| < Wire.TWO_31
    ensures forall after :: Wire.ReadMessage(Bytes(queue) + after) == (Some(msg), after)
  {
    hide Wire.ReadMessage, Bytes;
    forall after ensures Wire.ReadMessage(Bytes(queue) + after) == (Some(msg), after) {
      ReadsFirst(queue, after);
      BytesNone();
      assert queue[1..] == [] && [] + after == after;
    }
  }

  /** A call with its reply, over frames in both directions. The one client that answers to
      the endpoint finds, behind what it was written before, the frame of the call with its
      arguments, but for leading blanks. When nothing else comes between, the caller finds
      exactly the frame of its reply; scop_rpc returns it as it was sent exactly when it is
      not the error text and does not look like a call. */
  lemma TextCall(x: Exchange, endpoint: string, args: string, reply: string, callRest: string, replyRest: string)
    requires '\0' !in args && '\0' !in reply
    requires Calling(x, endpoint) && ArrivesAs(CallCommand(endpoint, args), callRest, x.call.buf)
    requires Replying(x) && ArrivesAs(ReplyCommand(reply), replyRest, x.reply.buf)
    requires Undisturbed(x)
    ensures var m := CallText(Trim(args));
      && Written(x.AfterCall(), x.server) == Written(x.AtCall(), x.server) + [Posted(x.server, m)]
      && (forall after :: Wire.ReadMessage(Wire.Frame(m) + after) == (Some(m), after))
      && GetMessage(CString(m)) == (Trim(args), true)
    ensures Unread(x.AfterReply(), x.caller, x.taken) == [Posted(x.caller, reply)]
    ensures forall after ::
      Wire.ReadMessage(Bytes(Unread(x.AfterReply(), x.caller, x.taken)) + after) == (Some(reply), after)
    ensures RpcResult(CString(reply)) == Some(reply) <==> reply != RPC_ERROR && !IsCallText(reply)
  {
    CallTexts(Trim(args));
    assert CallText(Trim(args))[|RPC_CALL|..] == Trim(args);
    hide Run, Calls, Replies, CString, CommandOf, IsCallText, CallText, Behind, Inbox, Uncalled, Blocked,
      CallCommand, Written, Unread, Callable, Target, Connected, Undisturbed, Wire.ReadMessage, Wire.Frame,
      ReplyCommand, Outs, Bytes, Trim, Waiting;
    CallArrivesFramed(x.AtCall(), x.call, endpoint, args, callRest);
    WrittenToTarget(x.AtCall(), x.call, x.server, CallText(Trim(args)));
    ReplyArrives(x.reply, reply, replyRest);
    FirstReadIsReplyIff(x, endpoint, args, reply);
    ReadsOnly(Unread(x.AfterReply(), x.caller, x.taken), x.caller, reply);
  }

  /** A structured call: the target finds a request with the same method and argument, and
      the vertex that the caller gets is the one that was sent. */
  lemma StructuredCall(x: Exchange, endpoint: string, method_: string, args: Option<Value>, w: Value,
                       callRest: string, replyRest: string)
    requires Packable(method_, args) && WellFormed(w)
    requires Calling(x, endpoint) && ArrivesAs(RequestText(endpoint, method_, args), callRest, x.call.buf)
    requires Replying(x) && ArrivesAs(ReplyCommand(Print(w)), replyRest, x.reply.buf)
    requires Undisturbed(x)
    ensures var m := CallText(Print(Request(method_, args)));
      && Written(x.AfterCall(), x.server) == Written(x.AtCall(), x.server) + [Posted(x.server, m)]
      && (forall after :: Wire.ReadMessage(Wire.Frame(m) + after) == (Some(m), after))
      && RequestReadBack(m, method_, args)
    ensures Unread(x.AfterReply(), x.caller, x.taken) == [Posted(x.caller, Print(w))]
    ensures forall after ::
      Wire.ReadMessage(Bytes(Unread(x.AfterReply(), x.caller, x.taken)) + after) == (Some(Print(w)), after)
    ensures StructResult(CString(Print(w))) == Some(w)
  {
    var v := Request(method_, args);
    hide Run, Calls, Replies, Print, CString, CommandOf, IsCallText, CallText, Behind, Inbox, Uncalled, Blocked,
      CallCommand, Written, Unread, Callable, Target, Connected, Undisturbed, Wire.ReadMessage, Wire.Frame,
      ReplyCommand, Outs, Bytes, Trim, Waiting, RequestReadBack, StructResult, Calling, Replying, ArrivesAs;
    RequestFits(method_, args);
    PrintNoNul(w);
    TextCall(x, endpoint, Print(v), Print(w), callRest, replyRest);
    RequestIs(method_, args);
    ReplyIs(w);
  }

  lemma RequestFits(method_: string, args: Option<Value>)
    requires Packable(method_, args)
    ensures var text := Print(Request(method_, args)); '\0' !in text && Trim(text) == text
  {
    PrintNoNul(Request(method_, args));
    PrintIsNoMarker(Request(method_, args));
  }

  lemma RequestIs(method_: string, args: Option<Value>)
    requires Packable(method_, args)
    ensures RequestReadBack(CallText(Print(Request(method_, args))), method_, args)
  {
    hide Print, CString, CallText, GetRequest, Trim;
    var v := Request(method_, args);
    RequestFits(method_, args);
    CallTextNoNul(Print(v));
    CStringWhole(CallText(Print(v)));
    StructRequestIntact(v);
  }

  lemma ReplyIs(w: Value)
    requires WellFormed(w)
    ensures StructResult(CString(Print(w))) == Some(w)
  {
    hide Print, CString, StructResult;
    PrintNoNul(w);
    CStringWhole(Print(w));
    StructReplyIntact(w);
  }

  /** Any call that is forwarded to a blocked caller is what its scop_rpc returns, in place
      of the reply (unless its text is that of the error). */
  lemma ForwardedCallIsMisread(body: string)
    ensures RpcResult(CallText(body)) == if body == RPC_ERROR then None else Some(body)
  {
    CallTexts(body);
    assert CallText(body)[|RPC_CALL|..] == body;
  }

  /** What the server writes first to a waiting caller, once it has the call, is the reply
      exactly when it is not a call. */
  lemma FirstWriteIsReplyIff(evs: seq<Event>, more: seq<Event>, e: Event, id: nat, t: nat, k: nat, o: Output)
    requires Waiting(Run(evs), id, t, k) && Blocked(more + [e], id) && Inbox(evs, more, id) == []
    requires Connected(Run(evs + more), id) && o in Outs(evs + more + [e]) && o.to == id
    ensures Outs(evs + more + [e]) == [o] && o.Posted?
    ensures ForwardedTo(Run(evs + more), e) != Some(id) <==>
      Says(Run(evs + more), e, Reply) && e.id == t && Replies(evs + more, t) + 1 == k
      && o.msg == Behind(CString(e.buf), |"reply "|, e.stale)
  {
    hide Run, Step, Replies, Outs, CString, CommandOf, Behind;
    WaitsUntilFirstWrite(evs, more, id, t, k);
    assert e in more + [e];
    OnlyCallsAndTheReply(evs + more, e, id, t, k, o);
  }
}
