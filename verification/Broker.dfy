/** The SCOP server (scopserver.cpp) as a state machine over its list of clients. */
module Broker {
  import opened Text
  import opened Vertex

  /** One connected client; 0 in `toId` means that it waits for no reply. */
  datatype Client = Client(
    id: nat,
    name: Option<string>, interest: Option<string>, hint: Option<string>, cookie: Option<string>,
    toId: nat, toSeq: nat,
    nextCall: nat, nextReply: nat)

  /** The client list, newest first, and the next unique id. */
  datatype State = State(clients: seq<Client>, nextId: nat)

  /** A framed message or a bare integer written to a client's socket. */
  datatype Output = Posted(to: nat, msg: string) | Wrote(to: nat, n: int)

  /** What the main loop reacts to. `dead` lists the clients whose connection fails a post
      during the command; `stale` is the text that the server reads when a command has no
      '!' or ends too early, and its position was never set. */
  datatype Event =
    | Connect
    | Closed(id: nat)
    | Received(id: nat, buf: string, dead: set<nat>, stale: string)

  const RPC_CALL := "scop-rpc-call "
  const RPC_ERROR := "scop-rpc-error"
  const UNNAMED := "Unnamed"
  const VERIFY_SYNTAX_ERROR := -1

  /** A forwarded call, as its target sees it. */
  function CallText(body: string): string {
    RPC_CALL + body
  }

  predicate IsCallText(msg: string) {
    RPC_CALL <= msg
  }

  lemma CallTexts(body: string)
    ensures IsCallText(CallText(body)) && !IsCallText(RPC_ERROR)
  {
    assert RPC_CALL[9] == 'c' && RPC_ERROR[9] == 'e';
  }

  function NewClient(id: nat): Client {
    Client(id, None, None, None, None, 0, 0, 1, 1)
  }

  // Texts.

  /** A message as a C string: up to its first NUL. */
  function CString(buf: string): string {
    buf[..FindChar(buf, '\0', 0)]
  }

  /** `sscanf(buf, "<word> %[^!]", endpoint)` once `buf` starts with the word: the endpoint
      and the position of the '!' or the end behind it. */
  function ScanEndpoint(word: string, buf: string): (r: Option<(string, nat)>)
    requires word <= buf
    ensures r.Some? ==> r.value.1 <= |buf| && r.value.0 != []
  {
    var i := SkipSpace(buf, |word|);
    var j := FindChar(buf, '!', i);
    if i == j then None else Some((buf[i..j], j))
  }

  /** What follows the "! " behind an endpoint. */
  function Body(buf: string, j: nat, stale: string): string
    requires j <= |buf|
  {
    if j == |buf| then stale else buf[SkipSpace(buf, j + 1)..]
  }

  /** `buf + k`, where a buffer shorter than k has no such position. */
  function Behind(buf: string, k: nat, stale: string): string {
    if |buf| < k then stale else buf[k..]
  }

  // Looking through the list.

  predicate Matches(c: Client, endpoint: string) {
    c.name == Some(endpoint) || c.interest == Some(endpoint)
  }

  function Count(cs: seq<Client>, endpoint: string): (n: nat)
    ensures n <= |cs|
  {
    if cs == [] then 0 else (if Matches(cs[0], endpoint) then 1 else 0) + Count(cs[1..], endpoint)
  }

  function FirstMatch(cs: seq<Client>, endpoint: string): (i: nat)
    ensures i <= |cs|
    ensures forall k :: 0 <= k < i ==> !Matches(cs[k], endpoint)
    ensures i < |cs| ==> Matches(cs[i], endpoint)
  {
    if cs == [] || Matches(cs[0], endpoint) then 0 else 1 + FirstMatch(cs[1..], endpoint)
  }

  predicate WaitsFor(c: Client, server: nat, reply: nat) {
    c.toId == server && c.toSeq == reply
  }

  function FirstWaiter(cs: seq<Client>, server: nat, reply: nat): (i: nat)
    ensures i <= |cs|
    ensures forall k :: 0 <= k < i ==> !WaitsFor(cs[k], server, reply)
    ensures i < |cs| ==> WaitsFor(cs[i], server, reply)
  {
    if cs == [] || WaitsFor(cs[0], server, reply) then 0 else 1 + FirstWaiter(cs[1..], server, reply)
  }

  function IndexOf(cs: seq<Client>, id: nat): (i: nat)
    ensures i <= |cs|
    ensures forall k :: 0 <= k < i ==> cs[k].id != id
    ensures i < |cs| ==> cs[i].id == id
  {
    if cs == [] || cs[0].id == id then 0 else 1 + IndexOf(cs[1..], id)
  }

  function FirstNamed(cs: seq<Client>, name: string): (i: nat)
    ensures i <= |cs|
    ensures forall k :: 0 <= k < i ==> cs[k].name != Some(name)
    ensures i < |cs| ==> cs[i].name == Some(name)
  {
    if cs == [] || cs[0].name == Some(name) then 0 else 1 + FirstNamed(cs[1..], name)
  }

  // The commands.

  function RemoveAt(cs: seq<Client>, i: nat): seq<Client>
    requires i < |cs|
  {
    cs[..i] + cs[i + 1..]
  }

  /** The caller waits for the target's next reply that is not yet promised. */
  function Link(cs: seq<Client>, caller: nat, target: nat): (r: seq<Client>)
    requires caller < |cs| && target < |cs|
    ensures |r| == |cs|
  {
    var number := cs[target].nextCall;
    var waiting := cs[caller := cs[caller].(toId := cs[target].id, toSeq := number)];
    waiting[target := waiting[target].(nextCall := number + 1)]
  }

  function RpcCall(cs: seq<Client>, i: nat, buf: string, stale: string): (seq<Client>, seq<Output>)
    requires i < |cs| && "call" <= buf
  {
    var failed := (cs, [Posted(cs[i].id, RPC_ERROR)]);
    if cs[i].toId != 0 then failed
    else match ScanEndpoint("call", buf)
         case None => failed
         case Some((endpoint, j)) =>
           if Count(cs, endpoint) != 1 then failed
           else
             var t := FirstMatch(cs, endpoint);
             if t == |cs| then failed
             else (Link(cs, i, t), [Posted(cs[t].id, CallText(Body(buf, j, stale)))])
  }

  function RpcReply(cs: seq<Client>, i: nat, results: string): (seq<Client>, seq<Output>)
    requires i < |cs|
  {
    var number := cs[i].nextReply;
    var counted := cs[i := cs[i].(nextReply := number + 1)];
    var w := FirstWaiter(counted, cs[i].id, number);
    if w == |cs| then (counted, [])
    else (counted[w := counted[w].(toId := 0)], [Posted(counted[w].id, results)])
  }

  /** The clients that stay and the messages that are posted when `msg` goes to an endpoint. */
  function Deliver(cs: seq<Client>, endpoint: string, msg: string, dead: set<nat>): (seq<Client>, seq<Output>) {
    if cs == [] then ([], [])
    else
      var (rest, posts) := Deliver(cs[1..], endpoint, msg, dead);
      if cs[0].toId != 0 || !Matches(cs[0], endpoint) then ([cs[0]] + rest, posts)
      else if cs[0].id in dead then (rest, posts)
      else ([cs[0]] + rest, [Posted(cs[0].id, msg)] + posts)
  }

  function DoSend(cs: seq<Client>, endpoint: string, msg: string, dead: set<nat>, ack: Option<nat>)
    : (seq<Client>, seq<Output>)
  {
    var (rest, posts) := Deliver(cs, endpoint, msg, dead);
    (rest, if ack.Some? then posts + [Wrote(ack.value, |posts|)] else posts)
  }

  function SendMessage(cs: seq<Client>, word: string, buf: string, dead: set<nat>, stale: string, ack: Option<nat>)
    : (seq<Client>, seq<Output>)
    requires word <= buf
  {
    match ScanEndpoint(word, buf)
    case None => (cs, if ack.Some? then [Wrote(ack.value, VERIFY_SYNTAX_ERROR)] else [])
    case Some((endpoint, j)) => DoSend(cs, endpoint, Body(buf, j, stale), dead, ack)
  }

  function Without(cs: seq<Client>, endpoint: string): seq<Client> {
    if cs == [] then []
    else (if Matches(cs[0], endpoint) then [] else [cs[0]]) + Without(cs[1..], endpoint)
  }

  function Shown(field: Option<string>, missing: string): string {
    (if field.Some? then field.value else missing) + "!"
  }

  function Dump(cs: seq<Client>, id: nat): string {
    if cs == [] then []
    else (if cs[0].id == id then [] else DumpOne(cs[0])) + Dump(cs[1..], id)
  }

  function DumpOne(c: Client): string {
    Shown(c.name, UNNAMED) + Shown(c.interest, "") + Shown(c.hint, "")
  }

  // Dispatch.

  datatype Command =
    | Log | Message | Verify | Emit | Register | Listen | ListClients | Call | Reply | Query
    | Clear | SetCookie | GetCookie | SetSourceHint | Terminate | Reconfigure | Invalid

  predicate Prefix(s: string, pre: string) {
    pre <= s
  }

  /** The prefix tests of `process_command`, in their order. */
  function CommandOf(buf: string): (c: Command)
    ensures c == Message ==> "message" <= buf
    ensures c == Verify ==> "verify" <= buf
    ensures c == Register ==> "register" <= buf
    ensures c == Listen ==> "listen" <= buf
    ensures c == Call ==> "call" <= buf
    ensures c == Query ==> "query" <= buf
    ensures c == Clear ==> "clear" <= buf
    ensures c == GetCookie ==> "get-cookie" <= buf
  {
    if Prefix(buf, "log") then Log
    else if Prefix(buf, "message") then Message
    else if Prefix(buf, "verify") then Verify
    else if Prefix(buf, "emit") then Emit
    else if Prefix(buf, "register") then Register
    else if Prefix(buf, "listen") then Listen
    else if Prefix(buf, "list") then ListClients
    else if Prefix(buf, "call") then Call
    else if Prefix(buf, "reply") then Reply
    else if Prefix(buf, "query") then Query
    else if Prefix(buf, "clear") then Clear
    else if Prefix(buf, "set-cookie") then SetCookie
    else if Prefix(buf, "get-cookie") then GetCookie
    else if Prefix(buf, "set-source-hint") then SetSourceHint
    else if Prefix(buf, "terminate") then Terminate
    else if Prefix(buf, "reconfigure") then Reconfigure
    else Invalid
  }

  /** `process_command` for the client at position `i`; `terminate` ends the run. */
  function Process(cs: seq<Client>, i: nat, buf: string, dead: set<nat>, stale: string): (seq<Client>, seq<Output>)
    requires i < |cs|
  {
    var c := cs[i];
    match CommandOf(buf)
    case Call => RpcCall(cs, i, buf, stale)
    case Reply => RpcReply(cs, i, Behind(buf, |"reply "|, stale))
    case Message => SendMessage(cs, "message", buf, dead, stale, None)
    case Verify => SendMessage(cs, "verify", buf, dead, stale, Some(c.id))
    case Emit =>
      if c.hint == None then (cs, [Wrote(c.id, -1)])
      else DoSend(cs, c.hint.value, Behind(buf, |"emit "|, stale), dead, Some(c.id))
    case Clear => (ClearNamed(cs, buf), [])
    case Query => (cs, QueryCount(cs, c.id, buf))
    case ListClients => (cs, [Posted(c.id, Dump(cs, c.id))])
    case GetCookie => (cs, CookieOf(cs, c.id, buf))
    case _ => (cs[i := Rename(c, buf, stale)], [])
  }

  function ClearNamed(cs: seq<Client>, buf: string): seq<Client>
    requires "clear" <= buf
  {
    match ScanEndpoint("clear", buf)
    case None => cs
    case Some((endpoint, _)) => Without(cs, endpoint)
  }

  function QueryCount(cs: seq<Client>, id: nat, buf: string): seq<Output>
    requires "query" <= buf
  {
    match ScanEndpoint("query", buf)
    case None => []
    case Some((endpoint, _)) => [Wrote(id, Count(cs, endpoint))]
  }

  function CookieOf(cs: seq<Client>, id: nat, buf: string): seq<Output>
    requires "get-cookie" <= buf
  {
    match ScanEndpoint("get-cookie", buf)
    case None => []
    case Some((name, _)) =>
      var k := FirstNamed(cs, name);
      if k == |cs| || cs[k].cookie == None then [] else [Posted(id, cs[k].cookie.value)]
  }

  /** The commands that set one field of the sender, or nothing. */
  function Rename(c: Client, buf: string, stale: string): (r: Client)
    ensures r.id == c.id && r.toId == c.toId && r.toSeq == c.toSeq
    ensures r.nextCall == c.nextCall && r.nextReply == c.nextReply
  {
    match CommandOf(buf)
    case Register =>
      (match ScanEndpoint("register", buf) case None => c case Some((name, _)) => c.(name := Some(name)))
    case Listen =>
      (match ScanEndpoint("listen", buf) case None => c case Some((interest, _)) => c.(interest := Some(interest)))
    case SetCookie =>
      var cookie := Behind(buf, |"set-cookie "|, stale);
      if |cookie| < 4096 then c.(cookie := Some(cookie)) else c
    case SetSourceHint => c.(hint := Some(Behind(buf, |"set-source-hint "|, stale)))
    case _ => c
  }

  /** One turn of the main loop. */
  function Step(s: State, e: Event): (State, seq<Output>) {
    match e
    case Connect => (State([NewClient(s.nextId)] + s.clients, s.nextId + 1), [])
    case Closed(id) =>
      var i := IndexOf(s.clients, id);
      if i == |s.clients| then (s, []) else (s.(clients := RemoveAt(s.clients, i)), [])
    case Received(id, buf, dead, stale) =>
      var i := IndexOf(s.clients, id);
      if i == |s.clients| then (s, [])
      else
        var (cs, outs) := Process(s.clients, i, CString(buf), dead, stale);
        (s.(clients := cs), outs)
  }

  // What the commands guarantee on their own.

  lemma CountFirstMatch(cs: seq<Client>, endpoint: string)
    ensures Count(cs, endpoint) == 0 <==> FirstMatch(cs, endpoint) == |cs|
    ensures FirstMatch(cs, endpoint) < |cs| ==>
      Count(cs, endpoint) == 1 + Count(cs[FirstMatch(cs, endpoint) + 1..], endpoint)
  {
  }

  /** clear removes exactly the matching clients and keeps the others in their order. */
  lemma {:induction false} WithoutIsFilter(cs: seq<Client>, endpoint: string)
    ensures Count(Without(cs, endpoint), endpoint) == 0
    ensures |Without(cs, endpoint)| == |cs| - Count(cs, endpoint)
    ensures forall c :: c in Without(cs, endpoint) <==> c in cs && !Matches(c, endpoint)
    ensures IsSubsequence(Without(cs, endpoint), cs)
  {
    if cs != [] {
      var rest := Without(cs[1..], endpoint);
      WithoutIsFilter(cs[1..], endpoint);
      assert cs == [cs[0]] + cs[1..];
      if Matches(cs[0], endpoint) {
        assert Without(cs, endpoint) == rest;
        assert rest != [] ==> rest[0] in rest;
      } else {
        assert ([cs[0]] + rest)[1..] == rest;
      }
    }
  }

  /** The clients that a message to `endpoint` reaches: not waiting, and still there. */
  predicate Reached(c: Client, endpoint: string, dead: set<nat>) {
    c.toId == 0 && Matches(c, endpoint) && c.id !in dead
  }

  predicate Lost(c: Client, endpoint: string, dead: set<nat>) {
    c.toId == 0 && Matches(c, endpoint) && c.id in dead
  }

  predicate NewestFirst(cs: seq<Client>) {
    forall i, j :: 0 <= i < j < |cs| ==> cs[i].id > cs[j].id
  }

  function Recipients(cs: seq<Client>, endpoint: string, dead: set<nat>): set<nat> {
    set c | c in cs && Reached(c, endpoint, dead) :: c.id
  }

  /** A send posts once to every client it reaches. */
  lemma {:induction false} DeliverPosts(cs: seq<Client>, endpoint: string, msg: string, dead: set<nat>)
    requires NewestFirst(cs)
    ensures var posts := Deliver(cs, endpoint, msg, dead).1;
      && (forall o :: o in posts ==> o.Posted? && o.msg == msg && o.to in Recipients(cs, endpoint, dead))
      && (forall id :: id in Recipients(cs, endpoint, dead) ==> Posted(id, msg) in posts)
      && |posts| == |Recipients(cs, endpoint, dead)|
  {
    if cs != [] {
      var c, tail := cs[0], cs[1..];
      DeliverPosts(tail, endpoint, msg, dead);
      DeliverStep(cs, endpoint, msg, dead);
      RecipientsStep(cs, endpoint, dead);
    }
  }

  lemma RecipientsStep(cs: seq<Client>, endpoint: string, dead: set<nat>)
    requires NewestFirst(cs) && cs != []
    ensures var more := Recipients(cs[1..], endpoint, dead);
      && cs[0].id !in more
      && Recipients(cs, endpoint, dead) == if Reached(cs[0], endpoint, dead) then {cs[0].id} + more else more
  {
    assert cs == [cs[0]] + cs[1..];
    assert forall d :: d in cs[1..] ==> d.id < cs[0].id;
  }

  /** A send drops exactly the clients whose post failed and keeps the others in their order. */
  lemma {:induction false} DeliverKeeps(cs: seq<Client>, endpoint: string, msg: string, dead: set<nat>)
    ensures var rest := Deliver(cs, endpoint, msg, dead).0;
      && (forall c :: c in rest <==> c in cs && !Lost(c, endpoint, dead))
      && IsSubsequence(rest, cs)
  {
    if cs != [] {
      var rest := Deliver(cs[1..], endpoint, msg, dead).0;
      DeliverKeeps(cs[1..], endpoint, msg, dead);
      DeliverStep(cs, endpoint, msg, dead);
      assert cs == [cs[0]] + cs[1..];
      if Lost(cs[0], endpoint, dead) {
        assert rest != [] ==> rest[0] in rest;
      } else {
        assert ([cs[0]] + rest)[1..] == rest;
      }
    }
  }

  lemma DeliverStep(cs: seq<Client>, endpoint: string, msg: string, dead: set<nat>)
    requires cs != []
    ensures var (rest, posts) := Deliver(cs[1..], endpoint, msg, dead);
      Deliver(cs, endpoint, msg, dead) == (
        if Lost(cs[0], endpoint, dead) then rest else [cs[0]] + rest,
        if Reached(cs[0], endpoint, dead) then [Posted(cs[0].id, msg)] + posts else posts)
  {
  }

  /** A send that has dealt with the clients before `todo`. */
  ghost predicate Delivered(cs: seq<Client>, endpoint: string, msg: string, dead: set<nat>,
                            kept: seq<Client>, sent: seq<Output>, todo: seq<Client>)
  {
    var (rest, posts) := Deliver(todo, endpoint, msg, dead);
    Deliver(cs, endpoint, msg, dead) == (kept + rest, sent + posts)
  }

  lemma DeliverProgress(cs: seq<Client>, endpoint: string, msg: string, dead: set<nat>,
                        kept: seq<Client>, sent: seq<Output>, todo: seq<Client>)
    requires todo != [] && Delivered(cs, endpoint, msg, dead, kept, sent, todo)
    ensures Delivered(cs, endpoint, msg, dead,
                      if Lost(todo[0], endpoint, dead) then kept else kept + [todo[0]],
                      if Reached(todo[0], endpoint, dead) then sent + [Posted(todo[0].id, msg)] else sent,
                      todo[1..])
  {
    var (rest, posts) := Deliver(todo[1..], endpoint, msg, dead);
    DeliverStep(todo, endpoint, msg, dead);
    hide Deliver, Lost, Reached;
    AppendAssociates(kept, [todo[0]], rest);
    AppendAssociates(sent, [Posted(todo[0].id, msg)], posts);
  }

  lemma DeliverEnds(cs: seq<Client>, endpoint: string, msg: string, dead: set<nat>, kept: seq<Client>,
                    sent: seq<Output>)
    ensures Delivered(cs, endpoint, msg, dead, [], [], cs)
    ensures Delivered(cs, endpoint, msg, dead, kept, sent, []) ==> Deliver(cs, endpoint, msg, dead) == (kept, sent)
  {
    var (rest, posts) := Deliver(cs, endpoint, msg, dead);
    assert [] + rest == rest && [] + posts == posts;
    assert kept + [] == kept && sent + [] == sent;
  }

  /** A clear that has dealt with the clients before `todo`. */
  ghost predicate Cleared(cs: seq<Client>, endpoint: string, kept: seq<Client>, todo: seq<Client>) {
    Without(cs, endpoint) == kept + Without(todo, endpoint)
  }

  lemma ClearProgress(cs: seq<Client>, endpoint: string, kept: seq<Client>, todo: seq<Client>)
    requires todo != [] && Cleared(cs, endpoint, kept, todo)
    ensures Cleared(cs, endpoint, if Matches(todo[0], endpoint) then kept else kept + [todo[0]], todo[1..])
  {
    var rest := Without(todo[1..], endpoint);
    AppendAssociates(kept, [todo[0]], rest);
  }

  lemma ClearEnds(cs: seq<Client>, endpoint: string, kept: seq<Client>)
    ensures Cleared(cs, endpoint, [], cs)
    ensures Cleared(cs, endpoint, kept, []) ==> Without(cs, endpoint) == kept
  {
    assert [] + Without(cs, endpoint) == Without(cs, endpoint);
    assert kept + [] == kept;
  }

  /** An endpoint that a command can carry as it is. */
  predicate PlainEndpoint(endpoint: string) {
    endpoint != [] && '!' !in endpoint && '\0' !in endpoint && !IsSpace(endpoint[0])
  }

  /** The text of a command is scanned back into its endpoint. */
  lemma ScanEndpointOf(word: string, endpoint: string, tail: string)
    requires PlainEndpoint(endpoint) && (tail == [] || tail[0] == '!')
    ensures word <= word + " " + endpoint + tail
    ensures ScanEndpoint(word, word + " " + endpoint + tail) == Some((endpoint, |word| + 1 + |endpoint|))
  {
    var buf := word + " " + endpoint + tail;
    var start := |word| + 1;
    assert buf[|word|] == ' ' && buf[start] == endpoint[0];
    assert SkipSpace(buf, start) == start;
    assert SkipSpace(buf, |word|) == start;
    assert buf[start..start + |endpoint|] == endpoint;
    if tail == [] {
      forall k | start <= k < |buf| ensures buf[k] == endpoint[k - start] {
      }
    } else {
      assert At(buf, start, endpoint + ['!']) by {
        assert buf[start..start + |endpoint| + 1] == endpoint + ['!'];
      }
      FindCharAt(buf, '!', start, endpoint);
    }
  }

  /** A call by a client that is not waiting is forwarded exactly when a query for the same
      endpoint would report one client; otherwise the caller gets the error. */
  lemma CallIffQueryReportsOne(cs: seq<Client>, i: nat, endpoint: string, args: string, stale: string)
    requires i < |cs| && cs[i].toId == 0 && PlainEndpoint(endpoint)
    ensures var call := "call" + " " + endpoint + ("! " + args);
      var query := "query" + " " + endpoint + "";
      && "call" <= call && "query" <= query
      && var (after, outs) := RpcCall(cs, i, call, stale);
         if QueryCount(cs, cs[i].id, query) == [Wrote(cs[i].id, 1)]
         then exists t :: 0 <= t < |cs| && Matches(cs[t], endpoint) && after == Link(cs, i, t)
                && outs == [Posted(cs[t].id, CallText(Trim(args)))]
         else after == cs && outs == [Posted(cs[i].id, RPC_ERROR)]
  {
    hide ScanEndpoint, Trim, Body, CallText, Link, PlainEndpoint;
    ScanEndpointOf("call", endpoint, "! " + args);
    ScanEndpointOf("query", endpoint, "");
    CountFirstMatch(cs, endpoint);
    CallBody(endpoint, args, stale);
  }

  /** What a call command forwards. */
  lemma CallBody(endpoint: string, args: string, stale: string)
    ensures var call, j := "call" + " " + endpoint + ("! " + args), |"call"| + 1 + |endpoint|;
      j < |call| && Body(call, j, stale) == Trim(args)
  {
    BodyOf("call" + " " + endpoint, args, stale);
    assert "call" + " " + endpoint + ("! " + args) == "call" + " " + endpoint + "! " + args;
  }

  /** The blanks in front of a text, which the "! " of a command swallows. */
  function Trim(s: string): string {
    s[SkipSpace(s, 0)..]
  }

  lemma SkipSpaceShift(a: string, b: string, i: nat)
    requires i <= |b|
    ensures SkipSpace(a + b, |a| + i) == |a| + SkipSpace(b, i)
    decreases |b| - i
  {
    if i < |b| && IsSpace(b[i]) {
      SkipSpaceShift(a, b, i + 1);
    }
  }

  lemma BodyOf(head: string, args: string, stale: string)
    ensures Body(head + "! " + args, |head|, stale) == Trim(args)
  {
    var buf := head + "! " + args;
    assert buf[|head| + 1] == ' ';
    SkipSpaceShift(head + "! ", args, 0);
  }
}
