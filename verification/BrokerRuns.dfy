/** What holds over every run of the SCOP server: who waits for whom, and who gets which
    reply. The history is read off the events and the outputs alone. */
module BrokerRuns {
  import opened Text
  import opened Broker

  // Runs and their history.

  function Run(evs: seq<Event>): State {
    if evs == [] then State([], 1)
    else Step(Run(evs[..|evs| - 1]), evs[|evs| - 1]).0
  }

  /** What the last event of a run made the server write. */
  function Outs(evs: seq<Event>): seq<Output> {
    if evs == [] then [] else Step(Run(evs[..|evs| - 1]), evs[|evs| - 1]).1
  }

  predicate Connected(s: State, id: nat) {
    IndexOf(s.clients, id) < |s.clients|
  }

  function Get(s: State, id: nat): (c: Client)
    requires Connected(s, id)
    ensures c.id == id && c in s.clients
  {
    s.clients[IndexOf(s.clients, id)]
  }

  predicate Says(s: State, e: Event, command: Command) {
    e.Received? && Connected(s, e.id) && CommandOf(CString(e.buf)) == command
  }

  /** The client to which a call event was forwarded, seen from outside. */
  function ForwardedTo(s: State, e: Event): Option<nat> {
    var outs := Step(s, e).1;
    if Says(s, e, Call) && |outs| == 1 && outs[0].Posted? && IsCallText(outs[0].msg) then Some(outs[0].to) else None
  }

  /** The callers whose calls were forwarded to `t`, in order. */
  function Calls(evs: seq<Event>, t: nat): seq<nat> {
    if evs == [] then []
    else
      var before, e := evs[..|evs| - 1], evs[|evs| - 1];
      Calls(before, t) + if ForwardedTo(Run(before), e) == Some(t) then [e.id] else []
  }

  /** How many replies `t` has sent. */
  function Replies(evs: seq<Event>, t: nat): nat {
    if evs == [] then 0
    else
      var before, e := evs[..|evs| - 1], evs[|evs| - 1];
      Replies(before, t) + if Says(Run(before), e, Reply) && e.id == t then 1 else 0
  }

  lemma RunStep(evs: seq<Event>, e: Event)
    ensures Run(evs + [e]) == Step(Run(evs), e).0 && Outs(evs + [e]) == Step(Run(evs), e).1
    ensures forall t: nat ::
      Calls(evs + [e], t) == Calls(evs, t) + if ForwardedTo(Run(evs), e) == Some(t) then [e.id] else []
    ensures forall t: nat ::
      Replies(evs + [e], t) == Replies(evs, t) + if Says(Run(evs), e, Reply) && e.id == t then 1 else 0
  {
    assert (evs + [e])[..|evs|] == evs;
  }

  /** The k-th call forwarded to `t` was `caller`'s. */
  ghost predicate Promised(evs: seq<Event>, caller: nat, t: nat, k: nat) {
    1 <= k <= |Calls(evs, t)| && Calls(evs, t)[k - 1] == caller
  }

  // What one event does to the list.

  /** The fields of a client that the RPC protocol uses. */
  predicate SameRpc(c: Client, d: Client) {
    c.id == d.id && c.toId == d.toId && c.toSeq == d.toSeq && c.nextCall == d.nextCall && c.nextReply == d.nextReply
  }

  ghost predicate Within(a: seq<Client>, b: seq<Client>) {
    forall d :: d in a ==> exists c :: c in b && SameRpc(c, d)
  }

  lemma {:induction false} SubsequenceKeepsOrder(a: seq<Client>, b: seq<Client>)
    requires NewestFirst(b) && IsSubsequence(a, b)
    ensures NewestFirst(a)
    ensures forall c :: c in a ==> c in b
  {
    if a != [] {
      var rest := if a[0] == b[0] then a[1..] else a;
      SubsequenceKeepsOrder(rest, b[1..]);
      assert b == [b[0]] + b[1..];
      if a[0] == b[0] {
        assert a == [a[0]] + rest;
        assert forall c :: c in rest ==> c.id < a[0].id;
      }
    }
  }

  lemma SubsetWithin(a: seq<Client>, b: seq<Client>)
    requires forall c :: c in a ==> c in b
    ensures Within(a, b)
  {
    forall d | d in a ensures exists c :: c in b && SameRpc(c, d) {
      assert SameRpc(d, d);
    }
  }

  lemma {:induction false} SubsequenceRefl(a: seq<Client>)
    ensures IsSubsequence(a, a)
  {
    if a != [] {
      SubsequenceRefl(a[1..]);
    }
  }

  lemma {:induction false} RemoveAtKeeps(cs: seq<Client>, i: nat)
    requires i < |cs| && NewestFirst(cs)
    ensures IsSubsequence(RemoveAt(cs, i), cs)
    decreases i
  {
    var rest := RemoveAt(cs, i);
    if i == 0 {
      assert rest == cs[1..];
      if rest != [] {
        assert rest[0].id < cs[0].id;
      }
      SubsequenceRefl(cs[1..]);
    } else {
      assert rest[1..] == RemoveAt(cs[1..], i - 1);
      RemoveAtKeeps(cs[1..], i - 1);
    }
  }

  /** Commands other than call and reply leave the RPC fields of those who stay alone. */
  lemma QuietProcess(cs: seq<Client>, i: nat, buf: string, dead: set<nat>, stale: string)
    requires i < |cs| && NewestFirst(cs)
    requires CommandOf(buf) != Call && CommandOf(buf) != Reply
    ensures var after := Process(cs, i, buf, dead, stale).0;
      NewestFirst(after) && Within(after, cs)
  {
    hide CommandOf, ScanEndpoint, Deliver, Without, NewestFirst, Within, Rename, Dump, Count, FirstNamed;
    SubsetWithin(cs, cs);
    forall endpoint, msg
      ensures NewestFirst(Deliver(cs, endpoint, msg, dead).0) && Within(Deliver(cs, endpoint, msg, dead).0, cs)
    {
      DeliverQuiet(cs, endpoint, msg, dead);
    }
    forall endpoint ensures NewestFirst(Without(cs, endpoint)) && Within(Without(cs, endpoint), cs) {
      WithoutQuiet(cs, endpoint);
    }
    UpdateKeeps(cs, i, Rename(cs[i], buf, stale));
  }

  lemma DeliverQuiet(cs: seq<Client>, endpoint: string, msg: string, dead: set<nat>)
    requires NewestFirst(cs)
    ensures NewestFirst(Deliver(cs, endpoint, msg, dead).0) && Within(Deliver(cs, endpoint, msg, dead).0, cs)
  {
    hide Deliver, IsSubsequence;
    var after := Deliver(cs, endpoint, msg, dead).0;
    DeliverKeeps(cs, endpoint, msg, dead);
    SubsequenceKeepsOrder(after, cs);
    SubsetWithin(after, cs);
  }

  lemma WithoutQuiet(cs: seq<Client>, endpoint: string)
    requires NewestFirst(cs)
    ensures NewestFirst(Without(cs, endpoint)) && Within(Without(cs, endpoint), cs)
  {
    hide Without, IsSubsequence;
    WithoutIsFilter(cs, endpoint);
    SubsequenceKeepsOrder(Without(cs, endpoint), cs);
    SubsetWithin(Without(cs, endpoint), cs);
  }

  lemma UpdateKeeps(cs: seq<Client>, i: nat, c: Client)
    requires i < |cs| && NewestFirst(cs) && SameRpc(cs[i], c)
    ensures NewestFirst(cs[i := c]) && Within(cs[i := c], cs)
  {
    var after := cs[i := c];
    forall d | d in after ensures exists b :: b in cs && SameRpc(b, d) {
      var k :| 0 <= k < |cs| && after[k] == d;
      assert SameRpc(cs[k], d);
    }
  }

  /** The list is in order of connection, newest first, and every id was given out. */
  predicate Ordered(s: State) {
    s.nextId >= 1 && NewestFirst(s.clients) && forall c :: c in s.clients ==> 1 <= c.id < s.nextId
  }

  lemma IndexOfAt(cs: seq<Client>, k: nat)
    requires NewestFirst(cs) && k < |cs|
    ensures IndexOf(cs, cs[k].id) == k
  {
  }

  lemma OneClientPerId(s: State, c: Client, d: Client)
    requires Ordered(s) && c in s.clients && d in s.clients && c.id == d.id
    ensures c == d && Connected(s, c.id) && Get(s, c.id) == c
  {
    var k :| 0 <= k < |s.clients| && s.clients[k] == c;
    var l :| 0 <= l < |s.clients| && s.clients[l] == d;
    IndexOfAt(s.clients, k);
    IndexOfAt(s.clients, l);
  }

  /** Nobody starts or stops waiting, though some may go. */
  ghost predicate Quiet(s: State, e: Event) {
    var after := Step(s, e).0;
    && after.nextId == s.nextId && NewestFirst(after.clients) && Within(after.clients, s.clients)
    && ForwardedTo(s, e) == None && !Says(s, e, Reply)
  }

  /** A call goes through to the client at position `t`. */
  ghost predicate Forwarding(s: State, e: Event, t: nat) {
    && Says(s, e, Call) && t < |s.clients| && Get(s, e.id).toId == 0
    && Step(s, e).0 == s.(clients := Link(s.clients, IndexOf(s.clients, e.id), t))
    && ForwardedTo(s, e) == Some(s.clients[t].id)
  }

  /** A call either fails with the error or links the caller to a target. */
  lemma RpcCallCases(cs: seq<Client>, i: nat, buf: string, stale: string)
    requires i < |cs| && "call" <= buf
    ensures var (after, outs) := RpcCall(cs, i, buf, stale);
      || (after == cs && outs == [Posted(cs[i].id, RPC_ERROR)])
      || (exists t, body :: 0 <= t < |cs| && cs[i].toId == 0 && after == Link(cs, i, t)
            && outs == [Posted(cs[t].id, CallText(body))])
  {
    hide ScanEndpoint, Body, Link, CallText;
    var r := ScanEndpoint("call", buf);
    if cs[i].toId == 0 && r.Some? && Count(cs, r.value.0) == 1 && FirstMatch(cs, r.value.0) < |cs| {
      var t, body := FirstMatch(cs, r.value.0), Body(buf, r.value.1, stale);
      assert RpcCall(cs, i, buf, stale) == (Link(cs, i, t), [Posted(cs[t].id, CallText(body))]);
    }
  }

  lemma StepCall(s: State, e: Event)
    requires Says(s, e, Call)
    ensures var (cs, outs) := RpcCall(s.clients, IndexOf(s.clients, e.id), CString(e.buf), e.stale);
      Step(s, e) == (s.(clients := cs), outs)
  {
    hide CommandOf, RpcCall, CString, IndexOf;
  }

  lemma CallFails(s: State, e: Event)
    requires Ordered(s) && Says(s, e, Call) && Step(s, e) == (s, [Posted(e.id, RPC_ERROR)])
    ensures Quiet(s, e)
  {
    hide Step, CommandOf, IsCallText;
    CallTexts([]);
    SubsetWithin(s.clients, s.clients);
  }

  lemma CallGoes(s: State, e: Event, t: nat, body: string)
    requires Says(s, e, Call) && t < |s.clients| && Get(s, e.id).toId == 0
    requires Step(s, e) ==
      (s.(clients := Link(s.clients, IndexOf(s.clients, e.id), t)), [Posted(s.clients[t].id, CallText(body))])
    ensures Forwarding(s, e, t)
  {
    hide Step, CommandOf, IsCallText, CallText;
    CallTexts(body);
  }

  lemma CallEffect(s: State, e: Event)
    requires Ordered(s) && Says(s, e, Call)
    ensures Quiet(s, e) || exists t :: Forwarding(s, e, t)
  {
    StepCall(s, e);
    hide CommandOf, Link, RpcCall, Step, CString, CallText, ForwardedTo, Quiet, Forwarding;
    var i, buf := IndexOf(s.clients, e.id), CString(e.buf);
    RpcCallCases(s.clients, i, buf, e.stale);
    var (cs, outs) := RpcCall(s.clients, i, buf, e.stale);
    if outs == [Posted(s.clients[i].id, RPC_ERROR)] && cs == s.clients {
      CallFails(s, e);
    } else {
      var t, body :| 0 <= t < |s.clients| && s.clients[i].toId == 0 && cs == Link(s.clients, i, t)
        && outs == [Posted(s.clients[t].id, CallText(body))];
      CallGoes(s, e, t, body);
    }
  }

  lemma {:induction false} Effect(s: State, e: Event)
    requires Ordered(s)
    ensures e.Connect? || Quiet(s, e) || Says(s, e, Reply) || exists t :: Forwarding(s, e, t)
  {
    hide CommandOf;
    if Says(s, e, Call) {
      CallEffect(s, e);
    } else if e.Closed? && Connected(s, e.id) {
      var i := IndexOf(s.clients, e.id);
      RemoveAtKeeps(s.clients, i);
      SubsequenceKeepsOrder(RemoveAt(s.clients, i), s.clients);
      SubsetWithin(RemoveAt(s.clients, i), s.clients);
    } else if e.Received? && Connected(s, e.id) && !Says(s, e, Reply) {
      QuietProcess(s.clients, IndexOf(s.clients, e.id), CString(e.buf), e.dead, e.stale);
    } else {
      SubsetWithin(s.clients, s.clients);
    }
  }

  lemma SameIds(a: seq<Client>, b: seq<Client>, bound: nat)
    requires |a| == |b| && forall k :: 0 <= k < |a| ==> a[k].id == b[k].id
    requires Ordered(State(b, bound))
    ensures Ordered(State(a, bound))
  {
    forall c | c in a ensures 1 <= c.id < bound {
      var k :| 0 <= k < |a| && a[k] == c;
      assert b[k] in b;
    }
  }

  lemma OrderedStep(s: State, e: Event)
    requires Ordered(s)
    ensures Ordered(Step(s, e).0)
  {
    hide Step, Says, CommandOf, ForwardedTo, NewClient, Link;
    Effect(s, e);
    var after := Step(s, e).0;
    if e.Connect? {
      ConnectStep(s, e);
      NewIsNewest(s);
    } else if Says(s, e, Reply) {
      ReplyKeepsIds(s, e);
      SameIds(after.clients, s.clients, s.nextId);
    } else if !Quiet(s, e) {
      var t :| Forwarding(s, e, t);
      LinkKeepsIds(s.clients, IndexOf(s.clients, e.id), t);
      SameIds(after.clients, s.clients, s.nextId);
    } else {
      WithinIds(after.clients, s);
    }
  }

  lemma NewIsNewest(s: State)
    requires Ordered(s)
    ensures Ordered(State([NewClient(s.nextId)] + s.clients, s.nextId + 1))
  {
    var after := [NewClient(s.nextId)] + s.clients;
    assert forall k :: 0 < k < |after| ==> after[k] in s.clients;
  }

  lemma LinkKeepsIds(cs: seq<Client>, i: nat, t: nat)
    requires i < |cs| && t < |cs|
    ensures forall k :: 0 <= k < |cs| ==> Link(cs, i, t)[k].id == cs[k].id
  {
  }

  lemma WithinIds(a: seq<Client>, s: State)
    requires Ordered(s) && Within(a, s.clients)
    ensures forall d :: d in a ==> 1 <= d.id < s.nextId
  {
  }

  lemma ConnectStep(s: State, e: Event)
    requires e.Connect?
    ensures Step(s, e).0 == State([NewClient(s.nextId)] + s.clients, s.nextId + 1)
    ensures ForwardedTo(s, e) == None && !Says(s, e, Reply)
  {
  }

  lemma ReplyKeepsIds(s: State, e: Event)
    requires Says(s, e, Reply)
    ensures var after := Step(s, e).0;
      && after.nextId == s.nextId && |after.clients| == |s.clients|
      && forall k :: 0 <= k < |s.clients| ==> after.clients[k].id == s.clients[k].id
  {
    hide CommandOf, FirstWaiter;
  }

  lemma {:induction false} OrderedRun(evs: seq<Event>)
    ensures Ordered(Run(evs))
  {
    if evs != [] {
      OrderedRun(evs[..|evs| - 1]);
      OrderedStep(Run(evs[..|evs| - 1]), evs[|evs| - 1]);
    }
  }

  // The invariant of every run.

  /** A client's counters and its wait agree with the history. */
  ghost predicate Tracked(evs: seq<Event>, c: Client) {
    && c.nextCall == |Calls(evs, c.id)| + 1
    && c.nextReply == Replies(evs, c.id) + 1
    && (c.toId != 0 ==> Promised(evs, c.id, c.toId, c.toSeq))
    && forall t: nat, k: nat :: Promised(evs, c.id, t, k) && !WaitsFor(c, t, k) ==> k <= Replies(evs, t)
  }

  /** Ids that were never given out have no history. */
  ghost predicate Unborn(evs: seq<Event>, bound: nat) {
    && (forall t: nat :: t == 0 || t >= bound ==> Calls(evs, t) == [] && Replies(evs, t) == 0)
    && (forall caller: nat, t: nat, k: nat :: Promised(evs, caller, t, k) ==> caller < bound)
  }

  ghost predicate Inv(evs: seq<Event>) {
    var s := Run(evs);
    && Ordered(s)
    && Unborn(evs, s.nextId)
    && forall c :: c in s.clients ==> Tracked(evs, c)
  }

  /** The same calls and replies. */
  ghost predicate SameHistory(evs: seq<Event>, after: seq<Event>) {
    && (forall t: nat :: Calls(after, t) == Calls(evs, t) && Replies(after, t) == Replies(evs, t))
    && (forall caller: nat, t: nat, k: nat :: Promised(after, caller, t, k) <==> Promised(evs, caller, t, k))
  }

  /** An event that is neither a forwarded call nor a reply leaves the history alone. */
  lemma NoHistory(evs: seq<Event>, e: Event)
    requires ForwardedTo(Run(evs), e) == None && !Says(Run(evs), e, Reply)
    ensures SameHistory(evs, evs + [e])
  {
    hide Run, Step, Says, ForwardedTo;
    RunStep(evs, e);
  }

  lemma TrackedSame(evs: seq<Event>, after: seq<Event>, c: Client, d: Client)
    requires Tracked(evs, c) && SameRpc(c, d) && SameHistory(evs, after)
    ensures Tracked(after, d)
  {
    hide Calls, Replies;
  }

  lemma UnbornSame(evs: seq<Event>, after: seq<Event>, bound: nat, more: nat)
    requires Unborn(evs, bound) && SameHistory(evs, after) && bound <= more
    ensures Unborn(after, more)
  {
    hide Calls, Replies;
  }

  lemma QuietInv(evs: seq<Event>, e: Event)
    requires Inv(evs) && Quiet(Run(evs), e)
    ensures Inv(evs + [e])
  {
    hide Run, Step, Says, ForwardedTo, Calls, Replies, Tracked, Unborn, SameHistory, Ordered, SameRpc;
    var s := Run(evs);
    OrderedStep(s, e);
    RunStep(evs, e);
    NoHistory(evs, e);
    UnbornSame(evs, evs + [e], s.nextId, s.nextId);
    forall d | d in Run(evs + [e]).clients ensures Tracked(evs + [e], d) {
      var c :| c in s.clients && SameRpc(c, d);
      TrackedSame(evs, evs + [e], c, d);
    }
  }

  /** Nobody knows a client that has just connected. */
  lemma TrackedNew(evs: seq<Event>, after: seq<Event>, bound: nat)
    requires Unborn(evs, bound) && SameHistory(evs, after) && bound > 0
    ensures Tracked(after, NewClient(bound))
  {
    hide Calls, Replies;
  }

  lemma ConnectInv(evs: seq<Event>, e: Event)
    requires Inv(evs) && e.Connect?
    ensures Inv(evs + [e])
  {
    hide Run, Step, Says, ForwardedTo, Calls, Replies, Tracked, Unborn, SameHistory, NewClient;
    var s := Run(evs);
    ConnectStep(s, e);
    OrderedStep(s, e);
    RunStep(evs, e);
    NoHistory(evs, e);
    UnbornSame(evs, evs + [e], s.nextId, s.nextId + 1);
    forall d | d in Run(evs + [e]).clients ensures Tracked(evs + [e], d) {
      if d == NewClient(s.nextId) {
        TrackedNew(evs, evs + [e], s.nextId);
      } else {
        Itself(d);
        TrackedSame(evs, evs + [e], d, d);
      }
    }
  }

  lemma Itself(d: Client)
    ensures SameRpc(d, d)
  {
  }

  /** One more promise, to the caller. */
  ghost predicate OnePromiseMore(evs: seq<Event>, after: seq<Event>, caller: nat, target: nat) {
    && (forall u: nat :: Replies(after, u) == Replies(evs, u))
    && (forall u: nat :: |Calls(after, u)| == |Calls(evs, u)| + if u == target then 1 else 0)
    && (forall who: nat, u: nat, k: nat :: Promised(after, who, u, k)
          <==> Promised(evs, who, u, k) || (who == caller && u == target && k == |Calls(evs, target)| + 1))
  }

  lemma CallHistory(evs: seq<Event>, e: Event, t: nat)
    requires Forwarding(Run(evs), e, t)
    ensures OnePromiseMore(evs, evs + [e], e.id, Run(evs).clients[t].id)
  {
    hide Run, Step, CommandOf;
    RunStep(evs, e);
  }

  /** What a forwarded call does to one client. */
  ghost predicate Linked(c: Client, d: Client, caller: nat, target: Client) {
    && c.id == d.id && c.nextReply == d.nextReply
    && d.nextCall == c.nextCall + (if d.id == target.id then 1 else 0)
    && if d.id == caller then WaitsFor(d, target.id, target.nextCall) else d.toId == c.toId && d.toSeq == c.toSeq
  }

  lemma LinkedClient(cs: seq<Client>, i: nat, t: nat, d: Client)
    requires i < |cs| && t < |cs| && NewestFirst(cs) && d in Link(cs, i, t)
    ensures exists c :: c in cs && Linked(c, d, cs[i].id, cs[t])
  {
    var k :| 0 <= k < |cs| && Link(cs, i, t)[k] == d;
    assert k != i ==> cs[k].id != cs[i].id;
    assert k != t ==> cs[k].id != cs[t].id;
    assert Linked(cs[k], d, cs[i].id, cs[t]);
  }

  lemma TrackedLinked(evs: seq<Event>, after: seq<Event>, caller: nat, target: Client, c: Client, d: Client)
    requires Tracked(evs, c) && Tracked(evs, target) && Linked(c, d, caller, target)
    requires c.id == target.id ==> c == target
    requires c.id == caller ==> c.toId == 0
    requires target.id != 0 && Calls(evs, 0) == []
    requires OnePromiseMore(evs, after, caller, target.id)
    ensures Tracked(after, d)
  {
    hide Calls, Replies;
  }

  lemma CallInvClient(evs: seq<Event>, e: Event, t: nat, d: Client)
    requires Inv(evs) && Forwarding(Run(evs), e, t)
    requires d in Link(Run(evs).clients, IndexOf(Run(evs).clients, e.id), t)
    ensures Tracked(evs + [e], d)
  {
    var s := Run(evs);
    var i, target := IndexOf(s.clients, e.id), s.clients[t];
    CallHistory(evs, e, t);
    LinkedClient(s.clients, i, t, d);
    assert target in s.clients && s.clients[i] in s.clients;
    hide Run, Step, Says, ForwardedTo, Calls, Replies, Link, Linked, Tracked, OnePromiseMore;
    var c :| c in s.clients && Linked(c, d, e.id, target);
    if c.id == target.id {
      OneClientPerId(s, c, target);
    }
    if c.id == e.id {
      OneClientPerId(s, c, s.clients[i]);
    }
    TrackedLinked(evs, evs + [e], e.id, target, c, d);
  }

  lemma CallUnborn(evs: seq<Event>, after: seq<Event>, bound: nat, caller: nat, target: nat)
    requires Unborn(evs, bound) && OnePromiseMore(evs, after, caller, target)
    requires caller < bound && 1 <= target < bound
    ensures Unborn(after, bound)
  {
    hide Calls, Replies;
  }

  lemma CallInv(evs: seq<Event>, e: Event, t: nat)
    requires Inv(evs) && Forwarding(Run(evs), e, t)
    ensures Inv(evs + [e])
  {
    var s := Run(evs);
    OrderedStep(s, e);
    RunStep(evs, e);
    CallHistory(evs, e, t);
    var after := Run(evs + [e]);
    forall d | d in after.clients ensures Tracked(evs + [e], d) {
      CallInvClient(evs, e, t, d);
    }
    assert s.clients[t] in s.clients && Get(s, e.id) in s.clients;
    CallUnborn(evs, evs + [e], s.nextId, e.id, s.clients[t].id);
  }

  ghost predicate OneReplyMore(evs: seq<Event>, after: seq<Event>, server: nat) {
    && (forall u: nat :: Replies(after, u) == Replies(evs, u) + if u == server then 1 else 0)
    && (forall u: nat :: Calls(after, u) == Calls(evs, u))
    && (forall who: nat, u: nat, k: nat :: Promised(after, who, u, k) <==> Promised(evs, who, u, k))
  }

  lemma ReplyHistory(evs: seq<Event>, e: Event)
    requires Says(Run(evs), e, Reply)
    ensures OneReplyMore(evs, evs + [e], e.id)
  {
    hide Run, Step, IndexOf;
    RunStep(evs, e);
  }

  /** What a reply does to one client: it may be released. */
  ghost predicate Answered(c: Client, d: Client, server: Client) {
    && c.id == d.id && c.nextCall == d.nextCall
    && d.nextReply == c.nextReply + (if d.id == server.id then 1 else 0)
    && ((d.toId == c.toId && d.toSeq == c.toSeq) || (d.toId == 0 && WaitsFor(c, server.id, server.nextReply)))
  }

  lemma AnsweredClient(cs: seq<Client>, i: nat, results: string, d: Client)
    requires i < |cs| && NewestFirst(cs) && d in RpcReply(cs, i, results).0
    ensures exists c :: c in cs && Answered(c, d, cs[i])
  {
    var after := RpcReply(cs, i, results).0;
    var k :| 0 <= k < |after| && after[k] == d;
    assert k != i ==> cs[k].id != cs[i].id;
    assert Answered(cs[k], d, cs[i]);
  }

  lemma TrackedAnswered(evs: seq<Event>, after: seq<Event>, server: Client, c: Client, d: Client)
    requires Tracked(evs, c) && Tracked(evs, server) && Answered(c, d, server)
    requires OneReplyMore(evs, after, server.id)
    ensures Tracked(after, d)
  {
    hide Calls, Replies;
  }

  lemma StepReply(s: State, e: Event)
    requires Says(s, e, Reply)
    ensures var (cs, outs) := RpcReply(s.clients, IndexOf(s.clients, e.id), Behind(CString(e.buf), 6, e.stale));
      Step(s, e) == (s.(clients := cs), outs)
  {
    hide CommandOf, RpcReply, CString, IndexOf, Behind;
  }

  lemma ReplyInvClient(evs: seq<Event>, e: Event, results: string, d: Client)
    requires Inv(evs) && Says(Run(evs), e, Reply)
    requires d in RpcReply(Run(evs).clients, IndexOf(Run(evs).clients, e.id), results).0
    ensures Tracked(evs + [e], d)
  {
    var s := Run(evs);
    var server := Get(s, e.id);
    ReplyHistory(evs, e);
    AnsweredClient(s.clients, IndexOf(s.clients, e.id), results, d);
    hide Run, Step, Says, Calls, Replies, RpcReply, Answered, Tracked, OneReplyMore;
    var c :| c in s.clients && Answered(c, d, server);
    TrackedAnswered(evs, evs + [e], server, c, d);
  }

  lemma ReplyUnborn(evs: seq<Event>, after: seq<Event>, bound: nat, server: nat)
    requires Unborn(evs, bound) && OneReplyMore(evs, after, server) && 1 <= server < bound
    ensures Unborn(after, bound)
  {
    hide Calls, Replies;
  }

  lemma ReplyInv(evs: seq<Event>, e: Event)
    requires Inv(evs) && Says(Run(evs), e, Reply)
    ensures Inv(evs + [e])
  {
    var s := Run(evs);
    OrderedStep(s, e);
    RunStep(evs, e);
    StepReply(s, e);
    ReplyHistory(evs, e);
    var results := Behind(CString(e.buf), 6, e.stale);
    var after := RpcReply(s.clients, IndexOf(s.clients, e.id), results).0;
    assert Run(evs + [e]) == s.(clients := after);
    hide RpcReply, Step, Calls, Replies, Says;
    forall d | d in after ensures Tracked(evs + [e], d) {
      ReplyInvClient(evs, e, results, d);
    }
    assert Get(s, e.id) in s.clients;
    ReplyUnborn(evs, evs + [e], s.nextId, e.id);
  }

  lemma {:induction false} InvRun(evs: seq<Event>)
    ensures Inv(evs)
  {
    hide Step, Says, Calls, Replies;
    if evs == [] {
      InvStart();
    } else {
      var before, e := evs[..|evs| - 1], evs[|evs| - 1];
      assert before + [e] == evs;
      InvRun(before);
      Effect(Run(before), e);
      if e.Connect? {
        ConnectInv(before, e);
      } else if Quiet(Run(before), e) {
        QuietInv(before, e);
      } else if Says(Run(before), e, Reply) {
        ReplyInv(before, e);
      } else {
        var t :| Forwarding(Run(before), e, t);
        CallInv(before, e, t);
      }
    }
  }

  lemma InvStart()
    ensures Inv([])
  {
  }

  // The theorems.

  /** No two connected clients wait for the same reply. */
  lemma OneWaiterPerReply(evs: seq<Event>, c: Client, d: Client)
    requires c in Run(evs).clients && d in Run(evs).clients
    requires c.toId != 0 && WaitsFor(d, c.toId, c.toSeq)
    ensures c == d
  {
    hide Run, Calls, Replies;
    InvRun(evs);
    assert Tracked(evs, c) && Tracked(evs, d);
    OneClientPerId(Run(evs), c, d);
  }

  /** The client that the reply of `server` is for, by the state alone. */
  lemma ReplyGoesTo(cs: seq<Client>, i: nat, results: string)
    requires i < |cs|
    ensures var outs := RpcReply(cs, i, results).1;
      || (exists w :: w in cs && WaitsFor(w, cs[i].id, cs[i].nextReply) && outs == [Posted(w.id, results)])
      || (outs == [] && forall w :: w in cs ==> !WaitsFor(w, cs[i].id, cs[i].nextReply))
  {
    var number := cs[i].nextReply;
    var counted := cs[i := cs[i].(nextReply := number + 1)];
    var k := FirstWaiter(counted, cs[i].id, number);
    if k < |cs| {
      assert cs[k] in cs && WaitsFor(cs[k], cs[i].id, number);
    } else {
      forall w | w in cs ensures !WaitsFor(w, cs[i].id, number) {
        var j :| 0 <= j < |cs| && cs[j] == w;
        assert !WaitsFor(counted[j], cs[i].id, number);
      }
    }
  }

  /** Who waits for the next reply of a connected server, by the history alone. */
  lemma NextReplyIsFor(evs: seq<Event>, server: nat, w: Client)
    requires Connected(Run(evs), server) && w in Run(evs).clients
    ensures WaitsFor(w, server, Get(Run(evs), server).nextReply) <==>
      Replies(evs, server) < |Calls(evs, server)| && Calls(evs, server)[Replies(evs, server)] == w.id
  {
    InvRun(evs);
    hide Run, Step, Calls, Replies;
    var v := Get(Run(evs), server);
    assert Tracked(evs, v) && Tracked(evs, w);
    assert server != 0;
    assert Promised(evs, w.id, server, v.nextReply) <==>
      Replies(evs, server) < |Calls(evs, server)| && Calls(evs, server)[Replies(evs, server)] == w.id;
  }

  /** A server's k-th reply is posted to exactly the client whose call was the k-th one
      forwarded to it, if that call was made and that client is still connected; otherwise
      to nobody. */
  lemma KthReply(evs: seq<Event>, e: Event)
    requires Says(Run(evs), e, Reply)
    ensures var k, calls := Replies(evs, e.id), Calls(evs, e.id);
      Outs(evs + [e]) ==
        if k < |calls| && Connected(Run(evs), calls[k])
        then [Posted(calls[k], Behind(CString(e.buf), |"reply "|, e.stale))]
        else []
  {
    var s := Run(evs);
    var i, results := IndexOf(s.clients, e.id), Behind(CString(e.buf), 6, e.stale);
    var k, calls := Replies(evs, e.id), Calls(evs, e.id);
    OrderedRun(evs);
    RunStep(evs, e);
    StepReply(s, e);
    ReplyGoesTo(s.clients, i, results);
    hide Run, Step, Calls, Replies, RpcReply, CString, Behind, CommandOf;
    if k < |calls| && Connected(s, calls[k]) {
      NextReplyIsFor(evs, e.id, Get(s, calls[k]));
    }
    var outs := RpcReply(s.clients, i, results).1;
    if outs != [] {
      var w :| w in s.clients && WaitsFor(w, e.id, s.clients[i].nextReply) && outs == [Posted(w.id, results)];
      NextReplyIsFor(evs, e.id, w);
      OneClientPerId(s, w, w);
    }
  }
}
