/** Consequences for clients of the SCOP server: which callers are answered and which wait
    forever, how many wait, and what a blocked caller reads next. */
module BrokerTheorems {
  import opened Text
  import opened Broker
  import opened BrokerRuns

  /** A connected client that waits for the k-th reply of `t`. */
  predicate Waiting(s: State, id: nat, t: nat, k: nat) {
    t != 0 && Connected(s, id) && WaitsFor(Get(s, id), t, k)
  }

  // Ids and counters.

  lemma {:induction false} NextIdGrows(evs: seq<Event>, j: nat)
    requires j <= |evs|
    ensures Run(evs[..j]).nextId <= Run(evs).nextId
    decreases |evs|
  {
    hide Process;
    if j == |evs| {
      assert evs[..j] == evs;
    } else {
      var before, e := evs[..|evs| - 1], evs[|evs| - 1];
      assert before[..j] == evs[..j] && before + [e] == evs;
      NextIdGrows(before, j);
      RunStep(before, e);
    }
  }

  /** The id of a new connection was never the id of a client at any earlier time. */
  lemma FreshId(evs: seq<Event>, j: nat, c: Client)
    requires j <= |evs| && c in Run(evs[..j]).clients
    ensures Run(evs + [Connect]).clients == [NewClient(Run(evs).nextId)] + Run(evs).clients
    ensures c.id < Run(evs).nextId
  {
    OrderedRun(evs[..j]);
    NextIdGrows(evs, j);
    RunStep(evs, Connect);
  }

  lemma {:induction false} HistoryBounded(evs: seq<Event>, t: nat)
    ensures |Calls(evs, t)| <= |evs| && Replies(evs, t) <= |evs|
  {
    if evs != [] {
      HistoryBounded(evs[..|evs| - 1], t);
    }
  }

  lemma {:induction false} NextIdBounded(evs: seq<Event>)
    ensures Run(evs).nextId <= |evs| + 1
  {
    hide Process;
    if evs != [] {
      NextIdBounded(evs[..|evs| - 1]);
    }
  }

  /** Every counter of the server is at most one more than the number of events, so a run
      of fewer than 2^31 - 1 events never leaves the range of an int. */
  lemma CountersFitInt(evs: seq<Event>, c: Client)
    requires c in Run(evs).clients
    ensures Run(evs).nextId <= |evs| + 1 && c.id <= |evs|
    ensures c.nextCall <= |evs| + 1 && c.nextReply <= |evs| + 1
    ensures c.toId != 0 ==> c.toSeq <= |evs|
  {
    InvRun(evs);
    NextIdBounded(evs);
    HistoryBounded(evs, c.id);
    HistoryBounded(evs, c.toId);
    assert Tracked(evs, c);
  }

  // Waiting ends only with the reply.

  /** How a client's wait can change in one event. */
  ghost predicate Follows(s: State, e: Event, c: Client, d: Client) {
    && c.id == d.id
    && (|| (d.toId == c.toId && d.toSeq == c.toSeq)
        || (c.toId == 0 && Says(s, e, Call) && e.id == c.id &&
            exists v :: v in s.clients && WaitsFor(d, v.id, v.nextCall))
        || (d.toId == 0 && Says(s, e, Reply) && WaitsFor(c, e.id, Get(s, e.id).nextReply)))
  }

  lemma FollowsReply(s: State, e: Event, d: Client)
    requires Ordered(s) && Says(s, e, Reply) && d in Step(s, e).0.clients
    ensures exists c :: c in s.clients && Follows(s, e, c, d)
  {
    StepReply(s, e);
    var i := IndexOf(s.clients, e.id);
    AnsweredClient(s.clients, i, Behind(CString(e.buf), 6, e.stale), d);
    hide Step, Says, RpcReply;
    var c :| c in s.clients && Answered(c, d, s.clients[i]);
    assert Follows(s, e, c, d);
  }

  lemma FollowsCall(s: State, e: Event, t: nat, d: Client)
    requires Ordered(s) && Forwarding(s, e, t) && d in Step(s, e).0.clients
    ensures exists c :: c in s.clients && Follows(s, e, c, d)
  {
    var i := IndexOf(s.clients, e.id);
    LinkedClient(s.clients, i, t, d);
    hide Step, CommandOf, Link;
    var c :| c in s.clients && Linked(c, d, e.id, s.clients[t]);
    if c.id == e.id {
      OneClientPerId(s, c, s.clients[i]);
    }
    assert Follows(s, e, c, d);
  }

  lemma FollowsStep(s: State, e: Event, d: Client)
    requires Ordered(s) && d in Step(s, e).0.clients
    ensures (e.Connect? && d == NewClient(s.nextId)) || exists c :: c in s.clients && Follows(s, e, c, d)
  {
    hide Process, Says, Forwarding, ForwardedTo;
    Effect(s, e);
    if e.Connect? {
      assert d in s.clients ==> Follows(s, e, d, d);
    } else if Quiet(s, e) {
      var c :| c in s.clients && SameRpc(c, d);
      assert Follows(s, e, c, d);
    } else if Says(s, e, Reply) {
      FollowsReply(s, e, d);
    } else {
      var t :| Forwarding(s, e, t);
      FollowsCall(s, e, t, d);
    }
  }

  lemma StillWaiting(evs: seq<Event>, e: Event, id: nat, t: nat, k: nat)
    requires Waiting(Run(evs), id, t, k) && Connected(Run(evs + [e]), id)
    ensures Waiting(Run(evs + [e]), id, t, k) || (Says(Run(evs), e, Reply) && e.id == t && k == Replies(evs, t) + 1)
  {
    var s := Run(evs);
    InvRun(evs);
    RunStep(evs, e);
    var d := Get(Run(evs + [e]), id);
    FollowsStep(s, e, d);
    hide Run, Step, Calls, Replies, Says;
    assert d.id < s.nextId;
    var c :| c in s.clients && Follows(s, e, c, d);
    OneClientPerId(s, c, Get(s, id));
    if Says(s, e, Reply) {
      assert Tracked(evs, Get(s, e.id));
    }
  }

  /** Ids do not come back: who is connected after an event either was connected or is new. */
  lemma ConnectedBefore(evs: seq<Event>, e: Event, id: nat)
    requires Connected(Run(evs + [e]), id) && id < Run(evs).nextId
    ensures Connected(Run(evs), id)
  {
    OrderedRun(evs);
    RunStep(evs, e);
    var d := Get(Run(evs + [e]), id);
    FollowsStep(Run(evs), e, d);
    hide Run, Step, Says;
    var c :| c in Run(evs).clients && Follows(Run(evs), e, c, d);
    OneClientPerId(Run(evs), c, c);
  }

  /** A wait that an event did not begin was there before. */
  lemma WaitedBefore(evs: seq<Event>, e: Event, id: nat, t: nat, k: nat)
    requires Waiting(Run(evs + [e]), id, t, k) && k <= |Calls(evs, t)|
    ensures Waiting(Run(evs), id, t, k)
  {
    hide Run, Step, Says, Calls, Replies, Ordered;
    OrderedRun(evs);
    RunStep(evs, e);
    var s, d := Run(evs), Get(Run(evs + [e]), id);
    FollowsStep(s, e, d);
    var c :| c in s.clients && Follows(s, e, c, d);
    OneClientPerId(s, c, c);
    forall v | v in s.clients && v.id == t ensures v.nextCall == |Calls(evs, t)| + 1 {
      OneClientPerId(s, v, v);
      ServerCounters(evs, t);
    }
  }

  ghost predicate OneWaiter(cs: seq<Client>, server: nat, number: nat) {
    forall a, b :: 0 <= a < b < |cs| && WaitsFor(cs[a], server, number) ==> !WaitsFor(cs[b], server, number)
  }

  lemma OneWaiterRun(evs: seq<Event>, server: nat, number: nat)
    requires server != 0
    ensures OneWaiter(Run(evs).clients, server, number)
  {
    var cs := Run(evs).clients;
    OrderedRun(evs);
    hide Run;
    forall a, b | 0 <= a < b < |cs| && WaitsFor(cs[a], server, number) ensures !WaitsFor(cs[b], server, number) {
      if WaitsFor(cs[b], server, number) {
        OneWaiterPerReply(evs, cs[a], cs[b]);
        assert false;
      }
    }
  }

  lemma ReplyClears(cs: seq<Client>, i: nat, results: string, d: Client)
    requires i < |cs| && NewestFirst(cs) && cs[i].id != 0
    requires OneWaiter(cs, cs[i].id, cs[i].nextReply)
    requires d in RpcReply(cs, i, results).0
    ensures !WaitsFor(d, cs[i].id, cs[i].nextReply)
  {
    var number := cs[i].nextReply;
    var counted := cs[i := cs[i].(nextReply := number + 1)];
    var w := FirstWaiter(counted, cs[i].id, number);
    var after := RpcReply(cs, i, results).0;
    var j :| 0 <= j < |after| && after[j] == d;
    if w < |cs| {
      assert WaitsFor(cs[w], cs[i].id, number);
    } else {
      assert !WaitsFor(counted[j], cs[i].id, number);
    }
  }

  /** A server's counters are the lengths of its history. */
  lemma ServerCounters(evs: seq<Event>, t: nat)
    requires Connected(Run(evs), t)
    ensures t != 0 && Get(Run(evs), t).nextReply == Replies(evs, t) + 1 &&
      Get(Run(evs), t).nextCall == |Calls(evs, t)| + 1
  {
    InvRun(evs);
    assert Tracked(evs, Get(Run(evs), t));
  }

  lemma ClientsAfterReply(evs: seq<Event>, e: Event)
    requires Says(Run(evs), e, Reply)
    ensures Run(evs + [e]).clients
         == RpcReply(Run(evs).clients, IndexOf(Run(evs).clients, e.id), Behind(CString(e.buf), 6, e.stale)).0
  {
    RunStep(evs, e);
    StepReply(Run(evs), e);
  }

  /** The reply numbered k leaves nobody waiting for it. */
  lemma ReplyReleases(evs: seq<Event>, e: Event, id: nat)
    requires Says(Run(evs), e, Reply)
    ensures !Waiting(Run(evs + [e]), id, e.id, Replies(evs, e.id) + 1)
  {
    hide Run, Step, Calls, Replies, CString, Behind, CommandOf, RpcReply, OneWaiter;
    var cs, i := Run(evs).clients, IndexOf(Run(evs).clients, e.id);
    var results := Behind(CString(e.buf), 6, e.stale);
    OrderedRun(evs);
    ServerCounters(evs, e.id);
    ClientsAfterReply(evs, e);
    OneWaiterRun(evs, e.id, cs[i].nextReply);
    if Connected(Run(evs + [e]), id) {
      ReplyClears(cs, i, results, Get(Run(evs + [e]), id));
    }
  }

  // Which calls are answered.

  /** The event that forwarded the k-th call to `t`. */
  function CallTime(evs: seq<Event>, t: nat, k: nat): (j: nat)
    requires 1 <= k <= |Calls(evs, t)|
    ensures j < |evs|
  {
    var before := evs[..|evs| - 1];
    if k <= |Calls(before, t)| then CallTime(before, t, k) else |evs| - 1
  }

  lemma {:induction false} CallTimeIs(evs: seq<Event>, t: nat, k: nat)
    requires 1 <= k <= |Calls(evs, t)|
    ensures |Calls(evs[..CallTime(evs, t, k)], t)| == k - 1
  {
    var before, j := evs[..|evs| - 1], CallTime(evs, t, k);
    if k <= |Calls(before, t)| {
      CallTimeIs(before, t, k);
      assert evs[..j] == before[..j];
    }
  }

  /** While a wait lasts, the server does not pass its number. */
  lemma MissedStep(evs: seq<Event>, e: Event, id: nat, t: nat, k: nat)
    requires Waiting(Run(evs + [e]), id, t, k)
    ensures k <= Replies(evs + [e], t) <==> k <= Replies(evs, t)
  {
    hide Run, Step, CommandOf, CString, Calls, Replies, Waiting;
    RunStep(evs, e);
    if Says(Run(evs), e, Reply) && e.id == t {
      ReplyReleases(evs, e, id);
    }
  }

  /** The reply that a caller waits for has already gone by exactly when the server had
      sent it before the call was forwarded. */
  lemma {:induction false} MissedIffEarly(evs: seq<Event>, id: nat, t: nat, k: nat)
    requires Waiting(Run(evs), id, t, k)
    ensures 1 <= k <= |Calls(evs, t)|
    ensures k <= Replies(evs, t) <==> k <= Replies(evs[..CallTime(evs, t, k)], t)
    decreases |evs|
  {
    InvRun(evs);
    assert Tracked(evs, Get(Run(evs), id));
    var before, e := evs[..|evs| - 1], evs[|evs| - 1];
    assert before + [e] == evs;
    hide Run, CommandOf, CString, Inv;
    MissedStep(before, e, id, t, k);
    if k <= |Calls(before, t)| {
      WaitedBefore(before, e, id, t, k);
      MissedIffEarly(before, id, t, k);
      assert evs[..CallTime(evs, t, k)] == before[..CallTime(before, t, k)];
    }
  }

  /** A caller whose reply has not gone by gets it: the k-th reply is posted to it and
      ends its wait. */
  lemma AnsweredInTime(evs: seq<Event>, e: Event, id: nat, k: nat)
    requires Says(Run(evs), e, Reply) && Waiting(Run(evs), id, e.id, k) && Replies(evs, e.id) + 1 == k
    ensures Outs(evs + [e]) == [Posted(id, Behind(CString(e.buf), |"reply "|, e.stale))]
    ensures !Waiting(Run(evs + [e]), id, e.id, k)
  {
    hide Run, Step, Calls, Replies, CString, Behind, CommandOf;
    KthReply(evs, e);
    ReplyReleases(evs, e, id);
    WaitIsPromised(evs, id, e.id, k);
  }

  lemma WaitIsPromised(evs: seq<Event>, id: nat, t: nat, k: nat)
    requires Waiting(Run(evs), id, t, k)
    ensures Promised(evs, id, t, k)
  {
    hide Run, Calls, Replies;
    InvRun(evs);
    assert Tracked(evs, Get(Run(evs), id));
  }

  /** A caller whose reply has gone by waits for as long as it is connected, and no reply
      of that server ever goes to it. */
  lemma {:induction false} StrandedForever(evs: seq<Event>, more: seq<Event>, id: nat, t: nat, k: nat)
    requires Waiting(Run(evs), id, t, k) && k <= Replies(evs, t)
    ensures k <= Replies(evs + more, t) && id < Run(evs + more).nextId
    ensures Connected(Run(evs + more), id) ==> Waiting(Run(evs + more), id, t, k)
    ensures forall e :: Says(Run(evs + more), e, Reply) && e.id == t ==>
      forall m :: Posted(id, m) !in Outs(evs + more + [e])
    decreases |more|
  {
    hide Run, Step, Replies, CString, Behind, CommandOf, Outs;
    var all := evs + more;
    if more == [] {
      assert all == evs;
      OrderedRun(evs);
    } else {
      var before, e := evs + more[..|more| - 1], more[|more| - 1];
      assert before + [e] == all;
      StrandedForever(evs, more[..|more| - 1], id, t, k);
      RunStep(before, e);
      NextIdGrows(all, |before|);
      assert all[..|before|] == before;
      if Connected(Run(all), id) {
        ConnectedBefore(before, e, id);
        StillWaiting(before, e, id, t, k);
      }
    }
    forall e, m | Says(Run(all), e, Reply) && e.id == t ensures Posted(id, m) !in Outs(all + [e]) {
      NoReplyToStranded(all, e, id, k, m);
    }
  }

  lemma NoReplyToStranded(evs: seq<Event>, e: Event, id: nat, k: nat, m: string)
    requires Says(Run(evs), e, Reply) && k <= Replies(evs, e.id)
    requires Connected(Run(evs), id) ==> Waiting(Run(evs), id, e.id, k)
    ensures Posted(id, m) !in Outs(evs + [e])
  {
    hide Run, Step, CString, Behind, CommandOf, Outs;
    KthReply(evs, e);
    InvRun(evs);
    var n := Replies(evs, e.id);
    assert Connected(Run(evs), id) ==> Tracked(evs, Get(Run(evs), id));
    assert Promised(evs, id, e.id, n + 1) <==> n < |Calls(evs, e.id)| && Calls(evs, e.id)[n] == id;
  }

  // A server that never replies ahead of its calls.

  ghost predicate NeverAhead(evs: seq<Event>, t: nat) {
    forall j :: 0 <= j <= |evs| ==> Replies(evs[..j], t) <= |Calls(evs[..j], t)|
  }

  function Waiters(s: State, t: nat): set<nat> {
    set c | c in s.clients && c.toId == t :: c.id
  }

  /** Everyone who waits for such a server waits for a reply still to come. */
  lemma WaitersInWindow(evs: seq<Event>, id: nat, t: nat, k: nat)
    requires NeverAhead(evs, t) && Waiting(Run(evs), id, t, k)
    ensures Replies(evs, t) < k <= |Calls(evs, t)|
    ensures Connected(Run(evs), t) ==> Get(Run(evs), t).nextReply <= k < Get(Run(evs), t).nextCall
  {
    hide Run, Step, Calls, Replies;
    MissedIffEarly(evs, id, t, k);
    CallTimeIs(evs, t, k);
    if Connected(Run(evs), t) {
      ServerCounters(evs, t);
    }
  }

  function Elements<T>(s: seq<T>): set<T> {
    set x | x in s
  }

  lemma {:induction false} FewerElements<T>(s: seq<T>)
    ensures |Elements(s)| <= |s|
  {
    if s != [] {
      FewerElements(s[1..]);
      assert s == [s[0]] + s[1..];
      assert Elements(s) == {s[0]} + Elements(s[1..]);
    }
  }

  /** They number at most the calls still unanswered; once all are answered, nobody waits. */
  lemma WaitersBounded(evs: seq<Event>, t: nat)
    requires t != 0 && NeverAhead(evs, t)
    ensures Replies(evs, t) <= |Calls(evs, t)|
    ensures |Waiters(Run(evs), t)| <= |Calls(evs, t)| - Replies(evs, t)
    ensures Replies(evs, t) == |Calls(evs, t)| ==> Waiters(Run(evs), t) == {}
  {
    hide Run, Step, Calls, Replies;
    assert evs[..|evs|] == evs;
    var open := Calls(evs, t)[Replies(evs, t)..];
    OrderedRun(evs);
    forall id | id in Waiters(Run(evs), t) ensures id in Elements(open) {
      var c :| c in Run(evs).clients && c.toId == t && c.id == id;
      OneClientPerId(Run(evs), c, c);
      WaitersInWindow(evs, id, t, c.toSeq);
      WaitIsPromised(evs, id, t, c.toSeq);
      assert open[c.toSeq - 1 - Replies(evs, t)] == id;
    }
    SubsetSize(Waiters(Run(evs), t), Elements(open));
    FewerElements(open);
  }

  // What a blocked caller reads.

  ghost predicate Avoids(outs: seq<Output>, id: nat) {
    forall o :: o in outs ==> o.to != id
  }

  predicate Nameless(c: Client) {
    c.name == None && c.interest == None
  }

  /** Sends pass over clients that wait for a reply, and over those without a name. */
  lemma DoSendAvoids(cs: seq<Client>, j: nat, endpoint: string, msg: string, dead: set<nat>, ack: Option<nat>)
    requires NewestFirst(cs) && j < |cs| && (cs[j].toId != 0 || Nameless(cs[j])) && ack != Some(cs[j].id)
    ensures Avoids(DoSend(cs, endpoint, msg, dead, ack).1, cs[j].id)
  {
    hide Deliver;
    var posts := Deliver(cs, endpoint, msg, dead).1;
    DeliverPosts(cs, endpoint, msg, dead);
    forall c | c in cs && Reached(c, endpoint, dead) ensures c.id != cs[j].id {
      var k :| 0 <= k < |cs| && cs[k] == c;
      assert k != j;
    }
  }

  lemma QuietAvoids(cs: seq<Client>, i: nat, j: nat, buf: string, dead: set<nat>, stale: string)
    requires NewestFirst(cs) && i < |cs| && j < |cs| && i != j && (cs[j].toId != 0 || Nameless(cs[j]))
    requires CommandOf(buf) != Call && CommandOf(buf) != Reply
    ensures Avoids(Process(cs, i, buf, dead, stale).1, cs[j].id)
  {
    hide CommandOf, ScanEndpoint, DoSend, Dump, Body, Behind;
    var outs := Process(cs, i, buf, dead, stale).1;
    assert cs[i].id != cs[j].id;
    if exists endpoint, msg, ack :: ack != Some(cs[j].id) && outs == DoSend(cs, endpoint, msg, dead, ack).1 {
      var endpoint, msg, ack :| ack != Some(cs[j].id) && outs == DoSend(cs, endpoint, msg, dead, ack).1;
      DoSendAvoids(cs, j, endpoint, msg, dead, ack);
    } else {
      assert forall o :: o in outs ==> o.to == cs[i].id;
    }
  }

  /** While a client waits, the server writes to it only on behalf of others: a call that
      is forwarded to it, or the reply it waits for. */
  lemma OnlyCallsAndTheReply(evs: seq<Event>, e: Event, id: nat, t: nat, k: nat, o: Output)
    requires Waiting(Run(evs), id, t, k) && (e.Received? ==> e.id != id)
    requires o in Outs(evs + [e]) && o.to == id
    ensures Outs(evs + [e]) == [o] && o.Posted?
    ensures if ForwardedTo(Run(evs), e) == Some(id) then IsCallText(o.msg)
            else Says(Run(evs), e, Reply) && e.id == t && k == Replies(evs, t) + 1
                 && o.msg == Behind(CString(e.buf), |"reply "|, e.stale)
  {
    hide Run, Step, CString, CommandOf, Behind, ForwardedTo, Replies, Outs, Calls, Waiting, Ordered, IsCallText;
    var s := Run(evs);
    OrderedRun(evs);
    RunStep(evs, e);
    WaitingIs(s, id, t, k);
    if Says(s, e, Call) {
      CallOutput(s, e);
      ForwardedText(s, e);
      OneCommand(s, e);
    } else if Says(s, e, Reply) {
      ReplyIsHis(evs, e, id, t, k);
      KthReply(evs, e);
      OneCommand(s, e);
    } else {
      OthersAvoid(s, e, id);
      assert false;
    }
  }

  lemma WaitingIs(s: State, id: nat, t: nat, k: nat)
    requires Waiting(s, id, t, k)
    ensures Connected(s, id) && Get(s, id).toId != 0
  {
  }

  lemma ForwardedText(s: State, e: Event)
    requires ForwardedTo(s, e).Some?
    ensures Step(s, e).1 != [] && Step(s, e).1[0].Posted? && IsCallText(Step(s, e).1[0].msg)
  {
  }

  lemma OneCommand(s: State, e: Event)
    ensures Says(s, e, Reply) ==> ForwardedTo(s, e) == None
    ensures Says(s, e, Call) ==> !Says(s, e, Reply)
  {
  }

  lemma OthersAvoid(s: State, e: Event, id: nat)
    requires Ordered(s) && Connected(s, id) && (Get(s, id).toId != 0 || Nameless(Get(s, id)))
    requires !Says(s, e, Call) && !Says(s, e, Reply) && (e.Received? ==> e.id != id)
    ensures ForwardedTo(s, e) == None && Avoids(Step(s, e).1, id)
  {
    hide Process, CString, CommandOf;
    if e.Received? && Connected(s, e.id) {
      QuietAvoids(s.clients, IndexOf(s.clients, e.id), IndexOf(s.clients, id), CString(e.buf), e.dead, e.stale);
    }
  }

  lemma CallOutput(s: State, e: Event)
    requires Says(s, e, Call)
    ensures |Step(s, e).1| == 1 && Step(s, e).1[0].Posted?
    ensures Step(s, e).1[0].to == e.id || ForwardedTo(s, e) == Some(Step(s, e).1[0].to)
  {
    hide CommandOf, IsCallText, CallText, RpcCall;
    StepCall(s, e);
    RpcCallCases(s.clients, IndexOf(s.clients, e.id), CString(e.buf), e.stale);
    var outs := Step(s, e).1;
    if outs[0].to != e.id {
      var t, body :| 0 <= t < |s.clients| && outs == [Posted(s.clients[t].id, CallText(body))];
      CallTexts(body);
    }
  }

  lemma ReplyIsHis(evs: seq<Event>, e: Event, id: nat, t: nat, k: nat)
    requires Says(Run(evs), e, Reply) && Waiting(Run(evs), id, t, k)
    ensures forall o :: o in Outs(evs + [e]) && o.to == id ==>
      e.id == t && k == Replies(evs, t) + 1 && o == Posted(id, Behind(CString(e.buf), |"reply "|, e.stale))
  {
    hide Run, Step, CString, Behind, CommandOf, Outs;
    KthReply(evs, e);
    InvRun(evs);
    var n := Replies(evs, e.id);
    assert Tracked(evs, Get(Run(evs), id));
    assert Promised(evs, id, e.id, n + 1) <==> n < |Calls(evs, e.id)| && Calls(evs, e.id)[n] == id;
  }

  function WritesTo(outs: seq<Output>, id: nat): seq<Output> {
    if outs == [] then []
    else (if outs[0].to == id then [outs[0]] else []) + WritesTo(outs[1..], id)
  }

  lemma WritesToSome(outs: seq<Output>, id: nat)
    ensures WritesTo(outs, id) == [] <==> Avoids(outs, id)
  {
    if outs != [] {
      WritesToSome(outs[1..], id);
      assert outs == [outs[0]] + outs[1..];
    }
  }

  /** Everything written to a client during `more`, after `evs`. */
  function Inbox(evs: seq<Event>, more: seq<Event>, id: nat): seq<Output> {
    if more == [] then [] else Inbox(evs, more[..|more| - 1], id) + WritesTo(Outs(evs + more), id)
  }

  /** Everything written to a client during a run. Ids do not come back, so this is what
      was put into the one socket of that client. */
  function Written(evs: seq<Event>, id: nat): seq<Output> {
    if evs == [] then [] else Written(evs[..|evs| - 1], id) + WritesTo(Outs(evs), id)
  }

  /** What stands in the client's socket when it has taken the first `taken` writes. */
  function Unread(evs: seq<Event>, id: nat, taken: nat): seq<Output> {
    if taken <= |Written(evs, id)| then Written(evs, id)[taken..] else []
  }

  lemma WrittenStep(evs: seq<Event>, e: Event, id: nat)
    ensures Written(evs + [e], id) == Written(evs, id) + WritesTo(Outs(evs + [e]), id)
  {
    assert (evs + [e])[..|evs|] == evs;
  }

  lemma {:induction false} WrittenInbox(evs: seq<Event>, more: seq<Event>, id: nat)
    ensures Written(evs + more, id) == Written(evs, id) + Inbox(evs, more, id)
    decreases |more|
  {
    hide Outs, WritesTo;
    if more == [] {
      assert evs + more == evs;
    } else {
      var less, e := more[..|more| - 1], more[|more| - 1];
      assert evs + less + [e] == evs + more;
      WrittenInbox(evs, less, id);
      WrittenStep(evs + less, e, id);
    }
  }

  /** The caller is inside scop_rpc: the server has its call and gets nothing else from it. */
  ghost predicate Blocked(more: seq<Event>, id: nat) {
    forall e :: e in more && e.Received? ==> e.id != id
  }

  lemma ReleasedByWrite(evs: seq<Event>, e: Event, id: nat, t: nat, k: nat)
    requires Waiting(Run(evs), id, t, k) && Connected(Run(evs + [e]), id) && !Waiting(Run(evs + [e]), id, t, k)
    ensures !Avoids(Outs(evs + [e]), id)
  {
    hide Run, Step, Replies, Calls, Outs, Behind, CString;
    StillWaiting(evs, e, id, t, k);
    AnsweredInTime(evs, e, id, k);
    assert Outs(evs + [e])[0].to == id;
  }

  /** As long as nothing is written to a blocked caller, it waits for the same reply. */
  lemma {:induction false} WaitsUntilFirstWrite(evs: seq<Event>, more: seq<Event>, id: nat, t: nat, k: nat)
    requires Waiting(Run(evs), id, t, k) && Inbox(evs, more, id) == []
    ensures id < Run(evs + more).nextId
    ensures Connected(Run(evs + more), id) ==> Waiting(Run(evs + more), id, t, k)
    decreases |more|
  {
    hide Run, Step, Replies, Calls, Outs, WritesTo;
    if more == [] {
      assert evs + more == evs;
      OrderedRun(evs);
    } else {
      var before, e := evs + more[..|more| - 1], more[|more| - 1];
      assert before + [e] == evs + more;
      WaitsUntilFirstWrite(evs, more[..|more| - 1], id, t, k);
      NextIdGrows(evs + more, |before|);
      assert (evs + more)[..|before|] == before;
      WritesToSome(Outs(evs + more), id);
      if Connected(Run(evs + more), id) {
        ConnectedBefore(before, e, id);
        StillWaiting(before, e, id, t, k);
        if !Waiting(Run(evs + more), id, t, k) {
          ReleasedByWrite(before, e, id, t, k);
          assert false;
        }
      }
    }
  }
}
