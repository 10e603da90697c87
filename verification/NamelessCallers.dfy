/** Callers without a name and without an interest: nothing reaches them but their replies,
    so that `scop_rpc` is safe for them in every run. */
module NamelessCallers {
  import opened Text
  import opened Broker
  import opened BrokerRuns
  import opened BrokerTheorems
  import opened EndToEnd

  predicate SameNames(c: Client, d: Client) {
    c.id == d.id && c.name == d.name && c.interest == d.interest
  }

  ghost predicate NamesWithin(a: seq<Client>, b: seq<Client>) {
    forall d :: d in a ==> exists c :: c in b && SameNames(c, d)
  }

  lemma SubsetNames(a: seq<Client>, b: seq<Client>)
    requires forall c :: c in a ==> c in b
    ensures NamesWithin(a, b)
  {
    forall d | d in a ensures exists c :: c in b && SameNames(c, d) {
      assert SameNames(d, d);
    }
  }

  lemma PointwiseNames(a: seq<Client>, b: seq<Client>)
    requires |a| == |b| && forall k :: 0 <= k < |a| ==> SameNames(b[k], a[k])
    ensures NamesWithin(a, b)
  {
    forall d | d in a ensures exists c :: c in b && SameNames(c, d) {
      var k :| 0 <= k < |a| && a[k] == d;
      assert SameNames(b[k], d);
    }
  }

  /** Only the sender of a command can have its names changed by it. */
  lemma QuietNames(cs: seq<Client>, i: nat, buf: string, dead: set<nat>, stale: string, d: Client)
    requires i < |cs| && CommandOf(buf) != Call && CommandOf(buf) != Reply
    requires d in Process(cs, i, buf, dead, stale).0 && d.id != cs[i].id
    ensures exists c :: c in cs && SameNames(c, d)
  {
    hide CommandOf, ScanEndpoint, Deliver, Without, SameNames, Rename, Dump, Count, FirstNamed;
    forall endpoint, msg ensures d in Deliver(cs, endpoint, msg, dead).0 ==> d in cs {
      DeliverKeeps(cs, endpoint, msg, dead);
    }
    forall endpoint ensures d in Without(cs, endpoint) ==> d in cs {
      WithoutIsFilter(cs, endpoint);
    }
    UpdateElsewhere(cs, i, Rename(cs[i], buf, stale), d);
    assert d in cs;
    Itself(d);
  }

  lemma Itself(d: Client)
    ensures SameNames(d, d)
  {
  }

  lemma UpdateElsewhere(cs: seq<Client>, i: nat, c: Client, d: Client)
    requires i < |cs| && d != c
    ensures d in cs[i := c] ==> d in cs
  {
  }

  lemma NamesKept(s: State, e: Event, d: Client)
    requires d in Step(s, e).0.clients && d.id < s.nextId
    requires e.Received? && e.id == d.id ==> Says(s, e, Call)
    ensures exists c :: c in s.clients && SameNames(c, d)
  {
    hide CommandOf, CString, RpcCall, RpcReply;
    SubsetNames(s.clients, s.clients);
    if e.Received? && Connected(s, e.id) {
      var i, buf := IndexOf(s.clients, e.id), CString(e.buf);
      if CommandOf(buf) == Call {
        CallNames(s.clients, i, buf, e.stale);
      } else if CommandOf(buf) == Reply {
        ReplyNames(s.clients, i, Behind(buf, |"reply "|, e.stale));
      } else {
        QuietNames(s.clients, i, buf, e.dead, e.stale, d);
      }
    } else {
      assert d in s.clients;
    }
  }

  lemma CallNames(cs: seq<Client>, i: nat, buf: string, stale: string)
    requires i < |cs| && "call" <= buf
    ensures NamesWithin(RpcCall(cs, i, buf, stale).0, cs)
  {
    RpcCallCases(cs, i, buf, stale);
    hide RpcCall, CallText;
    PointwiseNames(RpcCall(cs, i, buf, stale).0, cs);
  }

  lemma ReplyNames(cs: seq<Client>, i: nat, results: string)
    requires i < |cs|
    ensures NamesWithin(RpcReply(cs, i, results).0, cs)
  {
    PointwiseNames(RpcReply(cs, i, results).0, cs);
  }

  /** A call is written to its caller or to a client that answers to the endpoint. */
  lemma CallGoesTo(cs: seq<Client>, i: nat, buf: string, stale: string)
    requires i < |cs| && "call" <= buf
    ensures var outs := RpcCall(cs, i, buf, stale).1;
      && |outs| == 1
      && (outs[0].to == cs[i].id || exists c, endpoint :: c in cs && Matches(c, endpoint) && outs[0].to == c.id)
  {
    hide ScanEndpoint, Body, Link, CallText;
    var r := ScanEndpoint("call", buf);
    if cs[i].toId == 0 && r.Some? && Count(cs, r.value.0) == 1 && FirstMatch(cs, r.value.0) < |cs| {
      assert cs[FirstMatch(cs, r.value.0)] in cs;
    }
  }

  /** No call of another client is forwarded to a nameless one, and unless it waits for a
      reply, nothing at all is written to it. */
  lemma NothingForNameless(s: State, e: Event, id: nat)
    requires Ordered(s) && Connected(s, id) && Nameless(Get(s, id)) && (e.Received? ==> e.id != id)
    ensures ForwardedTo(s, e) != Some(id)
    ensures Get(s, id).toId == 0 ==> Avoids(Step(s, e).1, id)
  {
    hide Step, ForwardedTo, CommandOf, CString, Matches, Ordered, Connected, Nameless;
    OneCommand(s, e);
    if Says(s, e, Call) {
      NoCallToNameless(s, e, id);
    } else if Says(s, e, Reply) {
      if Get(s, id).toId == 0 {
        NoReplyToIdle(s, e, id);
      }
    } else {
      OthersAvoid(s, e, id);
    }
  }

  lemma NoCallToNameless(s: State, e: Event, id: nat)
    requires Ordered(s) && Connected(s, id) && Nameless(Get(s, id)) && Says(s, e, Call) && e.id != id
    ensures ForwardedTo(s, e) != Some(id) && Avoids(Step(s, e).1, id)
  {
    StepCall(s, e);
    hide Step, CommandOf, CString, RpcCall, Matches;
    CallGoesTo(s.clients, IndexOf(s.clients, e.id), CString(e.buf), e.stale);
    NamelessUnmatched(s, id);
  }

  lemma NamelessUnmatched(s: State, id: nat)
    requires Ordered(s) && Connected(s, id) && Nameless(Get(s, id))
    ensures forall c, endpoint :: c in s.clients && Matches(c, endpoint) ==> c.id != id
  {
    forall c, endpoint | c in s.clients && Matches(c, endpoint) ensures c.id != id {
      if c.id == id {
        OneClientPerId(s, c, Get(s, id));
      }
    }
  }

  lemma NoReplyToIdle(s: State, e: Event, id: nat)
    requires Ordered(s) && Connected(s, id) && Get(s, id).toId == 0 && Says(s, e, Reply)
    ensures Avoids(Step(s, e).1, id)
  {
    var i, results := IndexOf(s.clients, e.id), Behind(CString(e.buf), 6, e.stale);
    StepReply(s, e);
    hide Step, CommandOf, RpcReply, CString, Behind;
    ReplyGoesTo(s.clients, i, results);
    forall w | w in s.clients && WaitsFor(w, e.id, s.clients[i].nextReply) ensures w.id != id {
      assert s.clients[i].id >= 1;
      if w.id == id {
        OneClientPerId(s, w, Get(s, id));
      }
    }
  }

  // Over a run.

  /** A connected client that has no name, and waits for no reply if `idle`. */
  predicate Unnamed(s: State, id: nat, idle: bool) {
    Connected(s, id) && Nameless(Get(s, id)) && (idle ==> Get(s, id).toId == 0)
  }

  /** It stays so in an event that is not its own, and through its own calls without a name. */
  lemma UnnamedStep(evs: seq<Event>, e: Event, id: nat, idle: bool)
    requires Unnamed(Run(evs), id, idle) && Connected(Run(evs + [e]), id)
    requires e.Received? && e.id == id ==> Says(Run(evs), e, Call) && !idle
    ensures Unnamed(Run(evs + [e]), id, idle)
  {
    hide Run, Step, Says, Nameless, Follows;
    var s, d := Run(evs), Get(Run(evs + [e]), id);
    OrderedRun(evs);
    RunStep(evs, e);
    assert Get(s, id).id < s.nextId;
    NamesKept(s, e, d);
    var c :| c in s.clients && SameNames(c, d);
    OneClientPerId(s, c, Get(s, id));
    SameNameless(c, d);
    if idle {
      FollowsStep(s, e, d);
      var b :| b in s.clients && Follows(s, e, b, d);
      StaysIdle(s, e, b, d);
      OneClientPerId(s, b, Get(s, id));
    }
  }

  lemma SameNameless(c: Client, d: Client)
    requires SameNames(c, d)
    ensures Nameless(c) == Nameless(d)
  {
  }

  lemma StaysIdle(s: State, e: Event, c: Client, d: Client)
    requires Follows(s, e, c, d)
    ensures c.id == d.id && (c.toId == 0 && d.toId != 0 ==> e.Received? && e.id == c.id)
  {
  }

  lemma ConnectedBetween(evs: seq<Event>, less: seq<Event>, e: Event, id: nat)
    requires Connected(Run(evs), id) && Connected(Run(evs + less + [e]), id)
    ensures Connected(Run(evs + less), id)
  {
    hide Step;
    OrderedRun(evs);
    assert Get(Run(evs), id).id < Run(evs).nextId;
    NextIdGrows(evs + less, |evs|);
    assert (evs + less)[..|evs|] == evs;
    hide Run;
    ConnectedBefore(evs + less, e, id);
  }

  /** Nobody calls a nameless client that sends nothing, and unless it waits, nothing is
      written to it. */
  lemma {:induction false} NothingReaches(evs: seq<Event>, more: seq<Event>, id: nat, idle: bool)
    requires Unnamed(Run(evs), id, idle) && Blocked(more, id) && Connected(Run(evs + more), id)
    ensures Unnamed(Run(evs + more), id, idle) && Uncalled(evs, more, id)
    ensures idle ==> Inbox(evs, more, id) == []
    decreases |more|
  {
    hide Run, Step, Says, Outs, WritesTo, ForwardedTo, Uncalled, Connected, Nameless;
    UncalledStep(evs, more, id);
    if more == [] {
      assert evs + more == evs;
    } else {
      var less, e := more[..|more| - 1], more[|more| - 1];
      var before := evs + less;
      assert before + [e] == evs + more;
      ConnectedBetween(evs, less, e, id);
      NothingReaches(evs, less, id, idle);
      UnnamedStep(before, e, id, idle);
      OrderedRun(before);
      NothingForNameless(Run(before), e, id);
      RunStep(before, e);
      WritesToSome(Outs(evs + more), id);
    }
  }

  /** A caller without a name and without an interest, which waits for nothing, has read
      everything and has no command under way, gets its reply from every `scop_rpc` that is
      answered: no other client can disturb it. */
  lemma NamelessCallIsAnswered(x: Exchange, endpoint: string, args: string, text: string)
    requires Calling(x, endpoint) && IsCallOf(x.call, endpoint, args)
    requires Replying(x) && IsReplyOf(x.reply, text)
    requires Unnamed(Run(x.sent), x.caller, true) && Blocked(x.wait, x.caller)
    requires Unread(x.sent, x.caller, x.taken) == []
    ensures Undisturbed(x)
    ensures Unread(x.AfterReply(), x.caller, x.taken) == [Posted(x.caller, text)]
  {
    hide Run, Step, Calls, Replies, CString, CommandOf, IsCallText, Behind, Inbox, Uncalled, Blocked, CallCommand,
      Written, Unread, Callable, Target, Connected, Waiting, Nameless, CallText, Trim, IsReplyOf;
    FirstReadIsReplyIff(x, endpoint, args, text);
    NamelessIsUndisturbed(x, endpoint, args);
  }

  lemma NamelessIsUndisturbed(x: Exchange, endpoint: string, args: string)
    requires Calling(x, endpoint) && IsCallOf(x.call, endpoint, args)
    requires Unnamed(Run(x.sent), x.caller, true) && Blocked(x.wait, x.caller)
    requires Unread(x.sent, x.caller, x.taken) == []
    ensures Undisturbed(x)
  {
    assert Connected(Run(x.AtCall()), x.caller);
    SaysCall(Run(x.AtCall()), x.call, endpoint, args);
    hide Run, Step, Calls, Replies, CString, CommandOf, IsCallText, Inbox, Uncalled, Blocked, CallCommand, Written,
      Unread, Callable, Target, Connected, Waiting, Nameless, CallText, Trim;
    NothingReaches(x.sent, x.wait, x.caller, true);
    CallWaits(x.AtCall(), x.call, endpoint, args);
    assert Connected(Run(x.AfterCall()), x.caller) by {
      WaitsConnected(Run(x.AfterCall()), x.caller, x.server, |Calls(x.AfterCall(), x.server)|);
    }
    UnnamedStep(x.AtCall(), x.call, x.caller, false);
    NothingReaches(x.AfterCall(), x.mid, x.caller, false);
  }

  lemma WaitsConnected(s: State, id: nat, t: nat, k: nat)
    requires Waiting(s, id, t, k)
    ensures Connected(s, id)
  {
  }
}
