/** What each disconnection of MochiKit.Signal takes away and leaves, field by field, and what
    the listeners of a signal do and throw. */
module SignalLaws {
  import opened Text
  import opened Signals

  /** `t` is `s` with some observers gone: those that stay keep their order. */
  ghost predicate Thinned(t: State, s: State, leaves: set<Observer>) {
    t.lock == s.lock && t.dirty == s.dirty && t.next == s.next && IsSubsequence(t.observers, s.observers) &&
    forall o :: o in t.observers <==> o in s.observers && o !in leaves
  }

  /** `t` is `s` with some observers marked as disconnected, in their places. */
  ghost predicate MarkedIn(t: State, s: State, leaves: set<Observer>) {
    t.lock == s.lock && t.next == s.next && |t.observers| == |s.observers| &&
    (t.dirty <==> s.dirty || exists k :: 0 <= k < |s.observers| && s.observers[k] in leaves) &&
    forall k :: 0 <= k < |s.observers| ==>
      t.observers[k] == if s.observers[k] in leaves then s.observers[k].(connected := false) else s.observers[k]
  }

  /** Between signals the observers go at once, during one they are marked. */
  ghost predicate Drops(t: State, s: State, leaves: set<Observer>) {
    if s.lock then MarkedIn(t, s, leaves) else Thinned(t, s, leaves)
  }

  lemma {:induction false} MissedIs(a: Action, obs: seq<Observer>)
    ensures IsSubsequence(Missed(a, obs), obs)
    ensures forall o :: o in Missed(a, obs) <==> o in obs && !Hits(a, o)
  {
    hide Hits;
    if obs != [] {
      var rest := Missed(a, obs[1..]);
      MissedIs(a, obs[1..]);
      assert obs == [obs[0]] + obs[1..];
      if Hits(a, obs[0]) {
        assert Missed(a, obs) == rest;
        assert rest != [] ==> rest[0] in rest;
      } else {
        assert ([obs[0]] + rest)[1..] == rest;
      }
    }
  }

  lemma AllDrop(s: State, a: Action, leaves: set<Observer>)
    requires a.DisconnectAll? || a.DisconnectAllTo?
    requires forall o :: o in s.observers ==> (o in leaves <==> Hits(a, o))
    ensures Drops(Step(s, a), s, leaves)
  {
    hide Hits;
    MissedIs(a, s.observers);
  }

  /** `disconnectAll(source, sigs)` takes the observers of the source with one of the signals,
      or all of them if no signal is named. */
  lemma DisconnectAllDrops(s: State, source: nat, sigs: seq<nat>)
    ensures Drops(Step(s, DisconnectAll(source, sigs)), s,
                  set o | o in s.observers && o.source == source && (sigs == [] || o.sig in sigs))
  {
    var leaves := set o | o in s.observers && o.source == source && (sigs == [] || o.sig in sigs);
    AllDrop(s, DisconnectAll(source, sigs), leaves);
  }

  /** `disconnectAllTo(obj, fun)` takes the observers with the object and, unless it is null,
      the function. */
  lemma DisconnectAllToDrops(s: State, obj: nat, fun: Option<nat>)
    ensures Drops(Step(s, DisconnectAllTo(obj, fun)), s,
                  set o | o in s.observers && o.obj == obj && (fun == None || o.fun == fun))
  {
    var leaves := set o | o in s.observers && o.obj == obj && (fun == None || o.fun == fun);
    AllDrop(s, DisconnectAllTo(obj, fun), leaves);
  }

  /** The observer at `k` goes, or is marked, and nothing else changes. */
  ghost predicate DropsAt(t: State, s: State, k: nat)
    requires k < |s.observers|
  {
    if s.lock then t == s.(observers := s.observers[k := s.observers[k].(connected := false)], dirty := true)
    else t == s.(observers := s.observers[..k] + s.observers[k + 1..])
  }

  lemma OneDrops(s: State, a: Action, k: nat)
    requires Single(a) && k < |s.observers| && Hits(a, s.observers[k])
    requires forall j :: 0 <= j < |s.observers| && (if a.Disconnect? then j < k else k < j) ==> !Hits(a, s.observers[j])
    ensures DropsAt(Step(s, a), s, k)
  {
    hide Hits;
    assert Found(a, s.observers) == k by {
      var f := Found(a, s.observers);
      if a.Disconnect? {
        assert FirstHit(a, s.observers) == k;
      } else {
        assert LastHit(a, s.observers) == k;
      }
    }
  }

  lemma NoneDrops(s: State, a: Action)
    requires Single(a) && forall k :: 0 <= k < |s.observers| ==> !Hits(a, s.observers[k])
    ensures Step(s, a) == s
  {
    hide Hits;
  }

  /** `disconnect(ident)` takes the one observer that is that Ident. */
  lemma DisconnectDrops(s: State, id: nat)
    requires DistinctIds(s)
    ensures (forall o :: o in s.observers ==> o.id != id) ==> Step(s, Disconnect(id)) == s
    ensures forall k :: 0 <= k < |s.observers| && s.observers[k].id == id ==> DropsAt(Step(s, Disconnect(id)), s, k)
  {
    var a := Disconnect(id);
    if k :| 0 <= k < |s.observers| && s.observers[k].id == id {
      OneDrops(s, a, k);
    } else {
      NoneDrops(s, a);
    }
  }

  /** `o` was connected with these four. */
  predicate Connects(o: Observer, source: nat, sig: nat, obj: nat, fun: Option<nat>) {
    o.source == source && o.sig == sig && o.obj == obj && o.fun == fun
  }

  /** The observer at `k` is the newest of these four. */
  predicate Newest(obs: seq<Observer>, k: nat, source: nat, sig: nat, obj: nat, fun: Option<nat>) {
    k < |obs| && Connects(obs[k], source, sig, obj, fun) &&
    forall j :: k < j < |obs| ==> !Connects(obs[j], source, sig, obj, fun)
  }

  /** `disconnect(source, sig, obj, fun)` takes the newest observer with these four. */
  lemma DisconnectFromDrops(s: State, source: nat, sig: nat, obj: nat, fun: Option<nat>)
    ensures (forall o :: o in s.observers ==> !Connects(o, source, sig, obj, fun)) ==>
      Step(s, DisconnectFrom(source, sig, obj, fun)) == s
    ensures forall k: nat :: Newest(s.observers, k, source, sig, obj, fun) ==>
      DropsAt(Step(s, DisconnectFrom(source, sig, obj, fun)), s, k)
  {
    var a := DisconnectFrom(source, sig, obj, fun);
    assert forall o :: Connects(o, source, sig, obj, fun) <==> Hits(a, o);
    forall k: nat | Newest(s.observers, k, source, sig, obj, fun) ensures DropsAt(Step(s, a), s, k) {
      OneDrops(s, a, k);
    }
    if forall o :: o in s.observers ==> !Connects(o, source, sig, obj, fun) {
      NoneDrops(s, a);
    }
  }

  /** `connect` adds a connected observer with a new number at the end. */
  lemma ConnectAdds(s: State, source: nat, sig: nat, obj: nat, fun: Option<nat>)
    ensures var t := Step(s, Connect(source, sig, obj, fun));
      t.observers == s.observers + [Observer(s.next, source, sig, obj, fun, true)] && t.next == s.next + 1 &&
      t.lock == s.lock && t.dirty == s.dirty
  {
  }

  // During a signal.

  function TurnAt(script: seq<Turn>, k: nat): seq<Action> {
    if k < |script| then script[k].actions else []
  }

  lemma DoneSteps(script: seq<Turn>, c: nat)
    ensures Done(script, 0) == [] && TurnAt(script, 0) == FirstTurn(script).actions
    ensures Done(script, c + 1) == TurnAt(script, 0) + Done(LaterTurns(script), c)
    ensures TurnAt(LaterTurns(script), c) == TurnAt(script, c + 1)
  {
  }

  /** The first `c` listeners do what the first `c` turns say, in order. */
  lemma {:induction false} DoneNext(script: seq<Turn>, c: nat)
    ensures Done(script, 0) == []
    ensures Done(script, c + 1) == Done(script, c) + TurnAt(script, c)
    decreases c
  {
    hide Done, TurnAt, LaterTurns;
    var first, later := TurnAt(script, 0), LaterTurns(script);
    DoneSteps(script, c);
    DoneSteps(later, 0);
    if c == 0 {
      AppendAssociates(first, [], first);
    } else {
      DoneSteps(script, c - 1);
      DoneNext(later, c - 1);
      AppendAssociates(first, Done(later, c - 1), TurnAt(script, c));
    }
  }

  /** What the first `c` turns throw. */
  function Thrown(script: seq<Turn>, c: nat): seq<nat> {
    if c == 0 then []
    else Thrown(script, c - 1) + ThrownAt(script, c - 1)
  }

  function ThrownAt(script: seq<Turn>, k: nat): seq<nat> {
    if k < |script| && script[k].throws.Some? then [script[k].throws.value] else []
  }

  lemma ThrownSteps(script: seq<Turn>, c: nat)
    ensures Thrown(script, 0) == [] && Thrown(script, c + 1) == Thrown(script, c) + ThrownAt(script, c)
    ensures ThrownAt(LaterTurns(script), c) == ThrownAt(script, c + 1)
  {
  }

  lemma {:induction false} ThrownFirst(script: seq<Turn>, c: nat)
    ensures Thrown(script, c + 1) == ThrownAt(script, 0) + Thrown(LaterTurns(script), c)
    decreases c
  {
    hide ThrownAt, LaterTurns, Thrown;
    var first, later := ThrownAt(script, 0), LaterTurns(script);
    ThrownSteps(script, c);
    ThrownSteps(later, 0);
    if c == 0 {
      AppendAssociates(first, [], first);
    } else {
      ThrownSteps(script, c - 1);
      ThrownSteps(later, c - 1);
      ThrownFirst(script, c - 1);
      AppendAssociates(first, Thrown(later, c - 1), ThrownAt(script, c));
    }
  }

  /** A signal collects what its listeners threw, in the order of the calls. */
  lemma {:induction false} ErrorsAreThrown(s: State, source: nat, sig: nat, i: nat, script: seq<Turn>)
    requires s.lock
    ensures var sent := Loop(s, source, sig, i, script); sent.errors == Thrown(script, |sent.calls|)
    decreases |script|, |s.observers| - i
  {
    hide Step, Steps, Thrown;
    if i >= |s.observers| {
      NothingThrown(script);
    } else if Matches(s.observers[i], source, sig) && s.observers[i].connected {
      LockedSteps(s, FirstTurn(script).actions);
      NoActions(s);
      ErrorsAreThrown(Steps(s, FirstTurn(script).actions), source, sig, i + 1, LaterTurns(script));
      ThrownFirst(script, |Loop(Steps(s, FirstTurn(script).actions), source, sig, i + 1, LaterTurns(script)).calls|);
    } else {
      ErrorsAreThrown(s, source, sig, i + 1, script);
    }
  }

  lemma NothingThrown(script: seq<Turn>)
    ensures Thrown(script, 0) == []
  {
  }

  lemma {:induction false} LiveIs(obs: seq<Observer>)
    ensures IsSubsequence(Live(obs), obs)
    ensures forall o :: o in Live(obs) <==> o in obs && o.connected
  {
    if obs != [] {
      var rest := Live(obs[1..]);
      LiveIs(obs[1..]);
      assert obs == [obs[0]] + obs[1..];
      if obs[0].connected {
        assert ([obs[0]] + rest)[1..] == rest;
      } else {
        assert Live(obs) == rest;
        assert rest != [] ==> rest[0] in rest;
      }
    }
  }

  /** After a signal exactly the observers are left that its listeners left connected. */
  lemma SignalSweeps(s: State, source: nat, sig: nat, script: seq<Turn>)
    requires Idle(s)
    ensures var sent := Signal(s, source, sig, script);
      var after := After(s.(lock := true), script, |sent.calls|);
      !sent.state.lock && !sent.state.dirty && sent.errors == Thrown(script, |sent.calls|) &&
      IsSubsequence(sent.state.observers, after.observers) &&
      forall o :: o in sent.state.observers <==> o in after.observers && o.connected
  {
    hide Loop, After, Thrown, DistinctIds;
    SignalLeavesConnected(s, source, sig, script);
    ErrorsAreThrown(s.(lock := true), source, sig, 0, script);
    LiveIs(After(s.(lock := true), script, |Signal(s, source, sig, script).calls|).observers);
  }
}
