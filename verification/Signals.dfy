/** MochiKit.Signal: connecting and disconnecting observers, also while a signal is being
    sent, as functions on the list of observers. */
module Signals {
  import opened Text

  /** An Ident. Sources, signals, objects and functions are told apart by number. */
  datatype Observer = Observer(id: nat, source: nat, sig: nat, obj: nat, fun: Option<nat>, connected: bool)

  datatype State = State(observers: seq<Observer>, lock: bool, dirty: bool, next: nat)

  datatype Action =
    | Connect(source: nat, sig: nat, obj: nat, fun: Option<nat>)
    | Disconnect(id: nat)
    | DisconnectFrom(source: nat, sig: nat, obj: nat, fun: Option<nat>)
    | DisconnectAllTo(obj: nat, fun: Option<nat>)
    | DisconnectAll(source: nat, sigs: seq<nat>)

  /** What one call of a listener does: it acts, and it may throw. */
  datatype Turn = Turn(actions: seq<Action>, throws: Option<nat>)

  // Which observers an action means.

  predicate Hits(a: Action, o: Observer) {
    match a
    case Connect(_, _, _, _) => false
    case Disconnect(id) => o.id == id
    case DisconnectFrom(source, sig, obj, fun) => o.source == source && o.sig == sig && o.obj == obj && o.fun == fun
    case DisconnectAllTo(obj, fun) => o.obj == obj && (fun == None || o.fun == fun)
    case DisconnectAll(source, sigs) => o.source == source && (sigs == [] || o.sig in sigs)
  }

  predicate Single(a: Action) {
    a.Disconnect? || a.DisconnectFrom?
  }

  function FirstHit(a: Action, obs: seq<Observer>): (k: nat)
    ensures k <= |obs| && forall j :: 0 <= j < k ==> !Hits(a, obs[j])
    ensures k < |obs| ==> Hits(a, obs[k])
  {
    if obs == [] || Hits(a, obs[0]) then 0 else 1 + FirstHit(a, obs[1..])
  }

  function LastHit(a: Action, obs: seq<Observer>): (k: nat)
    ensures k <= |obs| && forall j :: k < j < |obs| ==> !Hits(a, obs[j])
    ensures if k < |obs| then Hits(a, obs[k]) else forall j :: 0 <= j < |obs| ==> !Hits(a, obs[j])
  {
    if obs == [] then 0
    else if Hits(a, obs[|obs| - 1]) then |obs| - 1
    else var k := LastHit(a, obs[..|obs| - 1]); if k == |obs| - 1 then |obs| else k
  }

  /** The one observer that a single disconnection finds: the identical one, or the last with
      the same source, signal, object and function. */
  function Found(a: Action, obs: seq<Observer>): (k: nat)
    ensures k <= |obs| && (k < |obs| ==> Hits(a, obs[k]))
  {
    if a.Disconnect? then FirstHit(a, obs) else LastHit(a, obs)
  }

  function Detached(o: Observer): Observer {
    o.(connected := false)
  }

  function Without(obs: seq<Observer>, k: nat): seq<Observer>
    requires k < |obs|
  {
    obs[..k] + obs[k + 1..]
  }

  function Missed(a: Action, obs: seq<Observer>): seq<Observer> {
    if obs == [] then []
    else (if Hits(a, obs[0]) then [] else [obs[0]]) + Missed(a, obs[1..])
  }

  function Marked(a: Action, obs: seq<Observer>): (r: seq<Observer>)
    ensures |r| == |obs|
    ensures forall k :: 0 <= k < |obs| ==> r[k] == if Hits(a, obs[k]) then Detached(obs[k]) else obs[k]
  {
    if obs == [] then []
    else [if Hits(a, obs[0]) then Detached(obs[0]) else obs[0]] + Marked(a, obs[1..])
  }

  predicate SomeHit(a: Action, obs: seq<Observer>) {
    exists k :: 0 <= k < |obs| && Hits(a, obs[k])
  }

  /** One action; while a signal is being sent, disconnected observers stay in the list. */
  function Step(s: State, a: Action): State {
    if a.Connect? then
      s.(observers := s.observers + [Observer(s.next, a.source, a.sig, a.obj, a.fun, true)], next := s.next + 1)
    else if Single(a) then
      var k := Found(a, s.observers);
      if k == |s.observers| then s
      else if s.lock then s.(observers := s.observers[k := Detached(s.observers[k])], dirty := true)
      else s.(observers := Without(s.observers, k))
    else if s.lock then s.(observers := Marked(a, s.observers), dirty := s.dirty || SomeHit(a, s.observers))
    else s.(observers := Missed(a, s.observers))
  }

  function Steps(s: State, actions: seq<Action>): State
    decreases |actions|
  {
    if actions == [] then s else Steps(Step(s, actions[0]), actions[1..])
  }

  lemma {:induction false} StepsAppend(s: State, a: seq<Action>, b: seq<Action>)
    ensures Steps(s, a + b) == Steps(Steps(s, a), b)
    decreases |a|
  {
    if a == [] {
      assert a + b == b;
    } else {
      assert (a + b)[1..] == a[1..] + b;
      StepsAppend(Step(s, a[0]), a[1..], b);
    }
  }

  // Sending a signal.

  predicate Matches(o: Observer, source: nat, sig: nat) {
    o.source == source && o.sig == sig
  }

  function FirstTurn(script: seq<Turn>): Turn {
    if script == [] then Turn([], None) else script[0]
  }

  function LaterTurns(script: seq<Turn>): seq<Turn> {
    if script == [] then [] else script[1..]
  }

  datatype Sent = Sent(state: State, calls: seq<nat>, errors: seq<nat>)

  /** The loop of `signal` from position `i`, where the listeners that are still to be called
      will do what `script` says, one turn each: the positions called, and what they threw. */
  function Loop(s: State, source: nat, sig: nat, i: nat, script: seq<Turn>): Sent
    decreases |script|, |s.observers| - i
  {
    if i >= |s.observers| then Sent(s, [], [])
    else if Matches(s.observers[i], source, sig) && s.observers[i].connected then
      var turn := FirstTurn(script);
      var rest := Loop(Steps(s, turn.actions), source, sig, i + 1, LaterTurns(script));
      Sent(rest.state, [i] + rest.calls, (if turn.throws.Some? then [turn.throws.value] else []) + rest.errors)
    else Loop(s, source, sig, i + 1, script)
  }

  function Live(obs: seq<Observer>): (r: seq<Observer>)
    ensures forall o :: o in r ==> o in obs && o.connected
  {
    if obs == [] then [] else (if obs[0].connected then [obs[0]] else []) + Live(obs[1..])
  }

  /** What `signal` does after its loop. */
  function Unlocked(s: State): State {
    if s.dirty then s.(lock := false, dirty := false, observers := Live(s.observers)) else s.(lock := false)
  }

  function Signal(s: State, source: nat, sig: nat, script: seq<Turn>): Sent {
    var sent := Loop(s.(lock := true), source, sig, 0, script);
    sent.(state := Unlocked(sent.state))
  }

  // Who is called.

  /** Everything done by the first `c` calls. */
  function Done(script: seq<Turn>, c: nat): seq<Action> {
    if c == 0 then [] else FirstTurn(script).actions + Done(LaterTurns(script), c - 1)
  }

  /** The state after the first `c` calls. */
  function After(s: State, script: seq<Turn>, c: nat): State {
    Steps(s, Done(script, c))
  }

  function CallsBefore(calls: seq<nat>, p: nat): (n: nat)
    ensures n <= |calls|
  {
    if calls == [] then 0 else (if calls[0] < p then 1 else 0) + CallsBefore(calls[1..], p)
  }

  /** While the list is locked, positions keep their observer, and who was disconnected
      stays so. */
  ghost predicate Grows(s: State, t: State) {
    s.lock && t.lock && |s.observers| <= |t.observers| &&
    forall p :: 0 <= p < |s.observers| ==>
      t.observers[p] == s.observers[p] || t.observers[p] == Detached(s.observers[p])
  }

  lemma LockedStep(s: State, a: Action)
    requires s.lock
    ensures Grows(s, Step(s, a))
  {
  }

  lemma {:induction false} LockedSteps(s: State, actions: seq<Action>)
    requires s.lock
    ensures Grows(s, Steps(s, actions))
    decreases |actions|
  {
    hide Step;
    if actions != [] {
      LockedStep(s, actions[0]);
      LockedSteps(Step(s, actions[0]), actions[1..]);
    }
  }

  lemma AfterFirst(s: State, script: seq<Turn>, c: nat)
    ensures After(s, script, c + 1) == After(Steps(s, FirstTurn(script).actions), LaterTurns(script), c)
  {
    StepsAppend(s, FirstTurn(script).actions, Done(LaterTurns(script), c));
  }

  predicate Increasing(calls: seq<nat>) {
    forall j, k :: 0 <= j < k < |calls| ==> calls[j] < calls[k]
  }

  /** The observer at `p` is there, matches and is connected when its turn comes, which is
      after the calls of the observers before it. */
  predicate Due(s: State, source: nat, sig: nat, script: seq<Turn>, calls: seq<nat>, p: nat) {
    var t := After(s, script, CallsBefore(calls, p));
    p < |t.observers| && t.observers[p].source == source && t.observers[p].sig == sig && t.observers[p].connected
  }

  lemma {:induction false} NoneBefore(calls: seq<nat>, p: nat)
    requires forall q :: q in calls ==> p <= q
    ensures CallsBefore(calls, p) == 0
  {
    if calls != [] {
      assert calls[0] in calls && forall q :: q in calls[1..] ==> q in calls;
      NoneBefore(calls[1..], p);
    }
  }

  lemma DueFirst(s: State, source: nat, sig: nat, script: seq<Turn>, calls: seq<nat>, i: nat)
    requires forall q :: q in calls ==> i <= q
    ensures Due(s, source, sig, script, calls, i) <==>
      (i < |s.observers| && Matches(s.observers[i], source, sig) && s.observers[i].connected)
  {
    NoneBefore(calls, i);
    assert Done(script, 0) == [];
  }

  lemma DueLater(s: State, source: nat, sig: nat, script: seq<Turn>, calls: seq<nat>, i: nat, p: nat)
    requires i < p
    ensures Due(s, source, sig, script, [i] + calls, p) <==>
      Due(Steps(s, FirstTurn(script).actions), source, sig, LaterTurns(script), calls, p)
  {
    assert ([i] + calls)[1..] == calls;
    AfterFirst(s, script, CallsBefore(calls, p));
  }

  /** Exactly the observers that are due are called, once each and in connection order. */
  lemma {:induction false} CalledIffDue(s: State, source: nat, sig: nat, i: nat, script: seq<Turn>)
    requires s.lock
    ensures var sent := Loop(s, source, sig, i, script);
      sent.state == After(s, script, |sent.calls|) && sent.state.lock && Increasing(sent.calls) &&
      (forall p :: p in sent.calls ==> i <= p < |sent.state.observers|) &&
      forall p: nat :: i <= p < |sent.state.observers| ==>
        (p in sent.calls <==> Due(s, source, sig, script, sent.calls, p))
    decreases |script|, |s.observers| - i
  {
    hide Step, Steps, Due, After;
    var sent := Loop(s, source, sig, i, script);
    if i >= |s.observers| {
      AfterNone(s, script);
    } else if Matches(s.observers[i], source, sig) && s.observers[i].connected {
      var t, later := Steps(s, FirstTurn(script).actions), LaterTurns(script);
      LockedSteps(s, FirstTurn(script).actions);
      NoActions(s);
      CalledIffDue(t, source, sig, i + 1, later);
      var rest := Loop(t, source, sig, i + 1, later);
      AfterFirst(s, script, |rest.calls|);
      IncreasingFrom(i, rest.calls);
      AfterGrows(t, later, |rest.calls|);
      DueFirst(s, source, sig, script, sent.calls, i);
      forall p: nat | i < p
        ensures Due(s, source, sig, script, sent.calls, p) <==> Due(t, source, sig, later, rest.calls, p)
      {
        DueLater(s, source, sig, script, rest.calls, i, p);
      }
    } else {
      CalledIffDue(s, source, sig, i + 1, script);
      DueFirst(s, source, sig, script, sent.calls, i);
    }
  }

  lemma NoActions(s: State)
    ensures Steps(s, []) == s
  {
  }

  lemma IncreasingFrom(i: nat, calls: seq<nat>)
    requires Increasing(calls) && forall p :: p in calls ==> i < p
    ensures Increasing([i] + calls)
  {
    forall k | 0 < k < |[i] + calls| ensures ([i] + calls)[k] in calls {
      assert ([i] + calls)[k] == calls[k - 1];
    }
  }

  lemma AfterNone(s: State, script: seq<Turn>)
    ensures After(s, script, 0) == s
  {
  }

  lemma AfterGrows(s: State, script: seq<Turn>, c: nat)
    requires s.lock
    ensures Grows(s, After(s, script, c))
  {
    LockedSteps(s, Done(script, c));
  }

  lemma {:induction false} AfterMonotone(s: State, script: seq<Turn>, c: nat, d: nat)
    requires s.lock && c <= d
    ensures Grows(After(s, script, c), After(s, script, d))
    decreases c
  {
    hide After, Steps, Step;
    LockedSteps(s, FirstTurn(script).actions);
    if c == 0 {
      AfterNone(s, script);
      AfterGrows(s, script, d);
    } else {
      AfterFirst(s, script, c - 1);
      AfterFirst(s, script, d - 1);
      AfterMonotone(Steps(s, FirstTurn(script).actions), LaterTurns(script), c - 1, d - 1);
    }
  }

  /** Nobody is called after being disconnected, and an observer that was there before the
      signal, matches and is still connected in the end has been called, once. */
  lemma OnlyTheConnectedAreCalled(s: State, source: nat, sig: nat, script: seq<Turn>, p: nat, c: nat)
    requires s.lock && p < |s.observers|
    ensures var sent := Loop(s, source, sig, 0, script);
      p < |sent.state.observers| &&
      (s.observers[p].source == source && s.observers[p].sig == sig && sent.state.observers[p].connected ==>
         p in sent.calls) &&
      ((c <= CallsBefore(sent.calls, p) && p < |After(s, script, c).observers| &&
         !After(s, script, c).observers[p].connected)
       ==> p !in sent.calls)
  {
    hide Step, Steps, After, Loop;
    var sent := Loop(s, source, sig, 0, script);
    CalledIffDue(s, source, sig, 0, script);
    AfterGrows(s, script, |sent.calls|);
    AfterGrows(s, script, CallsBefore(sent.calls, p));
    AfterMonotone(s, script, CallsBefore(sent.calls, p), |sent.calls|);
    if c <= CallsBefore(sent.calls, p) {
      AfterMonotone(s, script, c, CallsBefore(sent.calls, p));
    }
  }

  // What is left in the list.

  predicate Unique(obs: seq<Observer>) {
    forall j, k :: 0 <= j < k < |obs| ==> obs[j].id != obs[k].id
  }

  predicate DistinctIds(s: State) {
    (forall o :: o in s.observers ==> o.id < s.next) && Unique(s.observers)
  }

  /** Between signals. */
  predicate Idle(s: State) {
    !s.lock && !s.dirty && DistinctIds(s) && forall o :: o in s.observers ==> o.connected
  }

  /** During a signal. */
  predicate Sending(s: State) {
    s.lock && DistinctIds(s) && (s.dirty || forall o :: o in s.observers ==> o.connected)
  }

  /** The state without the observers that only wait to be removed. */
  function Swept(s: State): State {
    State(Live(s.observers), false, false, s.next)
  }

  lemma {:induction false} LiveSplit(a: seq<Observer>, b: seq<Observer>)
    ensures Live(a + b) == Live(a) + Live(b)
  {
    if a == [] {
      assert a + b == b;
    } else {
      assert (a + b)[1..] == a[1..] + b;
      LiveSplit(a[1..], b);
    }
  }

  /** What is live around position `k`. */
  lemma LiveAround(obs: seq<Observer>, k: nat)
    requires k < |obs|
    ensures Live(obs) == Live(obs[..k]) + ((if obs[k].connected then [obs[k]] else []) + Live(obs[k + 1..]))
    ensures Live(obs[k := Detached(obs[k])]) == Live(obs[..k]) + Live(obs[k + 1..])
  {
    hide Live, Detached;
    LiveWith(obs[..k], obs[k], obs[k + 1..]);
    LiveWith(obs[..k], Detached(obs[k]), obs[k + 1..]);
    assert obs == obs[..k] + ([obs[k]] + obs[k + 1..]);
    assert obs[k := Detached(obs[k])] == obs[..k] + ([Detached(obs[k])] + obs[k + 1..]);
    DetachedIsDead(obs[k]);
    assert Live(obs[..k]) + ([] + Live(obs[k + 1..])) == Live(obs[..k]) + Live(obs[k + 1..]);
  }

  lemma DetachedIsDead(o: Observer)
    ensures !Detached(o).connected
  {
  }

  lemma LiveWith(x: seq<Observer>, o: Observer, y: seq<Observer>)
    ensures Live(x + ([o] + y)) == Live(x) + ((if o.connected then [o] else []) + Live(y))
  {
    LiveSplit(x, [o] + y);
    assert ([o] + y)[1..] == y;
  }

  lemma {:induction false} AllLive(obs: seq<Observer>)
    requires forall o :: o in obs ==> o.connected
    ensures Live(obs) == obs
  {
    if obs != [] {
      assert obs[0] in obs && forall o :: o in obs[1..] ==> o in obs;
      AllLive(obs[1..]);
    }
  }

  lemma {:induction false} LiveMarked(a: Action, obs: seq<Observer>)
    ensures Live(Marked(a, obs)) == Missed(a, Live(obs))
  {
    if obs != [] {
      LiveMarked(a, obs[1..]);
      assert ([obs[0]] + Live(obs[1..]))[1..] == Live(obs[1..]);
      assert [] + Live(obs[1..]) == Live(obs[1..]);
    }
  }

  predicate NoHit(a: Action, obs: seq<Observer>) {
    forall o :: o in obs ==> !Hits(a, o)
  }

  lemma FoundBetween(a: Action, x: seq<Observer>, o: Observer, y: seq<Observer>)
    requires Single(a) && Hits(a, o) && NoHit(a, y) && (a.Disconnect? ==> NoHit(a, x))
    ensures Found(a, x + ([o] + y)) == |x| && Without(x + ([o] + y), |x|) == x + y
  {
    hide Hits;
    var l := x + ([o] + y);
    assert l[|x|] == o;
    assert forall j :: |x| < j < |l| ==> l[j] in y;
    assert forall j :: 0 <= j < |x| ==> l[j] in x;
  }

  lemma FoundNowhere(a: Action, obs: seq<Observer>)
    requires Single(a)
    ensures Found(a, obs) == |obs| <==> NoHit(a, obs)
  {
    hide Hits;
    if Found(a, obs) < |obs| {
      assert obs[Found(a, obs)] in obs;
    }
  }

  lemma NoHitLive(a: Action, obs: seq<Observer>)
    requires NoHit(a, obs)
    ensures NoHit(a, Live(obs))
  {
  }

  /** A disconnection by source, signal, object and function, whose last hit waits to be
      removed, overlooks the connected ones before it. */
  predicate Shadowed(s: State, a: Action) {
    a.DisconnectFrom? &&
    var k := LastHit(a, s.observers);
    k < |s.observers| && !s.observers[k].connected && !NoHit(a, Live(s.observers))
  }

  /** Acting during a signal and sweeping afterwards is acting between signals, but for the
      shadowed disconnections. */
  lemma SweptStep(s: State, a: Action)
    requires Sending(s)
    ensures Swept(Step(s, a)) == Step(Swept(s), a) <==> !Shadowed(s, a)
  {
    if a.Connect? {
      var o := Observer(s.next, a.source, a.sig, a.obj, a.fun, true);
      LiveSplit(s.observers, [o]);
      assert Live([o]) == [o];
    } else if Single(a) {
      FoundNowhere(a, s.observers);
      var k := Found(a, s.observers);
      if k == |s.observers| {
        NoHitLive(a, s.observers);
        FoundNowhere(a, Live(s.observers));
      } else if s.observers[k].connected {
        SweptFound(s, a, k);
      } else {
        SweptDetached(s, a, k);
      }
    } else {
      LiveMarked(a, s.observers);
    }
  }

  lemma AroundHit(s: State, a: Action, k: nat)
    requires DistinctIds(s) && Single(a) && k < |s.observers| && k == Found(a, s.observers)
    ensures NoHit(a, s.observers[k + 1..]) && (a.Disconnect? ==> NoHit(a, s.observers[..k]))
  {
  }

  lemma SweptFound(s: State, a: Action, k: nat)
    requires Sending(s) && Single(a) && k < |s.observers| && k == Found(a, s.observers) && s.observers[k].connected
    ensures Swept(Step(s, a)) == Step(Swept(s), a) && !Shadowed(s, a)
  {
    hide Hits, NoHit, Live, DistinctIds;
    var obs := s.observers;
    AroundHit(s, a, k);
    LiveAround(obs, k);
    NoHitLive(a, obs[k + 1..]);
    if a.Disconnect? {
      NoHitLive(a, obs[..k]);
    }
    FoundBetween(a, Live(obs[..k]), obs[k], Live(obs[k + 1..]));
  }

  lemma SweptDetached(s: State, a: Action, k: nat)
    requires Sending(s) && Single(a) && k < |s.observers| && k == Found(a, s.observers) && !s.observers[k].connected
    ensures Swept(Step(s, a)) == Step(Swept(s), a) <==> !Shadowed(s, a)
  {
    hide Hits, Live;
    var obs := s.observers;
    AroundHit(s, a, k);
    LiveAround(obs, k);
    AppendAssociates(Live(obs[..k]), [], Live(obs[k + 1..]));
    if a.Disconnect? {
      NoHitLive(a, obs[..k]);
      NoHitLive(a, obs[k + 1..]);
    }
    FoundNowhere(a, Live(obs));
  }

  // Whole runs.

  lemma {:induction false} MissedUnique(a: Action, obs: seq<Observer>)
    requires Unique(obs)
    ensures Unique(Missed(a, obs)) && forall o :: o in Missed(a, obs) ==> o in obs
  {
    if obs != [] {
      assert obs[1..] <= obs[1..] && forall o :: o in obs[1..] ==> o in obs && o.id != obs[0].id;
      MissedUnique(a, obs[1..]);
    }
  }

  lemma {:induction false} LiveUnique(obs: seq<Observer>)
    requires Unique(obs)
    ensures Unique(Live(obs))
  {
    if obs != [] {
      assert forall o :: o in obs[1..] ==> o in obs && o.id != obs[0].id;
      LiveUnique(obs[1..]);
    }
  }

  lemma WithoutUnique(obs: seq<Observer>, k: nat)
    requires Unique(obs) && k < |obs|
    ensures Unique(Without(obs, k)) && forall o :: o in Without(obs, k) ==> o in obs
  {
  }

  lemma MarkedUnique(a: Action, obs: seq<Observer>)
    requires Unique(obs)
    ensures Unique(Marked(a, obs))
    ensures forall o :: o in Marked(a, obs) ==> exists p :: p in obs && p.id == o.id
    ensures !SomeHit(a, obs) ==> Marked(a, obs) == obs
  {
    var marked := Marked(a, obs);
    MarkedIds(a, obs);
    hide Hits, Marked;
    forall o | o in marked ensures exists p :: p in obs && p.id == o.id {
      var k :| 0 <= k < |obs| && marked[k] == o;
      assert obs[k] in obs && obs[k].id == o.id;
    }
  }

  lemma MarkedIds(a: Action, obs: seq<Observer>)
    ensures forall k :: 0 <= k < |obs| ==> Marked(a, obs)[k].id == obs[k].id
    ensures !SomeHit(a, obs) ==> Marked(a, obs) == obs
  {
    hide Hits;
  }

  lemma DetachedUnique(obs: seq<Observer>, k: nat)
    requires Unique(obs) && k < |obs|
    ensures Unique(obs[k := Detached(obs[k])])
    ensures forall o :: o in obs[k := Detached(obs[k])] ==> exists p :: p in obs && p.id == o.id
  {
    var cut := obs[k := Detached(obs[k])];
    forall o | o in cut ensures exists p :: p in obs && p.id == o.id {
      var j :| 0 <= j < |cut| && cut[j] == o;
      assert obs[j] in obs && obs[j].id == o.id;
    }
  }

  lemma AddedUnique(obs: seq<Observer>, o: Observer)
    requires Unique(obs) && forall p :: p in obs ==> p.id != o.id
    ensures Unique(obs + [o])
  {
  }

  lemma StepKeepsIds(s: State, a: Action)
    requires DistinctIds(s)
    ensures DistinctIds(Step(s, a))
  {
    hide Hits, Unique;
    if a.Connect? {
      AddedUnique(s.observers, Observer(s.next, a.source, a.sig, a.obj, a.fun, true));
    } else if Single(a) {
      var k := Found(a, s.observers);
      if k < |s.observers| {
        WithoutUnique(s.observers, k);
        DetachedUnique(s.observers, k);
      }
    } else {
      MarkedUnique(a, s.observers);
      MissedUnique(a, s.observers);
    }
  }

  lemma SendingStep(s: State, a: Action)
    requires Sending(s)
    ensures Sending(Step(s, a))
  {
    hide Hits, DistinctIds;
    StepKeepsIds(s, a);
    if !a.Connect? && !Single(a) && !SomeHit(a, s.observers) {
      MarkedKeepsAll(s, a);
    }
  }

  lemma MarkedKeepsAll(s: State, a: Action)
    requires DistinctIds(s) && !SomeHit(a, s.observers)
    ensures Marked(a, s.observers) == s.observers
  {
    MarkedUnique(a, s.observers);
  }

  lemma IdleStep(s: State, a: Action)
    requires Idle(s)
    ensures Idle(Step(s, a))
  {
    hide Hits, Unique;
    StepKeepsIds(s, a);
    MissedUnique(a, s.observers);
    if Single(a) && Found(a, s.observers) < |s.observers| {
      WithoutUnique(s.observers, Found(a, s.observers));
    }
  }

  lemma {:induction false} SendingSteps(s: State, actions: seq<Action>)
    requires Sending(s)
    ensures Sending(Steps(s, actions))
    decreases |actions|
  {
    hide Step, Sending;
    if actions != [] {
      SendingStep(s, actions[0]);
      SendingSteps(Step(s, actions[0]), actions[1..]);
    }
  }

  predicate NoneShadowed(s: State, actions: seq<Action>)
    decreases |actions|
  {
    actions == [] || (!Shadowed(s, actions[0]) && NoneShadowed(Step(s, actions[0]), actions[1..]))
  }

  lemma {:induction false} SweptSteps(s: State, actions: seq<Action>)
    requires Sending(s) && NoneShadowed(s, actions)
    ensures Swept(Steps(s, actions)) == Steps(Swept(s), actions)
    decreases |actions|
  {
    hide Step, Sending, Shadowed, Swept;
    if actions != [] {
      SendingStep(s, actions[0]);
      SweptStep(s, actions[0]);
      SweptSteps(Step(s, actions[0]), actions[1..]);
    }
  }

  /** A signal leaves exactly the connected observers, in connection order, and a list that is
      neither locked nor dirty; and it is as if its listeners had acted on an unlocked list,
      unless one of their disconnections was shadowed. */
  lemma SignalLeavesConnected(s: State, source: nat, sig: nat, script: seq<Turn>)
    requires Idle(s)
    ensures var sent := Signal(s, source, sig, script);
      var after := After(s.(lock := true), script, |sent.calls|);
      Idle(sent.state) && sent.state.observers == Live(after.observers) &&
      (NoneShadowed(s.(lock := true), Done(script, |sent.calls|)) ==>
         sent.state == Steps(s, Done(script, |sent.calls|)))
  {
    hide Step, Steps, Loop, Shadowed, Unique;
    var l := s.(lock := true);
    var sent := Loop(l, source, sig, 0, script);
    CalledIffDue(l, source, sig, 0, script);
    SendingSteps(l, Done(script, |sent.calls|));
    if !sent.state.dirty {
      AllLive(sent.state.observers);
    }
    LiveUnique(sent.state.observers);
    AllLive(s.observers);
    if NoneShadowed(l, Done(script, |sent.calls|)) {
      SweptSteps(l, Done(script, |sent.calls|));
    }
  }

  lemma StepsTwice(s: State, a: Action)
    ensures Steps(s, [a, a]) == Step(Step(s, a), a)
  {
    hide Step;
    assert [a, a][1..] == [a] && [a][1..] == [];
    assert Steps(Step(s, a), [a]) == Steps(Step(Step(s, a), a), []);
  }

  /** The exception does happen: two equal connections, and a listener that disconnects
      twice. Between signals this removes both, during a signal only one. */
  lemma ShadowedExample()
    ensures var a := Observer(0, 1, 2, 3, None, true); var b := Observer(1, 1, 2, 3, None, true);
      var s := State([a, b], false, false, 2); var cut := DisconnectFrom(1, 2, 3, None);
      Idle(s) && Steps(s, [cut, cut]).observers == [] &&
      Swept(Steps(s.(lock := true), [cut, cut])).observers == [a]
  {
    var a, b := Observer(0, 1, 2, 3, None, true), Observer(1, 1, 2, 3, None, true);
    var s, cut := State([a, b], false, false, 2), DisconnectFrom(1, 2, 3, None);
    var l := s.(lock := true);
    StepsTwice(s, cut);
    StepsTwice(l, cut);
    assert Without([a, b], 1) == [a] && Without([a], 0) == [];
    assert Step(s, cut) == State([a], false, false, 2) && Step(Step(s, cut), cut) == State([], false, false, 2);
    assert Step(l, cut) == State([a, Detached(b)], true, true, 2);
    assert Step(Step(l, cut), cut) == Step(l, cut);
    assert Live([a, Detached(b)]) == [a] + Live([a, Detached(b)][1..]);
    assert [a, Detached(b)][1..] == [Detached(b)] && [Detached(b)][1..] == [];
    assert Live([Detached(b)]) == [];
  }
}
