/** MochiKit.Signal on its Ident objects and its shared list of observers. */
module SignalHeap {
  import opened Text
  import opened Signals

  class Ident {
    const id: nat
    const source: nat
    const sig: nat
    const obj: nat
    const fun: Option<nat>
    var connected: bool

    constructor (id: nat, source: nat, sig: nat, obj: nat, fun: Option<nat>)
      ensures this.id == id && this.source == source && this.sig == sig && this.obj == obj && this.fun == fun
      ensures connected
    {
      this.id, this.source, this.sig, this.obj, this.fun, connected := id, source, sig, obj, fun, true;
    }

    function Value(): Observer
      reads this
    {
      Observer(id, source, sig, obj, fun, connected)
    }

    predicate IsHit(a: Action) {
      Hits(a, Observer(id, source, sig, obj, fun, true))
    }

    predicate Fits(source: nat, sig: nat, obj: nat, fun: Option<nat>) {
      this.source == source && this.sig == sig && this.obj == obj && this.fun == fun
    }
  }

  function Values(idents: seq<Ident>): (r: seq<Observer>)
    reads idents
    ensures |r| == |idents| && forall k :: 0 <= k < |idents| ==> r[k] == idents[k].Value()
  {
    if idents == [] then [] else [idents[0].Value()] + Values(idents[1..])
  }

  lemma ValuesMore(idents: seq<Ident>, ident: Ident)
    ensures Values(idents + [ident]) == Values(idents) + [ident.Value()]
  {
  }

  lemma StepConnect(s: State, o: Observer)
    requires o.id == s.next && o.connected
    ensures Step(s, Action.Connect(o.source, o.sig, o.obj, o.fun))
         == s.(observers := s.observers + [o], next := s.next + 1)
  {
  }

  function Kept(a: Action, idents: seq<Ident>): (r: seq<Ident>)
    ensures forall o :: o in r ==> o in idents
  {
    if idents == [] then [] else (if idents[0].IsHit(a) then [] else [idents[0]]) + Kept(a, idents[1..])
  }

  /** Value by value, the identities and what was known of them before. */
  predicate SameFields(o: Ident, v: Observer) {
    o.id == v.id && o.source == v.source && o.sig == v.sig && o.obj == v.obj && o.fun == v.fun
  }

  lemma {:induction false} KeptValues(a: Action, idents: seq<Ident>, before: seq<Observer>)
    requires |before| == |idents|
    requires forall k :: 0 <= k < |idents| ==> SameFields(idents[k], before[k])
    requires forall k :: 0 <= k < |idents| && !idents[k].IsHit(a) ==> idents[k].Value() == before[k]
    ensures Values(Kept(a, idents)) == Missed(a, before)
  {
    if idents != [] {
      KeptValues(a, idents[1..], before[1..]);
      assert idents[0].IsHit(a) <==> Hits(a, before[0]);
      if !idents[0].IsHit(a) {
        assert ([idents[0]] + Kept(a, idents[1..]))[1..] == Kept(a, idents[1..]);
      }
    }
  }

  function LiveIdents(idents: seq<Ident>): (r: seq<Ident>)
    reads idents
    ensures forall o :: o in r ==> o in idents
  {
    if idents == [] then [] else (if idents[0].connected then [idents[0]] else []) + LiveIdents(idents[1..])
  }

  lemma {:induction false} LiveValues(idents: seq<Ident>)
    ensures Values(LiveIdents(idents)) == Live(Values(idents))
  {
    if idents != [] {
      LiveValues(idents[1..]);
      assert Values(idents)[1..] == Values(idents[1..]);
      if idents[0].connected {
        assert ([idents[0]] + LiveIdents(idents[1..]))[1..] == LiveIdents(idents[1..]);
      }
    }
  }

  function Ahead(calls: seq<nat>, errors: seq<nat>, sent: Sent): Sent {
    Sent(sent.state, calls + sent.calls, errors + sent.errors)
  }

  /** What `signal` throws. */
  datatype Raised = Nothing | OneError(e: nat) | Errors(errors: seq<nat>)

  function Raise(errors: seq<nat>): Raised {
    if |errors| == 0 then Nothing else if |errors| == 1 then OneError(errors[0]) else Errors(errors)
  }

  class Registry {
    var observers: seq<Ident>
    var lock: bool
    var dirty: bool
    /** Every Ident that was ever made, which is what the program can hold. */
    var handles: seq<Ident>

    ghost function View(): State
      reads this, observers
    {
      State(Values(observers), lock, dirty, |handles|)
    }

    ghost predicate Valid()
      reads this, observers
    {
      Known(observers) && Distinct(observers)
    }

    /** Whoever is connected is in the list: nobody is dropped without being disconnected. */
    ghost predicate Listed()
      reads this, handles
    {
      forall o :: o in handles && o.connected ==> o in observers
    }

    /** Nobody was connected in between. */
    twostate predicate Fewer(h: seq<Ident>)
      reads h
    {
      forall o :: o in h && o.connected ==> old(o.connected)
    }

    /** Since the method began, every new handle is that of a new Ident. */
    twostate predicate OnlyFresh(h: seq<Ident>)
      reads this
    {
      h <= handles && forall k :: |h| <= k < |handles| ==> fresh(handles[k])
    }

    constructor ()
      ensures Valid() && Listed() && View() == State([], false, false, 0) && Idle(View())
    {
      observers, lock, dirty, handles := [], false, false, [];
    }

    /** `connect`. */
    method Connect(source: nat, sig: nat, obj: nat, fun: Option<nat>) returns (ident: Ident)
      requires Valid() && Listed()
      modifies this
      ensures Valid() && Listed() && fresh(ident) && handles == old(handles) + [ident]
      ensures View() == Step(old(View()), Action.Connect(source, sig, obj, fun))
    {
      hide Values, Step, Distinct;
      ident := new Ident(|handles|, source, sig, obj, fun);
      ValuesMore(observers, ident);
      StepConnect(View(), ident.Value());
      DistinctMore(observers, ident);
      observers := observers + [ident];
      handles := handles + [ident];
    }

    /** `_disconnect`, apart from the browser's own lists. */
    method Detach(ident: Ident)
      modifies ident`connected
      ensures !ident.connected
    {
      if !ident.connected {
        return;
      }
      ident.connected := false;
    }

    /** `disconnect(ident)`. */
    method Disconnect(ident: Ident) returns (found: bool)
      requires Valid() && Listed() && ident.id < |handles| && handles[ident.id] == ident
      modifies this, handles
      ensures Valid() && Listed() && handles == old(handles) && !ident.connected
      ensures View() == Step(old(View()), Action.Disconnect(ident.id))
      ensures found <==> ident in old(observers)
    {
      hide FirstHit, Found, Step, Values;
      var idx := FindIdentical(observers, ident);
      ghost var a := Action.Disconnect(ident.id);
      IdentHits(observers, ident, idx);
      if idx >= 0 {
        Drop(a, idx);
        return true;
      }
      NothingToDrop(View(), a);
      return false;
    }

    lemma IdentHits(observers: seq<Ident>, ident: Ident, idx: int)
      requires forall o :: o in observers ==> o.id < |handles| && handles[o.id] == o
      requires ident.id < |handles| && handles[ident.id] == ident
      requires if idx < 0 then ident !in observers
               else idx < |observers| && observers[idx] == ident && ident !in observers[..idx]
      ensures Found(Action.Disconnect(ident.id), Values(observers)) == if idx < 0 then |observers| else idx
    {
      var a, obs := Action.Disconnect(ident.id), Values(observers);
      forall k | 0 <= k < |obs| ensures Hits(a, obs[k]) <==> observers[k] == ident {
        assert observers[k] in observers;
      }
      assert forall k :: 0 <= k < |observers| && k < idx ==> observers[k] in observers[..idx];
    }

    /** Both forms of `disconnect`, once the observer is found. */
    method Drop(ghost a: Action, k: nat)
      requires Valid() && Listed() && k < |observers| && Single(a) && k == Found(a, Values(observers))
      modifies this`observers, this`dirty, handles
      ensures Valid() && Listed() && View() == Step(old(View()), a) && !old(observers)[k].connected
    {
      hide Found, Values, Hits, Step, Detached, Distinct, Without;
      ghost var before := Values(observers);
      StepSingle(View(), a, k);
      assert observers[k] in observers;
      forall j | 0 <= j < |observers| && j != k ensures observers[j] != observers[k] {
        OneOfTwo(observers, j, k);
      }
      Detach(observers[k]);
      DetachedIs(before[k]);
      DetachedValues(observers, before, k);
      InWithout(observers, k);
      DistinctWithout(observers, k);
      if !lock {
        observers := observers[..k] + observers[k + 1..];
      } else {
        dirty := true;
      }
    }

    /** `disconnect` with a source, a signal, an object and a function: the last that fits. */
    method DisconnectFrom(source: nat, sig: nat, obj: nat, fun: Option<nat>) returns (found: bool)
      requires Valid() && Listed()
      modifies this`observers, this`dirty, handles
      ensures Valid() && Listed() && View() == Step(old(View()), Action.DisconnectFrom(source, sig, obj, fun))
      ensures found <==> exists o :: o in old(observers) && o.Fits(source, sig, obj, fun)
    {
      hide Step, Found, Values, Hits;
      ghost var a := Action.DisconnectFrom(source, sig, obj, fun);
      var k := FindLast(observers, source, sig, obj, fun);
      if k >= 0 {
        Drop(a, k);
        return true;
      }
      NothingToDrop(View(), a);
      return false;
    }

    /** The loops of `disconnectAllTo` and `disconnectAll`, where `a` says which observers
        they mean. */
    method DisconnectEach(a: Action)
      requires Valid() && Listed() && !Single(a) && !a.Connect?
      modifies this`observers, this`dirty, handles
      ensures Valid() && Listed() && View() == Step(old(View()), a)
    {
      hide Hits, Values, Kept, MarkedFrom, Rest, Marked, Missed, SomeHit, HitFrom, Step;
      hide Distinct, Registry.Valid, Registry.Listed;
      KnowsAll();
      StepEach(View(), a);
      ghost var pre, before := observers, Values(observers);
      var d := EachLoop(a, before);
      RestIn(a, pre, 0, lock);
      AllDone(a, pre, before, lock);
      ConnectedStay(a, pre, before, lock);
      dirty := d;
      StillValid(pre);
      StillListed(pre);
    }

    lemma KnowsAll()
      requires Valid() && Listed()
      ensures Distinct(observers) && Known(observers) && (forall o :: o in observers ==> o in handles)
      ensures forall o :: o in handles && o.connected ==> o in observers
    {
      forall o | o in observers ensures o in handles {
        assert handles[o.id] == o;
      }
    }

    /** Every handle has its place, and these Idents are among them. */
    ghost predicate Known(idents: seq<Ident>)
      reads this`handles
    {
      (forall k :: 0 <= k < |handles| ==> handles[k].id == k) &&
      forall o :: o in idents ==> o.id < |handles| && handles[o.id] == o
    }

    lemma StillValid(pre: seq<Ident>)
      requires Known(pre) && Distinct(observers) && forall o :: o in observers ==> o in pre
      ensures Valid()
    {
    }

    lemma StillListed(pre: seq<Ident>)
      requires forall o :: o in handles && o.connected ==> o in pre
      requires forall o :: o in pre && o.connected ==> o in observers
      ensures Listed()
    {
    }

    /** The loop itself; `_dirty` is set in it. */
    method EachLoop(a: Action, ghost before: seq<Observer>) returns (d: bool)
      requires before == Values(observers) && Distinct(observers) && forall o :: o in observers ==> o in handles
      modifies this`observers, handles
      ensures |old(observers)| == |before| && MarkedFrom(a, old(observers), before, 0)
      ensures observers == Rest(a, old(observers), 0, lock)
      ensures d == (dirty || (lock && HitFrom(a, old(observers), 0)))
      ensures Fewer(handles)
    {
      hide Hits, Kept, MarkedFrom, Rest, HitFrom, Values;
      ghost var pre := observers;
      var locked := lock;
      d := dirty;
      NothingDone(a, pre, before, locked);
      for i := |observers| downto 0
        invariant lock == locked && dirty == old(dirty) && handles == old(handles)
        invariant forall o :: o in pre ==> o in handles
        invariant i <= |pre| == |before| && MarkedFrom(a, pre, before, i)
        invariant i <= |observers| && observers == Rest(a, pre, i, locked)
        invariant d == (old(dirty) || (locked && HitFrom(a, pre, i)))
        invariant Fewer(handles)
      {
        d := EachTurn(a, i, locked, d, pre, before);
      }
    }

    /** Something a listener does. */
    method Perform(a: Action)
      requires Valid() && Listed()
      modifies this, handles
      ensures Valid() && Listed() && View() == Step(old(View()), a)
      ensures OnlyFresh(old(handles))
    {
      hide Step, Values;
      if a.Connect? {
        var _ := Connect(a.source, a.sig, a.obj, a.fun);
      } else if a.Disconnect? {
        if a.id < |handles| {
          var _ := Disconnect(handles[a.id]);
        } else {
          NobodyHas(a);
          NothingToDrop(View(), a);
        }
      } else if a.DisconnectFrom? {
        var _ := DisconnectFrom(a.source, a.sig, a.obj, a.fun);
      } else {
        DisconnectEach(a);
      }
    }

    lemma NobodyHas(a: Action)
      requires Valid() && a.Disconnect? && a.id >= |handles|
      ensures Found(a, Values(observers)) == |Values(observers)|
    {
    }

    /** The turn of one listener. */
    method Listen(actions: seq<Action>)
      requires Valid() && Listed()
      modifies this, handles
      ensures Valid() && Listed() && View() == Steps(old(View()), actions)
      ensures OnlyFresh(old(handles))
    {
      ghost var s := View();
      var i := 0;
      while i < |actions|
        invariant i <= |actions| && Valid() && Listed() && Steps(View(), actions[i..]) == Steps(s, actions)
        invariant OnlyFresh(old(handles))
      {
        assert actions[i..][1..] == actions[i + 1..];
        Perform(actions[i]);
        i := i + 1;
      }
    }

    /** One turn of the loop of `signal`: an observer that matches and is connected is called. */
    method SendTo(source: nat, sig: nat, i: nat, rest: seq<Turn>, errors: seq<nat>, ghost calls: seq<nat>)
      returns (errors': seq<nat>, ghost calls': seq<nat>, rest': seq<Turn>)
      requires Valid() && Listed() && lock && i < |observers|
      modifies this, handles
      ensures Valid() && Listed() && lock && OnlyFresh(old(handles))
      ensures Ahead(calls', errors', Loop(View(), source, sig, i + 1, rest')) ==
              Ahead(calls, errors, Loop(old(View()), source, sig, i, rest))
      ensures |rest'| < |rest| || (rest' == rest && |observers| == |old(observers)|)
    {
      hide Loop, Steps, Values, LaterTurns;
      var ident := observers[i];
      LoopTurn(View(), source, sig, i, rest, calls, errors);
      errors', calls', rest' := errors, calls, rest;
      if ident.source == source && ident.sig == sig && ident.connected {
        var turn := FirstTurn(rest);
        Locks(View(), turn.actions);
        Listen(turn.actions);
        calls' := calls + [i];
        if turn.throws.Some? {
          errors' := errors + [turn.throws.value];
        }
        rest' := LaterTurns(rest);
        Shorter(rest);
      }
    }

    /** The loop of `signal` over the observers. */
    method SendLoop(source: nat, sig: nat, script: seq<Turn>) returns (errors: seq<nat>, ghost calls: seq<nat>)
      requires Valid() && Listed() && lock
      modifies this, handles
      ensures Valid() && Listed() && Sent(View(), calls, errors) == Loop(old(View()), source, sig, 0, script)
      ensures OnlyFresh(old(handles))
    {
      hide Loop, Ahead, Values, Registry.Valid, Registry.Listed;
      var rest, i := script, 0;
      errors, calls := [], [];
      ghost var whole := Loop(View(), source, sig, 0, script);
      AheadNone(whole);
      while i < |observers|
        invariant Valid() && Listed() && lock
        invariant Ahead(calls, errors, Loop(View(), source, sig, i, rest)) == whole
        invariant OnlyFresh(old(handles))
        decreases |rest|, |observers| - i
      {
        errors, calls, rest := SendTo(source, sig, i, rest, errors, calls);
        i := i + 1;
      }
      LoopEnds(View(), source, sig, i, rest);
      AheadNone(Sent(View(), calls, errors));
    }

    /** `signal`, where the listeners that are called will do what `script` says. */
    method Send(source: nat, sig: nat, script: seq<Turn>) returns (raised: Raised, ghost calls: seq<nat>)
      requires Valid() && Listed()
      modifies this, handles
      ensures Valid() && Listed() && View() == Signal(old(View()), source, sig, script).state
      ensures calls == Signal(old(View()), source, sig, script).calls
      ensures var errors := Signal(old(View()), source, sig, script).errors;
        raised == if errors == [] then Nothing else if |errors| == 1 then OneError(errors[0]) else Errors(errors)
    {
      hide Values, Loop, Live;
      lock := true;
      var errors;
      errors, calls := SendLoop(source, sig, script);
      lock := false;
      if dirty {
        dirty := false;
        Sweep();
      }
      raised := Raise(errors);
    }

    /** The loop that removes who was disconnected during a signal. */
    method Sweep()
      requires Valid() && Listed()
      modifies this`observers
      ensures Valid() && Listed() && Values(observers) == Live(old(Values(observers)))
    {
      ghost var pre := observers;
      SweepLoop();
      LiveDistinct(pre);
      LiveValues(pre);
      LiveIdentsHas(pre);
    }

    method SweepLoop()
      modifies this`observers
      ensures observers == LiveIdents(old(observers))
    {
      ghost var pre := observers;
      LiveNone(pre);
      for i := |observers| downto 0
        invariant i <= |pre| && observers == pre[..i] + LiveIdents(pre[i..])
      {
        LiveStep(pre, i);
        if !observers[i].connected {
          observers := observers[..i] + observers[i + 1..];
        }
      }
      assert pre[..0] == [] && pre[0..] == pre;
      AppendAssociates([], [], LiveIdents(pre));
    }

    /** The test of one turn of those loops, and the disconnection. */
    method DetachIf(a: Action, ghost i: nat, ident: Ident, ghost pre: seq<Ident>, ghost before: seq<Observer>)
      returns (hit: bool)
      requires i < |pre| == |before| && pre[i] == ident && Distinct(pre) && ident in handles
      requires MarkedFrom(a, pre, before, i + 1)
      modifies handles
      ensures hit == ident.IsHit(a) && MarkedFrom(a, pre, before, i) && Fewer(handles)
    {
      hide Hits, Ident.IsHit;
      hit := ident.IsHit(a);
      if hit {
        Detach(ident);
      }
    }

    /** One turn of those loops. */
    method EachTurn(a: Action, i: nat, locked: bool, d: bool, ghost pre: seq<Ident>, ghost before: seq<Observer>)
      returns (d': bool)
      requires i < |pre| == |before| && i < |observers| && Distinct(pre) && forall o :: o in pre ==> o in handles
      requires MarkedFrom(a, pre, before, i + 1) && observers == Rest(a, pre, i + 1, locked)
      modifies this`observers, handles
      ensures MarkedFrom(a, pre, before, i)
      ensures i <= |observers| && observers == Rest(a, pre, i, locked)
      ensures d' == (d || (locked && pre[i].IsHit(a)))
      ensures HitFrom(a, pre, i) == (HitFrom(a, pre, i + 1) || pre[i].IsHit(a))
      ensures Fewer(handles)
    {
      hide Hits, Rest, Kept, HitFrom, MarkedFrom, Ident.IsHit;
      RestStep(a, pre, i, locked);
      HitStep(a, pre, i);
      d' := d;
      var hit := DetachIf(a, i, observers[i], pre, before);
      if hit {
        if locked {
          d' := true;
        } else {
          observers := observers[..i] + observers[i + 1..];
        }
      }
    }
  }

  lemma DistinctMore(idents: seq<Ident>, ident: Ident)
    requires Distinct(idents) && ident !in idents
    ensures Distinct(idents + [ident])
  {
  }

  lemma DistinctWithout(idents: seq<Ident>, k: nat)
    requires k < |idents| && Distinct(idents)
    ensures var rest := idents[..k] + idents[k + 1..]; Distinct(rest) && forall o :: o in rest ==> o in idents
  {
    var rest := idents[..k] + idents[k + 1..];
    Left(idents, k);
    forall j, l | 0 <= j < l < |rest| ensures rest[j] != rest[l] {
      OneOfTwo(idents, if j < k then j else j + 1, if l < k then l else l + 1);
    }
  }

  lemma OneOfTwo(idents: seq<Ident>, j: nat, k: nat)
    requires Distinct(idents) && j < |idents| && k < |idents| && j != k
    ensures idents[j] != idents[k]
  {
  }

  lemma ValuesAre(idents: seq<Ident>, vals: seq<Observer>)
    requires |idents| == |vals| && forall k :: 0 <= k < |vals| ==> idents[k].Value() == vals[k]
    ensures Values(idents) == vals
  {
  }

  lemma InWithout(idents: seq<Ident>, k: nat)
    requires k < |idents|
    ensures forall o :: o in idents && o != idents[k] ==> o in idents[..k] + idents[k + 1..]
  {
    forall o | o in idents && o != idents[k] ensures o in idents[..k] + idents[k + 1..] {
      var j :| 0 <= j < |idents| && idents[j] == o;
      assert (idents[..k] + idents[k + 1..])[if j < k then j else j - 1] == o;
    }
  }

  lemma {:induction false} KeptHas(a: Action, idents: seq<Ident>)
    ensures forall o :: o in idents && !o.IsHit(a) ==> o in Kept(a, idents)
  {
    hide Hits;
    if idents != [] {
      KeptHas(a, idents[1..]);
      forall o | o in idents && !o.IsHit(a) ensures o in Kept(a, idents) {
        assert o == idents[0] || o in idents[1..];
      }
    }
  }

  /** Whoever is still connected after the loop is still in the list. */
  lemma ConnectedStay(a: Action, pre: seq<Ident>, before: seq<Observer>, locked: bool)
    requires |pre| == |before| && MarkedFrom(a, pre, before, 0)
    ensures forall o :: o in pre && o.connected ==> o in Rest(a, pre, 0, locked)
  {
    hide Hits, Kept;
    KeptHas(a, pre);
    assert pre[..0] == [] && pre[0..] == pre;
    AppendAssociates([], [], Kept(a, pre));
  }

  lemma {:induction false} LiveIdentsHas(idents: seq<Ident>)
    ensures forall o :: o in idents && o.connected ==> o in LiveIdents(idents)
  {
    if idents != [] {
      LiveIdentsHas(idents[1..]);
      forall o | o in idents && o.connected ensures o in LiveIdents(idents) {
        assert o == idents[0] || o in idents[1..];
      }
    }
  }

  lemma StepSingle(s: State, a: Action, k: nat)
    requires Single(a) && k == Found(a, s.observers) && k < |s.observers|
    ensures Step(s, a) ==
      if s.lock then s.(observers := s.observers[k := Detached(s.observers[k])], dirty := true)
      else s.(observers := Without(s.observers, k))
  {
  }

  lemma DetachedIs(o: Observer)
    ensures Detached(o) == Observer(o.id, o.source, o.sig, o.obj, o.fun, false)
  {
  }

  lemma StepEach(s: State, a: Action)
    requires !Single(a) && !a.Connect?
    ensures Step(s, a) ==
      if s.lock then s.(observers := Marked(a, s.observers), dirty := s.dirty || SomeHit(a, s.observers))
      else s.(observers := Missed(a, s.observers))
  {
  }

  ghost predicate Distinct(idents: seq<Ident>) {
    forall j, k :: 0 <= j < k < |idents| ==> idents[j] != idents[k]
  }

  /** The hits from position `i` on are disconnected, and nothing else has changed. */
  ghost predicate MarkedFrom(a: Action, pre: seq<Ident>, before: seq<Observer>, i: nat)
    requires |pre| == |before|
    reads pre
  {
    forall k :: 0 <= k < |pre| ==>
      SameFields(pre[k], before[k]) &&
      pre[k].connected == (before[k].connected && !(i <= k && pre[k].IsHit(a)))
  }

  predicate HitFrom(a: Action, pre: seq<Ident>, i: nat) {
    exists k :: i <= k < |pre| && pre[k].IsHit(a)
  }

  /** What is in the list when the loop has done its work from position `i` on. */
  function Rest(a: Action, pre: seq<Ident>, i: nat, locked: bool): seq<Ident>
    requires i <= |pre|
  {
    if locked then pre else pre[..i] + Kept(a, pre[i..])
  }

  lemma RestStep(a: Action, pre: seq<Ident>, i: nat, locked: bool)
    requires i < |pre|
    ensures var r := Rest(a, pre, i + 1, locked);
      i < |r| && r[i] == pre[i] &&
      Rest(a, pre, i, locked) == if !locked && pre[i].IsHit(a) then r[..i] + r[i + 1..] else r
  {
    hide Hits;
    if !locked {
      assert pre[i..][1..] == pre[i + 1..];
      assert pre[..i + 1] == pre[..i] + [pre[i]];
      AppendAssociates(pre[..i], [pre[i]], Kept(a, pre[i + 1..]));
    }
  }

  lemma HitStep(a: Action, pre: seq<Ident>, i: nat)
    requires i < |pre|
    ensures HitFrom(a, pre, i) == (HitFrom(a, pre, i + 1) || pre[i].IsHit(a))
  {
  }

  lemma NothingDone(a: Action, pre: seq<Ident>, before: seq<Observer>, locked: bool)
    requires before == Values(pre)
    ensures MarkedFrom(a, pre, before, |pre|) && Rest(a, pre, |pre|, locked) == pre && !HitFrom(a, pre, |pre|)
  {
    hide Hits, Values, Kept;
    forall k | 0 <= k < |pre| ensures SameFields(pre[k], before[k]) && pre[k].connected == before[k].connected {
      assert before[k] == pre[k].Value();
    }
    KeptNone(a, pre);
  }

  lemma KeptNone(a: Action, pre: seq<Ident>)
    ensures pre[..|pre|] + Kept(a, pre[|pre|..]) == pre
  {
    assert pre[..|pre|] == pre && pre[|pre|..] == [] && Kept(a, []) == [];
    AppendAssociates(pre, [], []);
  }

  lemma ConsDistinct(o: Ident, idents: seq<Ident>, rest: seq<Ident>)
    requires Distinct([o] + idents) && Distinct(rest) && forall p :: p in rest ==> p in idents
    ensures Distinct([o] + rest)
  {
    forall k | 0 <= k < |rest| ensures rest[k] != o {
      assert rest[k] in rest;
      var j :| 0 <= j < |idents| && idents[j] == rest[k];
      assert ([o] + idents)[j + 1] == rest[k] && ([o] + idents)[0] == o;
    }
  }

  lemma {:induction false} KeptDistinct(a: Action, idents: seq<Ident>)
    requires Distinct(idents)
    ensures Distinct(Kept(a, idents))
  {
    hide Hits;
    if idents != [] {
      KeptDistinct(a, idents[1..]);
      assert [idents[0]] + idents[1..] == idents;
      ConsDistinct(idents[0], idents[1..], Kept(a, idents[1..]));
      AppendAssociates([], [], Kept(a, idents[1..]));
    }
  }

  lemma RestIn(a: Action, pre: seq<Ident>, i: nat, locked: bool)
    requires i == 0 && Distinct(pre)
    ensures Distinct(Rest(a, pre, i, locked)) && forall o :: o in Rest(a, pre, i, locked) ==> o in pre
  {
    assert pre[..0] == [] && pre[0..] == pre;
    AppendAssociates([], [], Kept(a, pre));
    KeptDistinct(a, pre);
  }

  lemma AllDone(a: Action, pre: seq<Ident>, before: seq<Observer>, locked: bool)
    requires |pre| == |before| && MarkedFrom(a, pre, before, 0)
    ensures Values(Rest(a, pre, 0, locked)) == if locked then Marked(a, before) else Missed(a, before)
    ensures HitFrom(a, pre, 0) == SomeHit(a, before)
  {
    hide Hits, Kept, Missed, Marked;
    SameHits(a, pre, before);
    if locked {
      MarkedValues(a, pre, before);
    } else {
      assert pre[..0] == [] && pre[0..] == pre;
      AppendAssociates([], [], Kept(a, pre));
      KeptValues(a, pre, before);
    }
  }

  lemma SameHits(a: Action, pre: seq<Ident>, before: seq<Observer>)
    requires |pre| == |before| && forall k :: 0 <= k < |pre| ==> SameFields(pre[k], before[k])
    ensures forall k :: 0 <= k < |pre| ==> (pre[k].IsHit(a) <==> Hits(a, before[k]))
  {
  }

  lemma MarkedValues(a: Action, pre: seq<Ident>, before: seq<Observer>)
    requires |pre| == |before| && MarkedFrom(a, pre, before, 0)
    ensures Values(pre) == Marked(a, before)
  {
    hide Hits;
    SameHits(a, pre, before);
  }

  lemma NothingToDrop(s: State, a: Action)
    requires Single(a) && Found(a, s.observers) == |s.observers|
    ensures Step(s, a) == s
  {
  }

  lemma LastFound(a: Action, obs: seq<Observer>, k: nat)
    requires a.DisconnectFrom? && k <= |obs| && forall j :: k < j < |obs| ==> !Hits(a, obs[j])
    requires if k < |obs| then Hits(a, obs[k]) else forall j :: 0 <= j < |obs| ==> !Hits(a, obs[j])
    ensures Found(a, obs) == k
  {
  }

  lemma DetachedValues(idents: seq<Ident>, before: seq<Observer>, k: nat)
    requires k < |idents| == |before|
    requires forall j :: 0 <= j < |idents| ==> idents[j].Value() == if j == k then Detached(before[j]) else before[j]
    ensures Values(idents) == before[k := Detached(before[k])]
    ensures Values(idents[..k] + idents[k + 1..]) == Without(before, k)
  {
    hide Values, Detached;
    ValuesAre(idents, before[k := Detached(before[k])]);
    var rest, values := idents[..k] + idents[k + 1..], before[..k] + before[k + 1..];
    Left(idents, k);
    Left(before, k);
    forall j | 0 <= j < |rest| ensures rest[j].Value() == values[j] {
      assert rest[j] == idents[if j < k then j else j + 1];
    }
    ValuesAre(rest, values);
  }

  /** The search of the other form of `disconnect`, from the end. */
  method FindLast(lst: seq<Ident>, source: nat, sig: nat, obj: nat, fun: Option<nat>) returns (k: int)
    ensures -1 <= k < |lst|
    ensures k >= 0 <==> exists o :: o in lst && o.Fits(source, sig, obj, fun)
    ensures Found(Action.DisconnectFrom(source, sig, obj, fun), Values(lst)) == if k == -1 then |lst| else k
  {
    ghost var a := Action.DisconnectFrom(source, sig, obj, fun);
    for i := |lst| downto 0
      invariant forall j :: i <= j < |lst| ==> !lst[j].IsHit(a)
    {
      var o := lst[i];
      if o.Fits(source, sig, obj, fun) {
        HitsAlike(a, lst);
        LastFound(a, Values(lst), i);
        return i;
      }
    }
    HitsAlike(a, lst);
    LastFound(a, Values(lst), |lst|);
    return -1;
  }

  lemma HitsAlike(a: Action, idents: seq<Ident>)
    ensures forall k :: 0 <= k < |idents| ==> (idents[k].IsHit(a) <==> Hits(a, Values(idents)[k]))
  {
  }

  lemma LiveNone(pre: seq<Ident>)
    ensures pre[..|pre|] + LiveIdents(pre[|pre|..]) == pre
  {
    assert pre[..|pre|] == pre && pre[|pre|..] == [] && LiveIdents([]) == [];
    AppendAssociates(pre, [], []);
  }

  lemma LiveStep(pre: seq<Ident>, i: nat)
    requires i < |pre|
    ensures var r := pre[..i + 1] + LiveIdents(pre[i + 1..]);
      i < |r| && r[i] == pre[i] &&
      pre[..i] + LiveIdents(pre[i..]) == if pre[i].connected then r else r[..i] + r[i + 1..]
  {
    assert pre[i..][1..] == pre[i + 1..];
    assert pre[..i + 1] == pre[..i] + [pre[i]];
    AppendAssociates(pre[..i], [pre[i]], LiveIdents(pre[i + 1..]));
  }

  lemma {:induction false} LiveDistinct(idents: seq<Ident>)
    requires Distinct(idents)
    ensures Distinct(LiveIdents(idents))
  {
    if idents != [] {
      LiveDistinct(idents[1..]);
      assert [idents[0]] + idents[1..] == idents;
      ConsDistinct(idents[0], idents[1..], LiveIdents(idents[1..]));
      AppendAssociates([], [], LiveIdents(idents[1..]));
    }
  }

  lemma LoopEnds(s: State, source: nat, sig: nat, i: nat, script: seq<Turn>)
    requires i >= |s.observers|
    ensures Loop(s, source, sig, i, script) == Sent(s, [], [])
  {
  }

  lemma AheadNone(sent: Sent)
    ensures Ahead([], [], sent) == sent
    ensures Ahead(sent.calls, sent.errors, Sent(sent.state, [], [])) == sent
  {
  }

  lemma LoopTurn(s: State, source: nat, sig: nat, i: nat, script: seq<Turn>, calls: seq<nat>, errors: seq<nat>)
    requires i < |s.observers|
    ensures Ahead(calls, errors, Loop(s, source, sig, i, script)) ==
      if Matches(s.observers[i], source, sig) && s.observers[i].connected then
        var turn := FirstTurn(script);
        Ahead(calls + [i], if turn.throws.Some? then errors + [turn.throws.value] else errors,
              Loop(Steps(s, turn.actions), source, sig, i + 1, LaterTurns(script)))
      else Ahead(calls, errors, Loop(s, source, sig, i + 1, script))
  {
  }

  lemma Shorter(script: seq<Turn>)
    ensures |LaterTurns(script)| < |script| || (LaterTurns(script) == script && FirstTurn(script).actions == [])
  {
  }

  lemma Locks(s: State, actions: seq<Action>)
    requires s.lock
    ensures Steps(s, actions).lock && |Steps(s, actions).observers| >= |s.observers|
    ensures actions == [] ==> Steps(s, actions) == s
  {
    LockedSteps(s, actions);
  }

  /** `findIdentical`. */
  method FindIdentical(lst: seq<Ident>, value: Ident) returns (i: int)
    ensures if i == -1 then value !in lst else 0 <= i < |lst| && lst[i] == value && value !in lst[..i]
  {
    for k := 0 to |lst|
      invariant value !in lst[..k]
    {
      if lst[k] == value {
        return k;
      }
    }
    return -1;
  }
}
