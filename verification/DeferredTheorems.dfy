/** What a set of Deferreds computes does not depend on when things happen: the state of
    each of them is fixed by the pairs added to the Deferreds and the results given to them. */
module DeferredTheorems {
  import opened Text
  import opened Deferreds
  import opened DeferredHistory
  import opened Async

  // The reference: callbacks run at once, and a returned Deferred stands for its own outcome.

  function Outcome(call: Calls, log: seq<seq<Pair>>, given: seq<Option<Value>>, d: Id, fuel: nat): Option<Value>
    requires |log| == |given|
    decreases fuel, 0
  {
    if fuel == 0 || d >= |log| || given[d] == None then None
    else OutcomeFrom(call, log, given, d, |log[d]|, 0, given[d].value, fuel - 1)
  }

  /** The pairs from `k` up to `n`. */
  function OutcomeFrom(call: Calls, log: seq<seq<Pair>>, given: seq<Option<Value>>, d: Id, n: nat, k: nat, r: Value,
                       fuel: nat)
    : Option<Value>
    requires |log| == |given| && d < |log| && k <= n <= |log[d]|
    decreases fuel, 1, n - k
  {
    if k == n then Some(r)
    else match Apply(call, log[d][k], r)
         case Now(v) => OutcomeFrom(call, log, given, d, n, k + 1, v, fuel)
         case Later(i) =>
           match Outcome(call, log, given, i, fuel)
           case None => None
           case Some(v) => OutcomeFrom(call, log, given, d, n, k + 1, v, fuel)
  }

  /** If the reference has an outcome for `d`, then the store has it too. */
  lemma {:induction false} ReferenceReached(call: Calls, home: Homes, h: History, d: Id, fuel: nat)
    requires Valid(call, home, h, None) && d < |h.log| && Outcome(call, h.log, h.given, d, fuel).Some?
    ensures Fold(call, h, d, Delivered(h)) == Done(Outcome(call, h.log, h.given, d, fuel).value)
    decreases fuel, 0
  {
    assert Settled(call, home, h, d);
    assert h.log[d][..|h.log[d]|] == h.log[d];
    ReferenceReachedFrom(call, home, h, d, |h.log[d]|, 0, h.given[d].value, fuel - 1);
  }

  lemma {:induction false} ReferenceReachedFrom(call: Calls, home: Homes, h: History, d: Id, n: nat, k: nat, r: Value,
                                                fuel: nat)
    requires Valid(call, home, h, None) && d < |h.log| && k <= n <= |h.log[d]|
    requires Touched(call, h.log[d][..n], k, r, Delivered(h)) <= h.owned
    requires OutcomeFrom(call, h.log, h.given, d, n, k, r, fuel).Some?
    ensures Eval(call, h.log[d][..n], k, r, Delivered(h))
         == Done(OutcomeFrom(call, h.log, h.given, d, n, k, r, fuel).value)
    decreases fuel, 1, n - k
  {
    hide Settled, Ordered, LogHome, Fold, Delivered;
    if k < n {
      assert h.log[d][..n][k] == h.log[d][k];
      match Apply(call, h.log[d][k], r)
      case Now(v) => ReferenceReachedFrom(call, home, h, d, n, k + 1, v, fuel);
      case Later(i) =>
        ReferenceReached(call, home, h, i, fuel);
        OwnedDone(call, home, h, i);
        ReferenceReachedFrom(call, home, h, d, n, k + 1, Delivered(h)[i], fuel);
    }
  }

  lemma OwnedDone(call: Calls, home: Homes, h: History, i: Id)
    requires Valid(call, home, h, None) && i < |h.log| && i in h.owned && Fold(call, h, i, Delivered(h)).Done?
    ensures i in Delivered(h) && Fold(call, h, i, Delivered(h)) == Done(Delivered(h)[i])
  {
    assert Settled(call, home, h, i);
  }

  lemma {:induction false} MoreFuel(call: Calls, log: seq<seq<Pair>>, given: seq<Option<Value>>, d: Id, fuel: nat,
                                    more: nat)
    requires |log| == |given| && fuel <= more && Outcome(call, log, given, d, fuel).Some?
    ensures Outcome(call, log, given, d, more) == Outcome(call, log, given, d, fuel)
    decreases fuel, 0
  {
    MoreFuelFrom(call, log, given, d, |log[d]|, 0, given[d].value, fuel - 1, more - 1);
  }

  lemma {:induction false} MoreFuelFrom(call: Calls, log: seq<seq<Pair>>, given: seq<Option<Value>>, d: Id, n: nat,
                                        k: nat, r: Value, fuel: nat, more: nat)
    requires |log| == |given| && d < |log| && k <= n <= |log[d]| && fuel <= more
    requires OutcomeFrom(call, log, given, d, n, k, r, fuel).Some?
    ensures OutcomeFrom(call, log, given, d, n, k, r, more) == OutcomeFrom(call, log, given, d, n, k, r, fuel)
    decreases fuel, 1, n - k
  {
    if k < n {
      match Apply(call, log[d][k], r)
      case Now(v) => MoreFuelFrom(call, log, given, d, n, k + 1, v, fuel, more);
      case Later(i) =>
        MoreFuel(call, log, given, i, fuel, more);
        MoreFuelFrom(call, log, given, d, n, k + 1, Outcome(call, log, given, i, fuel).value, fuel, more);
    }
  }

  /** An outcome that was reached with the first `t` deliveries is the reference's. */
  lemma {:induction false} StoreReached(call: Calls, home: Homes, h: History, d: Id, t: nat, v: Value)
    requires Valid(call, home, h, None) && d < |h.log| && t <= |h.order|
    requires Fold(call, h, d, MapOf(h.order[..t])) == Done(v)
    ensures Outcome(call, h.log, h.given, d, t + 1) == Some(v)
    decreases t, 2
  {
    assert h.log[d][..|h.log[d]|] == h.log[d];
    StoreReachedFrom(call, home, h, d, t, |h.log[d]|, 0, h.given[d].value, v);
  }

  lemma {:induction false} StoreReachedFrom(call: Calls, home: Homes, h: History, d: Id, t: nat, n: nat, k: nat,
                                            r: Value, v: Value)
    requires Valid(call, home, h, None) && d < |h.log| && t <= |h.order| && k <= n <= |h.log[d]|
    requires Eval(call, h.log[d][..n], k, r, MapOf(h.order[..t])) == Done(v)
    ensures OutcomeFrom(call, h.log, h.given, d, n, k, r, t) == Some(v)
    decreases t, 1, n - k
  {
    hide Settled, LogHome, Ordered;
    if k < n {
      assert h.log[d][..n][k] == h.log[d][k];
      match Apply(call, h.log[d][k], r)
      case Now(w) => StoreReachedFrom(call, home, h, d, t, n, k + 1, w, v);
      case Later(i) =>
        var j := DeliveredWhen(call, home, h, i, t);
        StoreReached(call, home, h, i, j, h.order[j].1);
        MoreFuel(call, h.log, h.given, i, j + 1, t);
        StoreReachedFrom(call, home, h, d, t, n, k + 1, h.order[j].1, v);
    }
  }

  /** The delivery that made `i` known. */
  lemma {:induction false} DeliveredWhen(call: Calls, home: Homes, h: History, i: Id, n: nat) returns (j: nat)
    requires Valid(call, home, h, None) && n <= |h.order| && i in MapOf(h.order[..n])
    ensures j < n && i < |h.log| && h.order[j].0 == i && h.order[j].1 == MapOf(h.order[..n])[i]
    ensures Fold(call, h, i, MapOf(h.order[..j])) == Done(h.order[j].1)
    decreases n
  {
    hide Settled, LogHome, Fold;
    assert h.order[..n] == h.order[..n - 1] + [h.order[n - 1]];
    MapOfAppend(h.order[..n - 1], h.order[n - 1].0, h.order[n - 1].1);
    assert DeliveryOk(call, home, h, n - 1);
    if h.order[n - 1].0 == i {
      j := n - 1;
    } else {
      j := DeliveredWhen(call, home, h, i, n - 1);
    }
  }

  /** In every state that the operations can reach, `d` has an outcome exactly when the fold
      of its pairs has one, each returned Deferred standing for its own; and they agree.
      Then `fired` and the stored result are that outcome, or undefined where another Deferred
      has taken it. */
  lemma OutcomeIsFold(call: Calls, home: Homes, h: History, store: seq<Cell>, d: Id)
    requires Valid(call, home, h, None) && StoreOk(call, home, h, store, {}) && d < |store|
    ensures var p := Fold(call, h, d, Delivered(h));
      if p.Done? then
        var slot := if !store[d].chained && (p.v.Error? || p.v.GenericError?) then 1 else 0;
        Outcome(call, h.log, h.given, d, |h.order| + 1) == Some(p.v) &&
        store[d].paused == 0 && store[d].chain == [] && store[d].fired == slot && |store[d].results| == 2 &&
        store[d].results[slot] == Val(if store[d].chained then Undefined else p.v)
      else
        (if h.given[d] == None then store[d].fired == -1 && store[d].paused == 0
         else store[d].fired == 0 && store[d].paused == 1) &&
        forall fuel: nat :: Outcome(call, h.log, h.given, d, fuel) == None
  {
    assert CellOk(call, home, h, d, store[d]);
    assert h.order[..|h.order|] == h.order;
    var p := Fold(call, h, d, Delivered(h));
    if p.Done? {
      StoreReached(call, home, h, d, |h.order|, p.v);
    } else {
      forall fuel: nat ensures Outcome(call, h.log, h.given, d, fuel) == None {
        if Outcome(call, h.log, h.given, d, fuel).Some? {
          ReferenceReached(call, home, h, d, fuel);
        }
      }
    }
  }

  /** The same for the first `n` pairs of `d` alone: what its pair `n` is called with. */
  lemma PrefixIsFold(call: Calls, home: Homes, h: History, d: Id, n: nat)
    requires Valid(call, home, h, None) && d < |h.log| && n <= |h.log[d]| && h.given[d].Some?
    ensures var r := h.given[d].value; var p := Eval(call, h.log[d][..n], 0, r, Delivered(h));
      if p.Done? then OutcomeFrom(call, h.log, h.given, d, n, 0, r, |h.order|) == Some(p.v)
      else forall fuel: nat :: OutcomeFrom(call, h.log, h.given, d, n, 0, r, fuel) == None
  {
    var r := h.given[d].value;
    assert h.order[..|h.order|] == h.order && Settled(call, home, h, d);
    EvalPrefix(call, h.log[d], n, 0, r, Delivered(h));
    var p := Eval(call, h.log[d][..n], 0, r, Delivered(h));
    if p.Done? {
      StoreReachedFrom(call, home, h, d, |h.order|, n, 0, r, p.v);
    } else {
      forall fuel: nat ensures OutcomeFrom(call, h.log, h.given, d, n, 0, r, fuel) == None {
        if OutcomeFrom(call, h.log, h.given, d, n, 0, r, fuel).Some? {
          ReferenceReachedFrom(call, home, h, d, n, 0, r, fuel);
        }
      }
    }
  }

  predicate SameState(b: Cell, c: Cell) {
    b.chain == c.chain && b.fired == c.fired && b.paused == c.paused && b.chained == c.chained &&
    |b.results| == |c.results| == 2 && -1 <= b.fired < 2 && (b.fired >= 0 ==> b.results[b.fired] == c.results[c.fired])
  }

  /** Two runs that added the same pairs to the Deferreds, in the same order for each, and gave
      them the same results leave every Deferred in the same state: it does not matter
      whether a pair came before or after the firing, nor whether a returned Deferred had
      fired already. */
  lemma OrderOfEventsIsIrrelevant(call: Calls, home: Homes, g: History, s: seq<Cell>, h: History, store: seq<Cell>,
                                  d: Id)
    requires Valid(call, home, g, None) && StoreOk(call, home, g, s, {})
    requires Valid(call, home, h, None) && StoreOk(call, home, h, store, {})
    requires g.log == h.log && g.given == h.given && d < |store|
    ensures |s| == |store| && SameState(s[d], store[d])
  {
    hide Valid, StoreOk;
    Bodies(call, home, h, store, d);
    Bodies(call, home, g, s, d);
    SameOutcomes(call, home, g, h);
  }

  lemma Bodies(call: Calls, home: Homes, h: History, store: seq<Cell>, d: Id)
    requires Valid(call, home, h, None) && StoreOk(call, home, h, store, {}) && (d < |store| || d < |h.log|)
    ensures |store| == |h.log| && Shaped(h) && CellOk(call, home, h, d, store[d])
  {
  }

  /** A Deferred that waits does so for a reason: the one it waits for was given no result
      or waits itself. */
  lemma WaitsForAReason(call: Calls, home: Homes, h: History, store: seq<Cell>, d: Id)
    requires Valid(call, home, h, None) && StoreOk(call, home, h, store, {}) && d < |store| && store[d].paused > 0
    ensures |store[d].results| == 2 && store[d].results[0].Held? && store[d].results[0].d < |store|
    ensures var i := store[d].results[0].d; store[i].chained && (h.given[i] == None || store[i].paused > 0)
  {
    assert CellOk(call, home, h, d, store[d]);
    assert Settled(call, home, h, d);
    TouchedHome(call, home, h.log[d], d, |h.log|, 0, h.given[d].value, Delivered(h));
    var i := store[d].results[0].d;
    assert CellOk(call, home, h, i, store[i]);
    assert Settled(call, home, h, i);
  }
}
