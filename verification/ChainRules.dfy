/** What the turns of `_fire` do with a result, told without the fold: who is called with
    what, what becomes of an exception, and where a success or a failure goes when the next
    pairs have nothing for it. */
module ChainRules {
  import opened Text
  import opened Deferreds
  import opened DeferredHistory
  import opened Async
  import opened DeferredTheorems
  import R = DeferredTheorems

  /** `f` is called on `r`: as the errback for an Error, else as the callback. */
  predicate CalledOn(p: Pair, r: Value, f: nat) {
    match r
    case Error(_) => p.eb == Some(User(f))
    case GenericError(_) => p.eb == Some(User(f))
    case _ => p.cb == Some(User(f))
  }

  /** What a function makes of its argument: its value, the error that it throws, wrapped if
      it is no Error, or the outcome of the Deferred that it returns. */
  predicate Makes(call: Calls, log: seq<seq<Pair>>, given: seq<Option<Value>>, f: nat, r: Value, w: Value, fuel: nat)
    requires |log| == |given|
  {
    match call(f, r)
    case Returns(v) => w == v
    case Throws(Undefined) => w == GenericError(Undefined)
    case Throws(Plain(n)) => w == GenericError(Plain(n))
    case Throws(error) => w == error
    case Defers(i) => R.Outcome(call, log, given, i, fuel) == Some(w)
  }

  /** `w` comes behind a pair and `r` before it. */
  ghost predicate Follows(call: Calls, log: seq<seq<Pair>>, given: seq<Option<Value>>, p: Pair, r: Value, w: Value,
                          fuel: nat)
    requires |log| == |given|
  {
    (forall f :: CalledOn(p, r, f) ==> Makes(call, log, given, f, r, w, fuel)) &&
    ((forall f :: !CalledOn(p, r, f)) ==> w == r)
  }

  /** The results before every pair of `d` from `k` to `n`, and behind the last one. */
  ghost predicate Trace(call: Calls, log: seq<seq<Pair>>, given: seq<Option<Value>>, d: Id, n: nat, k: nat,
                        rs: seq<Value>, fuel: nat)
  {
    |log| == |given| && d < |log| && k <= n <= |log[d]| && |rs| == n - k + 1 &&
    forall i :: 0 <= i < n - k ==> Follows(call, log, given, log[d][k + i], rs[i], rs[i + 1], fuel)
  }

  lemma TurnFollows(call: Calls, log: seq<seq<Pair>>, given: seq<Option<Value>>, d: Id, n: nat, k: nat, r: Value,
                    w: Value, fuel: nat)
    requires |log| == |given| && d < |log| && k < n <= |log[d]|
    requires Follows(call, log, given, log[d][k], r, w, fuel)
    ensures OutcomeFrom(call, log, given, d, n, k, r, fuel) == OutcomeFrom(call, log, given, d, n, k + 1, w, fuel)
  {
    match Pick(log[d][k], r)
    case Some(User(f)) => assert CalledOn(log[d][k], r, f);
    case _ => assert forall f :: !CalledOn(log[d][k], r, f);
  }

  lemma TurnHasNext(call: Calls, log: seq<seq<Pair>>, given: seq<Option<Value>>, d: Id, n: nat, k: nat, r: Value,
                    fuel: nat)
    returns (w: Value)
    requires |log| == |given| && d < |log| && k < n <= |log[d]|
    requires OutcomeFrom(call, log, given, d, n, k, r, fuel).Some?
    ensures Follows(call, log, given, log[d][k], r, w, fuel)
    ensures OutcomeFrom(call, log, given, d, n, k + 1, w, fuel) == OutcomeFrom(call, log, given, d, n, k, r, fuel)
  {
    match Pick(log[d][k], r) {
      case Some(User(f)) => assert CalledOn(log[d][k], r, f);
      case _ =>
    }
    match Apply(call, log[d][k], r)
    case Now(v) =>
      w := v;
    case Later(i) =>
      w := R.Outcome(call, log, given, i, fuel).value;
  }

  /** The outcome of a chain is the last of the results that follow from each other. */
  lemma {:induction false} OutcomeIsTrace(call: Calls, log: seq<seq<Pair>>, given: seq<Option<Value>>, d: Id, n: nat,
                                          k: nat, r: Value, v: Value, fuel: nat)
    requires |log| == |given| && d < |log| && k <= n <= |log[d]|
    ensures OutcomeFrom(call, log, given, d, n, k, r, fuel) == Some(v) <==>
      exists rs :: Trace(call, log, given, d, n, k, rs, fuel) && rs[0] == r && rs[n - k] == v
    decreases n - k
  {
    hide Follows;
    if k == n {
      assert OutcomeFrom(call, log, given, d, n, k, r, fuel) == Some(v) ==> Trace(call, log, given, d, n, k, [r], fuel);
    } else {
      if OutcomeFrom(call, log, given, d, n, k, r, fuel) == Some(v) {
        var w := TurnHasNext(call, log, given, d, n, k, r, fuel);
        OutcomeIsTrace(call, log, given, d, n, k + 1, w, v, fuel);
        var rs :| Trace(call, log, given, d, n, k + 1, rs, fuel) && rs[0] == w && rs[n - k - 1] == v;
        TraceGrows(call, log, given, d, n, k, r, rs, fuel);
        assert ([r] + rs)[n - k] == v;
      }
      if rs :| Trace(call, log, given, d, n, k, rs, fuel) && rs[0] == r && rs[n - k] == v {
        assert Follows(call, log, given, log[d][k + 0], rs[0], rs[0 + 1], fuel);
        TurnFollows(call, log, given, d, n, k, r, rs[1], fuel);
        TraceShrinks(call, log, given, d, n, k, rs, fuel);
        assert rs[1..][0] == rs[1] && rs[1..][n - k - 1] == v;
        OutcomeIsTrace(call, log, given, d, n, k + 1, rs[1], v, fuel);
      }
    }
  }

  lemma TraceGrows(call: Calls, log: seq<seq<Pair>>, given: seq<Option<Value>>, d: Id, n: nat, k: nat, r: Value,
                   rs: seq<Value>, fuel: nat)
    requires k < n && Trace(call, log, given, d, n, k + 1, rs, fuel)
    requires Follows(call, log, given, log[d][k], r, rs[0], fuel)
    ensures Trace(call, log, given, d, n, k, [r] + rs, fuel)
  {
    hide Follows;
    var all := [r] + rs;
    forall i | 0 <= i < n - k ensures Follows(call, log, given, log[d][k + i], all[i], all[i + 1], fuel) {
      if i > 0 {
        assert Follows(call, log, given, log[d][k + 1 + (i - 1)], rs[i - 1], rs[i - 1 + 1], fuel);
      }
    }
  }

  lemma TraceShrinks(call: Calls, log: seq<seq<Pair>>, given: seq<Option<Value>>, d: Id, n: nat, k: nat,
                     rs: seq<Value>, fuel: nat)
    requires k < n && Trace(call, log, given, d, n, k, rs, fuel)
    ensures Trace(call, log, given, d, n, k + 1, rs[1..], fuel)
  {
    hide Follows;
    forall i | 0 <= i < n - (k + 1)
      ensures Follows(call, log, given, log[d][k + 1 + i], rs[1..][i], rs[1..][i + 1], fuel) {
      assert Follows(call, log, given, log[d][k + (i + 1)], rs[i + 1], rs[i + 1 + 1], fuel);
    }
  }

  /** The pairs from `j` to `k` have no function for `r`. */
  predicate PassedBy(log: seq<Pair>, j: nat, k: nat, r: Value)
    requires k <= |log|
  {
    forall i :: j <= i < k ==> if r.Error? || r.GenericError? then log[i].eb == None else log[i].cb == None
  }

  lemma {:induction false} PassesBy(call: Calls, log: seq<seq<Pair>>, given: seq<Option<Value>>, d: Id, n: nat,
                                    j: nat, k: nat, r: Value, fuel: nat)
    requires |log| == |given| && d < |log| && j <= k <= n <= |log[d]| && PassedBy(log[d], j, k, r)
    ensures OutcomeFrom(call, log, given, d, n, j, r, fuel) == OutcomeFrom(call, log, given, d, n, k, r, fuel)
    decreases k - j
  {
    if j < k {
      TurnFollows(call, log, given, d, n, j, r, r, fuel);
      PassesBy(call, log, given, d, n, j + 1, k, r, fuel);
    }
  }

  /** What a throw, a return or a returned Deferred at pair `j` leads to: the error or value
      passes by every pair that has no function for it, and decides the outcome, or is what
      the function of the next pair that has one is called with. */
  lemma GoesOn(call: Calls, log: seq<seq<Pair>>, given: seq<Option<Value>>, d: Id, n: nat, j: nat, k: nat, f: nat,
               r: Value, w: Value, fuel: nat)
    requires |log| == |given| && d < |log| && j < k <= n <= |log[d]|
    requires CalledOn(log[d][j], r, f) && Makes(call, log, given, f, r, w, fuel) && PassedBy(log[d], j + 1, k, w)
    ensures OutcomeFrom(call, log, given, d, n, j, r, fuel) ==
      if k == n then Some(w) else OutcomeFrom(call, log, given, d, n, k, w, fuel)
  {
    TurnFollows(call, log, given, d, n, j, r, w, fuel);
    PassesBy(call, log, given, d, n, j + 1, k, w, fuel);
  }

  lemma {:induction false} FromPrefix(call: Calls, log: seq<seq<Pair>>, given: seq<Option<Value>>, d: Id, n: nat,
                                      j: nat, k: nat, r: Value, fuel: nat)
    requires |log| == |given| && d < |log| && j <= k <= n <= |log[d]|
    ensures OutcomeFrom(call, log, given, d, n, j, r, fuel) ==
      match OutcomeFrom(call, log, given, d, k, j, r, fuel)
      case None => None
      case Some(w) => OutcomeFrom(call, log, given, d, n, k, w, fuel)
    decreases k - j
  {
    if j < k {
      match Apply(call, log[d][j], r)
      case Now(v) => FromPrefix(call, log, given, d, n, j + 1, k, v, fuel);
      case Later(i) =>
        if R.Outcome(call, log, given, i, fuel).Some? {
          FromPrefix(call, log, given, d, n, j + 1, k, R.Outcome(call, log, given, i, fuel).value, fuel);
        }
    }
  }

  /** Where results are kept: an Error in slot 1, anything else in slot 0. */
  predicate Keeps(c: Cell, w: Value) {
    c.paused == 0 && c.chain == [] && |c.results| == 2 &&
    match w
    case Undefined => c.fired == 0 && c.results[0] == Val(Undefined)
    case Plain(n) => c.fired == 0 && c.results[0] == Val(Plain(n))
    case error => c.fired == 1 && c.results[1] == Val(error)
  }

  /** In every state that the operations can reach: the last function that a result of `d`
      finds decides what `d` ends with. An exception that no later errback takes is kept as
      its failure, and a value that no later callback takes as its success. */
  lemma LastCallDecides(call: Calls, home: Homes, h: History, store: seq<Cell>, d: Id, j: nat, f: nat, r: Value,
                        w: Value, fuel: nat)
    requires Valid(call, home, h, None) && StoreOk(call, home, h, store, {}) && d < |store| && !store[d].chained
    requires h.given[d].Some? && j < |h.log[d]|
    requires OutcomeFrom(call, h.log, h.given, d, j, 0, h.given[d].value, fuel) == Some(r)
    requires CalledOn(h.log[d][j], r, f) && Makes(call, h.log, h.given, f, r, w, fuel)
    requires PassedBy(h.log[d], j + 1, |h.log[d]|, w)
    ensures Keeps(store[d], w)
  {
    hide Valid, Settled, StoreOk, LogHome, Makes, CalledOn, PassedBy;
    Bodies(call, home, h, store, d);
    var n := |h.log[d]|;
    FromPrefix(call, h.log, h.given, d, n, 0, j, h.given[d].value, fuel);
    GoesOn(call, h.log, h.given, d, n, j, n, f, r, w, fuel);
    assert R.Outcome(call, h.log, h.given, d, fuel + 1) == Some(w);
    EndsWith(call, home, h, store, d, w, fuel + 1);
  }

  /** An outcome of the reference is the one in the store. */
  lemma EndsWith(call: Calls, home: Homes, h: History, store: seq<Cell>, d: Id, w: Value, fuel: nat)
    requires Valid(call, home, h, None) && StoreOk(call, home, h, store, {}) && d < |store| && !store[d].chained
    requires R.Outcome(call, h.log, h.given, d, fuel) == Some(w)
    ensures Keeps(store[d], w)
  {
    OutcomeIsFold(call, home, h, store, d);
    var n := |h.order| + 1;
    MoreFuel(call, h.log, h.given, d, fuel, if n < fuel then fuel else n);
    if R.Outcome(call, h.log, h.given, d, n).Some? {
      MoreFuel(call, h.log, h.given, d, n, if n < fuel then fuel else n);
    }
  }
}
