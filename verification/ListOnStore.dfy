/** A DeferredList whose members are Deferreds of the store: when it fires, and with what,
    in terms of the members' own pairs and results. */
module ListOnStore {
  import opened Text
  import opened Deferreds
  import opened DeferredHistory
  import opened Async
  import opened DeferredTheorems
  import L = DeferredList

  /** A member: its Deferred and the place of the list's two pairs in its log. */
  datatype Member = Member(d: Id, at: nat)

  /** The pairs that the list's constructor adds to a member: the first function is called on
      success and passes the result on, the second on failure and passes on the error or,
      if errors are consumed, `nothing`. */
  ghost predicate ListPairs(call: Calls, log: seq<Pair>, at: nat, consume: bool, nothing: Value) {
    at + 2 <= |log| && !IsError(nothing) &&
    match (log[at], log[at + 1])
    case (Pair(Some(User(f)), None), Pair(None, Some(User(g)))) =>
      forall r :: call(f, r) == Returns(r) && call(g, r) == Returns(if consume then nothing else r)
    case _ => false
  }

  ghost predicate Joined(call: Calls, h: History, members: seq<Member>, consume: bool, nothing: Value) {
    Shaped(h) && forall i :: 0 <= i < |members| ==>
      members[i].d < |h.log| && ListPairs(call, h.log[members[i].d], members[i].at, consume, nothing)
  }

  /** What a member's chain hands to the list, once it has got there. */
  function Handed(call: Calls, h: History, m: Member): Option<Value>
    requires Shaped(h) && m.d < |h.log| && m.at <= |h.log[m.d]|
  {
    match h.given[m.d]
    case None => None
    case Some(r) =>
      match Eval(call, h.log[m.d][..m.at], 0, r, Delivered(h))
      case Done(v) => Some(v)
      case _ => None
  }

  /** The two pairs of the list stand in a chain, at `c`. */
  predicate StandAt(chain: seq<Pair>, c: nat, log: seq<Pair>, at: nat) {
    c + 2 <= |chain| && at + 2 <= |log| && chain[c..c + 2] == log[at..at + 2]
  }

  function EntryFor(v: Option<Value>): L.Entry {
    match v
    case None => None
    case Some(v) => Some((!IsError(v), v))
  }

  lemma PairsFit(call: Calls, log: seq<Pair>, at: nat, consume: bool, nothing: Value)
    requires ListPairs(call, log, at, consume, nothing)
    ensures at + 2 <= |log|
  {
  }

  /** The two pairs leave a success alone and an error, or put `nothing` in its place. */
  lemma PassesOn(call: Calls, log: seq<Pair>, at: nat, consume: bool, nothing: Value, v: Value, m: map<Id, Value>)
    requires ListPairs(call, log, at, consume, nothing)
    ensures Eval(call, log, at, v, m) == Eval(call, log, at + 2, if IsError(v) && consume then nothing else v, m)
  {
    var w := if IsError(v) && consume then nothing else v;
    var f, g := log[at].cb.value.f, log[at + 1].eb.value.f;
    assert call(f, v) == Returns(v) && call(g, v) == Returns(if consume then nothing else v);
    assert Apply(call, log[at], v) == Now(v);
    assert Apply(call, log[at + 1], v) == Now(w);
    assert Eval(call, log, at + 1, v, m) == Eval(call, log, at + 2, w, m);
  }

  /** While a member has handed over nothing, the list's two pairs stand in its chain. Once
      it has, they are behind it, and it has gone on with the result, or with nothing for an
      error that was consumed. */
  lemma MemberHandsOver(call: Calls, home: Homes, h: History, store: seq<Cell>, m: Member, consume: bool,
                        nothing: Value)
    requires Valid(call, home, h, None) && StoreOk(call, home, h, store, {}) && m.d < |store|
    requires ListPairs(call, h.log[m.d], m.at, consume, nothing)
    ensures match Handed(call, h, m)
      case None =>
        exists c: nat :: StandAt(store[m.d].chain, c, h.log[m.d], m.at)
      case Some(v) =>
        Fold(call, h, m.d, Delivered(h)) ==
          Eval(call, h.log[m.d], m.at + 2, if IsError(v) && consume then nothing else v, Delivered(h))
  {
    hide LogHome, Settled, Ordered, ListPairs, CellBody, Eval;
    PairsFit(call, h.log[m.d], m.at, consume, nothing);
    assert CellOk(call, home, h, m.d, store[m.d]);
    match Handed(call, h, m)
    case None => PairsStand(call, h, m, store[m.d], m.d in h.owned, Tail(home, h, m.d));
    case Some(v) =>
      EvalPrefix(call, h.log[m.d], m.at, 0, h.given[m.d].value, Delivered(h));
      PassesOn(call, h.log[m.d], m.at, consume, nothing, v, Delivered(h));
  }

  lemma PairsStand(call: Calls, h: History, m: Member, cell: Cell, owned: bool, tail: seq<Pair>)
    requires Shaped(h) && m.d < |h.log| && m.at + 2 <= |h.log[m.d]| && Handed(call, h, m) == None
    requires CellBody(call, h, m.d, cell, owned, tail)
    ensures exists c: nat :: StandAt(cell.chain, c, h.log[m.d], m.at)
  {
    var log := h.log[m.d];
    if h.given[m.d] == None {
      assert StandAt(cell.chain, m.at, log, m.at);
    } else {
      EvalPrefix(call, log, m.at, 0, h.given[m.d].value, Delivered(h));
      var p := Eval(call, log[..m.at], 0, h.given[m.d].value, Delivered(h));
      assert StandAt(cell.chain, m.at - p.next, log, m.at);
    }
  }

  /** The list has been told of exactly the members that have handed over their results, in
      whatever order that happened. */
  ghost predicate Reported(call: Calls, h: History, members: seq<Member>, events: seq<L.Event>)
    requires Shaped(h) && forall i :: 0 <= i < |members| ==>
      members[i].d < |h.log| && members[i].at <= |h.log[members[i].d]|
  {
    L.Distinct(events, |members|) &&
    forall i :: 0 <= i < |members| ==> L.EntryOf(events, i) == EntryFor(Handed(call, h, members[i]))
  }

  /** A member's own outcome at the list's place: the fold of the pairs before it, where
      each returned Deferred stands for its outcome. */
  function OutcomeAt(call: Calls, h: History, m: Member): Option<Value>
    requires Shaped(h) && m.d < |h.log| && m.at <= |h.log[m.d]|
  {
    match h.given[m.d]
    case None => None
    case Some(r) => OutcomeFrom(call, h.log, h.given, m.d, m.at, 0, r, |h.order|)
  }

  lemma HandedIsOutcome(call: Calls, home: Homes, h: History, m: Member)
    requires Valid(call, home, h, None) && m.d < |h.log| && m.at <= |h.log[m.d]|
    ensures Handed(call, h, m) == OutcomeAt(call, h, m)
  {
    if h.given[m.d].Some? {
      PrefixIsFold(call, home, h, m.d, m.at);
    }
  }

  lemma EntryHasEvent(events: seq<L.Event>, n: nat, i: nat)
    requires L.Distinct(events, n)
    ensures L.EntryOf(events, i).Some? <==> exists k :: 0 <= k < |events| && events[k].index == i
  {
    if exists k :: 0 <= k < |events| && events[k].index == i {
      var k :| 0 <= k < |events| && events[k].index == i;
      L.EntryAt(events, n, k);
    } else {
      L.NoEntry(events, i);
    }
  }

  predicate AllTold(events: seq<L.Event>, n: nat) {
    forall i :: 0 <= i < n ==> L.EntryOf(events, i).Some?
  }

  /** There are as many events as members exactly when every member has one. */
  lemma AllHaveEntries(events: seq<L.Event>, n: nat)
    requires L.Distinct(events, n)
    ensures |events| == n <==> AllTold(events, n)
  {
    L.NoMoreThan(events, n);
    L.IndexCount(events, n);
    if |events| == n {
      forall i | 0 <= i < n ensures L.EntryOf(events, i).Some? {
        var k := L.AllResolved(events, n, i);
        L.EntryAt(events, n, k);
      }
    } else if AllTold(events, n) {
      forall i: nat | i < n ensures i in L.Indices(events) {
        EntryHasEvent(events, n, i);
        var k :| 0 <= k < |events| && events[k].index == i;
        IndexIn(events, k);
      }
      SubsetSize(L.Below(n), L.Indices(events));
    }
  }

  lemma {:induction false} IndexIn(events: seq<L.Event>, k: nat)
    requires k < |events|
    ensures events[k].index in L.Indices(events)
    decreases |events|
  {
    if k < |events| - 1 {
      IndexIn(events[..|events| - 1], k);
    }
  }

  /** With both fire-on-one flags off, a list over Deferreds of the store has fired exactly
      when every member has an outcome at the list's place in its chain, and then entry i
      is member i's outcome, with its success or failure. */
  lemma ListOfOutcomes(call: Calls, home: Homes, h: History, members: seq<Member>, consume: bool, nothing: Value,
                       events: seq<L.Event>)
    requires Valid(call, home, h, None) && Joined(call, h, members, consume, nothing)
    requires Reported(call, h, members, events)
    ensures var f := L.FiringOf(|members|, L.Flags(false, false, consume), events);
      (f.Some? <==> forall i :: 0 <= i < |members| ==> OutcomeAt(call, h, members[i]).Some?) &&
      (f.Some? ==> f.value.All? && |f.value.results| == |members|) &&
      (f.Some? ==> forall i :: 0 <= i < |members| ==>
         var v := OutcomeAt(call, h, members[i]).value;
         f.value.results[i] == Some((!(v.Error? || v.GenericError?), v)))
  {
    var n := |members|;
    assert forall i :: 0 <= i < n ==> members[i].at <= |h.log[members[i].d]|;
    hide Valid, ListPairs, Handed, OutcomeAt, Delivered;
    L.FiresAtTheEnd(n, consume, events);
    AllHaveEntries(events, n);
    forall i | 0 <= i < n ensures Handed(call, h, members[i]) == OutcomeAt(call, h, members[i]) {
      HandedIsOutcome(call, home, h, members[i]);
    }
    if |events| == n {
      var f := L.FiringOf(n, L.Flags(false, false, consume), events);
      forall i: nat | i < n ensures f.value.results[i] == L.EntryOf(events, i) {
        var k := L.AllResolved(events, n, i);
        L.EntryAt(events, n, k);
      }
    }
  }
}
