/** The Deferreds of MochiKit.Async at work: `_resback`, `_fire`, `addCallbacks`, `callback`
    and `errback` on a store of them. */
module Async {
  import opened Text
  import opened Deferreds
  import opened DeferredHistory

  /** An entry of `results`: nothing yet, a value, or the Deferred that is waited for. */
  datatype Slot = Empty | Val(v: Value) | Held(d: Id)

  datatype Cell = Cell(chain: seq<Pair>, fired: int, paused: nat, results: seq<Slot>, chained: bool)

  /** The argument of `callback` and `errback`: a value, or a Deferred, which they refuse. */
  datatype Given = Plainly(v: Value) | ADeferred(d: Id)

  function ResumePair(d: Id): Pair {
    Pair(Some(Resume(d)), Some(Resume(d)))
  }

  /** The closure at the end of the chain of a Deferred that is waited for. */
  function Tail(home: Homes, h: History, d: Id): seq<Pair> {
    if d in h.owned && d !in Delivered(h) then [ResumePair(home(d).0)] else []
  }

  predicate Holds(c: Cell, fired: nat, slot: Slot, chain: seq<Pair>)
    requires fired < 2
  {
    c.fired == fired && |c.results| == 2 && c.results[fired] == slot && c.chain == chain
  }

  /** The state of `d` is what its history says. */
  predicate CellBody(call: Calls, h: History, d: Id, c: Cell, owned: bool, tail: seq<Pair>)
    requires Shaped(h) && d < |h.log|
  {
    match Fold(call, h, d, Delivered(h))
    case Unfired => c.fired == -1 && c.paused == 0 && |c.results| == 2 && c.chain == h.log[d] + tail
    case Done(v) => c.paused == 0 && (if owned then Holds(c, 0, Val(Undefined), []) else Holds(c, Side(v), Val(v), []))
    case Stuck(i, next) => c.paused == 1 && next <= |h.log[d]| && Holds(c, 0, Held(i), h.log[d][next..] + tail)
  }

  predicate CellOk(call: Calls, home: Homes, h: History, d: Id, c: Cell)
    requires Shaped(h) && d < |h.log|
  {
    CellBody(call, h, d, c, d in h.owned, Tail(home, h, d)) && (c.chained <==> d in h.owned)
  }

  /** Every Deferred outside `busy` is in the state that its history says. */
  ghost predicate StoreOk(call: Calls, home: Homes, h: History, store: seq<Cell>, busy: set<Id>)
    requires Shaped(h)
  {
    |store| == |h.log| && forall d: Id :: d < |store| && d !in busy ==> CellOk(call, home, h, d, store[d])
  }

  // During a firing. `busy` are the Deferreds whose chains are being run further up the stack:
  // each has delivered its outcome and resumed the Deferred that waited for it.

  ghost predicate BusyOk(h: History, busy: set<Id>) {
    forall b :: b in busy ==> b in Delivered(h)
  }

  /** `d` runs its chain and has reached pair `p` of its log with result `r`. */
  ghost predicate Running(call: Calls, home: Homes, h: History, store: seq<Cell>, d: Id, busy: set<Id>, p: nat,
                          r: Value) {
    Valid(call, home, h, Some(d)) && FiringAt(call, home, h, d, p, r) && d !in busy && BusyOk(h, busy) &&
    StoreOk(call, home, h, store, busy + {d}) &&
    store[d].paused == 0 && |store[d].results| == 2 && store[d].chain == h.log[d][p..] + Tail(home, h, d) &&
    ((store[d].chained <==> d in h.owned) || p == |h.log[d]|)
  }

  /** `d` is to wait for `i`: the history knows, `i` has not been told. */
  ghost predicate ToldNobody(call: Calls, home: Homes, h: History, d: Id, busy: set<Id>, i: Id) {
    Homed(call, home, h) && i in h.owned && home(i).0 == d && i !in Delivered(h) &&
    i !in busy && BusyOk(h, busy) &&
    match Fold(call, h, i, Delivered(h))
    case Done(v) => i != d && Valid(call, home, h, Some(i)) && FiringAt(call, home, h, i, |h.log[i]|, v)
    case _ => Valid(call, home, h, None)
  }

  /** The state of a Deferred that waits for `i` and may lack its own closing closure. */
  predicate Stops(call: Calls, h: History, d: Id, c: Cell, i: Id, tail: seq<Pair>)
    requires Shaped(h) && d < |h.log|
  {
    match Fold(call, h, d, Delivered(h))
    case Stuck(j, next) => j == i && next <= |h.log[d]| && c.paused == 1 && |c.results| == 2 &&
      c.chain == h.log[d][next..] + tail
    case _ => false
  }

  ghost predicate Waiting(call: Calls, home: Homes, h: History, store: seq<Cell>, d: Id, busy: set<Id>, i: Id) {
    ToldNobody(call, home, h, d, busy, i) && d < |h.log| && d !in busy &&
    StoreOk(call, home, h, store, busy + {d, i}) &&
    Stops(call, h, d, store[d], i, if d == i then [] else Tail(home, h, d)) &&
    (if d == i then !store[d].chained
     else (store[d].chained <==> d in h.owned) && !store[i].chained && CellBody(call, h, i, store[i], false, []))
  }

  /** `d` has run all its pairs and has resumed the Deferred that waited for it. */
  ghost predicate Resumed(call: Calls, home: Homes, h: History, store: seq<Cell>, d: Id, busy: set<Id>) {
    Valid(call, home, h, None) && d in Delivered(h) && StoreOk(call, home, h, store, busy + {d}) &&
    d < |store| && store[d].paused == 0 && store[d].chain == [] && |store[d].results| == 2
  }

  /** What a firing leaves: the same pairs and given results, and more outcomes. */
  predicate Grown(g: History, h: History) {
    g.log == h.log && g.given == h.given && h.owned <= g.owned && h.order <= g.order
  }

  ghost predicate Changed(g: History, s: seq<Cell>, h: History, store: seq<Cell>, d: Id, busy: set<Id>) {
    Grown(g, h) && |s| == |store| && d < |s| &&
    forall b: Id :: b in busy && b < |s| ==> s[b] == store[b]
  }

  ghost predicate Fired(call: Calls, home: Homes, h: History, store: seq<Cell>, d: Id, busy: set<Id>) {
    Valid(call, home, h, None) && StoreOk(call, home, h, store, busy + {d}) && d < |h.log| &&
    CellBody(call, h, d, store[d], d in h.owned, Tail(home, h, d))
  }

  // The turns of the loop.

  function Shift(store: seq<Cell>, d: Id, paused: nat): seq<Cell>
    requires d < |store| && |store[d].chain| > 0
  {
    store[d := store[d].(chain := store[d].chain[1..], paused := paused)]
  }

  /** The head of the chain is the next pair of the log, until only the closing closure is left. */
  lemma Head(call: Calls, home: Homes, h: History, store: seq<Cell>, d: Id, busy: set<Id>, p: nat, r: Value)
    requires Running(call, home, h, store, d, busy, p, r) && |store[d].chain| > 0
    ensures d < |h.log| && p <= |h.log[d]|
    ensures if p < |h.log[d]| then store[d].chain[0] == h.log[d][p] && UserPair(store[d].chain[0])
            else d in h.owned && d !in Delivered(h) && store[d].chain == [ResumePair(home(d).0)]
  {
    if p < |h.log[d]| {
      assert store[d].chain[0] == h.log[d][p];
      assert LogHome(call, home, h.log[d], d, |h.log|);
    } else {
      assert h.log[d][p..] == [];
    }
  }

  lemma ShiftNow(call: Calls, home: Homes, h: History, store: seq<Cell>, d: Id, busy: set<Id>, p: nat, r: Value,
                 v: Value)
    requires Running(call, home, h, store, d, busy, p, r) && p < |h.log[d]| && |store[d].chain| > 0
    requires Apply(call, h.log[d][p], r) == Now(v)
    ensures Running(call, home, h, Shift(store, d, 0), d, busy, p + 1, v)
  {
    hide Valid, Fold, Seen;
    StepsOver(call, home, h, d, p, r, v);
    var s := Shift(store, d, 0);
    assert s[d].chain == h.log[d][p + 1..] + Tail(home, h, d);
    forall e: Id | e < |s| && e !in busy + {d} ensures CellOk(call, home, h, e, s[e]) {
      assert CellOk(call, home, h, e, store[e]);
    }
  }

  lemma ShiftLater(call: Calls, home: Homes, h: History, store: seq<Cell>, d: Id, busy: set<Id>, p: nat, r: Value,
                   i: Id)
    requires Running(call, home, h, store, d, busy, p, r) && p < |h.log[d]| && |store[d].chain| > 0
    requires Apply(call, h.log[d][p], r) == Later(i)
    ensures i !in h.owned && i < |h.log|
    ensures Waiting(call, home, h.(owned := h.owned + {i}), Shift(store, d, 1), d, busy, i)
  {
    hide FiringAt, LogHome, Settled, Fold, Ordered;
    StepsInto(call, home, h, d, p, r, i);
    BusyOwned(call, home, h, d, busy);
    var g, s := h.(owned := h.owned + {i}), Shift(store, d, 1);
    assert s[d].chain == h.log[d][p + 1..] + Tail(home, h, d);
    StoreStepsInto(call, home, h, store, busy, d, i);
    forall e: Id | e < |s| && e !in busy + {d, i} ensures CellOk(call, home, g, e, s[e]) {
      assert CellOk(call, home, g, e, store[e]);
    }
  }

  lemma BusyOwned(call: Calls, home: Homes, h: History, d: Id, busy: set<Id>)
    requires Valid(call, home, h, Some(d)) && BusyOk(h, busy)
    ensures busy <= h.owned
  {
    DeliveredOwned(call, home, h, Some(d));
  }

  /** When `d` begins to wait for `i`, nothing changes elsewhere. */
  lemma StoreStepsInto(call: Calls, home: Homes, h: History, store: seq<Cell>, busy: set<Id>, d: Id, i: Id)
    requires Shaped(h) && StoreOk(call, home, h, store, busy + {d})
    requires i < |store| && i !in h.owned && i !in busy
    ensures var g := h.(owned := h.owned + {i});
      StoreOk(call, home, g, store, busy + {d, i}) &&
      (i != d ==> CellBody(call, g, i, store[i], false, []) && !store[i].chained)
  {
    var g := h.(owned := h.owned + {i});
    forall e: Id | e < |store| && e !in busy + {d, i} ensures CellOk(call, home, g, e, store[e]) {
      assert CellOk(call, home, h, e, store[e]);
    }
    if i != d {
      assert CellOk(call, home, h, i, store[i]);
    }
  }

  /** The state in which the closure of `d` resumes `e`, which is stuck before pair `next`. */
  ghost predicate Resuming(call: Calls, home: Homes, h: History, store: seq<Cell>, e: Id, busy: set<Id>, next: nat,
                           r: Value) {
    Valid(call, home, h, Some(e)) && FiringAt(call, home, h, e, next, r) && e !in busy && BusyOk(h, busy) &&
    StoreOk(call, home, h, store, busy + {e}) &&
    store[e].paused == 1 && store[e].fired == 0 && |store[e].results| == 2 &&
    store[e].chain == h.log[e][next..] + Tail(home, h, e) && (store[e].chained <==> e in h.owned)
  }

  /** `d` delivers: nothing changes but for the Deferred that waited for it. */
  lemma ShiftResume(call: Calls, home: Homes, h: History, store: seq<Cell>, d: Id, busy: set<Id>, r: Value)
    requires d < |h.log| && Running(call, home, h, store, d, busy, |h.log[d]|, r) && |store[d].chain| > 0
    requires d in h.owned
    ensures var e := home(d).0; var g := h.(order := h.order + [(d, r)]);
      e < |h.log| && d in Delivered(g) && Shaped(h) && Fold(call, h, e, Delivered(h)).Stuck? &&
      Resuming(call, home, g, Shift(store, d, 0), e, busy + {d}, Fold(call, h, e, Delivered(h)).next, r)
  {
    hide FiringAt, Settled, Ordered, LogHome, Fold, CellOk, Tail;
    var e := home(d).0;
    var g := h.(order := h.order + [(d, r)]);
    Delivers(call, home, h, d, r);
    var next := Fold(call, h, e, Delivered(h)).next;
    NotDelivered(call, home, g, e, next, r);
    StoreDelivers(call, home, h, store, d, busy, r, e);
    assert busy + {d} + {e} == busy + {d, e};
  }

  lemma StoreDelivers(call: Calls, home: Homes, h: History, store: seq<Cell>, d: Id, busy: set<Id>, r: Value, e: Id)
    requires Shaped(h) && StoreOk(call, home, h, store, busy + {d}) && d < |h.log| && |store[d].chain| > 0
    requires e < |h.log| && e != d && e !in busy && e !in Delivered(h)
    requires Fold(call, h, e, Delivered(h)).Stuck? && Fold(call, h, e, Delivered(h)).d == d
    requires var g := h.(order := h.order + [(d, r)]);
      Delivered(g) == Delivered(h)[d := r] &&
      forall f: Id :: f < |h.log| && f != e ==> Fold(call, g, f, Delivered(g)) == Fold(call, h, f, Delivered(h))
    ensures var g := h.(order := h.order + [(d, r)]); var next := Fold(call, h, e, Delivered(h)).next;
      StoreOk(call, home, g, Shift(store, d, 0), busy + {d, e}) &&
      store[e].paused == 1 && store[e].fired == 0 && |store[e].results| == 2 && next <= |h.log[e]| &&
      store[e].chain == h.log[e][next..] + Tail(home, g, e) && (store[e].chained <==> e in h.owned)
  {
    hide Fold, Delivered, Holds;
    var g, s := h.(order := h.order + [(d, r)]), Shift(store, d, 0);
    assert CellOk(call, home, h, e, store[e]);
    TailSame(home, h, g, e);
    forall f: Id | f < |s| && f !in busy + {d, e} ensures CellOk(call, home, g, f, s[f]) {
      assert CellOk(call, home, h, f, store[f]);
      TailSame(home, h, g, f);
    }
    HoldsIs(store[e], 0, Held(d), h.log[e][Fold(call, h, e, Delivered(h)).next..] + Tail(home, h, e));
  }

  /** Who has not just got an outcome waits as before. */
  lemma TailSame(home: Homes, h: History, g: History, f: Id)
    requires g.owned == h.owned && (f in Delivered(g) <==> f in Delivered(h))
    ensures Tail(home, g, f) == Tail(home, h, f)
  {
  }

  lemma HoldsIs(c: Cell, fired: nat, slot: Slot, chain: seq<Pair>)
    requires fired < 2 && Holds(c, fired, slot, chain)
    ensures c.fired == fired && |c.results| == 2 && c.results[fired] == slot && c.chain == chain
  {
  }

  lemma NotDelivered(call: Calls, home: Homes, h: History, d: Id, p: nat, r: Value)
    requires FiringAt(call, home, h, d, p, r)
    ensures d < |h.log| && d !in Delivered(h)
  {
  }

  /** `d` has run its chain and nobody waits for it. */
  lemma StoresResult(call: Calls, home: Homes, h: History, store: seq<Cell>, d: Id, busy: set<Id>, p: nat, r: Value)
    requires Running(call, home, h, store, d, busy, p, r) && store[d].chain == []
    ensures Fired(call, home, h, Stored(store, d, Side(r), Val(r)), d, busy)
  {
    hide LogHome, Settled, Ordered, Fold, Seen;
    assert p == |h.log[d]| && d !in h.owned;
    Finishes(call, home, h, d, r);
    var s := Stored(store, d, Side(r), Val(r));
    forall e: Id | e < |s| && e !in busy + {d} ensures CellOk(call, home, h, e, s[e]) {
      assert CellOk(call, home, h, e, store[e]);
    }
  }

  lemma StoresUndefined(call: Calls, home: Homes, h: History, store: seq<Cell>, d: Id, busy: set<Id>)
    requires Resumed(call, home, h, store, d, busy)
    ensures Fired(call, home, h, Stored(store, d, 0, Val(Undefined)), d, busy)
  {
    hide LogHome, Ordered, Fold, Seen;
    assert Settled(call, home, h, d);
    var s := Stored(store, d, 0, Val(Undefined));
    forall e: Id | e < |s| && e !in busy + {d} ensures CellOk(call, home, h, e, s[e]) {
      assert CellOk(call, home, h, e, store[e]);
    }
  }

  /** `d` waits for `i`, and `i` is about to get the closure. */
  ghost predicate Asking(call: Calls, home: Homes, h: History, store: seq<Cell>, d: Id, busy: set<Id>, i: Id) {
    ToldNobody(call, home, h, d, busy, i) && StoreOk(call, home, h, store, busy + {i}) &&
    !store[i].chained && CellBody(call, h, i, store[i], false, [])
  }

  lemma StoresHeld(call: Calls, home: Homes, h: History, store: seq<Cell>, d: Id, busy: set<Id>, i: Id)
    requires Waiting(call, home, h, store, d, busy, i)
    ensures Asking(call, home, h, Stored(store, d, 0, Held(i)), d, busy, i)
    ensures d != i ==> CellOk(call, home, h, d, Stored(store, d, 0, Held(i))[d])
  {
    hide Valid, FiringAt, LogHome, Fold;
    var s := Stored(store, d, 0, Held(i));
    forall e: Id | e < |s| && e !in busy + {i} ensures CellOk(call, home, h, e, s[e]) {
      if e != d {
        assert e !in busy + {d, i};
        assert CellOk(call, home, h, e, store[e]);
      }
    }
  }

  function Stored(store: seq<Cell>, d: Id, fired: nat, res: Slot): seq<Cell>
    requires d < |store| && |store[d].results| == 2 && fired < 2
  {
    store[d := store[d].(fired := fired, results := store[d].results[fired := res])]
  }

  class DeferredStore {
    const call: Calls
    ghost const home: Homes
    var store: seq<Cell>
    ghost var h: History

    ghost predicate Inv()
      reads this
    {
      Valid(call, home, h, None) && StoreOk(call, home, h, store, {})
    }

    ghost function Undelivered(): set<Id>
      reads this
    {
      set d: Id | 0 <= d < |h.log| && d !in Delivered(h)
    }

    ghost function Unowned(): set<Id>
      reads this
    {
      set d: Id | 0 <= d < |h.log| && d !in h.owned
    }

    constructor (call: Calls, ghost home: Homes)
      ensures this.call == call && this.home == home
      ensures Inv() && store == [] && h == History([], [], [], {})
    {
      this.call, this.home := call, home;
      store, h := [], History([], [], [], {});
    }

    /** `new Deferred()`. */
    method New() returns (d: Id)
      requires Inv()
      modifies this
      ensures Inv() && d == |old(store)| && store == old(store) + [Cell([], -1, 0, [Empty, Empty], false)]
      ensures h == old(h).(log := old(h).log + [[]], given := old(h).given + [None])
    {
      Allocates(call, home, h);
      DeliveredOwned(call, home, h, None);
      d := |store|;
      store := store + [Cell([], -1, 0, [Empty, Empty], false)];
      h := h.(log := h.log + [[]], given := h.given + [None]);
    }

    /** A callback of the program is called with the result of the chain so far. */
    method CallUser(d: Id, f: Option<Fn>, fired0: nat, res0: Slot,
                    ghost store0: seq<Cell>, ghost busy: set<Id>, ghost p: nat, ghost r: Value)
      returns (fired: nat, res: Slot)
      requires Running(call, home, h, store0, d, busy, p, r) && p < |h.log[d]| && |store0[d].chain| > 0
      requires store == Shift(store0, d, 0) && f == Pick(h.log[d][p], r) && UserFn(f)
      requires fired0 == Side(r) && res0 == Val(r)
      modifies this
      ensures match res
        case Val(v) =>
          h == old(h) && store == old(store) && fired == Side(v) && Running(call, home, h, store, d, busy, p + 1, v)
        case Held(i) =>
          fired == 0 && Waiting(call, home, h, store, d, busy, i) && store == Shift(store0, d, 1) &&
          h == old(h).(owned := old(h).owned + {i}) && i !in old(h).owned
        case Empty => false
    {
      hide Running, Waiting;
      DuringRun(call, home, h, store0, d, busy, p, r);
      if f == None {
        ShiftNow(call, home, h, store0, d, busy, p, r, r);
        return fired0, res0;
      }
      var outcome := call(f.value.f, res0.v);
      if outcome.Returns? {
        fired, res := Side(outcome.v), Val(outcome.v);
        ShiftNow(call, home, h, store0, d, busy, p, r, outcome.v);
      } else if outcome.Throws? {
        fired, res := 1, Val(AsError(outcome.v));
        ShiftNow(call, home, h, store0, d, busy, p, r, AsError(outcome.v));
      } else {
        fired, res := 0, Held(outcome.d);
        store := store[d := store[d].(paused := store[d].paused + 1)];
        assert store == Shift(store0, d, 1);
        ShiftLater(call, home, h, store0, d, busy, p, r, outcome.d);
        h := h.(owned := h.owned + {outcome.d});
      }
    }

    /** One turn of the loop in `_fire`. */
    method RunPair(d: Id, fired0: nat, res0: Slot, ghost busy: set<Id>, ghost p: nat, ghost r: Value)
      returns (fired: nat, res: Slot)
      requires Running(call, home, h, store, d, busy, p, r) && |store[d].chain| > 0
      requires fired0 == Side(r) && res0 == Val(r)
      modifies this
      ensures Changed(h, store, old(h), old(store), d, busy) && |store[d].chain| < |old(store)[d].chain|
      ensures store[d].chained == old(store)[d].chained && |store[d].results| == 2 && d !in busy && fired < 2
      ensures match res
        case Val(v) =>
          (h == old(h) && fired == Side(v) && p < |h.log[d]| && Running(call, home, h, store, d, busy, p + 1, v)) ||
          (fired == 0 && v == Undefined && d in old(h).owned && Resumed(call, home, h, store, d, busy))
        case Held(i) =>
          fired == 0 && Waiting(call, home, h, store, d, busy, i) &&
          h == old(h).(owned := old(h).owned + {i}) && i !in old(h).owned
        case Empty => false
      decreases Undelivered(), Unowned(), 1
    {
      hide Running, Resumed, Waiting, Valid, FiringAt, Resuming, StoreOk;
      Head(call, home, h, store, d, busy, p, r);
      DuringRun(call, home, h, store, d, busy, p, r);
      ghost var store0 := store;
      var pair := store[d].chain[0];
      store := store[d := store[d].(chain := store[d].chain[1..])];
      assert store == Shift(store0, d, 0);
      var f := if fired0 == 0 then pair.cb else pair.eb;
      if f == None || f.value.User? {
        fired, res := CallUser(d, f, fired0, res0, store0, busy, p, r);
      } else {
        ShiftResume(call, home, h, store0, d, busy, r);
        ghost var next := Fold(call, h, f.value.d, Delivered(h)).next;
        MapOfAppend(h.order, d, r);
        h := h.(order := h.order + [(d, r)]);
        assert d in old(Undelivered()) && d !in Undelivered();
        ResumeWith(f.value.d, res0.v, busy + {d}, next);
        fired, res := 0, Val(Undefined);
        assert d in busy + {d};
        StaysDelivered(h, old(h).(order := old(h).order + [(d, r)]), d);
        IsResumed(call, home, h, store, d, busy);
      }
    }

    /** The closure that `_fire` adds to a Deferred it waits for. */
    method ResumeWith(e: Id, v: Value, ghost busy: set<Id>, ghost next: nat)
      requires Resuming(call, home, h, store, e, busy, next, v)
      modifies this
      ensures Valid(call, home, h, None) && StoreOk(call, home, h, store, busy)
      ensures Changed(h, store, old(h), old(store), e, busy)
      decreases Undelivered(), Unowned(), 4
    {
      hide Valid, FiringAt, Running, Resuming, StoreOk, Fired, CellOk;
      DuringResume(call, home, h, store, e, busy, next, v);
      ResumesRunning(call, home, h, store, e, busy, next, v);
      Resback(e, v, busy, next);
      store := store[e := store[e].(paused := store[e].paused - 1)];
      if store[e].paused == 0 && store[e].fired >= 0 {
        Fire(e, busy, next, v);
        FiredIsOk(call, home, h, store, e, busy);
      }
    }

    /** `_resback`. */
    method Resback(d: Id, v: Value, ghost busy: set<Id>, ghost p: nat)
      requires d < |store| && |store[d].results| == 2
      requires store[d].paused == 0 ==> Running(call, home, h, store, d, busy, p, v)
      modifies this
      ensures old(store)[d].paused > 0 ==> h == old(h) && store == Stored(old(store), d, Side(v), Val(v))
      ensures old(store)[d].paused == 0 ==> FireEnsures(h, store, old(h), old(store), d, busy)
      decreases Undelivered(), Unowned(), 3
    {
      hide Running, Valid, FiringAt, StoreOk, Fired, CellOk;
      store := store[d := store[d].(fired := Side(v))];
      store := store[d := store[d].(results := store[d].results[store[d].fired := Val(v)])];
      assert store == Stored(old(store), d, Side(v), Val(v));
      if store[d].paused == 0 {
        DuringRun(call, home, h, old(store), d, busy, p, v);
        RunningStored(call, home, h, old(store), d, busy, p, v, Side(v), Val(v));
      }
      Fire(d, busy, p, v);
    }

    ghost predicate FireEnsures(g: History, s: seq<Cell>, h: History, store: seq<Cell>, d: Id, busy: set<Id>) {
      Fired(call, home, g, s, d, busy) && Changed(g, s, h, store, d, busy) && d < |store| &&
      ((store[d].chained <==> d in h.owned) ==> (s[d].chained <==> d in g.owned))
    }

    ghost predicate Phase(d: Id, busy: set<Id>, p: nat, r: Value, fired: nat, res: Slot, h0: History, store0: seq<Cell>)
      reads this
    {
      Changed(h, store, h0, store0, d, busy) && store[d].chained == store0[d].chained && d !in busy && fired < 2 &&
      match res
      case Val(v) =>
        (h == h0 && v == r && fired == Side(r) && Running(call, home, h, store, d, busy, p, r)) ||
        (fired == 0 && v == Undefined && d in h0.owned && Resumed(call, home, h, store, d, busy))
      case Held(i) =>
        fired == 0 && Waiting(call, home, h, store, d, busy, i) && h == h0.(owned := h0.owned + {i}) && i !in h0.owned
      case Empty => false
    }

    /** `addBoth` with the closure that resumes `e`, on the Deferred `i` that `e` waits for. */
    method AddBoth(i: Id, e: Id, ghost busy: set<Id>)
      requires Asking(call, home, h, store, e, busy, i)
      modifies this
      ensures Fired(call, home, h, store, i, busy) && Changed(h, store, old(h), old(store), i, busy)
      decreases Undelivered(), Unowned(), 3
    {
      hide Asking, Valid, FiringAt, StoreOk, Fired, Running, Fold;
      Asked(call, home, h, store, e, busy, i);
      assert !store[i].chained;
      store := store[i := store[i].(chain := store[i].chain + [ResumePair(e)])];
      if store[i].fired >= 0 {
        var progress := Fold(call, h, i, Delivered(h));
        Fire(i, busy, |h.log[i]|, if progress.Done? then progress.v else Undefined);
      }
    }

    lemma PhaseRuns(d: Id, busy: set<Id>, p: nat, r: Value, fired: nat, res: Slot, h0: History, store0: seq<Cell>)
      requires Phase(d, busy, p, r, fired, res, h0, store0) && |store[d].chain| > 0 && store[d].paused == 0
      ensures fired == Side(r) && res == Val(r) && h == h0 && Running(call, home, h, store, d, busy, p, r)
    {
    }

    /** The loop is over: the result to store, or a Deferred to wait for. */
    lemma PhaseEnds(d: Id, busy: set<Id>, p: nat, r: Value, fired: nat, res: Slot, h0: History, store0: seq<Cell>)
      requires Phase(d, busy, p, r, fired, res, h0, store0)
      requires |store[d].chain| == 0 || store[d].paused > 0
      ensures d !in busy && |store[d].results| == 2 && fired < 2 &&
        (res.Held? ==> store[d].paused > 0 && res.d < |h.log|)
      ensures !res.Held? ==> FireEnsures(h, Stored(store, d, fired, res), h0, store0, d, busy)
      ensures res.Held? ==>
        Waiting(call, home, h, store, d, busy, res.d) &&
        Asking(call, home, h, Stored(store, d, fired, res), d, busy, res.d)
    {
      hide Valid, FiringAt, StoreOk, Fired;
      if res.Held? {
        StoresHeld(call, home, h, store, d, busy, res.d);
      } else if h == h0 && res.v == r && fired == Side(r) && Running(call, home, h, store, d, busy, p, r) {
        StoresResult(call, home, h, store, d, busy, p, r);
      } else {
        StoresUndefined(call, home, h, store, d, busy);
      }
    }

    /** `_fire`. */
    method Fire(d: Id, ghost busy: set<Id>, ghost p: nat, ghost r: Value)
      requires d < |store| && 0 <= store[d].fired < 2 && |store[d].results| == 2
      requires store[d].paused == 0 ==> Running(call, home, h, store, d, busy, p, r)
      requires store[d].paused == 0 ==> store[d].fired == Side(r) && store[d].results[Side(r)] == Val(r)
      modifies this
      ensures old(store)[d].paused > 0 ==> store == old(store) && h == old(h)
      ensures old(store)[d].paused == 0 ==> FireEnsures(h, store, old(h), old(store), d, busy)
      decreases Undelivered(), Unowned(), 2
    {
      hide Running, Resumed, Waiting, Valid, FiringAt, StoreOk, Fired, CellOk;
      var fired: nat, res := store[d].fired, store[d].results[store[d].fired];
      var cb := false;
      ghost var q, v := p, r;
      if store[d].paused == 0 {
        DuringRun(call, home, h, store, d, busy, p, r);
      }
      while |store[d].chain| > 0 && store[d].paused == 0
        invariant d < |store| && |store[d].results| == 2 && fired < 2
        invariant old(store)[d].paused > 0 ==> !cb && store == old(store) && h == old(h)
        invariant old(store)[d].paused > 0 ==> fired == store[d].fired && res == store[d].results[fired]
        invariant old(store)[d].paused == 0 ==> cb == res.Held? && Phase(d, busy, q, v, fired, res, old(h), old(store))
        decreases |store[d].chain|
      {
        PhaseRuns(d, busy, q, v, fired, res, old(h), old(store));
        fired, res := RunPair(d, fired, res, busy, q, v);
        cb := res.Held?;
        if res.Val? && h == old(h) {
          q, v := q + 1, res.v;
        }
      }
      if old(store)[d].paused == 0 {
        PhaseEnds(d, busy, q, v, fired, res, old(h), old(store));
      }
      assert store[d].results[fired] == res ==> store[d].results[fired := res] == store[d].results;
      store := store[d := store[d].(fired := fired, results := store[d].results[fired := res])];
      if cb && store[d].paused > 0 {
        assert res.d in old(Unowned()) && res.d !in Unowned();
        Asked(call, home, h, store, d, busy, res.d);
        AddBoth(res.d, d, busy);
        Chains(call, home, h, store, d, busy, res.d);
        store := store[res.d := store[res.d].(chained := true)];
      }
    }

    /** `addCallbacks`; it throws on a Deferred that another one waits for. */
    method AddCallbacks(d: Id, p: Pair) returns (thrown: bool)
      requires Inv() && d < |store| == |h.log|
      requires UserPair(p) && PairHome(call, home, p, d, |h.log[d]|, |h.log|)
      modifies this
      ensures Inv() && thrown == old(store)[d].chained
      ensures thrown ==> store == old(store) && h == old(h)
      ensures !thrown ==> h.given == old(h).given && h.log == old(h).log[d := old(h).log[d] + [p]]
    {
      hide FiringAt, Running, Settled, Ordered, LogHome, Fold, Fired;
      assert CellOk(call, home, h, d, store[d]);
      if store[d].chained {
        return true;
      }
      Pushes(call, home, h, store, d, p);
      ghost var outcome := Fold(call, h, d, Delivered(h));
      ghost var n := |h.log[d]|;
      store := store[d := store[d].(chain := store[d].chain + [p])];
      h := h.(log := h.log[d := h.log[d] + [p]]);
      if store[d].fired >= 0 {
        Fire(d, {}, n, if outcome.Done? then outcome.v else Undefined);
        if outcome.Done? {
          FiredIsOk(call, home, h, store, d, {});
        }
      }
      return false;
    }

    /** `callback`; it throws on a second call and on a Deferred. */
    method Callback(d: Id, res: Given) returns (thrown: bool)
      requires Inv() && d < |store| == |h.log|
      modifies this
      ensures Inv() && thrown == (old(h).given[d].Some? || res.ADeferred?)
      ensures thrown ==> store == old(store) && h == old(h)
      ensures !thrown ==> h.log == old(h).log && h.given == old(h).given[d := Some(res.v)]
    {
      hide FiringAt, Running, Settled, Ordered, LogHome, Fired;
      assert CellOk(call, home, h, d, store[d]);
      if store[d].fired != -1 || res.ADeferred? {
        return true;
      }
      Gives(call, home, h, store, d, res.v);
      h := h.(given := h.given[d := Some(res.v)]);
      Resback(d, res.v, {}, 0);
      FiredIsOk(call, home, h, store, d, {});
      return false;
    }

    /** `errback`; a value that is no Error is wrapped. */
    method Errback(d: Id, res: Given) returns (thrown: bool)
      requires Inv() && d < |store| == |h.log|
      modifies this
      ensures Inv() && thrown == (old(h).given[d].Some? || res.ADeferred?)
      ensures thrown ==> store == old(store) && h == old(h)
      ensures !thrown ==> h.log == old(h).log
      ensures !thrown ==> var e := if res.v.Error? || res.v.GenericError? then res.v else GenericError(res.v);
        h.given == old(h).given[d := Some(e)]
    {
      hide FiringAt, Running, Settled, Ordered, LogHome, Fired;
      assert CellOk(call, home, h, d, store[d]);
      if store[d].fired != -1 || res.ADeferred? {
        return true;
      }
      var e := if IsError(res.v) then res.v else GenericError(res.v);
      Gives(call, home, h, store, d, e);
      h := h.(given := h.given[d := Some(e)]);
      Resback(d, e, {}, 0);
      FiredIsOk(call, home, h, store, d, {});
      return false;
    }
  }

  lemma Pushes(call: Calls, home: Homes, h: History, store: seq<Cell>, d: Id, p: Pair)
    requires Valid(call, home, h, None) && StoreOk(call, home, h, store, {}) && d < |store| && !store[d].chained
    requires UserPair(p) && PairHome(call, home, p, d, |h.log[d]|, |h.log|)
    ensures CellOk(call, home, h, d, store[d])
    ensures var g := h.(log := h.log[d := h.log[d] + [p]]);
      var s := store[d := store[d].(chain := store[d].chain + [p])];
      match Fold(call, h, d, Delivered(h))
      case Done(v) => Running(call, home, g, s, d, {}, |h.log[d]|, v) && Holds(store[d], Side(v), Val(v), [])
      case _ => Valid(call, home, g, None) && StoreOk(call, home, g, s, {})
  {
    hide Settled, Ordered, LogHome, FiringAt;
    assert CellOk(call, home, h, d, store[d]);
    AddsPair(call, home, h, d, p);
    var g := h.(log := h.log[d := h.log[d] + [p]]);
    var s := store[d := store[d].(chain := store[d].chain + [p])];
    forall e: Id | e < |s| && e != d ensures CellOk(call, home, g, e, s[e]) {
      assert CellOk(call, home, h, e, store[e]);
    }
    match Fold(call, h, d, Delivered(h))
    case Done(v) => assert g.log[d][|h.log[d]|..] == [p];
    case Stuck(i, next) =>
      assert g.log[d][next..] == h.log[d][next..] + [p];
      assert CellOk(call, home, g, d, s[d]);
    case Unfired =>
      assert CellOk(call, home, g, d, s[d]);
  }

  lemma Gives(call: Calls, home: Homes, h: History, store: seq<Cell>, d: Id, v: Value)
    requires Valid(call, home, h, None) && StoreOk(call, home, h, store, {}) && d < |store| && h.given[d] == None
    ensures store[d].paused == 0 && |store[d].results| == 2 && (store[d].chained <==> d in h.owned)
    ensures Running(call, home, h.(given := h.given[d := Some(v)]), store, d, {}, 0, v)
  {
    hide Settled, Ordered, LogHome;
    assert CellOk(call, home, h, d, store[d]);
    GivesResult(call, home, h, d, v);
    var g := h.(given := h.given[d := Some(v)]);
    assert g.log[d][0..] == g.log[d];
    forall e: Id | e < |store| && e != d ensures CellOk(call, home, g, e, store[e]) {
      assert CellOk(call, home, h, e, store[e]);
    }
  }

  lemma FiredIsOk(call: Calls, home: Homes, h: History, store: seq<Cell>, e: Id, busy: set<Id>)
    requires Fired(call, home, h, store, e, busy) && e < |store| && (store[e].chained <==> e in h.owned)
    ensures Valid(call, home, h, None) && StoreOk(call, home, h, store, busy)
  {
    forall f: Id | f < |store| && f !in busy ensures CellOk(call, home, h, f, store[f]) {
      if f != e {
        assert f !in busy + {e};
      }
    }
  }

  /** Once `i` is marked as chained, `d` waits for it in good order. */
  lemma Chains(call: Calls, home: Homes, h: History, store: seq<Cell>, d: Id, busy: set<Id>, i: Id)
    requires Fired(call, home, h, store, i, busy) && i in h.owned && d !in busy && d < |store| && i < |store|
    ensures var s := store[i := store[i].(chained := true)];
      Fired(call, home, h, s, d, busy) && (s[d].chained <==> d in h.owned)
  {
    hide Settled, Ordered, LogHome, Fold;
    var s := store[i := store[i].(chained := true)];
    assert CellOk(call, home, h, i, s[i]);
    forall e: Id | e < |s| && e !in busy ensures CellOk(call, home, h, e, s[e]) {
      if e != i {
        assert CellOk(call, home, h, e, store[e]);
      }
    }
  }

  lemma RunningStored(call: Calls, home: Homes, h: History, store: seq<Cell>, d: Id, busy: set<Id>, p: nat, r: Value,
                      fired: nat, res: Slot)
    requires Running(call, home, h, store, d, busy, p, r) && d < |store| && |store[d].results| == 2 && fired < 2
    ensures Running(call, home, h, Stored(store, d, fired, res), d, busy, p, r)
  {
    hide FiringAt, Settled, Ordered, LogHome, Fold;
    var s := Stored(store, d, fired, res);
    forall e: Id | e < |s| && e !in busy + {d} ensures CellOk(call, home, h, e, s[e]) {
      assert CellOk(call, home, h, e, store[e]);
    }
  }

  lemma ResumesRunning(call: Calls, home: Homes, h: History, store: seq<Cell>, e: Id, busy: set<Id>, next: nat,
                       r: Value)
    requires Resuming(call, home, h, store, e, busy, next, r) && e < |store| && |store[e].results| == 2
    ensures e !in busy && (store[e].chained <==> e in h.owned)
    ensures var s := Stored(store, e, Side(r), Val(r));
      Running(call, home, h, s[e := s[e].(paused := 0)], e, busy, next, r)
  {
    hide FiringAt, Settled, Ordered, LogHome, Fold;
    var s := Stored(store, e, Side(r), Val(r))[e := Stored(store, e, Side(r), Val(r))[e].(paused := 0)];
    forall f: Id | f < |s| && f !in busy + {e} ensures CellOk(call, home, h, f, s[f]) {
      assert CellOk(call, home, h, f, store[f]);
    }
  }

  /** `i` gets the closure: it fires if it has an outcome already. */
  lemma Asked(call: Calls, home: Homes, h: History, store: seq<Cell>, d: Id, busy: set<Id>, i: Id)
    requires Asking(call, home, h, store, d, busy, i)
    ensures i < |store| == |h.log| && Shaped(h) && |store[i].results| == 2 && i !in busy && i in h.owned &&
      !store[i].chained
    ensures var s := store[i := store[i].(chain := store[i].chain + [ResumePair(d)])];
      match Fold(call, h, i, Delivered(h))
      case Done(v) =>
        Running(call, home, h, s, i, busy, |h.log[i]|, v) && Holds(store[i], Side(v), Val(v), []) &&
        store[i].paused == 0
      case Unfired => Fired(call, home, h, s, i, busy) && store[i].fired == -1
      case Stuck(_, _) => Fired(call, home, h, s, i, busy) && store[i].fired == 0 && store[i].paused == 1
  {
    hide Valid, FiringAt, LogHome, Fold;
    var s := store[i := store[i].(chain := store[i].chain + [ResumePair(d)])];
    assert Tail(home, h, i) == [ResumePair(d)];
    if Fold(call, h, i, Delivered(h)).Stuck? {
      var next := Fold(call, h, i, Delivered(h)).next;
      assert s[i].chain == h.log[i][next..] + Tail(home, h, i);
    } else if Fold(call, h, i, Delivered(h)).Done? {
      assert h.log[i][|h.log[i]|..] == [];
      assert s[i].chain == [] + [ResumePair(d)];
    }
    forall e: Id | e < |s| && e !in busy + {i} ensures CellOk(call, home, h, e, s[e]) {
      assert CellOk(call, home, h, e, store[e]);
    }
  }

  lemma IsResumed(call: Calls, home: Homes, h: History, store: seq<Cell>, d: Id, busy: set<Id>)
    requires Valid(call, home, h, None) && d in Delivered(h) && StoreOk(call, home, h, store, busy + {d})
    requires d < |store| && store[d].paused == 0 && store[d].chain == [] && |store[d].results| == 2
    ensures Resumed(call, home, h, store, d, busy)
  {
  }

  lemma DuringResume(call: Calls, home: Homes, h: History, store: seq<Cell>, e: Id, busy: set<Id>, next: nat, r: Value)
    requires Resuming(call, home, h, store, e, busy, next, r)
    ensures |store| == |h.log| && e < |store| && store[e].paused == 1 && |store[e].results| == 2
  {
  }

  lemma DuringRun(call: Calls, home: Homes, h: History, store: seq<Cell>, d: Id, busy: set<Id>, p: nat, r: Value)
    requires Running(call, home, h, store, d, busy, p, r)
    ensures |store| == |h.log| && d < |store| && store[d].paused == 0 && |store[d].results| == 2
    ensures d !in busy && d !in Delivered(h)
  {
  }

  lemma {:induction false} StaysDelivered(g: History, h: History, d: Id)
    requires Grown(g, h) && d in Delivered(h)
    ensures d in Delivered(g)
    decreases |g.order| - |h.order|
  {
    if |g.order| > |h.order| {
      StaysDelivered(g.(order := g.order[..|g.order| - 1]), h, d);
    } else {
      assert g.order == h.order;
    }
  }
}