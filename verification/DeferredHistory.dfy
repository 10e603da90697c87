/** The history of a set of Deferreds, and what must hold of it between and during firings. */
module DeferredHistory {
  import opened Text
  import opened Deferreds

  /** The pairs added to every Deferred, the result given to it, the outcomes delivered to
      the Deferreds that waited for them, oldest first, and the Deferreds that were returned. */
  datatype History = History(log: seq<seq<Pair>>, given: seq<Option<Value>>, order: seq<(Id, Value)>, owned: set<Id>)

  function MapOf(order: seq<(Id, Value)>): map<Id, Value> {
    if order == [] then map[]
    else MapOf(order[..|order| - 1])[order[|order| - 1].0 := order[|order| - 1].1]
  }

  lemma MapOfAppend(order: seq<(Id, Value)>, d: Id, v: Value)
    ensures MapOf(order + [(d, v)]) == MapOf(order)[d := v]
  {
    assert (order + [(d, v)])[..|order|] == order;
  }

  function Delivered(h: History): map<Id, Value> {
    MapOf(h.order)
  }

  predicate Shaped(h: History) {
    |h.log| == |h.given|
  }

  /** How far Deferred `d` is, when the outcomes `m` are known. */
  function Fold(call: Calls, h: History, d: Id, m: map<Id, Value>): Progress
    requires Shaped(h) && d < |h.log|
  {
    match h.given[d]
    case None => Unfired
    case Some(r) => Eval(call, h.log[d], 0, r, m)
  }

  function Seen(call: Calls, h: History, d: Id, m: map<Id, Value>): set<Id>
    requires Shaped(h) && d < |h.log|
  {
    match h.given[d]
    case None => {}
    case Some(r) => Touched(call, h.log[d], 0, r, m)
  }

  ghost predicate Homed(call: Calls, home: Homes, h: History) {
    Shaped(h) &&
    (forall d: Id :: d < |h.log| ==> LogHome(call, home, h.log[d], d, |h.log|)) &&
    (forall i :: i in h.owned ==> i < |h.log| && home(i).0 < |h.log|)
  }

  /** The Deferreds that `d` returned are those with their home in `d`; a returned one has
      delivered its outcome as soon as it has one. */
  ghost predicate Settled(call: Calls, home: Homes, h: History, d: Id)
    requires Homed(call, home, h) && d < |h.log|
  {
    (forall i :: i in Seen(call, h, d, Delivered(h)) ==> i in h.owned) &&
    (forall i :: i in h.owned && home(i).0 == d ==> i in Seen(call, h, d, Delivered(h))) &&
    (d in h.owned && Fold(call, h, d, Delivered(h)).Done? ==> d in Delivered(h)) &&
    (d in Delivered(h) ==> d in h.owned && Fold(call, h, d, Delivered(h)) == Done(Delivered(h)[d]))
  }

  /** Every delivery used the earlier ones only. */
  ghost predicate Ordered(call: Calls, home: Homes, h: History)
    requires Homed(call, home, h)
  {
    forall k: nat :: k < |h.order| ==> DeliveryOk(call, home, h, k)
  }

  ghost predicate DeliveryOk(call: Calls, home: Homes, h: History, k: nat)
    requires Homed(call, home, h) && k < |h.order|
  {
    var (i, v) := h.order[k];
    var m := MapOf(h.order[..k]);
    i in h.owned && i !in m && Fold(call, h, i, m) == Done(v) && i in Seen(call, h, home(i).0, m)
  }

  /** The history is settled, except for the Deferred `x` that is firing. */
  ghost predicate Valid(call: Calls, home: Homes, h: History, x: Option<Id>) {
    Homed(call, home, h) && Ordered(call, home, h) &&
    forall d: Id :: d < |h.log| && x != Some(d) ==> Settled(call, home, h, d)
  }

  /** Deferred `x` has reached pair `p` of its log with result `r`. */
  ghost predicate FiringAt(call: Calls, home: Homes, h: History, x: Id, p: nat, r: Value) {
    Homed(call, home, h) && x < |h.log| && h.given[x].Some? && p <= |h.log[x]| && x !in Delivered(h) &&
    Fold(call, h, x, Delivered(h)) == Eval(call, h.log[x], p, r, Delivered(h)) &&
    (forall i :: i in h.owned && home(i).0 == x ==> home(i).1 < p && i in Seen(call, h, x, Delivered(h))) &&
    (forall i :: i in Seen(call, h, x, Delivered(h)) ==>
       i in h.owned || i in Touched(call, h.log[x], p, r, Delivered(h)))
  }

  lemma DeliveredOwned(call: Calls, home: Homes, h: History, x: Option<Id>)
    requires Valid(call, home, h, x)
    ensures forall i :: i in Delivered(h) ==> i in h.owned
  {
    MapOfKeys(h.order);
    forall i | i in Delivered(h) ensures i in h.owned {
      var k: nat :| k < |h.order| && h.order[k].0 == i;
      assert DeliveryOk(call, home, h, k);
    }
  }

  lemma {:induction false} MapOfKeys(order: seq<(Id, Value)>)
    ensures forall i :: i in MapOf(order) ==> exists k: nat :: k < |order| && order[k].0 == i
  {
    if order != [] {
      var front, last := order[..|order| - 1], order[|order| - 1];
      MapOfKeys(front);
      forall i | i in MapOf(order) ensures exists k: nat :: k < |order| && order[k].0 == i {
        if i == last.0 {
          assert order[|order| - 1].0 == i;
        } else {
          assert i in MapOf(front);
          var k: nat :| k < |front| && front[k].0 == i;
          assert order[k].0 == i;
        }
      }
    }
  }

  // The steps of a firing.

  lemma StepsOver(call: Calls, home: Homes, h: History, x: Id, p: nat, r: Value, v: Value)
    requires FiringAt(call, home, h, x, p, r) && p < |h.log[x]|
    requires Apply(call, h.log[x][p], r) == Now(v)
    ensures FiringAt(call, home, h, x, p + 1, v)
  {
  }

  /** A callback of `x` returns the Deferred `i`, and `x` begins to wait. */
  lemma StepsInto(call: Calls, home: Homes, h: History, x: Id, p: nat, r: Value, i: Id)
    requires Valid(call, home, h, Some(x)) && FiringAt(call, home, h, x, p, r) && p < |h.log[x]|
    requires Apply(call, h.log[x][p], r) == Later(i)
    ensures i < |h.log| && home(i).0 == x && i !in h.owned && i !in Delivered(h)
    ensures var g := h.(owned := h.owned + {i});
      Fold(call, g, x, Delivered(g)) == Stuck(i, p + 1) && Homed(call, home, g) && Settled(call, home, g, x) &&
      Valid(call, home, g, Some(i))
    ensures var g := h.(owned := h.owned + {i});
      match Fold(call, g, i, Delivered(g))
      case Done(v) => i != x && FiringAt(call, home, g, i, |g.log[i]|, v)
      case _ => Valid(call, home, g, None)
  {
    hide Settled, Ordered, LogHome, FiringAt, Homed, Fold, Delivered;
    IntoNew(call, home, h, x, p, r, i);
    IntoStuck(call, home, h, x, p, r, i);
    IntoOthers(call, home, h, x, i);
    IntoReturned(call, home, h, x, p, r, i);
  }

  lemma IntoNew(call: Calls, home: Homes, h: History, x: Id, p: nat, r: Value, i: Id)
    requires Valid(call, home, h, Some(x)) && FiringAt(call, home, h, x, p, r) && p < |h.log[x]|
    requires Apply(call, h.log[x][p], r) == Later(i)
    ensures x < |h.log| && i < |h.log| && home(i) == (x, p) && i !in h.owned && i !in Delivered(h)
  {
    hide Settled, Ordered, Fold, Seen, Delivered;
    DeliveredOwned(call, home, h, Some(x));
    assert PairHome(call, home, h.log[x][p], x, p, |h.log|);
  }

  lemma IntoStuck(call: Calls, home: Homes, h: History, x: Id, p: nat, r: Value, i: Id)
    requires Homed(call, home, h) && FiringAt(call, home, h, x, p, r) && p < |h.log[x]|
    requires Apply(call, h.log[x][p], r) == Later(i) && i < |h.log| && home(i) == (x, p) && i !in Delivered(h)
    ensures var g := h.(owned := h.owned + {i});
      Fold(call, g, x, Delivered(g)) == Stuck(i, p + 1) && Homed(call, home, g) && Settled(call, home, g, x)
  {
    hide LogHome;
    var g := h.(owned := h.owned + {i});
    assert Touched(call, h.log[x], p, r, Delivered(h)) == {i};
    TouchedHome(call, home, h.log[x], x, |h.log|, 0, h.given[x].value, Delivered(h));
    assert Delivered(g) == Delivered(h);
  }

  lemma IntoOthers(call: Calls, home: Homes, h: History, x: Id, i: Id)
    requires Valid(call, home, h, Some(x)) && x < |h.log| && i < |h.log| && home(i).0 == x
    ensures var g := h.(owned := h.owned + {i});
      && Homed(call, home, g) && Ordered(call, home, g)
      && forall d: Id :: d < |g.log| && d != i && d != x ==> Settled(call, home, g, d)
  {
    hide Fold, Seen, MapOf, LogHome;
    var g := h.(owned := h.owned + {i});
    HomedSame(call, home, h, i);
    forall k: nat | k < |g.order| ensures DeliveryOk(call, home, g, k) {
      assert DeliveryOk(call, home, h, k);
      FoldSame(call, h, g);
    }
    forall d: Id | d < |g.log| && d != i && d != x ensures Settled(call, home, g, d) {
      assert Settled(call, home, h, d);
      FoldSame(call, h, g);
    }
  }

  lemma HomedSame(call: Calls, home: Homes, h: History, i: Id)
    requires Homed(call, home, h) && i < |h.log| && home(i).0 < |h.log|
    ensures Homed(call, home, h.(owned := h.owned + {i}))
  {
  }

  /** Who was returned does not matter for the folds. */
  lemma FoldSame(call: Calls, h: History, g: History)
    requires Shaped(h) && g.log == h.log && g.given == h.given
    ensures forall d: Id, m: map<Id, Value> :: d < |h.log| ==> Fold(call, g, d, m) == Fold(call, h, d, m)
    ensures forall d: Id, m: map<Id, Value> :: d < |h.log| ==> Seen(call, g, d, m) == Seen(call, h, d, m)
  {
  }

  lemma IntoReturned(call: Calls, home: Homes, h: History, x: Id, p: nat, r: Value, i: Id)
    requires Valid(call, home, h, Some(x)) && FiringAt(call, home, h, x, p, r) && p < |h.log[x]|
    requires i < |h.log| && home(i) == (x, p) && i !in h.owned && i !in Delivered(h)
    requires var g := h.(owned := h.owned + {i});
      Fold(call, g, x, Delivered(g)) == Stuck(i, p + 1) && Homed(call, home, g) && Settled(call, home, g, x) &&
      Valid(call, home, g, Some(i))
    ensures var g := h.(owned := h.owned + {i});
      match Fold(call, g, i, Delivered(g))
      case Done(v) => i != x && FiringAt(call, home, g, i, |g.log[i]|, v)
      case _ => Valid(call, home, g, None)
  {
    hide LogHome, Ordered, MapOf;
    var g := h.(owned := h.owned + {i});
    FoldSame(call, h, g);
    if i != x {
      assert Settled(call, home, h, i);
    }
    if Fold(call, g, i, Delivered(g)).Done? && h.given[i].Some? {
      TouchedHome(call, home, h.log[i], i, |h.log|, 0, h.given[i].value, Delivered(h));
    }
  }

  /** `x` has run all its pairs and nobody waits for it. */
  lemma Finishes(call: Calls, home: Homes, h: History, x: Id, r: Value)
    requires Valid(call, home, h, Some(x)) && x !in h.owned
    requires x < |h.log| && FiringAt(call, home, h, x, |h.log[x]|, r)
    ensures Valid(call, home, h, None) && Fold(call, h, x, Delivered(h)) == Done(r)
  {
    assert Settled(call, home, h, x);
  }

  /** A fold that has returned a Deferred without an outcome waits for it. */
  lemma {:induction false} TouchedUndelivered(call: Calls, log: seq<Pair>, k: nat, r: Value, m: map<Id, Value>, i: Id)
    requires k <= |log| && i in Touched(call, log, k, r, m) && i !in m
    ensures Eval(call, log, k, r, m).Stuck? && Eval(call, log, k, r, m).d == i
    decreases |log| - k
  {
    match Apply(call, log[k], r)
    case Now(v) => TouchedUndelivered(call, log, k + 1, v, m, i);
    case Later(d) =>
      if d in m {
        TouchedUndelivered(call, log, k + 1, m[d], m, i);
      }
  }

  /** `x` has run all its pairs: it hands its outcome to the Deferred that returned it. */
  lemma Delivers(call: Calls, home: Homes, h: History, x: Id, r: Value)
    requires Valid(call, home, h, Some(x)) && x in h.owned && FiringAt(call, home, h, x, |h.log[x]|, r)
    ensures var e := home(x).0; var g := h.(order := h.order + [(x, r)]);
      e != x && e < |h.log| && Delivered(g) == Delivered(h)[x := r] &&
      Fold(call, h, e, Delivered(h)).Stuck? && Fold(call, h, e, Delivered(h)).d == x &&
      Fold(call, g, x, Delivered(g)) == Done(r) &&
      Valid(call, home, g, Some(e)) &&
      FiringAt(call, home, g, e, Fold(call, h, e, Delivered(h)).next, r)
    ensures forall d: Id :: d < |h.log| && d != home(x).0 ==>
      Fold(call, h.(order := h.order + [(x, r)]), d, Delivered(h.(order := h.order + [(x, r)])))
        == Fold(call, h, d, Delivered(h))
  {
    var e := home(x).0;
    var g := h.(order := h.order + [(x, r)]);
    var m := Delivered(h);
    MapOfAppend(h.order, x, r);
    if e == x {
      TouchedUndelivered(call, h.log[e], 0, h.given[e].value, m, x);
      assert false;
    }
    assert Settled(call, home, h, e);
    TouchedUndelivered(call, h.log[e], 0, h.given[e].value, m, x);
    var stuck := Fold(call, h, e, m);
    EvalResumes(call, h.log[e], 0, h.given[e].value, m, r);
    TouchedHome(call, home, h.log[e], e, |h.log|, 0, h.given[e].value, m);
    StuckHome(call, home, h.log[e], e, |h.log|, 0, h.given[e].value, m);
    forall d: Id | d < |h.log| && d != e
      ensures Fold(call, g, d, Delivered(g)) == Fold(call, h, d, m) &&
        Seen(call, g, d, Delivered(g)) == Seen(call, h, d, m)
    {
      if h.given[d].Some? {
        EvalMonotone(call, h.log[d], 0, h.given[d].value, m, Delivered(g));
        TouchedHome(call, home, h.log[d], d, |h.log|, 0, h.given[d].value, m);
      }
    }
    OrderedAppend(call, home, h, x, r);
    forall d: Id | d < |g.log| && d != e ensures Settled(call, home, g, d) {
      if d != x {
        assert Settled(call, home, h, d);
      }
    }
  }

  lemma OrderedAppend(call: Calls, home: Homes, h: History, x: Id, r: Value)
    requires Homed(call, home, h) && Ordered(call, home, h)
    requires x in h.owned && x !in Delivered(h) && x < |h.log| && Fold(call, h, x, Delivered(h)) == Done(r)
    requires x in Seen(call, h, home(x).0, Delivered(h))
    ensures Homed(call, home, h.(order := h.order + [(x, r)])) && Ordered(call, home, h.(order := h.order + [(x, r)]))
  {
    var g := h.(order := h.order + [(x, r)]);
    assert Homed(call, home, g);
    forall k: nat | k < |g.order| ensures DeliveryOk(call, home, g, k) {
      if k < |h.order| {
        assert g.order[..k] == h.order[..k];
        assert DeliveryOk(call, home, h, k);
      } else {
        assert g.order[..k] == h.order;
      }
    }
  }

  /** Whoever waits does so before the position it will go on from. */
  lemma {:induction false} StuckHome(call: Calls, home: Homes, log: seq<Pair>, d: Id, n: nat, k: nat, r: Value,
                                     m: map<Id, Value>)
    requires k <= |log| && LogHome(call, home, log, d, n) && Eval(call, log, k, r, m).Stuck?
    ensures forall i :: i in Touched(call, log, k, r, m) ==> home(i).1 < Eval(call, log, k, r, m).next
    decreases |log| - k
  {
    assert PairHome(call, home, log[k], d, k, n);
    match Apply(call, log[k], r)
    case Now(v) => StuckHome(call, home, log, d, n, k + 1, v, m);
    case Later(i) =>
      if i in m {
        StuckHome(call, home, log, d, n, k + 1, m[i], m);
      }
  }

  // What the program does to a history.

  lemma AddsPairElsewhere(call: Calls, home: Homes, h: History, d: Id, p: Pair)
    requires Valid(call, home, h, None) && d < |h.log| && d !in h.owned
    requires UserPair(p) && PairHome(call, home, p, d, |h.log[d]|, |h.log|)
    ensures Valid(call, home, h.(log := h.log[d := h.log[d] + [p]]), Some(d))
  {
    var g := h.(log := h.log[d := h.log[d] + [p]]);
    assert forall k: nat :: k < |g.log[d]| ==> g.log[d][k] == if k < |h.log[d]| then h.log[d][k] else p;
    assert LogHome(call, home, g.log[d], d, |g.log|) by {
      assert LogHome(call, home, h.log[d], d, |h.log|);
    }
    forall k: nat | k < |g.order| ensures DeliveryOk(call, home, g, k) {
      assert DeliveryOk(call, home, h, k);
      if h.given[d].Some? {
        EvalAppend(call, h.log[d], p, 0, h.given[d].value, MapOf(h.order[..k]));
      }
    }
    forall e: Id | e < |g.log| && e != d ensures Settled(call, home, g, e) {
      assert Settled(call, home, h, e);
    }
  }

  /** A pair is added to `d`: `d` fires again if it had an outcome. */
  lemma AddsPair(call: Calls, home: Homes, h: History, d: Id, p: Pair)
    requires Valid(call, home, h, None) && d < |h.log| && d !in h.owned
    requires UserPair(p) && PairHome(call, home, p, d, |h.log[d]|, |h.log|)
    ensures var g := h.(log := h.log[d := h.log[d] + [p]]);
      Homed(call, home, g) &&
      match Fold(call, h, d, Delivered(h))
      case Done(v) => Valid(call, home, g, Some(d)) && FiringAt(call, home, g, d, |h.log[d]|, v)
      case other => Valid(call, home, g, None) && Fold(call, g, d, Delivered(g)) == other
  {
    hide LogHome, DeliveryOk;
    AddsPairElsewhere(call, home, h, d, p);
    assert Settled(call, home, h, d);
    if h.given[d].Some? {
      EvalAppend(call, h.log[d], p, 0, h.given[d].value, Delivered(h));
      TouchedHome(call, home, h.log[d], d, |h.log|, 0, h.given[d].value, Delivered(h));
    }
  }

  /** `d` is given its result. */
  lemma GivesResult(call: Calls, home: Homes, h: History, d: Id, v: Value)
    requires Valid(call, home, h, None) && d < |h.log| && h.given[d] == None
    ensures var g := h.(given := h.given[d := Some(v)]);
      Valid(call, home, g, Some(d)) && FiringAt(call, home, g, d, 0, v)
  {
    var g := h.(given := h.given[d := Some(v)]);
    assert Settled(call, home, h, d);
    forall k: nat | k < |g.order| ensures DeliveryOk(call, home, g, k) {
      assert DeliveryOk(call, home, h, k);
    }
    forall e: Id | e < |g.log| && e != d ensures Settled(call, home, g, e) {
      assert Settled(call, home, h, e);
    }
  }

  /** A Deferred is constructed. */
  lemma Allocates(call: Calls, home: Homes, h: History)
    requires Valid(call, home, h, None)
    ensures Valid(call, home, h.(log := h.log + [[]], given := h.given + [None]), None)
  {
    var g := h.(log := h.log + [[]], given := h.given + [None]);
    DeliveredOwned(call, home, h, None);
    forall d: Id | d < |g.log| ensures LogHome(call, home, g.log[d], d, |g.log|) {
      if d < |h.log| {
        assert LogHome(call, home, h.log[d], d, |h.log|);
        assert forall k: nat :: k < |h.log[d]| ==> PairHome(call, home, h.log[d][k], d, k, |h.log|);
      }
    }
    forall k: nat | k < |g.order| ensures DeliveryOk(call, home, g, k) {
      assert DeliveryOk(call, home, h, k);
    }
    forall d: Id | d < |g.log| ensures Settled(call, home, g, d) {
      if d < |h.log| {
        assert Settled(call, home, h, d);
      }
    }
  }

  // The order of events does not matter.

  lemma {:induction false} DeliveriesRecur(call: Calls, home: Homes, g: History, h: History, k: nat)
    requires Valid(call, home, g, None) && Valid(call, home, h, None) && g.log == h.log && g.given == h.given
    requires k <= |g.order|
    ensures Extends(Delivered(h), MapOf(g.order[..k]))
    decreases k
  {
    if k > 0 {
      DeliveriesRecur(call, home, g, h, k - 1);
      var m := MapOf(g.order[..k - 1]);
      var (i, v) := g.order[k - 1];
      assert DeliveryOk(call, home, g, k - 1);
      assert g.order[..k] == g.order[..k - 1] + [(i, v)];
      MapOfAppend(g.order[..k - 1], i, v);
      var e := home(i).0;
      EvalMonotone(call, g.log[i], 0, g.given[i].value, m, Delivered(h));
      EvalMonotone(call, g.log[e], 0, g.given[e].value, m, Delivered(h));
      assert Settled(call, home, h, e) && Settled(call, home, h, i);
    }
  }

  /** Two histories with the same pairs and the same given results know the same outcomes,
      however their events were interleaved. */
  lemma SameOutcomes(call: Calls, home: Homes, g: History, h: History)
    requires Valid(call, home, g, None) && Valid(call, home, h, None) && g.log == h.log && g.given == h.given
    ensures Delivered(g) == Delivered(h) && g.owned == h.owned
  {
    assert g.order[..|g.order|] == g.order && h.order[..|h.order|] == h.order;
    DeliveriesRecur(call, home, g, h, |g.order|);
    DeliveriesRecur(call, home, h, g, |h.order|);
    assert Delivered(g) == Delivered(h);
    forall i ensures i in g.owned <==> i in h.owned {
      if i in g.owned {
        assert Settled(call, home, g, home(i).0) && Settled(call, home, h, home(i).0);
      }
      if i in h.owned {
        assert Settled(call, home, h, home(i).0) && Settled(call, home, g, home(i).0);
      }
    }
  }
}
