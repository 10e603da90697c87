/** DeferredList, gatherResults and DeferredLock of MochiKit.Async. The members of a list are
    seen through the one resolution of each: its position, success or failure, and result. */
module DeferredList {
  import opened Text
  import opened Deferreds

  datatype Event = Event(index: nat, succeeded: bool, result: Value)

  type Entry = Option<(bool, Value)>

  /** What a list fires with. */
  datatype Firing = All(results: seq<Entry>) | One(index: nat, result: Value) | Failure(error: Value)

  datatype Flags = Flags(onOneCallback: bool, onOneErrback: bool, consumeErrors: bool)

  /** A run so far: every member resolves at most once. */
  predicate Distinct(events: seq<Event>, n: nat) {
    (forall k :: 0 <= k < |events| ==> events[k].index < n) &&
    forall j, k :: 0 <= j < k < |events| ==> events[j].index != events[k].index
  }

  function EntryOf(events: seq<Event>, i: nat): Entry {
    if events == [] then None
    else
      var e := events[|events| - 1];
      if e.index == i then Some((e.succeeded, e.result)) else EntryOf(events[..|events| - 1], i)
  }

  lemma {:induction false} EntryAt(events: seq<Event>, n: nat, k: nat)
    requires Distinct(events, n) && k < |events|
    ensures EntryOf(events, events[k].index) == Some((events[k].succeeded, events[k].result))
    decreases |events|
  {
    if k < |events| - 1 {
      EntryAt(events[..|events| - 1], n, k);
    }
  }

  lemma {:induction false} NoEntry(events: seq<Event>, i: nat)
    requires forall k :: 0 <= k < |events| ==> events[k].index != i
    ensures EntryOf(events, i) == None
  {
    if events != [] {
      NoEntry(events[..|events| - 1], i);
    }
  }

  function Indices(events: seq<Event>): (s: set<nat>) {
    if events == [] then {} else Indices(events[..|events| - 1]) + {events[|events| - 1].index}
  }

  lemma {:induction false} IndexCount(events: seq<Event>, n: nat)
    requires Distinct(events, n)
    ensures |Indices(events)| == |events| && forall i :: i in Indices(events) ==> i < n
    ensures forall i :: i in Indices(events) ==> exists k :: 0 <= k < |events| && events[k].index == i
  {
    if events != [] {
      var front, last := events[..|events| - 1], events[|events| - 1].index;
      IndexCount(front, n);
      assert last !in Indices(front);
      assert Indices(events) == Indices(front) + {last};
      hide Indices, Distinct;
      forall i | i in Indices(events) ensures exists k :: 0 <= k < |events| && events[k].index == i {
        if i == last {
          assert events[|events| - 1].index == i;
        } else {
          var k :| 0 <= k < |front| && front[k].index == i;
          assert events[k].index == i;
        }
      }
    }
  }

  /** When as many members as the list has are resolved, every one is. */
  lemma AllResolved(events: seq<Event>, n: nat, i: nat) returns (k: nat)
    requires Distinct(events, n) && |events| == n && i < n
    ensures k < |events| && events[k].index == i
  {
    var seen, all := Indices(events), Below(n);
    IndexCount(events, n);
    if i !in seen {
      SubsetSize(seen, all - {i});
      assert false;
    }
    k :| 0 <= k < |events| && events[k].index == i;
  }

  function Below(n: nat): (s: set<nat>)
    ensures |s| == n && forall i: nat :: i in s <==> i < n
  {
    if n == 0 then {} else Below(n - 1) + {n - 1}
  }

  // What a list fires with.

  /** The last event of a run decides what the list fires with, if it has not fired before. */
  function Trigger(n: nat, flags: Flags, events: seq<Event>): Option<Firing>
    requires events != []
  {
    var e := events[|events| - 1];
    if e.succeeded && flags.onOneCallback then Some(One(e.index, e.result))
    else if !e.succeeded && flags.onOneErrback then Some(Failure(e.result))
    else if |events| == n then Some(All(Entries(n, events)))
    else None
  }

  function Entries(n: nat, events: seq<Event>): seq<Entry> {
    seq(n, i requires 0 <= i < n => EntryOf(events, i))
  }

  /** The firing of a list of `n` members after `events`. */
  function FiringOf(n: nat, flags: Flags, events: seq<Event>): Option<Firing> {
    if events == [] then (if n == 0 && !flags.onOneCallback then Some(All([])) else None)
    else
      var before := FiringOf(n, flags, events[..|events| - 1]);
      if before.Some? then before else Trigger(n, flags, events)
  }

  lemma {:induction false} FiringStays(n: nat, flags: Flags, events: seq<Event>, k: nat)
    requires k <= |events| && FiringOf(n, flags, events[..k]).Some?
    ensures FiringOf(n, flags, events) == FiringOf(n, flags, events[..k])
    decreases |events|
  {
    if k < |events| {
      assert events[..|events| - 1][..k] == events[..k];
      FiringStays(n, flags, events[..|events| - 1], k);
    } else {
      assert events[..k] == events;
    }
  }

  lemma {:induction false} NoFiring(n: nat, flags: Flags, events: seq<Event>)
    requires n > 0 || flags.onOneCallback
    requires forall k :: 0 < k <= |events| ==> Trigger(n, flags, events[..k]) == None
    ensures FiringOf(n, flags, events) == None
    decreases |events|
  {
    if events != [] {
      var front := events[..|events| - 1];
      forall k | 0 < k <= |front| ensures Trigger(n, flags, front[..k]) == None {
        assert front[..k] == events[..k];
      }
      NoFiring(n, flags, front);
      assert events[..|events|] == events;
    }
  }

  /** Without the fire-on-one flags a list fires exactly once, when its last member resolves,
      whatever the order: entry i tells how member i ended. */
  lemma FiresAtTheEnd(n: nat, consumeErrors: bool, events: seq<Event>)
    requires Distinct(events, n)
    ensures var f := FiringOf(n, Flags(false, false, consumeErrors), events);
      (f == None <==> |events| < n) &&
      (|events| == n ==> f.value.All? && |f.value.results| == n) &&
      (|events| == n ==> forall k :: 0 <= k < n ==>
         f.value.results[events[k].index] == Some((events[k].succeeded, events[k].result)))
    ensures |events| <= n
  {
    var flags := Flags(false, false, consumeErrors);
    NoMoreThan(events, n);
    if |events| < n {
      NoFiring(n, flags, events);
    } else if n > 0 {
      NoFiring(n, flags, events[..n - 1]);
      forall k | 0 <= k < n
        ensures Entries(n, events)[events[k].index] == Some((events[k].succeeded, events[k].result))
      {
        EntryAt(events, n, k);
      }
    }
  }

  lemma NoMoreThan(events: seq<Event>, n: nat)
    requires Distinct(events, n)
    ensures |events| <= n
  {
    IndexCount(events, n);
    SubsetSize(Indices(events), Below(n));
  }

  // gatherResults.

  /** The callback of `gatherResults`, over the entries of a list that fired with all. */
  method Gather(results: seq<Entry>) returns (ret: seq<Value>)
    requires forall i :: 0 <= i < |results| ==> results[i].Some?
    ensures |ret| == |results| && forall i :: 0 <= i < |ret| ==> ret[i] == results[i].value.1
  {
    ret := [];
    for i := 0 to |results|
      invariant |ret| == i && forall j :: 0 <= j < i ==> ret[j] == results[j].value.1
    {
      ret := ret + [results[i].value.1];
    }
  }

  const GATHER := Flags(false, true, false)

  /** When no member fails, the list that `gatherResults` builds fires at the last resolution,
      with a success for every member, in list order. */
  lemma GatherSuccess(n: nat, events: seq<Event>)
    requires Distinct(events, n) && forall k :: 0 <= k < |events| ==> events[k].succeeded
    ensures var f := FiringOf(n, GATHER, events);
      (f == None <==> |events| < n) &&
      (|events| == n ==> f.value.All? && |f.value.results| == n) &&
      (|events| == n ==> forall i :: 0 <= i < n ==> f.value.results[i].Some?) &&
      (|events| == n ==> forall k :: 0 <= k < n ==> f.value.results[events[k].index] == Some((true, events[k].result)))
  {
    NoMoreThan(events, n);
    if |events| < n {
      NoFiring(n, GATHER, events);
    } else if n > 0 {
      NoFiring(n, GATHER, events[..n - 1]);
      forall k | 0 <= k < n ensures Entries(n, events)[events[k].index] == Some((true, events[k].result)) {
        EntryAt(events, n, k);
      }
      forall i | 0 <= i < n ensures Entries(n, events)[i].Some? {
        var k := AllResolved(events, n, i);
        EntryAt(events, n, k);
      }
    }
  }

  /** The first failure fails the whole, and nothing later changes that. */
  lemma GatherFailure(n: nat, events: seq<Event>, k: nat)
    requires Distinct(events, n) && k < |events|
    requires !events[k].succeeded && forall j :: 0 <= j < k ==> events[j].succeeded
    ensures FiringOf(n, GATHER, events) == Some(Failure(events[k].result))
  {
    NoMoreThan(events, n);
    NoFiring(n, GATHER, events[..k]);
    assert events[..k + 1][..k] == events[..k];
    FiringStays(n, GATHER, events, k + 1);
  }

  /** With `fireOnOneCallback` the first success decides, unless a failure did before it. */
  lemma FirstSuccess(n: nat, flags: Flags, events: seq<Event>, k: nat)
    requires Distinct(events, n) && k < |events| && flags.onOneCallback && events[k].succeeded
    requires forall j :: 0 <= j < k ==> !events[j].succeeded
    ensures FiringOf(n, flags, events) ==
      if flags.onOneErrback && k > 0 then Some(Failure(events[0].result))
        else Some(One(events[k].index, events[k].result))
  {
    NoMoreThan(events, n);
    if flags.onOneErrback && k > 0 {
      assert events[..1] == [events[0]] && events[..1][..0] == [];
      FiringStays(n, flags, events, 1);
    } else {
      NoFiring(n, flags, events[..k]);
      assert events[..k + 1][..k] == events[..k];
      FiringStays(n, flags, events, k + 1);
    }
  }

  /** With `fireOnOneErrback` the first failure decides, unless a success did before it. */
  lemma FirstFailure(n: nat, flags: Flags, events: seq<Event>, k: nat)
    requires Distinct(events, n) && k < |events| && flags.onOneErrback && !events[k].succeeded
    requires forall j :: 0 <= j < k ==> events[j].succeeded
    ensures FiringOf(n, flags, events) ==
      if flags.onOneCallback && k > 0 then Some(One(events[0].index, events[0].result))
        else Some(Failure(events[k].result))
  {
    NoMoreThan(events, n);
    if flags.onOneCallback && k > 0 {
      assert events[..1] == [events[0]] && events[..1][..0] == [];
      FiringStays(n, flags, events, 1);
    } else {
      NoFiring(n, flags, events[..k]);
      assert events[..k + 1][..k] == events[..k];
      FiringStays(n, flags, events, k + 1);
    }
  }

  /** When no resolution decides alone, a list fires with the last one, with every entry. */
  lemma NoneDecides(n: nat, flags: Flags, events: seq<Event>)
    requires Distinct(events, n) && n > 0
    requires forall k :: 0 <= k < |events| ==>
      if events[k].succeeded then !flags.onOneCallback else !flags.onOneErrback
    ensures var f := FiringOf(n, flags, events);
      (f == None <==> |events| < n) &&
      (|events| == n ==> f.value.All? && |f.value.results| == n) &&
      (|events| == n ==> forall k :: 0 <= k < n ==>
         f.value.results[events[k].index] == Some((events[k].succeeded, events[k].result)))
  {
    NoMoreThan(events, n);
    if |events| < n {
      NoFiring(n, flags, events);
    } else {
      NoFiring(n, flags, events[..n - 1]);
      forall k | 0 <= k < n
        ensures Entries(n, events)[events[k].index] == Some((events[k].succeeded, events[k].result))
      {
        EntryAt(events, n, k);
      }
    }
  }

  // The object.

  /** The first `i` entries are what the events say. */
  predicate EntriesOk(resultList: seq<Entry>, events: seq<Event>, i: nat) {
    Distinct(events, i) && |resultList| == i && forall j :: 0 <= j < i ==> resultList[j] == EntryOf(events, j)
  }

  lemma EntryAdded(resultList: seq<Entry>, events: seq<Event>, i: nat, e: Event)
    requires EntriesOk(resultList, events, i) && e.index < i && resultList[e.index] == None
    ensures EntriesOk(resultList[e.index := Some((e.succeeded, e.result))], events + [e], i)
    ensures |events + [e]| <= i
  {
    hide EntryOf;
    forall k | 0 <= k < |events| ensures events[k].index != e.index {
      EntryAt(events, i, k);
    }
    NoMoreThan(events + [e], i);
    forall j | 0 <= j < i
      ensures resultList[e.index := Some((e.succeeded, e.result))][j] == EntryOf(events + [e], j)
    {
      EntryNext(events, e, j);
    }
  }

  lemma EntryNext(events: seq<Event>, e: Event, j: nat)
    ensures EntryOf(events + [e], j) == if j == e.index then Some((e.succeeded, e.result)) else EntryOf(events, j)
  {
    assert (events + [e])[..|events|] == events;
  }

  lemma AllEntries(resultList: seq<Entry>, events: seq<Event>, n: nat)
    requires EntriesOk(resultList, events, n)
    ensures resultList == Entries(n, events)
  {
  }

  lemma EntryOpened(resultList: seq<Entry>, events: seq<Event>, i: nat)
    requires EntriesOk(resultList, events, i)
    ensures EntriesOk(resultList + [None], events, i + 1)
  {
    NoEntry(events, i);
  }

  lemma FiringAdded(n: nat, flags: Flags, events: seq<Event>, e: Event)
    ensures FiringOf(n, flags, events + [e]) ==
      if FiringOf(n, flags, events).Some? then FiringOf(n, flags, events) else Trigger(n, flags, events + [e])
  {
    assert (events + [e])[..|events|] == events;
  }

  /** The resolutions of the members that were resolved before, in list order. */
  function Already(list: seq<Entry>, i: nat): seq<Event>
    requires i <= |list|
  {
    if i == 0 then [] else Already(list, i - 1) + Resolution(i - 1, list[i - 1])
  }

  lemma EntryCount(resultList: seq<Entry>, events: seq<Event>, i: nat)
    requires EntriesOk(resultList, events, i)
    ensures |resultList| == i
  {
  }

  lemma AlreadyNone(list: seq<Entry>)
    ensures Already(list, 0) == []
  {
  }

  lemma AlreadyStep(list: seq<Entry>, i: nat)
    requires i < |list|
    ensures Already(list, i + 1) == Already(list, i) + Resolution(i, list[i])
  {
  }

  function Resolution(i: nat, member: Entry): seq<Event> {
    if member.Some? then [Event(i, member.value.0, member.value.1)] else []
  }

  class ListOfDeferreds {
    const n: nat
    const flags: Flags
    var resultList: seq<Entry>
    var finishedCount: nat
    var fired: int
    var result: Option<Firing>
    ghost var events: seq<Event>

    /** The list is built up to member `i`, and is what its events say. */
    ghost predicate Built(i: nat)
      reads this
    {
      i <= n && EntriesOk(resultList, events, i) && finishedCount == |events| &&
      (n > 0 || flags.onOneCallback ==> result == FiringOf(n, flags, events)) &&
      (fired == -1 <==> result == None) && (fired == 1 <==> result.Some? && result.value.Failure?) && -1 <= fired <= 1
    }

    ghost predicate Valid()
      reads this
    {
      Built(n) && result == FiringOf(n, flags, events)
    }

    /** `new DeferredList(list, ...)`, where some members may be resolved already. */
    constructor (list: seq<Entry>, flags: Flags)
      ensures Valid() && this.n == |list| && this.flags == flags
      ensures resultList == list && events == Already(list, n)
    {
      n, this.flags := |list|, flags;
      resultList, finishedCount, fired, result, events := [], 0, -1, None, [];
      new;
      AddMembers(list);
      if n == 0 && !flags.onOneCallback {
        assert events == [] && resultList == [];
        fired, result := 0, Some(All(resultList));
      }
    }

    /** The loop of the constructor. */
    method AddMembers(list: seq<Entry>)
      requires n == |list| && Built(0) && events == []
      modifies this
      ensures Built(n) && resultList == list && events == Already(list, n)
    {
      hide Already, FiringOf, EntriesOk;
      AlreadyNone(list);
      EntryCount(resultList, events, 0);
      for i := 0 to |list|
        invariant Built(i) && resultList == list[..i] && events == Already(list, i)
      {
        AddMember(i, list[i]);
        AlreadyStep(list, i);
        assert list[..i + 1] == list[..i] + [list[i]];
      }
    }

    /** One turn of the constructor's loop; a member that is resolved already calls back at once. */
    method AddMember(i: nat, member: Entry)
      requires Built(i) && |resultList| == i < n
      modifies this
      ensures Built(i + 1) && resultList == old(resultList) + [member]
      ensures events == old(events) + Resolution(i, member)
    {
      hide FiringOf, EntriesOk;
      EntryOpened(resultList, events, i);
      resultList := resultList + [None];
      if member.Some? {
        var _ := CbDeferred(i, member.value.0, member.value.1, i + 1);
      }
    }

    /** `_cbDeferred`; the result that the member goes on with is null when consumed. */
    method CbDeferred(index: nat, succeeded: bool, res: Value, ghost i: nat) returns (out: Option<Value>)
      requires Built(i) && |resultList| == i && index < i && resultList[index] == None
      modifies this
      ensures Built(i) && events == old(events) + [Event(index, succeeded, res)]
      ensures resultList == old(resultList)[index := Some((succeeded, res))]
      ensures out == if !succeeded && flags.consumeErrors then None else Some(res)
    {
      ghost var e := Event(index, succeeded, res);
      hide FiringOf, EntriesOk;
      EntryAdded(resultList, events, i, e);
      FiringAdded(n, flags, events, e);
      resultList := resultList[index := Some((succeeded, res))];
      finishedCount := finishedCount + 1;
      events := events + [e];
      if fired == -1 {
        if succeeded && flags.onOneCallback {
          fired, result := 0, Some(One(index, res));
        } else if !succeeded && flags.onOneErrback {
          fired, result := 1, Some(Failure(res));
        } else if finishedCount == n {
          fired, result := 0, Some(All(resultList));
          AllEntries(resultList, events, n);
        }
      }
      return if !succeeded && flags.consumeErrors then None else Some(res);
    }
  }

  // DeferredLock.

  class DeferredLock {
    var waiting: seq<Id>
    var locked: bool
    ghost var asked: seq<Id>
    ghost var granted: seq<Id>
    ghost var released: nat

    /** The lock was granted in the order it was asked for, once more than it was released,
        or to all who asked. */
    ghost predicate Valid()
      reads this
    {
      granted + waiting == asked && released <= |granted| &&
      locked == (released < |asked|) &&
      |granted| == if locked then released + 1 else released
    }

    constructor ()
      ensures Valid() && asked == [] && released == 0
    {
      waiting, locked, asked, granted, released := [], false, [], [], 0;
    }

    /** `acquire` with the new Deferred `d`. */
    method Acquire(d: Id)
      requires Valid()
      modifies this
      ensures Valid() && asked == old(asked) + [d] && released == old(released)
      ensures granted == if old(locked) then old(granted) else old(granted) + [d]
    {
      asked := asked + [d];
      if locked {
        waiting := waiting + [d];
      } else {
        locked := true;
        granted := granted + [d];
      }
    }

    /** `release`; it throws on an unlocked lock. */
    method Release() returns (thrown: bool)
      requires Valid()
      modifies this
      ensures Valid() && thrown == !old(locked) && asked == old(asked)
      ensures released == if thrown then old(released) else old(released) + 1
      ensures granted == if !thrown && old(waiting) != [] then old(granted) + [old(waiting)[0]] else old(granted)
    {
      if !locked {
        return true;
      }
      locked := false;
      released := released + 1;
      if |waiting| > 0 {
        locked := true;
        granted := granted + [waiting[0]];
        waiting := waiting[1..];
      }
      return false;
    }
  }
}
