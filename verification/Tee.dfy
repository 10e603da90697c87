/** `tee` of MochiKit.Iter: several readers of one iterator share a buffer of the items that
    some of them have yet to read. */
module Tee {
  import opened Text

  /** The shared record; positions count from -1. */
  datatype Sync<T> = Sync(pos: seq<int>, deque: seq<T>, min: int, max: int)

  // listMin.

  ghost predicate IsLeast(m: int, s: seq<int>) {
    m in s && forall k :: 0 <= k < |s| ==> m <= s[k]
  }

  /** `listMinMax(which, lst)` on numbers: the least for -1, the greatest for 1. */
  method ListMinMax(which: int, lst: seq<int>) returns (r: Option<int>)
    requires which == -1 || which == 1
    ensures r == None <==> lst == []
    ensures r.Some? ==> r.value in lst && forall k :: 0 <= k < |lst| ==> which * lst[k] <= which * r.value
  {
    if lst == [] {
      return None;
    }
    var cur := lst[0];
    for i := 1 to |lst|
      invariant cur in lst && forall k :: 0 <= k < i ==> which * lst[k] <= which * cur
    {
      var o := lst[i];
      if Compare(o, cur) == which {
        cur := o;
      }
    }
    return Some(cur);
  }

  /** `compare` on numbers. */
  function Compare(a: int, b: int): int {
    if a == b then 0 else if a < b then -1 else 1
  }

  // Readers that never share anything: the reference.

  /** How often reader `j` was called. */
  function Calls(schedule: seq<nat>, j: nat): nat {
    if schedule == [] then 0
    else Calls(schedule[..|schedule| - 1], j) + if schedule[|schedule| - 1] == j then 1 else 0
  }

  /** The item that a call of reader `j` yields after `schedule`: its next of the source, or
      StopIteration. */
  function NextItem<T>(source: seq<T>, schedule: seq<nat>, j: nat): Option<T> {
    if Calls(schedule, j) < |source| then Some(source[Calls(schedule, j)]) else None
  }

  /** Every reader stands where its own calls have brought it. */
  predicate Placed(pos: seq<int>, length: nat, schedule: seq<nat>) {
    forall j :: 0 <= j < |pos| ==> pos[j] == Min(Calls(schedule, j), length) - 1
  }

  /** The buffer holds the items after the slowest reader up to the fastest; a single reader
      keeps everything. */
  predicate Window<T(==)>(s: Sync<T>, source: seq<T>) {
    -1 <= s.min <= s.max < |source| && s.deque == source[s.min + 1..s.max + 1] && Bounds(s.pos, s.min, s.max)
  }

  /** The fastest reader is at `max` and the slowest of several at `min`. */
  predicate Bounds(pos: seq<int>, min: int, max: int) {
    (forall j :: 0 <= j < |pos| ==> min <= pos[j] <= max) &&
    (if pos == [] then max == -1 else max in pos) &&
    (if |pos| >= 2 then min in pos else min == -1)
  }

  ghost predicate Represents<T>(s: Sync<T>, source: seq<T>, n: nat, schedule: seq<nat>) {
    |s.pos| == n && Placed(s.pos, |source|, schedule) && Window(s, source)
  }

  /** The slowest of several readers is where the buffer begins, so nothing is kept that
      every reader has had; with a single reader everything is kept. */
  lemma BufferIsMinimal<T>(s: Sync<T>, source: seq<T>, n: nat, schedule: seq<nat>)
    requires Represents(s, source, n, schedule) && n > 0
    ensures (IsLeast(s.min, s.pos) && |s.deque| == s.max - s.min) <==> (n >= 2 || s.max == -1)
    ensures n == 1 ==> s.deque == source[..s.max + 1]
  {
    if n == 1 && s.max > -1 {
      assert s.pos[0] == s.max;
    }
  }

  lemma Moves(pos: seq<int>, length: nat, schedule: seq<nat>, ident: nat)
    requires Placed(pos, length, schedule) && ident < |pos|
    ensures pos[ident] + 1 < length ==>
      Calls(schedule, ident) == pos[ident] + 1 && Placed(pos[ident := pos[ident] + 1], length, schedule + [ident])
    ensures pos[ident] + 1 >= length ==> Calls(schedule, ident) >= length && Placed(pos, length, schedule + [ident])
  {
    assert (schedule + [ident])[..|schedule|] == schedule;
  }

  /** The shared record after a call that is answered from the buffer. */
  function AfterRead<T>(s: Sync<T>, ident: nat, least: int): Sync<T>
    requires ident < |s.pos| && |s.deque| > 0
  {
    var pos := s.pos[ident := s.pos[ident] + 1];
    if s.pos[ident] == s.min && least != s.min then Sync(pos, s.deque[1..], s.min + 1, s.max) else s.(pos := pos)
  }

  lemma KeepsWindow<T>(s: Sync<T>, source: seq<T>, ident: nat, least: int)
    requires Window(s, source) && ident < |s.pos| && s.pos[ident] < s.max
    requires IsLeast(least, s.pos[ident := s.pos[ident] + 1])
    ensures |s.deque| > 0 && Window(AfterRead(s, ident, least), source)
  {
    BoundsAt(s.pos, s.min, s.max, ident);
    hide Bounds;
    KeepsBounds(s.pos, s.min, s.max, ident, least);
  }

  lemma BoundsAt(pos: seq<int>, min: int, max: int, j: nat)
    requires Bounds(pos, min, max) && j < |pos|
    ensures min <= pos[j] <= max
  {
  }

  lemma KeepsBounds(pos: seq<int>, min: int, max: int, ident: nat, least: int)
    requires Bounds(pos, min, max) && ident < |pos| && pos[ident] < max
    requires IsLeast(least, pos[ident := pos[ident] + 1])
    ensures Bounds(pos[ident := pos[ident] + 1], if pos[ident] == min && least != min then min + 1 else min, max)
  {
    var after := pos[ident := pos[ident] + 1];
    var m :| 0 <= m < |pos| && pos[m] == max;
    assert after[m] == max;
    if |pos| >= 2 {
      var k :| 0 <= k < |pos| && pos[k] == min;
      if pos[ident] == min && least != min {
        assert forall j :: 0 <= j < |after| ==> least <= after[j];
        assert after[ident] == min + 1;
      } else if k == ident {
        assert least == min;
      } else {
        assert after[k] == min;
      }
    }
  }

  /** A call that is answered from the buffer. */
  lemma Reads<T>(s: Sync<T>, source: seq<T>, n: nat, schedule: seq<nat>, ident: nat, least: int)
    requires Represents(s, source, n, schedule) && ident < n && s.pos[ident] < s.max
    requires IsLeast(least, s.pos[ident := s.pos[ident] + 1])
    ensures |s.deque| > 0 && Represents(AfterRead(s, ident, least), source, n, schedule + [ident])
    ensures Some(s.deque[s.pos[ident] - s.min]) == NextItem(source, schedule, ident)
  {
    hide Placed, IsLeast;
    Moves(s.pos, |source|, schedule, ident);
    KeepsWindow(s, source, ident, least);
  }

  /** The shared record after a call of a fastest reader has taken the next item. */
  function AfterTake<T>(s: Sync<T>, ident: nat, item: T): Sync<T>
    requires ident < |s.pos|
  {
    Sync(s.pos[ident := s.max + 1], s.deque + [item], s.min, s.max + 1)
  }

  lemma WidensWindow<T>(s: Sync<T>, source: seq<T>, ident: nat)
    requires Window(s, source) && ident < |s.pos| && s.pos[ident] == s.max && s.max + 1 < |source|
    ensures Window(AfterTake(s, ident, source[s.max + 1]), source)
  {
    hide Bounds;
    WidensBounds(s.pos, s.min, s.max, ident);
    assert s.deque + [source[s.max + 1]] == source[s.min + 1..s.max + 2];
  }

  lemma WidensBounds(pos: seq<int>, min: int, max: int, ident: nat)
    requires Bounds(pos, min, max) && ident < |pos| && pos[ident] == max
    ensures Bounds(pos[ident := max + 1], min, max + 1)
  {
    var after := pos[ident := max + 1];
    assert after[ident] == max + 1;
    if |pos| >= 2 {
      var k :| 0 <= k < |pos| && pos[k] == min;
      if k == ident {
        var other := if ident == 0 then 1 else 0;
        assert min <= pos[other] <= max;
        assert after[other] == min;
      } else {
        assert after[k] == min;
      }
    }
  }

  /** A call of a fastest reader takes the next item of the iterator. */
  lemma Takes<T>(s: Sync<T>, source: seq<T>, n: nat, schedule: seq<nat>, ident: nat)
    requires Represents(s, source, n, schedule) && ident < n && s.pos[ident] == s.max
    ensures var next := s.max + 1;
      NextItem(source, schedule, ident) == (if next < |source| then Some(source[next]) else None) &&
      Represents(if next < |source| then AfterTake(s, ident, source[next]) else s, source, n, schedule + [ident])
  {
    hide Placed;
    Moves(s.pos, |source|, schedule, ident);
    if s.max + 1 < |source| {
      WidensWindow(s, source, ident);
    }
  }

  /** The source and the shared record of one call of `tee`. */
  class Readers<T> {
    const source: seq<T>
    var taken: nat
    var pos: seq<int>
    var deque: seq<T>
    var min: int
    var max: int
    ghost const n: nat
    ghost var schedule: seq<nat>

    ghost predicate Valid()
      reads this
    {
      Represents(Sync(pos, deque, min, max), source, n, schedule) && taken == max + 1
    }

    /** `tee(iterable, n)`, with `pos` filled by one turn of the loop for each reader. */
    constructor (source: seq<T>, n: nat)
      ensures Valid() && this.source == source && this.n == n && schedule == []
    {
      this.source, this.n, schedule, taken := source, n, [], 0;
      pos, deque, max, min := [], [], -1, -1;
      new;
      for i := 0 to n
        invariant pos == seq(i, _ => -1)
        invariant deque == [] && max == -1 && min == -1 && taken == 0 && schedule == []
      {
        pos := pos + [-1];
      }
      assert n > 0 ==> pos[0] == -1;
    }

    /** The iterator that is shared: it yields its items once. */
    method IterableNext() returns (r: Option<T>)
      modifies this`taken
      ensures r == if old(taken) < |source| then Some(source[old(taken)]) else None
      ensures taken == if r.Some? then old(taken) + 1 else old(taken)
    {
      if taken < |source| {
        taken := taken + 1;
        return Some(source[taken - 1]);
      }
      return None;
    }

    /** `next` of reader `ident`. */
    method Next(ident: nat) returns (rval: Option<T>)
      requires Valid() && ident < n
      modifies this
      ensures Valid() && schedule == old(schedule) + [ident]
      ensures rval == NextItem(source, old(schedule), ident)
    {
      hide Represents, NextItem;
      Inside(Sync(pos, deque, min, max), source, n, schedule, ident);
      ghost var before := Sync(pos, deque, min, max);
      var i := pos[ident];
      if i == max {
        Takes(before, source, n, schedule, ident);
        rval := IterableNext();
        schedule := schedule + [ident];
        if rval == None {
          return;
        }
        deque := deque + [rval.value];
        max := max + 1;
        pos := pos[ident := pos[ident] + 1];
      } else {
        rval := Some(deque[i - min]);
        pos := pos[ident := pos[ident] + 1];
        var least := ListMinMax(-1, pos);
        if i == min && least != Some(min) {
          min := min + 1;
          deque := deque[1..];
        }
        Reads(before, source, n, schedule, ident, least.value);
        schedule := schedule + [ident];
      }
    }
  }

  lemma Inside<T>(s: Sync<T>, source: seq<T>, n: nat, schedule: seq<nat>, ident: nat)
    requires Represents(s, source, n, schedule) && ident < n
    ensures |s.pos| == n && s.min <= s.pos[ident] <= s.max < |source| && |s.deque| == s.max - s.min && -1 <= s.max
  {
  }
}
