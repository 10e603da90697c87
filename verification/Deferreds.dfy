/** What a set of Deferreds of MochiKit.Async should compute: every Deferred has the pairs
    that were added to it and the result that it was given, and its outcome is the fold of
    the one over the other, where a returned Deferred stands for its own outcome. */
module Deferreds {
  import opened Text

  type Id = nat

  datatype Value = Undefined | Plain(n: int) | Error(code: int) | GenericError(message: Value)

  /** `v instanceof Error`. */
  predicate IsError(v: Value) {
    v.Error? || v.GenericError?
  }

  /** The index of a result: 0 for success, 1 for failure. */
  function Side(v: Value): nat {
    if IsError(v) then 1 else 0
  }

  /** An exception as the chain sees it. */
  function AsError(v: Value): (e: Value)
    ensures IsError(e)
  {
    if IsError(v) then v else GenericError(v)
  }

  /** What a callback can do. */
  datatype Outcome = Returns(v: Value) | Throws(v: Value) | Defers(d: Id)

  type Calls = (nat, Value) -> Outcome

  /** A function in a chain: one of the program, or the closure that resumes Deferred `d`. */
  datatype Fn = User(f: nat) | Resume(d: Id)

  datatype Pair = Pair(cb: Option<Fn>, eb: Option<Fn>)

  predicate UserFn(f: Option<Fn>) {
    f.Some? ==> f.value.User?
  }

  predicate UserPair(p: Pair) {
    UserFn(p.cb) && UserFn(p.eb)
  }

  function Pick(p: Pair, r: Value): Option<Fn> {
    if IsError(r) then p.eb else p.cb
  }

  datatype Applied = Now(v: Value) | Later(d: Id)

  /** One pair of the chain applied to a result. */
  function Apply(call: Calls, p: Pair, r: Value): Applied {
    match Pick(p, r)
    case Some(User(f)) =>
      (match call(f, r)
       case Returns(v) => Now(v)
       case Throws(v) => Now(AsError(v))
       case Defers(d) => Later(d))
    case _ => Now(r)
  }

  // The fold.

  datatype Progress = Unfired | Done(v: Value) | Stuck(d: Id, next: nat)

  /** The left fold of `log[k..]` over `r`, where a returned Deferred stands for its outcome
      in `m`; it stops at one that has none, before pair `next`. */
  function Eval(call: Calls, log: seq<Pair>, k: nat, r: Value, m: map<Id, Value>): (p: Progress)
    requires k <= |log|
    ensures !p.Unfired?
    ensures p.Stuck? ==> p.d !in m && k < p.next <= |log|
    decreases |log| - k
  {
    if k == |log| then Done(r)
    else match Apply(call, log[k], r)
         case Now(v) => Eval(call, log, k + 1, v, m)
         case Later(d) => if d in m then Eval(call, log, k + 1, m[d], m) else Stuck(d, k + 1)
  }

  /** The Deferreds that the fold has returned. */
  function Touched(call: Calls, log: seq<Pair>, k: nat, r: Value, m: map<Id, Value>): set<Id>
    requires k <= |log|
    decreases |log| - k
  {
    if k == |log| then {}
    else match Apply(call, log[k], r)
         case Now(v) => Touched(call, log, k + 1, v, m)
         case Later(d) => {d} + if d in m then Touched(call, log, k + 1, m[d], m) else {}
  }

  ghost predicate Extends(n: map<Id, Value>, m: map<Id, Value>) {
    forall d :: d in m ==> d in n && n[d] == m[d]
  }

  /** More outcomes change nothing of what was already decided. */
  lemma {:induction false} EvalMonotone(call: Calls, log: seq<Pair>, k: nat, r: Value, m: map<Id, Value>,
                                        n: map<Id, Value>)
    requires k <= |log| && Extends(n, m)
    ensures Touched(call, log, k, r, m) <= Touched(call, log, k, r, n)
    ensures var p := Eval(call, log, k, r, m);
      (p.Stuck? && p.d in n) ||
      (Eval(call, log, k, r, n) == p && Touched(call, log, k, r, n) == Touched(call, log, k, r, m))
    decreases |log| - k
  {
    if k < |log| {
      match Apply(call, log[k], r)
      case Now(v) => EvalMonotone(call, log, k + 1, v, m, n);
      case Later(d) =>
        if d in m {
          EvalMonotone(call, log, k + 1, m[d], m, n);
        }
    }
  }

  /** The outcome that a fold was waiting for lets it go on. */
  lemma {:induction false} EvalResumes(call: Calls, log: seq<Pair>, k: nat, r: Value, m: map<Id, Value>, v: Value)
    requires k <= |log| && Eval(call, log, k, r, m).Stuck?
    ensures var p := Eval(call, log, k, r, m); var n := m[p.d := v];
      p.d in Touched(call, log, k, r, m) &&
      Eval(call, log, k, r, n) == Eval(call, log, p.next, v, n) &&
      Touched(call, log, k, r, n) == Touched(call, log, k, r, m) + Touched(call, log, p.next, v, n)
    decreases |log| - k
  {
    match Apply(call, log[k], r)
    case Now(w) => EvalResumes(call, log, k + 1, w, m, v);
    case Later(d) =>
      if d in m {
        EvalResumes(call, log, k + 1, m[d], m, v);
      }
  }

  /** A pair added at the end goes on where the fold stands. */
  lemma {:induction false} EvalAppend(call: Calls, log: seq<Pair>, p: Pair, k: nat, r: Value, m: map<Id, Value>)
    requires k <= |log|
    ensures Touched(call, log, k, r, m) <= Touched(call, log + [p], k, r, m)
    ensures match Eval(call, log, k, r, m)
      case Done(v) =>
        Eval(call, log + [p], k, r, m) == Eval(call, log + [p], |log|, v, m) &&
        Touched(call, log + [p], k, r, m) == Touched(call, log, k, r, m) + Touched(call, log + [p], |log|, v, m)
      case stuck =>
        Eval(call, log + [p], k, r, m) == stuck &&
        Touched(call, log + [p], k, r, m) == Touched(call, log, k, r, m)
    decreases |log| - k
  {
    if k < |log| {
      assert (log + [p])[k] == log[k];
      match Apply(call, log[k], r)
      case Now(v) => EvalAppend(call, log, p, k + 1, v, m);
      case Later(d) =>
        if d in m {
          EvalAppend(call, log, p, k + 1, m[d], m);
        }
    }
  }

  /** The fold of a whole log is the fold of its first `n` pairs, and goes on from there. */
  lemma {:induction false} EvalPrefix(call: Calls, log: seq<Pair>, n: nat, k: nat, r: Value, m: map<Id, Value>)
    requires k <= n <= |log|
    ensures Touched(call, log[..n], k, r, m) <= Touched(call, log, k, r, m)
    ensures match Eval(call, log[..n], k, r, m)
      case Done(v) => Eval(call, log, k, r, m) == Eval(call, log, n, v, m)
      case stuck => Eval(call, log, k, r, m) == stuck
    decreases n - k
  {
    if k < n {
      match Apply(call, log[k], r)
      case Now(v) => EvalPrefix(call, log, n, k + 1, v, m);
      case Later(d) =>
        if d in m {
          EvalPrefix(call, log, n, k + 1, m[d], m);
        }
    }
  }

  // No Deferred is returned twice.

  /** `home(d)` is the only place that may return `d`: a Deferred and a position in its log. */
  type Homes = Id -> (Id, nat)

  ghost predicate PairHome(call: Calls, home: Homes, p: Pair, d: Id, k: nat, n: nat) {
    forall r :: Apply(call, p, r).Later? ==> Apply(call, p, r).d < n && home(Apply(call, p, r).d) == (d, k)
  }

  ghost predicate LogHome(call: Calls, home: Homes, log: seq<Pair>, d: Id, n: nat) {
    forall k: nat :: k < |log| ==> UserPair(log[k]) && PairHome(call, home, log[k], d, k, n)
  }

  lemma {:induction false} TouchedHome(call: Calls, home: Homes, log: seq<Pair>, d: Id, n: nat, k: nat, r: Value,
                                       m: map<Id, Value>)
    requires k <= |log| && LogHome(call, home, log, d, n)
    ensures forall i :: i in Touched(call, log, k, r, m) ==> i < n && home(i).0 == d && k <= home(i).1 < |log|
    ensures var p := Eval(call, log, k, r, m); p.Stuck? ==> p.d in Touched(call, log, k, r, m)
    decreases |log| - k
  {
    if k < |log| {
      assert PairHome(call, home, log[k], d, k, n);
      match Apply(call, log[k], r)
      case Now(v) => TouchedHome(call, home, log, d, n, k + 1, v, m);
      case Later(i) =>
        if i in m {
          TouchedHome(call, home, log, d, n, k + 1, m[i], m);
        }
    }
  }
}
