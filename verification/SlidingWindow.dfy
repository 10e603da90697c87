/** The recogniser loop (SlidingWindow.java): every tenth frame it tries windows that end at
    this frame, shortest first, on the frames since the last recognised gesture. */
module SlidingWindow {
  import opened Text
  import opened CircularBuffer
  import opened Features

  const BUFFER_SIZE: nat := 500
  const MIN_WINDOW: nat := 50
  const MAX_WINDOW: nat := 350
  const WINDOW_STEP: nat := 10

  datatype Verdict = NoMatch | MultiMatch | Command(c: nat)

  /** The classifier of a person is any function of the features. */
  type Classifier = Features -> Verdict

  /** A gesture recognised between frames `start` and `end`. */
  datatype Event = Event(start: nat, end: nat, command: nat)

  /** The window of `w` frames that ends with the history is recognised. */
  predicate Accepts(classify: Classifier, history: seq<Frame>, w: nat) {
    0 < w <= |history| && classify(FeaturesOf(history[|history| - w..])).Command?
  }

  predicate OnGrid(w: nat) {
    w % WINDOW_STEP == 0
  }

  predicate Candidate(w: nat, available: nat) {
    MIN_WINDOW <= w <= MAX_WINDOW && w <= available && OnGrid(w)
  }

  lemma GridStep(w: nat, u: nat)
    requires OnGrid(w) && w <= u && OnGrid(u)
    ensures OnGrid(w + WINDOW_STEP) && (u == w || w + WINDOW_STEP <= u)
  {
  }

  // What a run amounts to: the events of a history, without buffer and loop.

  /** The least accepted candidate from `w` on. */
  function Choice(classify: Classifier, history: seq<Frame>, available: nat, w: nat): Option<nat>
    decreases MAX_WINDOW + WINDOW_STEP - w
  {
    if w > MAX_WINDOW || w > available then None
    else if Accepts(classify, history, w) then Some(w)
    else Choice(classify, history, available, w + WINDOW_STEP)
  }

  /** The shortest window that is accepted. */
  function Shortest(classify: Classifier, history: seq<Frame>, available: nat): Option<nat> {
    Choice(classify, history, available, MIN_WINDOW)
  }

  function LastEnd(events: seq<Event>): nat {
    if events == [] then 0 else events[|events| - 1].end
  }

  function Events(classify: Classifier, history: seq<Frame>): (events: seq<Event>)
    ensures LastEnd(events) <= |history|
  {
    if history == [] then []
    else
      var before := Events(classify, history[..|history| - 1]);
      if !OnGrid(|history|) then before
      else match Shortest(classify, history, |history| - LastEnd(before))
           case None => before
           case Some(w) => before + [EventOf(classify, history, w)]
  }

  function EventOf(classify: Classifier, history: seq<Frame>, w: nat): (e: Event)
    ensures e.end == |history|
  {
    Event(if w <= |history| then |history| - w else 0, |history|,
          if Accepts(classify, history, w) then classify(FeaturesOf(history[|history| - w..])).c else 0)
  }

  /** No window of the grid from `w` on, and shorter than `c`, is accepted. */
  ghost predicate NoneBelow(classify: Classifier, history: seq<Frame>, w: nat, c: nat) {
    forall u: nat :: w <= u < c && OnGrid(u) ==> !Accepts(classify, history, u)
  }

  lemma {:induction false} ChoiceIsLeast(classify: Classifier, history: seq<Frame>, available: nat, w: nat)
    requires OnGrid(w)
    ensures match Choice(classify, history, available, w)
      case Some(c) =>
        w <= c <= MAX_WINDOW && c <= available && OnGrid(c) && Accepts(classify, history, c) &&
        NoneBelow(classify, history, w, c)
      case None => NoneBelow(classify, history, w, Min(MAX_WINDOW, available) + 1)
    decreases MAX_WINDOW + WINDOW_STEP - w
  {
    hide Accepts, OnGrid;
    if w <= MAX_WINDOW && w <= available && !Accepts(classify, history, w) {
      GridStep(w, w);
      ChoiceIsLeast(classify, history, available, w + WINDOW_STEP);
      forall u: nat | w <= u && OnGrid(u) ensures u == w || w + WINDOW_STEP <= u {
        GridStep(w, u);
      }
    }
  }

  lemma ShortestIsLeast(classify: Classifier, history: seq<Frame>, available: nat)
    ensures match Shortest(classify, history, available)
      case Some(c) => Candidate(c, available) && Accepts(classify, history, c) &&
        NoneBelow(classify, history, MIN_WINDOW, c)
      case None => NoneBelow(classify, history, MIN_WINDOW, Min(MAX_WINDOW, available) + 1)
  {
    hide Accepts, Choice, NoneBelow;
    assert OnGrid(MIN_WINDOW);
    ChoiceIsLeast(classify, history, available, MIN_WINDOW);
  }

  /** An event is the shortest window that the classifier accepts of those that end where it
      ends and begin no earlier than the previous event ended. */
  ghost predicate IsShortest(classify: Classifier, history: seq<Frame>, e: Event, previous: nat) {
    e.end <= |history| && OnGrid(e.end) && previous <= e.start < e.end &&
    Candidate(e.end - e.start, e.end - previous) &&
    classify(FeaturesOf(history[e.start..e.end])) == Command(e.command) &&
    NoneBelow(classify, history[..e.end], MIN_WINDOW, e.end - e.start)
  }

  function PreviousEnd(events: seq<Event>, k: nat): nat
    requires k <= |events|
  {
    if k == 0 then 0 else events[k - 1].end
  }

  /** In every run, the recognised windows are pairwise disjoint and in order, each is the
      shortest accepted one, and a gesture takes at least MIN_WINDOW frames of its own. */
  lemma {:induction false} EventsAreShortest(classify: Classifier, history: seq<Frame>)
    ensures var events := Events(classify, history);
      |events| * MIN_WINDOW <= LastEnd(events) <= |history| &&
      forall k :: 0 <= k < |events| ==> IsShortest(classify, history, events[k], PreviousEnd(events, k))
  {
    hide IsShortest, OnGrid, Shortest;
    if history != [] {
      var front := history[..|history| - 1];
      EventsAreShortest(classify, front);
      var before, events := Events(classify, front), Events(classify, history);
      forall k | 0 <= k < |before| ensures IsShortest(classify, history, before[k], PreviousEnd(before, k)) {
        ShortestStays(classify, history, before[k], PreviousEnd(before, k));
      }
      if events != before {
        NewEvent(classify, history, LastEnd(before));
      }
    }
  }

  lemma ShortestStays(classify: Classifier, history: seq<Frame>, e: Event, previous: nat)
    requires history != [] && IsShortest(classify, history[..|history| - 1], e, previous)
    ensures IsShortest(classify, history, e, previous)
  {
    hide Accepts, OnGrid, FeaturesOf;
    var front := history[..|history| - 1];
    assert front[e.start..e.end] == history[e.start..e.end] && front[..e.end] == history[..e.end];
  }

  lemma ShortestIs(classify: Classifier, history: seq<Frame>, e: Event, previous: nat)
    requires IsShortest(classify, history, e, previous)
    ensures previous <= e.start && e.start + MIN_WINDOW <= e.end <= |history|
  {
  }

  lemma NewEvent(classify: Classifier, history: seq<Frame>, last: nat)
    requires last <= |history| && OnGrid(|history|)
    requires Shortest(classify, history, |history| - last).Some?
    ensures var w := Shortest(classify, history, |history| - last).value;
      MIN_WINDOW <= w <= |history| - last && IsShortest(classify, history, EventOf(classify, history, w), last)
  {
    hide OnGrid, FeaturesOf, Shortest;
    ShortestIsLeast(classify, history, |history| - last);
    var w := Shortest(classify, history, |history| - last).value;
    assert history[..|history|] == history && history[|history| - w..|history|] == history[|history| - w..];
  }

  /** Whatever happened before, two events of a run share no frame. */
  lemma {:induction false} EventsDisjoint(classify: Classifier, history: seq<Frame>, j: nat, k: nat)
    requires j < k < |Events(classify, history)|
    ensures Events(classify, history)[j].end <= Events(classify, history)[k].start
    decreases k
  {
    hide IsShortest, Events;
    var events := Events(classify, history);
    EventsAreShortest(classify, history);
    ShortestIs(classify, history, events[k], PreviousEnd(events, k));
    if j < k - 1 {
      EventsDisjoint(classify, history, j, k - 1);
      ShortestIs(classify, history, events[k - 1], PreviousEnd(events, k - 1));
    }
  }

  /** Nothing is missed: a gesture is recognised at a tenth frame exactly when some candidate
      window that ends there, and does not reach into the last recognised one, is accepted. */
  lemma RecognisedIff(classify: Classifier, history: seq<Frame>)
    requires history != []
    ensures var before := Events(classify, history[..|history| - 1]);
      (Events(classify, history) != before) <==>
      (OnGrid(|history|) &&
       exists w: nat :: Candidate(w, |history| - LastEnd(before)) && Accepts(classify, history, w))
  {
    hide Accepts, OnGrid, Shortest, EventOf;
    var before := Events(classify, history[..|history| - 1]);
    var available := |history| - LastEnd(before);
    ShortestIsLeast(classify, history, available);
    var choice := Shortest(classify, history, available);
    if choice.Some? {
      assert Candidate(choice.value, available) && Accepts(classify, history, choice.value);
    }
  }

  /** In numbers: the classifier gives a command for the last w frames, for some w of 50, 60,
      ..., 350, and they leave the last recognised gesture alone. */
  predicate Wanted(classify: Classifier, history: seq<Frame>, before: seq<Event>, w: nat) {
    50 <= w <= 350 && w % 10 == 0 && w <= |history| - (if before == [] then 0 else before[|before| - 1].end) &&
    w <= |history| && classify(FeaturesOf(history[|history| - w..])).Command?
  }

  predicate LeastWanted(classify: Classifier, history: seq<Frame>, before: seq<Event>, w: nat) {
    Wanted(classify, history, before, w) && forall u: nat :: u < w ==> !Wanted(classify, history, before, u)
  }

  /** At a tenth frame the least such w makes the event, at every other frame and without
      such a w there is none, and earlier events stay. */
  lemma RecognisedWhen(classify: Classifier, history: seq<Frame>, f: Frame)
    ensures Events(classify, []) == []
    ensures var h := history + [f]; var before := Events(classify, history);
      |h| % 10 != 0 || (forall w: nat :: !LeastWanted(classify, h, before, w)) ==> Events(classify, h) == before
    ensures var h := history + [f]; var before := Events(classify, history);
      forall w: nat :: |h| % 10 == 0 && LeastWanted(classify, h, before, w) ==>
        w <= |h| && classify(FeaturesOf(h[|h| - w..])).Command? &&
        Events(classify, h) == before + [Event(|h| - w, |h|, classify(FeaturesOf(h[|h| - w..])).c)]
  {
    hide FeaturesOf, Shortest, Events, LeastWanted, OnGrid, EventOf;
    var h, before := history + [f], Events(classify, history);
    EventsNone(classify);
    EventsStep(classify, history, f);
    var choice := Shortest(classify, h, |h| - LastEnd(before));
    ChoiceIsWanted(classify, h, before);
    TenthFrame(|h|);
    if choice.Some? {
      EventIs(classify, h, before, choice.value);
    }
  }

  lemma TenthFrame(n: nat)
    ensures OnGrid(n) <==> n % 10 == 0
  {
  }

  lemma ChoiceIsWanted(classify: Classifier, history: seq<Frame>, before: seq<Event>)
    requires LastEnd(before) <= |history|
    ensures var choice := Shortest(classify, history, |history| - LastEnd(before));
      forall w: nat :: LeastWanted(classify, history, before, w) <==> choice == Some(w)
  {
    hide FeaturesOf, Shortest, Accepts;
    var available := |history| - LastEnd(before);
    var choice := Shortest(classify, history, available);
    ShortestIsLeast(classify, history, available);
    forall w: nat ensures Wanted(classify, history, before, w) <==>
      Candidate(w, available) && Accepts(classify, history, w) {
      WantedIs(classify, history, before, w);
    }
    if choice.Some? {
      assert Wanted(classify, history, before, choice.value);
    }
  }

  lemma WantedIs(classify: Classifier, history: seq<Frame>, before: seq<Event>, w: nat)
    requires LastEnd(before) <= |history|
    ensures Wanted(classify, history, before, w) <==>
      Candidate(w, |history| - LastEnd(before)) && Accepts(classify, history, w)
  {
    hide FeaturesOf;
  }

  lemma EventIs(classify: Classifier, history: seq<Frame>, before: seq<Event>, w: nat)
    requires LeastWanted(classify, history, before, w)
    ensures w <= |history| && classify(FeaturesOf(history[|history| - w..])).Command?
    ensures EventOf(classify, history, w)
         == Event(|history| - w, |history|, classify(FeaturesOf(history[|history| - w..])).c)
  {
    hide FeaturesOf;
  }

  lemma EventsNone(classify: Classifier)
    ensures Events(classify, []) == []
  {
  }

  // The status line.

  /** The changes between dropout and no dropout, starting from none. */
  function Statuses(history: seq<Frame>): seq<bool> {
    if history == [] then []
    else
      var front := history[..|history| - 1];
      var now := history[|history| - 1].dropout;
      if now != LastStatus(history[..|history| - 1]) then Statuses(front) + [now] else Statuses(front)
  }

  function LastStatus(history: seq<Frame>): bool {
    history != [] && history[|history| - 1].dropout
  }

  /** The statuses that are sent alternate, beginning with a dropout, and the last one sent
      tells the state of the last frame. */
  lemma {:induction false} StatusesAlternate(history: seq<Frame>)
    ensures forall k :: 0 <= k < |Statuses(history)| ==> Statuses(history)[k] == (k % 2 == 0)
    ensures LastStatus(history) == (|Statuses(history)| % 2 == 1)
  {
    if history != [] {
      StatusesAlternate(history[..|history| - 1]);
    }
  }

  /** The frame at `k` differs from the one before. */
  predicate Changed(history: seq<Frame>, k: nat) {
    k < |history| && history[k].dropout != (k > 0 && history[k - 1].dropout)
  }

  /** One status is sent for every change. */
  lemma {:induction false} StatusesCount(history: seq<Frame>)
    ensures |Statuses(history)| == |set k: nat | k < |history| && Changed(history, k)|
  {
    if history != [] {
      var n := |history| - 1;
      var front := history[..n];
      var now := history[n].dropout;
      StatusesCount(front);
      ChangesStep(history);
      assert front + [history[n]] == history;
      StatusesStep(front, history[n]);
      assert LastStatus(front) == (n > 0 && history[n - 1].dropout);
      hide Statuses, Changed, LastStatus;
    }
  }

  lemma ChangesStep(history: seq<Frame>)
    requires history != []
    ensures var n := |history| - 1; var front := history[..n];
      var more := set k: nat | k < n && Changed(front, k);
      n !in more &&
      (set k: nat | k < |history| && Changed(history, k)) == if Changed(history, n) then more + {n} else more
  {
    var n := |history| - 1;
    var front := history[..n];
    forall k: nat | k < n ensures Changed(front, k) <==> Changed(history, k) {
      assert front[k] == history[k] && (k > 0 ==> front[k - 1] == history[k - 1]);
    }
  }

  lemma StatusesStep(history: seq<Frame>, f: Frame)
    ensures LastStatus(history + [f]) == f.dropout
    ensures Statuses(history + [f]) ==
      if f.dropout != LastStatus(history) then Statuses(history) + [f.dropout] else Statuses(history)
  {
    assert (history + [f])[..|history|] == history;
  }

  // The program.

  class Recogniser {
    const classify: Classifier
    const buf: Ring<Frame>
    var framecounter: nat
    var lastrecognition: nat
    var droppedOut: bool
    var emitted: seq<Event>
    var statuses: seq<bool>

    /** The frames that were read, but for the one that fills the buffer at the start. */
    ghost function History(): seq<Frame>
      requires buf.size <= |buf.padded|
      reads buf
    {
      buf.Added()
    }

    ghost predicate Valid()
      reads this, buf, buf.circ
    {
      buf.Valid() && buf.size == BUFFER_SIZE && framecounter == |History()| &&
      emitted == Events(classify, History()) && lastrecognition == LastEnd(emitted) &&
      statuses == Statuses(History()) && droppedOut == LastStatus(History())
    }

    /** The buffer holds the frames of `history`. */
    ghost predicate Holds(history: seq<Frame>)
      reads this`framecounter, buf, buf.circ
    {
      buf.Valid() && buf.size == BUFFER_SIZE && framecounter == |history| && history == History()
    }

    constructor (classify: Classifier, f: Frame)
      ensures Valid() && this.classify == classify && History() == [] && fresh(buf) && fresh(buf.circ)
    {
      this.classify := classify;
      buf := new Ring(BUFFER_SIZE, f);
      framecounter, lastrecognition, droppedOut, emitted, statuses := 0, 0, false, [], [];
    }

    /** `recognised`. */
    method Recognised(windowsize: nat) returns (r: bool)
      requires buf.Valid() && buf.size == BUFFER_SIZE && 0 < windowsize <= MAX_WINDOW
      requires framecounter == |History()| && windowsize <= framecounter
      modifies this`emitted
      ensures r == Accepts(classify, History(), windowsize)
      ensures emitted == if r then old(emitted) + [EventOf(classify, History(), windowsize)] else old(emitted)
    {
      hide FeaturesOf;
      var feat := FromBuffer(buf, windowsize);
      buf.LastIsAdded(windowsize);
      var gesture := classify(feat.value);
      if gesture != NoMatch && gesture != MultiMatch {
        emitted := emitted + [Event(framecounter - windowsize, framecounter, gesture.c)];
        return true;
      }
      return false;
    }

    /** The first half of a turn: the frame goes into the buffer, and a change between
        dropout and no dropout is sent. */
    method TakeFrame(f: Frame)
      requires Valid()
      modifies this`framecounter, this`statuses, this`droppedOut, buf, buf.circ
      ensures Holds(old(History()) + [f])
      ensures statuses == Statuses(old(History()) + [f]) && droppedOut == LastStatus(old(History()) + [f])
    {
      hide Events, Statuses, LastStatus, LastEnd;
      StatusesStep(History(), f);
      buf.Add(f);
      framecounter := framecounter + 1;
      var dropout := f.dropout;
      if dropout != droppedOut {
        statuses := statuses + [dropout];
        droppedOut := dropout;
      }
    }

    /** One turn of the endless loop. */
    method Turn(f: Frame)
      requires Valid()
      modifies this, buf, buf.circ
      ensures Valid() && History() == old(History()) + [f]
    {
      hide Events, Statuses, LastStatus, Shortest, EventOf, OnGrid;
      EventsStep(classify, History(), f);
      TakeFrame(f);
      if OnGrid(framecounter) {
        ghost var _ := TryWindows(History());
      }
    }

    /** The loop over the window sizes. */
    method TryWindows(ghost history: seq<Frame>) returns (ghost target: Option<nat>)
      requires Holds(history) && framecounter == |history| && lastrecognition <= framecounter
      modifies this`emitted, this`lastrecognition
      ensures target == Shortest(classify, history, framecounter - old(lastrecognition))
      ensures match target
        case None => emitted == old(emitted) && lastrecognition == old(lastrecognition)
        case Some(w) => emitted == old(emitted) + [EventOf(classify, history, w)] && lastrecognition == framecounter
    {
      hide Accepts, EventOf, Shortest, Choice, Holds;
      var availableframes := framecounter - lastrecognition;
      var windowsize := MIN_WINDOW;
      target := Shortest(classify, history, availableframes);
      StartsWithMin(classify, history, availableframes);
      while windowsize <= MAX_WINDOW && windowsize <= availableframes
        invariant windowsize >= MIN_WINDOW && emitted == old(emitted) && lastrecognition == old(lastrecognition)
        invariant Choice(classify, history, availableframes, windowsize) == target
        decreases MAX_WINDOW + WINDOW_STEP - windowsize
      {
        var r := Try(windowsize, availableframes, history);
        if r {
          lastrecognition := framecounter;
          return;
        }
        windowsize := windowsize + WINDOW_STEP;
      }
      NoChoice(classify, history, availableframes, windowsize);
    }

    /** One turn of that loop. */
    method Try(windowsize: nat, ghost available: nat, ghost history: seq<Frame>) returns (r: bool)
      requires Holds(history) && framecounter == |history|
      requires MIN_WINDOW <= windowsize <= MAX_WINDOW && windowsize <= available <= framecounter
      modifies this`emitted
      ensures r ==> Choice(classify, history, available, windowsize) == Some(windowsize)
      ensures !r ==>
        Choice(classify, history, available, windowsize)
          == Choice(classify, history, available, windowsize + WINDOW_STEP)
      ensures emitted == if r then old(emitted) + [EventOf(classify, history, windowsize)] else old(emitted)
    {
      hide Accepts, EventOf;
      r := Recognised(windowsize);
    }
  }

  lemma StartsWithMin(classify: Classifier, history: seq<Frame>, available: nat)
    ensures Shortest(classify, history, available) == Choice(classify, history, available, MIN_WINDOW)
  {
    hide Choice;
  }

  lemma NoChoice(classify: Classifier, history: seq<Frame>, available: nat, w: nat)
    requires w > MAX_WINDOW || w > available
    ensures Choice(classify, history, available, w) == None
  {
  }

  lemma EventsStep(classify: Classifier, history: seq<Frame>, f: Frame)
    ensures var h := history + [f]; var before := Events(classify, history);
      LastEnd(before) <= |history| &&
      Events(classify, h) ==
        if !OnGrid(|h|) then before
        else match Shortest(classify, h, |h| - LastEnd(before))
             case None => before
             case Some(w) => before + [EventOf(classify, h, w)]
  {
    hide Shortest, OnGrid, EventOf;
    assert (history + [f])[..|history|] == history;
  }

  /** The program on a finite run: the first frame fills the buffer, the others are read. */
  method Run(classify: Classifier, first: Frame, frames: seq<Frame>) returns (emitted: seq<Event>, statuses: seq<bool>)
    ensures emitted == Events(classify, frames) && statuses == Statuses(frames)
  {
    hide Events, Statuses, LastStatus, LastEnd;
    var p := new Recogniser(classify, first);
    for i := 0 to |frames|
      invariant p.Valid() && p.History() == frames[..i] && p.classify == classify
      invariant fresh(p) && fresh(p.buf) && fresh(p.buf.circ)
    {
      p.Turn(frames[i]);
    }
    assert frames[..|frames|] == frames;
    return p.emitted, p.statuses;
  }
}
