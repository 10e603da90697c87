/** The features of a window of frames (Features.java): the extent of the movement of either
    arm and its displacement, from a list of frames or from the ring buffer. */
module Features {
  import opened Text
  import opened RealArith
  import opened CircularBuffer

  /** Translations along the three axes. */
  datatype Arm = Arm(tx: real, ty: real, tz: real)

  datatype Frame = Frame(left: Arm, right: Arm, dropout: bool)

  /** The values of a Ranges object, axis by axis. */
  datatype Extent = Extent(min: seq<real>, max: seq<real>)

  datatype Features = Features(leftarm: Extent, rightarm: Extent, displacement: real, rawdata: seq<Frame>)

  function Axis(a: Arm, axis: nat): real
    requires axis < 3
  {
    if axis == 0 then a.tx else if axis == 1 then a.ty else a.tz
  }

  const UNSEEN := 9999.0

  /** An extent that also covers `a`. */
  function Widened(e: Extent, a: Arm): (r: Extent)
    requires |e.min| == |e.max| == 3
    ensures |r.min| == |r.max| == 3
  {
    Extent([Lesser(e.min[0], a.tx), Lesser(e.min[1], a.ty), Lesser(e.min[2], a.tz)],
           [Greater(e.max[0], a.tx), Greater(e.max[1], a.ty), Greater(e.max[2], a.tz)])
  }

  function ExtentOf(arms: seq<Arm>): (e: Extent)
    ensures |e.min| == |e.max| == 3
  {
    if arms == [] then Extent([UNSEEN, UNSEEN, UNSEEN], [-UNSEEN, -UNSEEN, -UNSEEN])
    else Widened(ExtentOf(arms[..|arms| - 1]), arms[|arms| - 1])
  }

  lemma ExtentStep(arms: seq<Arm>, a: Arm)
    ensures ExtentOf(arms + [a]) == Widened(ExtentOf(arms), a)
  {
    assert (arms + [a])[..|arms|] == arms;
  }

  /** The least coordinate, or UNSEEN if none is less. */
  function Least(arms: seq<Arm>, axis: nat): real
    requires axis < 3
  {
    ExtentOf(arms).min[axis]
  }

  function Greatest(arms: seq<Arm>, axis: nat): real
    requires axis < 3
  {
    ExtentOf(arms).max[axis]
  }

  function Lefts(frames: seq<Frame>): seq<Arm> {
    seq(|frames|, i requires 0 <= i < |frames| => frames[i].left)
  }

  function Rights(frames: seq<Frame>): seq<Arm> {
    seq(|frames|, i requires 0 <= i < |frames| => frames[i].right)
  }

  function Square(d: real): real {
    d * d
  }

  function Displacement(first: Frame, last: Frame): real {
    Square(last.left.tx - first.left.tx) + Square(last.left.ty - first.left.ty) + Square(last.left.tz - first.left.tz) +
    Square(last.right.tx - first.right.tx) + Square(last.right.ty - first.right.ty) +
    Square(last.right.tz - first.right.tz)
  }

  function FeaturesOf(frames: seq<Frame>): Features
    requires frames != []
  {
    Features(ExtentOf(Lefts(frames)), ExtentOf(Rights(frames)), Displacement(frames[0], frames[|frames| - 1]), frames)
  }

  // What an extent means.

  lemma {:induction false} LeastMeans(arms: seq<Arm>, axis: nat)
    requires axis < 3
    ensures forall k :: 0 <= k < |arms| ==> Least(arms, axis) <= Axis(arms[k], axis)
    ensures Least(arms, axis) <= UNSEEN
    ensures Least(arms, axis) == UNSEEN || exists k :: 0 <= k < |arms| && Least(arms, axis) == Axis(arms[k], axis)
  {
    if arms != [] {
      var front := arms[..|arms| - 1];
      LeastMeans(front, axis);
      forall k | 0 <= k < |arms| ensures Least(arms, axis) <= Axis(arms[k], axis) {
        if k < |front| {
          assert front[k] == arms[k];
        }
      }
      if Least(arms, axis) == Axis(arms[|arms| - 1], axis) {
      } else if Least(front, axis) != UNSEEN {
        var k :| 0 <= k < |front| && Least(front, axis) == Axis(front[k], axis);
        assert Axis(arms[k], axis) == Least(arms, axis);
      }
    }
  }

  lemma {:induction false} GreatestMeans(arms: seq<Arm>, axis: nat)
    requires axis < 3
    ensures forall k :: 0 <= k < |arms| ==> Axis(arms[k], axis) <= Greatest(arms, axis)
    ensures -UNSEEN <= Greatest(arms, axis)
    ensures Greatest(arms, axis) == -UNSEEN ||
      exists k :: 0 <= k < |arms| && Greatest(arms, axis) == Axis(arms[k], axis)
  {
    if arms != [] {
      var front := arms[..|arms| - 1];
      GreatestMeans(front, axis);
      forall k | 0 <= k < |arms| ensures Axis(arms[k], axis) <= Greatest(arms, axis) {
        if k < |front| {
          assert front[k] == arms[k];
        }
      }
      if Greatest(arms, axis) == Axis(arms[|arms| - 1], axis) {
      } else if Greatest(front, axis) != -UNSEEN {
        var k :| 0 <= k < |front| && Greatest(front, axis) == Axis(front[k], axis);
        assert Axis(arms[k], axis) == Greatest(arms, axis);
      }
    }
  }

  /** `d` is the largest distance between two coordinates of the window. */
  predicate IsSpan(arms: seq<Arm>, axis: nat, d: real)
    requires axis < 3
  {
    (exists j, k :: 0 <= j < |arms| && 0 <= k < |arms| && Axis(arms[j], axis) - Axis(arms[k], axis) == d) &&
    forall j, k :: 0 <= j < |arms| && 0 <= k < |arms| ==> Axis(arms[j], axis) - Axis(arms[k], axis) <= d
  }

  /** The distance that `get_delta` returns is the span of the window exactly when some
      coordinate is at most UNSEEN and some at least its negative: the starting values of
      Ranges are no bounds of the data. */
  lemma DeltaIsSpan(arms: seq<Arm>, axis: nat)
    requires axis < 3
    ensures IsSpan(arms, axis, Greatest(arms, axis) - Least(arms, axis)) <==>
      (exists k :: 0 <= k < |arms| && Axis(arms[k], axis) <= UNSEEN) &&
      (exists k :: 0 <= k < |arms| && Axis(arms[k], axis) >= -UNSEEN)
    ensures forall j, k :: 0 <= j < |arms| && 0 <= k < |arms| ==>
      Axis(arms[j], axis) - Axis(arms[k], axis) <= Greatest(arms, axis) - Least(arms, axis)
  {
    hide Least, Greatest;
    LeastMeans(arms, axis);
    GreatestMeans(arms, axis);
    if j, k :| 0 <= j < |arms| && 0 <= k < |arms| && Axis(arms[j], axis) <= UNSEEN && Axis(arms[k], axis) >= -UNSEEN {
      var most :| 0 <= most < |arms| && Greatest(arms, axis) == Axis(arms[most], axis);
      var least :| 0 <= least < |arms| && Least(arms, axis) == Axis(arms[least], axis);
      assert Axis(arms[most], axis) - Axis(arms[least], axis) == Greatest(arms, axis) - Least(arms, axis);
    }
  }

  class Ranges {
    const min: array<real>
    const max: array<real>
    ghost var seen: seq<Arm>

    ghost predicate Valid()
      reads this, min, max
    {
      min != max && min.Length == 3 && max.Length == 3 && min[..] == ExtentOf(seen).min && max[..] == ExtentOf(seen).max
    }

    constructor ()
      ensures Valid() && seen == [] && fresh(min) && fresh(max)
    {
      min := new real[3](_ => UNSEEN);
      max := new real[3](_ => -UNSEEN);
      seen := [];
    }

    method Update(bodypart: Arm)
      requires Valid()
      modifies this, min, max
      ensures Valid() && seen == old(seen) + [bodypart]
    {
      hide ExtentOf, Lesser, Greater;
      ExtentStep(seen, bodypart);
      min[0] := Lesser(min[0], bodypart.tx);
      max[0] := Greater(max[0], bodypart.tx);
      min[1] := Lesser(min[1], bodypart.ty);
      max[1] := Greater(max[1], bodypart.ty);
      min[2] := Lesser(min[2], bodypart.tz);
      max[2] := Greater(max[2], bodypart.tz);
      seen := seen + [bodypart];
    }

    /** `get_delta`: the span of what was seen, as far as the starting values allow. */
    function Delta(axis: nat): (d: real)
      requires Valid() && axis < 3
      reads this, min, max
      ensures IsSpan(seen, axis, d) <==>
        (exists k :: 0 <= k < |seen| && Axis(seen[k], axis) <= UNSEEN) &&
        (exists k :: 0 <= k < |seen| && Axis(seen[k], axis) >= -UNSEEN)
    {
      DeltaIsSpan(seen, axis);
      max[axis] - min[axis]
    }
  }

  predicate Apart(a: Ranges, b: Ranges) {
    a != b && a.min != b.min && a.min != b.max && a.max != b.min && a.max != b.max
  }

  /** Both extents have seen `frames`. */
  ghost predicate Track(leftarm: Ranges, rightarm: Ranges, frames: seq<Frame>)
    reads leftarm, leftarm.min, leftarm.max, rightarm, rightarm.min, rightarm.max
  {
    Apart(leftarm, rightarm) && leftarm.Valid() && rightarm.Valid() &&
    leftarm.seen == Lefts(frames) && rightarm.seen == Rights(frames)
  }

  /** One frame of the loops below. */
  method See(leftarm: Ranges, rightarm: Ranges, f: Frame, ghost frames: seq<Frame>)
    requires Track(leftarm, rightarm, frames)
    modifies leftarm, leftarm.min, leftarm.max, rightarm, rightarm.min, rightarm.max
    ensures Track(leftarm, rightarm, frames + [f])
  {
    leftarm.Update(f.left);
    rightarm.Update(f.right);
  }

  /** `Features(ArrayList<Frame>)`; it throws on an empty list. */
  method FromList(data: seq<Frame>) returns (r: Option<Features>)
    ensures r == if data == [] then None else Some(FeaturesOf(data))
  {
    hide Track, FeaturesOf, Displacement, Ranges.Valid;
    var leftarm := new Ranges();
    var rightarm := new Ranges();
    TrackNone(leftarm, rightarm);
    for i := 0 to |data|
      invariant Track(leftarm, rightarm, data[..i])
      invariant fresh(leftarm) && fresh(leftarm.min) && fresh(leftarm.max)
      invariant fresh(rightarm) && fresh(rightarm.min) && fresh(rightarm.max)
    {
      assert data[..i + 1] == data[..i] + [data[i]];
      See(leftarm, rightarm, data[i], data[..i]);
    }
    if data == [] {
      return None;
    }
    assert data[..|data|] == data;
    TrackedFeatures(leftarm, rightarm, data);
    return Some(Features(Extent(leftarm.min[..], leftarm.max[..]), Extent(rightarm.min[..], rightarm.max[..]),
                         Displacement(data[0], data[|data| - 1]), data));
  }

  /** `window` is what the buffer shows through a window of this size. */
  ghost predicate Shows(buf: Ring<Frame>, windowsize: nat, window: seq<Frame>)
    reads buf, buf.circ
  {
    buf.Valid() && if windowsize <= buf.size then window == buf.Last(windowsize) else window == []
  }

  /** One turn of the loop below. */
  method ScanOne(buf: Ring<Frame>, windowsize: nat, i: nat, leftarm: Ranges, rightarm: Ranges,
                 ghost data: seq<Frame>, ghost window: seq<Frame>)
    returns (f: Option<Frame>)
    requires Shows(buf, windowsize, window) && Track(leftarm, rightarm, data) && i < windowsize
    modifies leftarm, leftarm.min, leftarm.max, rightarm, rightarm.min, rightarm.max
    ensures Shows(buf, windowsize, window)
    ensures f == if i < |window| then Some(window[i]) else None
    ensures f.Some? ==> Track(leftarm, rightarm, data + [f.value])
  {
    f := buf.Get(windowsize, i);
    if f.Some? {
      See(leftarm, rightarm, f.value, data);
    }
  }

  /** The loop of the constructor below; None when it meets a null frame. */
  method Scan(buf: Ring<Frame>, windowsize: int, leftarm: Ranges, rightarm: Ranges, ghost window: seq<Frame>)
    returns (rawdata: Option<seq<Frame>>)
    requires windowsize > 0 ==> Shows(buf, windowsize, window) && (window == [] || |window| == windowsize)
    requires Track(leftarm, rightarm, [])
    modifies leftarm, leftarm.min, leftarm.max, rightarm, rightarm.min, rightarm.max
    ensures if windowsize <= 0 then rawdata == Some([])
            else if window == [] then rawdata == None
            else rawdata == Some(window) && Track(leftarm, rightarm, window)
    ensures windowsize > 0 ==> Shows(buf, windowsize, window)
  {
    hide Track, Shows;
    var data, i := [], 0;
    while i < windowsize
      invariant 0 <= i && (i > 0 ==> |window| == windowsize)
      invariant i <= |window| && data == window[..i]
      invariant Track(leftarm, rightarm, data) && (windowsize > 0 ==> Shows(buf, windowsize, window))
    {
      var f := ScanOne(buf, windowsize, i, leftarm, rightarm, data, window);
      if f == None {
        return None;
      }
      assert window[..i + 1] == data + [f.value];
      data := data + [f.value];
      i := i + 1;
    }
    assert windowsize > 0 ==> data == window;
    return Some(data);
  }

  /** `Features(CircularBuffer, int)`; outside the buffer it meets a null frame and throws. It
      agrees with the list of the same frames. */
  method FromBuffer(buf: Ring<Frame>, windowsize: int) returns (r: Option<Features>)
    requires buf.Valid()
    ensures r == if 1 <= windowsize <= buf.size then Some(FeaturesOf(buf.Last(windowsize))) else None
  {
    hide Track, Shows, FeaturesOf, Ranges.Valid;
    var leftarm := new Ranges();
    var rightarm := new Ranges();
    TrackNone(leftarm, rightarm);
    ghost var window := if 1 <= windowsize <= buf.size then buf.Last(windowsize) else [];
    if windowsize > 0 {
      ShowsLast(buf, windowsize, window);
    }
    r := Fill(buf, windowsize, leftarm, rightarm, window);
  }

  /** What the constructor does once it has its two extents. */
  method Fill(buf: Ring<Frame>, windowsize: int, leftarm: Ranges, rightarm: Ranges, ghost window: seq<Frame>)
    returns (r: Option<Features>)
    requires windowsize > 0 ==> Shows(buf, windowsize, window) && (window == [] || |window| == windowsize)
    requires Track(leftarm, rightarm, []) && (windowsize <= 0 ==> buf.Valid())
    modifies leftarm, leftarm.min, leftarm.max, rightarm, rightarm.min, rightarm.max
    ensures r == if windowsize > 0 && window != [] then Some(FeaturesOf(window)) else None
  {
    hide Track, Shows, FeaturesOf, Displacement, Ranges.Valid;
    var rawdata := Scan(buf, windowsize, leftarm, rightarm, window);
    if rawdata == None {
      return None;
    }
    var first := ShownAt(buf, windowsize, 0, window);
    var last := ShownAt(buf, windowsize, windowsize - 1, window);
    if first == None || last == None {
      return None;
    }
    TrackedFeatures(leftarm, rightarm, window);
    return Some(Features(Extent(leftarm.min[..], leftarm.max[..]), Extent(rightarm.min[..], rightarm.max[..]),
                         Displacement(first.value, last.value), rawdata.value));
  }

  /** `buf.get` through the window. */
  method ShownAt(buf: Ring<Frame>, windowsize: int, i: int, ghost window: seq<Frame>) returns (f: Option<Frame>)
    requires windowsize > 0 ==> Shows(buf, windowsize, window) && (window == [] || |window| == windowsize)
    requires windowsize <= 0 ==> buf.Valid() && (i < 0 || i >= windowsize)
    ensures f == if windowsize > 0 && 0 <= i < |window| then Some(window[i]) else None
  {
    f := buf.Get(windowsize, i);
  }

  lemma TrackNone(leftarm: Ranges, rightarm: Ranges)
    requires Apart(leftarm, rightarm) && leftarm.Valid() && rightarm.Valid() && leftarm.seen == rightarm.seen == []
    ensures Track(leftarm, rightarm, [])
  {
  }

  lemma ShowsLast(buf: Ring<Frame>, windowsize: nat, window: seq<Frame>)
    requires buf.Valid()
    requires window == if windowsize <= buf.size then buf.Last(windowsize) else []
    ensures Shows(buf, windowsize, window)
  {
  }

  lemma TrackedFeatures(leftarm: Ranges, rightarm: Ranges, frames: seq<Frame>)
    requires Track(leftarm, rightarm, frames) && frames != []
    ensures FeaturesOf(frames) ==
      Features(Extent(leftarm.min[..], leftarm.max[..]), Extent(rightarm.min[..], rightarm.max[..]),
               Displacement(frames[0], frames[|frames| - 1]), frames)
  {
  }
}
