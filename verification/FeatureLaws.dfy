/** What the features of a window say about its frames, coordinate by coordinate. */
module FeatureLaws {
  import opened Text
  import opened RealArith
  import opened Features

  /** The six coordinates of a frame, left arm first. */
  function Coordinate(f: Frame, i: nat): real
    requires i < 6
  {
    match i
    case 0 => f.left.tx
    case 1 => f.left.ty
    case 2 => f.left.tz
    case 3 => f.right.tx
    case 4 => f.right.ty
    case _ => f.right.tz
  }

  function Last(frames: seq<Frame>): Frame
    requires frames != []
  {
    frames[|frames| - 1]
  }

  lemma SquareNegated(d: real)
    ensures Square(-d) == Square(d)
  {
  }

  lemma SquarePositive(d: real)
    requires d > 0.0
    ensures Square(d) > 0.0
  {
    SquareMonotone(d, 0.0);
  }

  lemma SquareIsZero(d: real)
    ensures Square(d) >= 0.0 && (Square(d) == 0.0 <==> d == 0.0)
  {
    assert Square(0.0) == 0.0;
    hide Square;
    SquareNegated(d);
    if d > 0.0 {
      SquarePositive(d);
    } else if d < 0.0 {
      SquarePositive(-d);
    }
  }

  /** `others` ends as `frames` does, but for coordinate `axis`, which has not moved over
      `frames` and has moved by `d` over `others`. */
  predicate MovesOneMore(frames: seq<Frame>, others: seq<Frame>, axis: nat, d: real)
    requires frames != [] && others != [] && axis < 6
  {
    others[0] == frames[0] && Coordinate(Last(frames), axis) == Coordinate(frames[0], axis) &&
    Coordinate(Last(others), axis) == Coordinate(frames[0], axis) + d &&
    forall i: nat :: i < 6 && i != axis ==> Coordinate(Last(others), i) == Coordinate(Last(frames), i)
  }

  /** The square of the distance along one coordinate. */
  function Moved(a: Frame, b: Frame, i: nat): real
    requires i < 6
  {
    Square(Coordinate(b, i) - Coordinate(a, i))
  }

  lemma DisplacementIs(frames: seq<Frame>)
    requires frames != []
    ensures var a, b := frames[0], Last(frames);
      FeaturesOf(frames).displacement ==
        Moved(a, b, 0) + Moved(a, b, 1) + Moved(a, b, 2) + Moved(a, b, 3) + Moved(a, b, 4) + Moved(a, b, 5)
  {
    hide Square;
  }

  lemma MovedBy(a: Frame, b: Frame, i: nat, d: real)
    requires i < 6 && Coordinate(b, i) == Coordinate(a, i) + d
    ensures Moved(a, b, i) == d * d
  {
  }

  lemma MovedAlike(a: Frame, b: Frame, c: Frame, i: nat)
    requires i < 6 && Coordinate(c, i) == Coordinate(b, i)
    ensures Moved(a, c, i) == Moved(a, b, i)
  {
    hide Square;
  }

  /** The displacement adds up over the six coordinates: each that moved adds the square of
      its distance. */
  lemma DisplacementAddsUp(frames: seq<Frame>, others: seq<Frame>, axis: nat, d: real)
    requires frames != [] && others != [] && axis < 6 && MovesOneMore(frames, others, axis, d)
    ensures FeaturesOf(others).displacement == FeaturesOf(frames).displacement + d * d
  {
    hide Moved, Coordinate, FeaturesOf;
    var a, b, c := frames[0], Last(frames), Last(others);
    DisplacementIs(frames);
    DisplacementIs(others);
    forall i: nat | i < 6 && i != axis ensures Moved(a, c, i) == Moved(a, b, i) {
      MovedAlike(a, b, c, i);
    }
    MovedBy(a, b, axis, 0.0);
    MovedBy(a, c, axis, d);
  }

  /** A window has no displacement exactly when all coordinates end where they began. */
  lemma DisplacedIff(frames: seq<Frame>)
    requires frames != []
    ensures FeaturesOf(frames).displacement >= 0.0
    ensures FeaturesOf(frames).displacement == 0.0 <==>
      forall i: nat :: i < 6 ==> Coordinate(Last(frames), i) == Coordinate(frames[0], i)
  {
    hide Moved, FeaturesOf, Coordinate;
    var a, b := frames[0], Last(frames);
    DisplacementIs(frames);
    forall i: nat | i < 6
      ensures Moved(a, b, i) >= 0.0 && (Moved(a, b, i) == 0.0 <==> Coordinate(b, i) == Coordinate(a, i))
    {
      MovedIsZero(a, b, i);
    }
    assert Moved(a, b, 0) >= 0.0 && Moved(a, b, 1) >= 0.0 && Moved(a, b, 2) >= 0.0;
    assert Moved(a, b, 3) >= 0.0 && Moved(a, b, 4) >= 0.0 && Moved(a, b, 5) >= 0.0;
  }

  lemma MovedIsZero(a: Frame, b: Frame, i: nat)
    requires i < 6
    ensures Moved(a, b, i) >= 0.0 && (Moved(a, b, i) == 0.0 <==> Coordinate(b, i) == Coordinate(a, i))
  {
    hide Square, Coordinate;
    SquareIsZero(Coordinate(b, i) - Coordinate(a, i));
  }

  function Mirrored(frames: seq<Frame>): seq<Frame> {
    seq(|frames|, i requires 0 <= i < |frames| => Frame(frames[i].right, frames[i].left, frames[i].dropout))
  }

  /** Swapping the arms swaps their extents and leaves the displacement. */
  lemma MirroredFeatures(frames: seq<Frame>)
    requires frames != []
    ensures Mirrored(frames) != []
    ensures FeaturesOf(Mirrored(frames)).displacement == FeaturesOf(frames).displacement
    ensures FeaturesOf(Mirrored(frames)).leftarm == FeaturesOf(frames).rightarm
    ensures FeaturesOf(Mirrored(frames)).rightarm == FeaturesOf(frames).leftarm
  {
    hide Square, ExtentOf;
    assert Lefts(Mirrored(frames)) == Rights(frames) && Rights(Mirrored(frames)) == Lefts(frames);
  }

  function Shifted(a: Arm, move: Arm): Arm {
    Arm(a.tx + move.tx, a.ty + move.ty, a.tz + move.tz)
  }

  function Translated(frames: seq<Frame>, move: Arm): seq<Frame> {
    seq(|frames|, i requires 0 <= i < |frames| =>
      Frame(Shifted(frames[i].left, move), Shifted(frames[i].right, move), frames[i].dropout))
  }

  /** Where the performer stands does not matter to the displacement. */
  lemma TranslatedDisplacement(frames: seq<Frame>, move: Arm)
    requires frames != []
    ensures Translated(frames, move) != []
    ensures FeaturesOf(Translated(frames, move)).displacement == FeaturesOf(frames).displacement
  {
    hide Square, ExtentOf;
    var a, b := frames[0], Last(frames);
    var c, d := Translated(frames, move)[0], Last(Translated(frames, move));
    assert d.left.tx - c.left.tx == b.left.tx - a.left.tx;
    assert d.left.ty - c.left.ty == b.left.ty - a.left.ty;
    assert d.left.tz - c.left.tz == b.left.tz - a.left.tz;
    assert d.right.tx - c.right.tx == b.right.tx - a.right.tx;
    assert d.right.ty - c.right.ty == b.right.ty - a.right.ty;
    assert d.right.tz - c.right.tz == b.right.tz - a.right.tz;
  }

  // The extents.

  function Coordinates(frames: seq<Frame>, i: nat): seq<real>
    requires i < 6
  {
    seq(|frames|, k requires 0 <= k < |frames| => Coordinate(frames[k], i))
  }

  /** `lo` and `hi` are the extremes of `xs`, with 9999 and -9999 counted among them. */
  predicate AreExtremes(lo: real, hi: real, xs: seq<real>) {
    (forall x :: x in xs ==> lo <= x <= hi) && lo <= 9999.0 && hi >= -9999.0 &&
    (lo == 9999.0 || lo in xs) && (hi == -9999.0 || hi in xs)
  }

  lemma ExtremesOf(arms: seq<Arm>, xs: seq<real>, axis: nat)
    requires axis < 3 && |xs| == |arms| && forall k :: 0 <= k < |arms| ==> xs[k] == Axis(arms[k], axis)
    ensures AreExtremes(ExtentOf(arms).min[axis], ExtentOf(arms).max[axis], xs)
  {
    hide ExtentOf;
    LeastMeans(arms, axis);
    GreatestMeans(arms, axis);
  }

  /** The two extents are the extremes of the six coordinates over the window's frames. */
  lemma ExtentsMean(frames: seq<Frame>, axis: nat)
    requires frames != [] && axis < 3
    ensures var f := FeaturesOf(frames);
      |f.leftarm.min| == |f.leftarm.max| == |f.rightarm.min| == |f.rightarm.max| == 3 && f.rawdata == frames &&
      AreExtremes(f.leftarm.min[axis], f.leftarm.max[axis], Coordinates(frames, axis)) &&
      AreExtremes(f.rightarm.min[axis], f.rightarm.max[axis], Coordinates(frames, axis + 3))
  {
    hide ExtentOf, AreExtremes, Square;
    ExtremesOf(Lefts(frames), Coordinates(frames, axis), axis);
    ExtremesOf(Rights(frames), Coordinates(frames, axis + 3), axis);
  }
}
