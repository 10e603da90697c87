/** Colour conversions of MochiKit.Color over exact reals. Alpha is passed through unchanged
    by all of them and is not modelled. */
module Color {
  import opened RealArith

  datatype RGB = RGB(r: real, g: real, b: real)
  datatype HSV = HSV(h: real, s: real, v: real)
  datatype HSL = HSL(h: real, s: real, l: real)

  predicate Unit(x: real) {
    0.0 <= x <= 1.0
  }

  predicate ValidRGB(c: RGB) {
    Unit(c.r) && Unit(c.g) && Unit(c.b)
  }

  function Highest(c: RGB): real {
    Greater(Greater(c.r, c.g), c.b)
  }

  function Lowest(c: RGB): real {
    Lesser(Lesser(c.r, c.g), c.b)
  }

  // The conversions.

  /** The hue of a colour that is not grey, as both conversions compute it. */
  function Hue(c: RGB): real
    requires Highest(c) != Lowest(c)
  {
    var delta := Highest(c) - Lowest(c);
    var sixth :=
      if c.r == Highest(c) then (c.g - c.b) / delta
      else if c.g == Highest(c) then 2.0 + (c.b - c.r) / delta
      else 4.0 + (c.r - c.g) / delta;
    var hue := sixth / 6.0;
    var up := if hue < 0.0 then hue + 1.0 else hue;
    if up > 1.0 then up - 1.0 else up
  }

  function RgbToHSV(c: RGB): HSV
    requires ValidRGB(c)
  {
    var max, min := Highest(c), Lowest(c);
    if min == max then HSV(0.0, 0.0, max)
    else HSV(Hue(c), (max - min) / max, max)
  }

  function RgbToHSL(c: RGB): HSL
    requires ValidRGB(c)
  {
    var max, min := Highest(c), Lowest(c);
    var lightness := (max + min) / 2.0;
    if max - min == 0.0 then HSL(0.0, 0.0, lightness)
    else HSL(Hue(c), (max - min) / (if lightness <= 0.5 then max + min else 2.0 - max - min), lightness)
  }

  /** The switch of `hsvToRGB` has a case for the hue, or the colour is grey. */
  predicate Painted(c: HSV) {
    c.s == 0.0 || 0.0 <= c.h * 6.0 < 7.0
  }

  function HsvToRGB(c: HSV): RGB
    requires Painted(c)
  {
    if c.s == 0.0 then RGB(c.v, c.v, c.v)
    else
      var i := (c.h * 6.0).Floor;
      HsvAt(c, i, c.h * 6.0 - i as real)
  }

  /** The colour at `f` behind `i` sixths. */
  function HsvAt(c: HSV, i: int, f: real): RGB {
    Switch(i, c.v, Bottom(c), Falling(c, f), Rising(c, f))
  }

  /** The variables p, q and t of `hsvToRGB`. */
  function Bottom(c: HSV): real {
    c.v * (1.0 - c.s)
  }

  function Falling(c: HSV, f: real): real {
    c.v * (1.0 - c.s * f)
  }

  function Rising(c: HSV, f: real): real {
    c.v * (1.0 - c.s * (1.0 - f))
  }

  /** The switch of `hsvToRGB`; 6 falls through to 0. */
  function Switch(i: int, value: real, p: real, q: real, t: real): RGB {
    if i == 1 then RGB(q, value, p)
    else if i == 2 then RGB(p, value, t)
    else if i == 3 then RGB(p, q, value)
    else if i == 4 then RGB(t, p, value)
    else if i == 5 then RGB(value, p, q)
    else RGB(value, t, p)
  }

  /** `_hslValue`. */
  function HslValue(n1: real, n2: real, hue: real): real {
    HslAt(n1, n2, if hue > 6.0 then hue - 6.0 else if hue < 0.0 then hue + 6.0 else hue)
  }

  function HslAt(n1: real, n2: real, h: real): real {
    if h < 1.0 then n1 + (n2 - n1) * h
    else if h < 3.0 then n2
    else if h < 4.0 then n1 + (n2 - n1) * (4.0 - h)
    else n1
  }

  function HslToRGB(c: HSL): RGB {
    if c.s == 0.0 then RGB(c.l, c.l, c.l)
    else
      var m2 := if c.l <= 0.5 then c.l * (1.0 + c.s) else c.l + c.s - c.l * c.s;
      var m1 := 2.0 * c.l - m2;
      var h6 := c.h * 6.0;
      RGB(HslValue(m1, m2, h6 + 2.0), HslValue(m1, m2, h6), HslValue(m1, m2, h6 - 2.0))
  }

  /** A hue after whole turns are taken off. */
  function HueInTurn(h: real): (r: real)
    ensures 0.0 <= r < 1.0 && (0.0 <= h < 1.0 ==> r == h)
  {
    h - h.Floor as real
  }

  // The colour wheel: the reference that all four conversions agree with.

  /** The colour in sextant `i` whose third channel lies `rise` above the lowest, or below
      the highest. */
  function Sextant(i: int, rise: real, hi: real, lo: real): RGB {
    if i == 0 then RGB(hi, lo + rise, lo)
    else if i == 1 then RGB(hi - rise, hi, lo)
    else if i == 2 then RGB(lo, hi, lo + rise)
    else if i == 3 then RGB(lo, hi - rise, hi)
    else if i == 4 then RGB(lo + rise, lo, hi)
    else RGB(hi, lo, hi - rise)
  }

  function Rise(delta: real, f: real): real {
    delta * f
  }

  /** The colour at `y` sixths of the way round, with highest channel `hi` and distance
      `delta` from it to the lowest. */
  function Wheel(y: real, hi: real, delta: real): RGB {
    Sextant(y.Floor, Rise(delta, y - y.Floor as real), hi, hi - delta)
  }

  lemma Ratio(a: real, d: real) returns (x: real)
    requires d > 0.0 && -d <= a <= d
    ensures x == a / d && d * x == a
    ensures -1.0 <= x <= 1.0 && (a < 0.0 <==> x < 0.0) && (a == d <==> x == 1.0) && (a == -d <==> x == -1.0)
  {
    x := a / d;
    assert d * x == a && d * 1.0 == d && d * -1.0 == -d && d * 0.0 == 0.0;
    Monotone(d, x, 1.0);
    Monotone(d, 1.0, x);
    Monotone(d, x, -1.0);
    Monotone(d, -1.0, x);
    Monotone(d, 0.0, x);
  }

  lemma Products(d: real, x: real)
    ensures d * (x + 1.0) == d * x + d && d * 0.0 == 0.0 && d * (1.0 - x) == d - d * x
  {
  }

  /** At `i + f` sixths, with rise `delta * f`. */
  lemma WheelAt(y: real, i: int, f: real, hi: real, delta: real)
    requires 0.0 <= f < 1.0 && y == i as real + f
    ensures Wheel(y, hi, delta) == Sextant(i, Rise(delta, f), hi, hi - delta)
  {
    assert y.Floor == i;
  }

  /** Every colour that is not grey stands on the wheel at its hue. */
  lemma OnWheel(c: RGB)
    requires Highest(c) != Lowest(c)
    ensures 0.0 <= Hue(c) < 1.0
    ensures Wheel(Hue(c) * 6.0, Highest(c), Highest(c) - Lowest(c)) == c
  {
    if c.r == Highest(c) {
      OnWheelRed(c);
    } else if c.g == Highest(c) {
      OnWheelGreen(c);
    } else {
      OnWheelBlue(c);
    }
  }

  lemma OnWheelRed(c: RGB)
    requires Highest(c) != Lowest(c) && c.r == Highest(c)
    ensures 0.0 <= Hue(c) < 1.0
    ensures Wheel(Hue(c) * 6.0, Highest(c), Highest(c) - Lowest(c)) == c
  {
    hide Wheel;
    var hi, d := Highest(c), Highest(c) - Lowest(c);
    var x := Ratio(c.g - c.b, d);
    Products(d, x);
    if x == 1.0 {
      WheelAt(Hue(c) * 6.0, 1, 0.0, hi, d);
    } else if x >= 0.0 {
      WheelAt(Hue(c) * 6.0, 0, x, hi, d);
    } else {
      WheelAt(Hue(c) * 6.0, 5, x + 1.0, hi, d);
    }
  }

  lemma OnWheelGreen(c: RGB)
    requires Highest(c) != Lowest(c) && c.r != Highest(c) && c.g == Highest(c)
    ensures 0.0 <= Hue(c) < 1.0
    ensures Wheel(Hue(c) * 6.0, Highest(c), Highest(c) - Lowest(c)) == c
  {
    hide Wheel;
    var hi, d := Highest(c), Highest(c) - Lowest(c);
    var x := Ratio(c.b - c.r, d);
    Products(d, x);
    if x == 1.0 {
      WheelAt(Hue(c) * 6.0, 3, 0.0, hi, d);
    } else if x >= 0.0 {
      WheelAt(Hue(c) * 6.0, 2, x, hi, d);
    } else {
      WheelAt(Hue(c) * 6.0, 1, x + 1.0, hi, d);
    }
  }

  lemma OnWheelBlue(c: RGB)
    requires Highest(c) != Lowest(c) && c.r != Highest(c) && c.g != Highest(c)
    ensures 0.0 <= Hue(c) < 1.0
    ensures Wheel(Hue(c) * 6.0, Highest(c), Highest(c) - Lowest(c)) == c
  {
    hide Wheel;
    var hi, d := Highest(c), Highest(c) - Lowest(c);
    var x := Ratio(c.r - c.g, d);
    Products(d, x);
    if x >= 0.0 {
      WheelAt(Hue(c) * 6.0, 4, x, hi, d);
    } else {
      WheelAt(Hue(c) * 6.0, 3, x + 1.0, hi, d);
    }
  }

  /** A point of the wheel has its own position as hue. */
  lemma HueOfWheel(y: real, hi: real, d: real)
    requires 0.0 <= y < 6.0 && d > 0.0
    ensures var c := Wheel(y, hi, d); Highest(c) == hi && Lowest(c) == hi - d && Hue(c) == y / 6.0
  {
    hide Hue, Sextant, Highest, Lowest, Wheel, Rise;
    var i, f := y.Floor, y - y.Floor as real;
    WheelAt(y, i, f, hi, d);
    Within(d, f);
    HueOfSextant(i, Rise(d, f), f, hi, d);
  }

  lemma Within(d: real, f: real)
    requires d > 0.0 && 0.0 <= f < 1.0
    ensures 0.0 <= Rise(d, f) < d
  {
    Monotone(d, 1.0, f);
    Monotone(d, 0.0, f);
  }

  lemma HueOfSextant(i: int, rise: real, f: real, hi: real, d: real)
    requires 0 <= i < 6 && 0.0 <= f < 1.0 && 0.0 <= rise < d && rise == Rise(d, f)
    ensures var c := Sextant(i, rise, hi, hi - d);
      Highest(c) == hi && Lowest(c) == hi - d && Hue(c) == (i as real + f) / 6.0
  {
    Divided(rise, d, f);
    Products(d, f);
    Products(d, f - 1.0);
    Divided(rise - d, d, f - 1.0);
    Divided(d, d, 1.0);
    var c := Sextant(i, rise, hi, hi - d);
    if i == 0 {
      assert c.g - c.b == rise;
    } else if i == 1 {
      assert rise > 0.0 ==> c.b - c.r == rise - d;
      assert rise == 0.0 ==> c.g - c.b == d && f == 0.0;
    } else if i == 2 {
      assert c.b - c.r == rise;
    } else if i == 3 {
      assert rise > 0.0 ==> c.r - c.g == rise - d;
      assert rise == 0.0 ==> c.b - c.r == d && f == 0.0;
    } else if i == 4 {
      assert c.r - c.g == rise;
    } else {
      assert c.g - c.b == rise - d;
    }
  }

  // The conversions onto the wheel.

  /** The distance between the highest and the lowest channel. */
  function Chroma(c: HSV): real {
    c.s * c.v
  }

  /** Where the switch assigns every colour for these values, it is the one at the hue's
      place on the wheel; the rest of the first turn beyond 1 goes through case 6. */
  lemma HsvOnWheel(c: HSV)
    requires Painted(c)
    ensures HsvToRGB(c) == Wheel(HueInTurn(c.h) * 6.0, c.v, Chroma(c))
  {
    hide Wheel, HsvToRGB, Sextant, Rise, Chroma;
    var y := HueInTurn(c.h) * 6.0;
    var i, f := y.Floor, y - y.Floor as real;
    HsvInSextant(c, i, f);
    WheelAt(y, i, f, c.v, Chroma(c));
  }

  lemma HueFloor(h: real)
    requires 0.0 <= h * 6.0 < 7.0
    ensures var i, k := (h * 6.0).Floor, (HueInTurn(h) * 6.0).Floor;
      0 <= i <= 6 && k == (if i == 6 then 0 else i) && h * 6.0 - i as real == HueInTurn(h) * 6.0 - k as real
  {
    assert h.Floor == if h < 1.0 then 0 else 1;
  }

  lemma HsvInSextant(c: HSV, i: int, f: real)
    requires Painted(c) && i == (HueInTurn(c.h) * 6.0).Floor && f == HueInTurn(c.h) * 6.0 - i as real
    ensures HsvToRGB(c) == Sextant(i, Rise(Chroma(c), f), c.v, c.v - Chroma(c))
  {
    if c.s == 0.0 {
      GreyHsv(c, f);
    } else {
      HueFloor(c.h);
      HsvCase(c, (c.h * 6.0).Floor, f);
    }
  }

  lemma HsvCase(c: HSV, i: int, f: real)
    requires c.s != 0.0 && 0 <= i <= 6 && i == (c.h * 6.0).Floor && f == c.h * 6.0 - i as real
    ensures HsvToRGB(c) == Sextant(if i == 6 then 0 else i, Rise(Chroma(c), f), c.v, c.v - Chroma(c))
  {
    hide HsvAt, Sextant;
    assert HsvToRGB(c) == HsvAt(c, i, f);
    HsvAtSextant(c, i, f);
  }

  lemma HsvAtSextant(c: HSV, i: int, f: real)
    requires 0 <= i <= 6
    ensures HsvAt(c, i, f) == Sextant(if i == 6 then 0 else i, Rise(Chroma(c), f), c.v, c.v - Chroma(c))
  {
    hide Switch, Sextant, Bottom, Falling, Rising, Chroma, Rise;
    HsvChannels(c, f);
    SwitchIsSextant(i, c.v, Bottom(c), Falling(c, f), Rising(c, f), Rise(Chroma(c), f), Chroma(c));
  }

  lemma HsvChannels(c: HSV, f: real)
    ensures Bottom(c) == c.v - Chroma(c) && Falling(c, f) == c.v - Rise(Chroma(c), f)
    ensures Rising(c, f) == c.v - Chroma(c) + Rise(Chroma(c), f)
  {
    var cs, r := Chroma(c), Rise(Chroma(c), f);
    HsvProducts(c.v, c.s, f);
    assert Bottom(c) == c.v - cs;
    assert Falling(c, f) == c.v - r;
  }

  lemma SwitchIsSextant(i: int, value: real, p: real, q: real, t: real, rise: real, delta: real)
    requires 0 <= i <= 6 && p == value - delta && q == value - rise && t == value - delta + rise
    ensures Switch(i, value, p, q, t) == Sextant(if i == 6 then 0 else i, rise, value, value - delta)
  {
  }

  lemma GreyHsv(c: HSV, f: real)
    requires c.s == 0.0
    ensures Chroma(c) == 0.0 && Rise(Chroma(c), f) == 0.0
  {
    assert 0.0 * c.v == 0.0 && 0.0 * f == 0.0;
  }

  lemma HsvProducts(v: real, s: real, f: real)
    ensures v * (1.0 - s) == v - s * v
    ensures v * (1.0 - s * f) == v - s * v * f
    ensures v * (1.0 - s * (1.0 - f)) == v - s * v + s * v * f
    ensures s == 0.0 ==> s * v == 0.0 && s * v * f == 0.0
    ensures f == 0.0 ==> s * v * f == 0.0
    ensures s * v * 0.0 == 0.0
  {
    assert s * (1.0 - f) == s - s * f;
    assert v * (s * f) == s * v * f;
  }

  /** The highest channel of a colour given by lightness. */
  function HslHigh(c: HSL): real {
    if c.l <= 0.5 then c.l * (1.0 + c.s) else c.l + c.s - c.l * c.s
  }

  /** The lowest. */
  function HslLow(c: HSL): real {
    2.0 * c.l - HslHigh(c)
  }

  /** As far as one turn more or less brings all three channels back, the colour is the one
      at the hue's place on the wheel. */
  lemma HslOnWheel(c: HSL)
    requires c.s == 0.0 || -4.0 <= c.h * 6.0 <= 10.0
    ensures HslToRGB(c) == Wheel(HueInTurn(c.h) * 6.0, HslHigh(c), HslHigh(c) - HslLow(c))
  {
    var d := c.(h := HueInTurn(c.h));
    HslIs(c);
    HslIs(d);
    assert HslHigh(c) == HslHigh(d) && HslLow(c) == HslLow(d);
    hide HslHigh, HslLow, HslValue, Wheel, HslToRGB;
    if c.s != 0.0 {
      var y, x := c.h * 6.0, d.h * 6.0;
      assert y == x + 6.0 * c.h.Floor as real && -1 <= c.h.Floor <= 1;
      SameChannel(HslLow(c), HslHigh(c), x + 2.0, y + 2.0);
      SameChannel(HslLow(c), HslHigh(c), x, y);
      SameChannel(HslLow(c), HslHigh(c), x - 2.0, y - 2.0);
    }
    HslInTurn(d);
  }

  /** One turn more or less within the range that the wrapping covers. */
  lemma SameChannel(lo: real, hi: real, x: real, y: real)
    requires -6.0 <= x <= 12.0 && -6.0 <= y <= 12.0 && (x == y || x == y + 6.0 || y == x + 6.0)
    ensures HslValue(lo, hi, x) == HslValue(lo, hi, y)
  {
    hide HslAt;
    HslAtEnds(lo, hi);
  }

  lemma HslAtEnds(lo: real, hi: real)
    ensures HslAt(lo, hi, 0.0) == lo && HslAt(lo, hi, 6.0) == lo
  {
    assert (hi - lo) * 0.0 == 0.0;
  }

  lemma HslInTurn(c: HSL)
    requires 0.0 <= c.h < 1.0
    ensures HslToRGB(c) == Wheel(c.h * 6.0, HslHigh(c), HslHigh(c) - HslLow(c))
  {
    hide HslHigh, HslValue, Wheel, HslLow, HslToRGB, Sextant, Rise;
    var y, hi, lo := c.h * 6.0, HslHigh(c), HslLow(c);
    var i, f := y.Floor, y - y.Floor as real;
    WheelAt(y, i, f, hi, hi - lo);
    HslIs(c);
    if c.s == 0.0 {
      Grey(i, f, hi, lo);
    } else {
      HslChannels(lo, hi, y, i, f);
    }
  }

  lemma Grey(i: int, f: real, hi: real, lo: real)
    requires hi == lo
    ensures Sextant(i, Rise(hi - lo, f), hi, hi - (hi - lo)) == RGB(hi, hi, hi)
  {
    assert (hi - lo) == 0.0 && 0.0 * f == 0.0;
  }

  lemma HslIs(c: HSL)
    ensures c.s == 0.0 ==> HslHigh(c) == HslLow(c) == c.l && HslToRGB(c) == RGB(c.l, c.l, c.l)
    ensures c.s != 0.0 ==>
      HslToRGB(c) == RGB(HslValue(HslLow(c), HslHigh(c), c.h * 6.0 + 2.0), HslValue(HslLow(c), HslHigh(c), c.h * 6.0),
                         HslValue(HslLow(c), HslHigh(c), c.h * 6.0 - 2.0))
  {
    hide HslValue;
  }

  /** The values of one channel all round the wheel. */
  lemma HslTable(lo: real, hi: real, f: real)
    requires 0.0 <= f < 1.0
    ensures HslValue(lo, hi, f - 2.0) == lo && HslValue(lo, hi, f - 1.0) == lo
    ensures HslValue(lo, hi, f) == lo + Rise(hi - lo, f)
    ensures HslValue(lo, hi, f + 1.0) == hi && HslValue(lo, hi, f + 2.0) == hi
    ensures HslValue(lo, hi, f + 3.0) == hi - Rise(hi - lo, f)
    ensures HslValue(lo, hi, f + 4.0) == lo && HslValue(lo, hi, f + 5.0) == lo
    ensures HslValue(lo, hi, f + 6.0) == lo + Rise(hi - lo, f)
    ensures HslValue(lo, hi, f + 7.0) == hi
  {
    var d := hi - lo;
    assert d * 0.0 == 0.0;
    assert 4.0 - (f + 3.0) == 1.0 - f;
    assert d * (1.0 - f) == d - d * f;
    assert f + 6.0 - 6.0 == f;
  }

  lemma HslChannels(lo: real, hi: real, y: real, i: int, f: real)
    requires 0.0 <= y < 6.0 && y == i as real + f && 0.0 <= f < 1.0
    ensures RGB(HslValue(lo, hi, y + 2.0), HslValue(lo, hi, y), HslValue(lo, hi, y - 2.0)) ==
            Sextant(i, Rise(hi - lo, f), hi, hi - (hi - lo))
  {
    hide HslValue, Rise;
    HslTable(lo, hi, f);
    if i == 0 {
      assert y + 2.0 == f + 2.0 && y == f && y - 2.0 == f - 2.0;
    } else if i == 1 {
      assert y + 2.0 == f + 3.0 && y == f + 1.0 && y - 2.0 == f - 1.0;
    } else if i == 2 {
      assert y + 2.0 == f + 4.0 && y == f + 2.0 && y - 2.0 == f;
    } else if i == 3 {
      assert y + 2.0 == f + 5.0 && y == f + 3.0 && y - 2.0 == f + 1.0;
    } else if i == 4 {
      assert y + 2.0 == f + 6.0 && y == f + 4.0 && y - 2.0 == f + 2.0;
    } else {
      assert y + 2.0 == f + 7.0 && y == f + 5.0 && y - 2.0 == f + 3.0;
    }
  }

  // The round trips.

  lemma Bounds(c: RGB)
    ensures Lowest(c) <= c.r <= Highest(c) && Lowest(c) <= c.g <= Highest(c) && Lowest(c) <= c.b <= Highest(c)
    ensures ValidRGB(c) <==> 0.0 <= Lowest(c) && Highest(c) <= 1.0
    ensures Highest(c) == Lowest(c) ==> c == RGB(Highest(c), Highest(c), Highest(c))
  {
  }

  lemma Quotient(a: real, d: real)
    requires d > 0.0
    ensures a / d * d == a && (0.0 <= a ==> 0.0 <= a / d) && (a <= d ==> a / d <= 1.0) && (a > 0.0 ==> a / d > 0.0)
  {
    Monotone(d, 0.0, a / d);
    Monotone(d, a / d, 0.0);
    Monotone(d, a / d, 1.0);
    assert d * (a / d) == a && d * 0.0 == 0.0 && d * 1.0 == d;
  }

  /** Every colour comes back from hue, saturation and value, which lie in the unit interval. */
  lemma RgbHsvRgb(c: RGB)
    requires ValidRGB(c)
    ensures var hsv := RgbToHSV(c);
      0.0 <= hsv.h < 1.0 && Unit(hsv.s) && Unit(hsv.v) && HsvToRGB(hsv) == c
  {
    hide HsvToRGB, Wheel, Hue, Highest, Lowest, ValidRGB, Chroma;
    Bounds(c);
    var hsv := RgbToHSV(c);
    if Highest(c) == Lowest(c) {
      GreyBack(hsv);
    } else {
      OnWheel(c);
      ChromaBack(hsv, Highest(c), Lowest(c));
      HsvOnWheel(hsv);
    }
  }

  lemma ChromaBack(c: HSV, max: real, min: real)
    requires 0.0 <= min < max && c.v == max && c.s == (max - min) / max
    ensures Unit(c.s) && Chroma(c) == max - min
  {
    Quotient(max - min, max);
  }

  lemma GreyBack(c: HSV)
    requires c.s == 0.0 && c.h == 0.0
    ensures HsvToRGB(c) == RGB(c.v, c.v, c.v)
  {
  }

  /** A proper hue, saturation and value come back too, so neither conversion loses anything. */
  lemma HsvRgbHsv(c: HSV)
    requires 0.0 <= c.h < 1.0 && 0.0 < c.s <= 1.0 && 0.0 < c.v <= 1.0
    ensures ValidRGB(HsvToRGB(c)) && RgbToHSV(HsvToRGB(c)) == c
  {
    hide HsvToRGB, Wheel, Hue, Highest, Lowest, ValidRGB, Chroma;
    var rgb, d := HsvToRGB(c), Chroma(c);
    ChromaIs(c);
    HsvOnWheel(c);
    HueOfWheel(c.h * 6.0, c.v, d);
    Bounds(rgb);
    Divided(d, c.v, c.s);
  }

  lemma ChromaIs(c: HSV)
    requires 0.0 < c.s <= 1.0 && 0.0 < c.v <= 1.0
    ensures 0.0 < Chroma(c) <= c.v && Chroma(c) == c.v * c.s
  {
    Monotone(c.v, c.s, 1.0);
    Monotone(c.v, c.s, 0.0);
    assert c.v * 1.0 == c.v && c.v * 0.0 == 0.0;
  }

  /** Lightness and saturation fix the highest and the lowest channel. */
  lemma HslHighBack(max: real, min: real)
    requires 0.0 <= min < max <= 1.0
    ensures var l := (max + min) / 2.0; var s := (max - min) / (if l <= 0.5 then max + min else 2.0 - max - min);
      0.0 < s <= 1.0 && HslHigh(HSL(0.0, s, l)) == max && HslLow(HSL(0.0, s, l)) == min
  {
    var l, d := (max + min) / 2.0, max - min;
    if l <= 0.5 {
      Quotient(d, max + min);
      DarkHigh(l, d / (max + min), d);
    } else {
      Quotient(d, 2.0 - max - min);
      LightHigh(l, d / (2.0 - max - min), d);
    }
  }

  lemma DarkHigh(l: real, s: real, d: real)
    requires s * (2.0 * l) == d
    ensures l * (1.0 + s) == l + d / 2.0
  {
    assert l * (1.0 + s) == l + l * s && 2.0 * (l * s) == s * (2.0 * l);
  }

  lemma LightHigh(l: real, s: real, d: real)
    requires s * (2.0 - 2.0 * l) == d
    ensures l + s - l * s == l + d / 2.0
  {
    assert 2.0 * (s - l * s) == s * (2.0 - 2.0 * l);
  }

  lemma HighOfAnyHue(c: HSL)
    ensures HslHigh(c) == HslHigh(HSL(0.0, c.s, c.l)) && HslLow(c) == HslLow(HSL(0.0, c.s, c.l))
  {
  }

  /** The same for hue, saturation and lightness. */
  lemma RgbHslRgb(c: RGB)
    requires ValidRGB(c)
    ensures var hsl := RgbToHSL(c);
      0.0 <= hsl.h < 1.0 && Unit(hsl.s) && Unit(hsl.l) && HslToRGB(hsl) == c
  {
    hide HslToRGB, Wheel, Hue, Highest, Lowest, ValidRGB, HslHigh, HslLow;
    Bounds(c);
    var hsl := RgbToHSL(c);
    if Highest(c) == Lowest(c) {
      HslIs(hsl);
    } else {
      OnWheel(c);
      HslHighBack(Highest(c), Lowest(c));
      HighOfAnyHue(hsl);
      HslOnWheel(hsl);
    }
  }

  lemma HslHighIs(c: HSL)
    requires 0.0 < c.s <= 1.0 && 0.0 < c.l < 1.0
    ensures var hi, lo := HslHigh(c), HslLow(c);
      0.0 <= lo < hi <= 1.0 && (hi + lo) / 2.0 == c.l &&
      (hi - lo) == 2.0 * (if c.l <= 0.5 then c.l else 1.0 - c.l) * c.s
  {
    hide HslHigh;
    var k := if c.l <= 0.5 then c.l else 1.0 - c.l;
    HslHighOf(c);
    HighAndLow(c.l, k, c.s, HslHigh(c), HslLow(c));
  }

  lemma HighAndLow(l: real, k: real, s: real, hi: real, lo: real)
    requires 0.0 < k <= l <= 1.0 - k && 0.0 < s <= 1.0 && hi == l + k * s && lo == 2.0 * l - hi
    ensures 0.0 <= lo < hi <= 1.0 && (hi + lo) / 2.0 == l && hi - lo == 2.0 * k * s
  {
    Part(k, s);
    var w := k * s;
    Around(l, k, w, hi, lo);
    assert w + w == 2.0 * k * s;
  }

  lemma Around(l: real, k: real, w: real, hi: real, lo: real)
    requires 0.0 < w <= k <= l <= 1.0 - k && hi == l + w && lo == 2.0 * l - hi
    ensures 0.0 <= lo < hi <= 1.0 && (hi + lo) / 2.0 == l && hi - lo == w + w
  {
  }

  lemma HslHighOf(c: HSL)
    ensures HslHigh(c) == c.l + (if c.l <= 0.5 then c.l else 1.0 - c.l) * c.s
  {
  }

  lemma Part(k: real, s: real)
    requires k > 0.0 && 0.0 < s <= 1.0
    ensures 0.0 < k * s <= k
  {
    Monotone(k, s, 1.0);
    Monotone(k, s, 0.0);
    assert k * 1.0 == k && k * 0.0 == 0.0;
  }

  lemma HslRgbHsl(c: HSL)
    requires 0.0 <= c.h < 1.0 && 0.0 < c.s <= 1.0 && 0.0 < c.l < 1.0
    ensures ValidRGB(HslToRGB(c)) && RgbToHSL(HslToRGB(c)) == c
  {
    hide HslToRGB, Wheel, Hue, Highest, Lowest, ValidRGB, HslHigh, HslLow;
    var rgb, hi, lo := HslToRGB(c), HslHigh(c), HslLow(c);
    HslHighIs(c);
    HslOnWheel(c);
    HueOfWheel(c.h * 6.0, hi, hi - lo);
    Bounds(rgb);
    Divided(hi - lo, if c.l <= 0.5 then hi + lo else 2.0 - hi - lo, c.s);
  }
}
