/** hsl::to_rgb (src/core/color.cc) over exact reals instead of floats. */
module Color {
  import opened Wrappers
  import opened Ws2812

  datatype Hsl = Hsl(hue: byte, saturation: byte, luminance: byte)

  function Unit(v: byte): real {
    v as real / 255.0
  }

  // ----- a channel is a mixture of p and q

  /** The phase brought back into [0, 1]. */
  function Wrapped(t: real): real {
    var u := if t < 0.0 then t + 1.0 else t;
    if u > 1.0 then u - 1.0 else u
  }

  /** Share of q in a channel: up, plateau, down, off. */
  function Share(t: real): (w: real)
    ensures 0.0 <= t <= 1.0 ==> 0.0 <= w <= 1.0
  {
    if t < 1.0 / 6.0 then 6.0 * t
    else if t < 1.0 / 2.0 then 1.0
    else if t < 2.0 / 3.0 then (2.0 / 3.0 - t) * 6.0
    else 0.0
  }

  function Mix(p: real, q: real, w: real): real {
    p + (q - p) * w
  }

  lemma Product(a: real, b: real)
    requires 0.0 <= a && 0.0 <= b
    ensures 0.0 <= a * b
  {
  }

  lemma MixBetween(p: real, q: real, w: real)
    requires p <= q && 0.0 <= w <= 1.0
    ensures p <= Mix(p, q, w) <= q
  {
    Product(q - p, w);
    Product(q - p, 1.0 - w);
    assert (q - p) * (1.0 - w) == (q - p) - (q - p) * w;
  }

  method Hue2Rgb(p: real, q: real, t0: real) returns (r: real)
    ensures r == Mix(p, q, Share(Wrapped(t0)))
  {
    var t := t0;
    if t < 0.0 { t := t + 1.0; }
    if t > 1.0 { t := t - 1.0; }
    if t < 1.0 / 6.0 { return p + (q - p) * 6.0 * t; }
    if t < 1.0 / 2.0 { return q; }
    if t < 2.0 / 3.0 { return p + (q - p) * (2.0 / 3.0 - t) * 6.0; }
    return p;
  }

  /** Three phases a third apart always hit both plateaus. */
  lemma PhasesHitBothPlateaus(h: real)
    requires 0.0 <= h <= 1.0
    ensures var (r, g, b) := (Share(Wrapped(h + 1.0 / 3.0)), Share(Wrapped(h)), Share(Wrapped(h - 1.0 / 3.0)));
            (r == 1.0 || g == 1.0 || b == 1.0) && (r == 0.0 || g == 0.0 || b == 0.0)
  {
  }

  // ----- the conversion

  function High(s: real, l: real): real {
    if l < 0.5 then l * (1.0 + s) else l + s - l * s
  }

  lemma BoundsOfHigh(s: real, l: real)
    requires 0.0 <= s <= 1.0 && 0.0 <= l <= 1.0
    ensures l <= High(s, l) <= 1.0 && 0.0 <= 2.0 * l - High(s, l)
  {
    if l < 0.5 {
      Product(l, s);
      Product(l, 1.0 - s);
      assert l * (1.0 + s) == l + l * s && l * (1.0 - s) == l - l * s;
    } else {
      Product(s, 1.0 - l);
      Product(1.0 - s, 1.0 - l);
      assert s * (1.0 - l) == s - l * s && (1.0 - s) * (1.0 - l) == 1.0 - l - (s - l * s);
    }
  }

  datatype Channels = Channels(r: real, g: real, b: real)

  function Convert(h: real, s: real, l: real): Channels
    requires 0.0 <= h <= 1.0
  {
    if s == 0.0 then Channels(l, l, l)
    else
      var q := High(s, l);
      var p := 2.0 * l - q;
      Channels(Mix(p, q, Share(Wrapped(h + 1.0 / 3.0))),
               Mix(p, q, Share(Wrapped(h))),
               Mix(p, q, Share(Wrapped(h - 1.0 / 3.0))))
  }

  function Max3(c: Channels): real {
    var m := if c.r > c.g then c.r else c.g;
    if m > c.b then m else c.b
  }

  function Min3(c: Channels): real {
    var m := if c.r < c.g then c.r else c.g;
    if m < c.b then m else c.b
  }

  /** Every channel is in range, and the luminance is the mean of the largest and the smallest. */
  lemma LuminanceIsKept(h: real, s: real, l: real)
    requires 0.0 <= h <= 1.0 && 0.0 <= s <= 1.0 && 0.0 <= l <= 1.0
    ensures var c := Convert(h, s, l);
            && 0.0 <= c.r <= 1.0 && 0.0 <= c.g <= 1.0 && 0.0 <= c.b <= 1.0
            && Max3(c) + Min3(c) == 2.0 * l
  {
    if s != 0.0 {
      var q := High(s, l);
      var p := 2.0 * l - q;
      var w, x, y := Share(Wrapped(h + 1.0 / 3.0)), Share(Wrapped(h)), Share(Wrapped(h - 1.0 / 3.0));
      BoundsOfHigh(s, l);
      MixBetween(p, q, w);
      MixBetween(p, q, x);
      MixBetween(p, q, y);
      PhasesHitBothPlateaus(h);
      assert Mix(p, q, 1.0) == q && Mix(p, q, 0.0) == p;
    }
  }

  /** The colourfulness: the distance of the largest and the smallest channel. */
  function Chroma(s: real, l: real): real {
    s * (if l < 0.5 then 2.0 * l else 2.0 - 2.0 * l)
  }

  lemma ChromaIsTheSpread(s: real, l: real)
    ensures High(s, l) - (2.0 * l - High(s, l)) == Chroma(s, l)
  {
    if l < 0.5 {
      assert l * (1.0 + s) == l + l * s && s * (2.0 * l) == 2.0 * (l * s);
    } else {
      assert s * (2.0 - 2.0 * l) == 2.0 * s - 2.0 * (l * s);
    }
  }

  lemma SharesOfHue(h: real)
    requires 0.0 <= h <= 1.0
    ensures var (r, g, b) := (Share(Wrapped(h + 1.0 / 3.0)), Share(Wrapped(h)), Share(Wrapped(h - 1.0 / 3.0)));
            && (0.0 <= h <= 1.0 / 6.0 ==> r == 1.0 && g == 6.0 * h && b == 0.0)
            && (1.0 / 6.0 <= h <= 1.0 / 3.0 ==> r == 2.0 - 6.0 * h && g == 1.0 && b == 0.0)
            && (1.0 / 3.0 <= h <= 1.0 / 2.0 ==> r == 0.0 && g == 1.0 && b == 6.0 * h - 2.0)
            && (1.0 / 2.0 <= h <= 2.0 / 3.0 ==> r == 0.0 && g == 4.0 - 6.0 * h && b == 1.0)
            && (2.0 / 3.0 <= h <= 5.0 / 6.0 ==> r == 6.0 * h - 4.0 && g == 0.0 && b == 1.0)
            && (5.0 / 6.0 <= h <= 1.0 ==> r == 1.0 && g == 0.0 && b == 6.0 - 6.0 * h)
  {
  }

  /** x is the largest channel, z the smallest, and y lies at share w between them. */
  predicate Ordered(x: real, y: real, z: real, w: real, chroma: real) {
    x - z == chroma && y - z == w * chroma && z <= y <= x
  }

  lemma MixesAreOrdered(p: real, q: real, w: real)
    requires p <= q && 0.0 <= w <= 1.0
    ensures Ordered(Mix(p, q, 1.0), Mix(p, q, w), Mix(p, q, 0.0), w, q - p)
  {
    MixBetween(p, q, w);
  }

  lemma GreyIsOrdered(l: real, w: real)
    ensures Ordered(l, l, l, w, 0.0)
  {
  }

  /**
   The colour has the hue it was given: in each sixth of the circle it says which
   channel is the largest and which the smallest, their distance is the chroma, and
   the third one lies between them at the distance that the hue says.
   */
  lemma HueIsKept(h: real, s: real, l: real)
    requires 0.0 <= h <= 1.0 && 0.0 <= s <= 1.0 && 0.0 <= l <= 1.0
    ensures var c, d := Convert(h, s, l), Chroma(s, l);
            && (0.0 <= h <= 1.0 / 6.0 ==> Ordered(c.r, c.g, c.b, 6.0 * h, d))
            && (1.0 / 6.0 <= h <= 1.0 / 3.0 ==> Ordered(c.g, c.r, c.b, 2.0 - 6.0 * h, d))
            && (1.0 / 3.0 <= h <= 1.0 / 2.0 ==> Ordered(c.g, c.b, c.r, 6.0 * h - 2.0, d))
            && (1.0 / 2.0 <= h <= 2.0 / 3.0 ==> Ordered(c.b, c.g, c.r, 4.0 - 6.0 * h, d))
            && (2.0 / 3.0 <= h <= 5.0 / 6.0 ==> Ordered(c.b, c.r, c.g, 6.0 * h - 4.0, d))
            && (5.0 / 6.0 <= h <= 1.0 ==> Ordered(c.r, c.b, c.g, 6.0 - 6.0 * h, d))
  {
    hide Share, Wrapped, Mix, High, Ordered;
    if s == 0.0 {
      GreyIsOrdered(l, 6.0 * h);
      GreyIsOrdered(l, 2.0 - 6.0 * h);
      GreyIsOrdered(l, 6.0 * h - 2.0);
      GreyIsOrdered(l, 4.0 - 6.0 * h);
      GreyIsOrdered(l, 6.0 * h - 4.0);
      GreyIsOrdered(l, 6.0 - 6.0 * h);
    } else {
      var q := High(s, l);
      BoundsOfHigh(s, l);
      ChromaIsTheSpread(s, l);
      SharesOfHue(h);
      hide Chroma;
      if 0.0 <= h <= 1.0 / 6.0 { MixesAreOrdered(2.0 * l - q, q, 6.0 * h); }
      if 1.0 / 6.0 <= h <= 1.0 / 3.0 { MixesAreOrdered(2.0 * l - q, q, 2.0 - 6.0 * h); }
      if 1.0 / 3.0 <= h <= 1.0 / 2.0 { MixesAreOrdered(2.0 * l - q, q, 6.0 * h - 2.0); }
      if 1.0 / 2.0 <= h <= 2.0 / 3.0 { MixesAreOrdered(2.0 * l - q, q, 4.0 - 6.0 * h); }
      if 2.0 / 3.0 <= h <= 5.0 / 6.0 { MixesAreOrdered(2.0 * l - q, q, 6.0 * h - 4.0); }
      if 5.0 / 6.0 <= h <= 1.0 { MixesAreOrdered(2.0 * l - q, q, 6.0 - 6.0 * h); }
    }
  }

  // ----- bytes

  /** static_cast<uint8_t>(x * 255). */
  function ToByte(x: real): byte
    requires 0.0 <= x <= 1.0
  {
    (x * 255.0).Floor
  }

  function Largest(c: Rgb): nat {
    var m := if c.red > c.green then c.red else c.green;
    if m > c.blue then m else c.blue
  }

  function Smallest(c: Rgb): nat {
    var m := if c.red < c.green then c.red else c.green;
    if m < c.blue then m else c.blue
  }

  function ToRgb(c: Hsl): Rgb {
    LuminanceIsKept(Unit(c.hue), Unit(c.saturation), Unit(c.luminance));
    var ch := Convert(Unit(c.hue), Unit(c.saturation), Unit(c.luminance));
    Rgb(ToByte(ch.r), ToByte(ch.g), ToByte(ch.b))
  }

  lemma ToByteMonotone(x: real, y: real)
    requires 0.0 <= x <= y <= 1.0
    ensures ToByte(x) <= ToByte(y)
  {
  }

  /** After truncation the largest and smallest channel add up to 2L, or to 2L - 1 when they were fractional. */
  lemma LuminanceOfBytes(c: Hsl)
    ensures var rgb := ToRgb(c);
            var top := Max3(Convert(Unit(c.hue), Unit(c.saturation), Unit(c.luminance))) * 255.0;
            Largest(rgb) + Smallest(rgb) == 2 * c.luminance - (if top.Floor as real == top then 0 else 1)
  {
    LuminanceIsKept(Unit(c.hue), Unit(c.saturation), Unit(c.luminance));
    var ch := Convert(Unit(c.hue), Unit(c.saturation), Unit(c.luminance));
    hide Convert;
    TruncationKeepsTheOrder(ch);
    assert Max3(ch) * 255.0 + Min3(ch) * 255.0 == (2 * c.luminance) as real;
    hide Max3, Min3, Largest, Smallest;
    FloorsOfSum(Max3(ch) * 255.0, Min3(ch) * 255.0, 2 * c.luminance);
  }

  /** The largest and smallest byte are those of the largest and smallest channel. */
  lemma TruncationKeepsTheOrder(ch: Channels)
    requires 0.0 <= ch.r <= 1.0 && 0.0 <= ch.g <= 1.0 && 0.0 <= ch.b <= 1.0
    ensures Largest(Rgb(ToByte(ch.r), ToByte(ch.g), ToByte(ch.b))) == ToByte(Max3(ch))
    ensures Smallest(Rgb(ToByte(ch.r), ToByte(ch.g), ToByte(ch.b))) == ToByte(Min3(ch))
  {
    var hi, lo := Max3(ch), Min3(ch);
    ToByteMonotone(ch.r, hi);
    ToByteMonotone(ch.g, hi);
    ToByteMonotone(ch.b, hi);
    ToByteMonotone(lo, ch.r);
    ToByteMonotone(lo, ch.g);
    ToByteMonotone(lo, ch.b);
    hide ToByte;
  }

  /** In bytes: red leads for hues 0 to 42 and 213 to 255, green for 43 to 127, blue for 128 to 212. */
  lemma LeadingByte(c: Hsl)
    ensures var rgb := ToRgb(c);
            && (c.hue <= 42 || 213 <= c.hue ==> rgb.red == Largest(rgb))
            && (43 <= c.hue <= 127 ==> rgb.green == Largest(rgb))
            && (128 <= c.hue <= 212 ==> rgb.blue == Largest(rgb))
            && (c.hue <= 85 ==> rgb.blue == Smallest(rgb))
            && (85 <= c.hue <= 170 ==> rgb.red == Smallest(rgb))
            && (170 <= c.hue ==> rgb.green == Smallest(rgb))
  {
    var (h, s, l) := (Unit(c.hue), Unit(c.saturation), Unit(c.luminance));
    HueIsKept(h, s, l);
    LuminanceIsKept(h, s, l);
    var ch := Convert(h, s, l);
    hide Convert, Chroma;
    var a: seq<real> := [ch.r, ch.g, ch.b];
    forall i, j | 0 <= i < 3 && 0 <= j < 3 && a[i] <= a[j] ensures ToByte(a[i]) <= ToByte(a[j]) {
      ToByteMonotone(a[i], a[j]);
    }
    assert a[0] == ch.r && a[1] == ch.g && a[2] == ch.b;
  }

  lemma FloorsOfSum(x: real, y: real, n: int)
    requires x + y == n as real
    ensures x.Floor + y.Floor == n - (if x.Floor as real == x then 0 else 1)
  {
    assert y == n as real - x;
    if x.Floor as real == x {
      assert y == (n - x.Floor) as real;
    }
  }

  method HslToRgb(c: Hsl) returns (result: Rgb)
    ensures result == ToRgb(c)
  {
    var h := c.hue as real / 255.0;
    var s := c.saturation as real / 255.0;
    var l := c.luminance as real / 255.0;
    LuminanceIsKept(h, s, l);
    var r, g, b;
    if s == 0.0 {
      r, g, b := l, l, l;
    } else {
      var q := if l < 0.5 then l * (1.0 + s) else l + s - l * s;
      var p := 2.0 * l - q;
      r := Hue2Rgb(p, q, h + 1.0 / 3.0);
      g := Hue2Rgb(p, q, h);
      b := Hue2Rgb(p, q, h - 1.0 / 3.0);
    }
    result := Rgb(ToByte(r), ToByte(g), ToByte(b));
  }
}
