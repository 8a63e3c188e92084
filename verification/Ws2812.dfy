/**
 The two WS2812 line codes (src/periph/spi_transcode.cc and _alt.cc).  A colour
 bit is a high pulse followed by low: 8 wire bits in the plain code, 10 in the
 alternate one, which therefore spreads four symbols over five bytes.
 */
module Ws2812 {
  import opened Wrappers

  datatype Rgb = Rgb(red: byte, green: byte, blue: byte)

  const BLACK := Rgb(0, 0, 0)

  datatype Code = Plain | Alternate

  const BYTES_PER_RESET := 1000

  function BytesPerLed(code: Code): nat {
    if code.Plain? then 24 else 30
  }

  function SymbolLength(code: Code): nat {
    if code.Plain? then 8 else 10
  }

  // ----- bits

  /** The low k bits of a value, most significant first: value & (1 << k - 1), ..., value & (1 << 0). */
  function LowBits(v: nat, k: nat): (b: seq<bool>)
    ensures |b| == k
  {
    if k == 0 then [] else LowBits(v / 2, k - 1) + [v % 2 == 1]
  }

  function Bits(v: byte): (b: seq<bool>)
    ensures |b| == 8
  {
    LowBits(v, 8)
  }

  function FromBits(b: seq<bool>): nat {
    if b == [] then 0 else 2 * FromBits(b[..|b| - 1]) + if b[|b| - 1] then 1 else 0
  }

  lemma {:induction false} LowBitsRoundTrip(v: nat, k: nat)
    requires v < Pow2(k)
    ensures FromBits(LowBits(v, k)) == v
  {
    if k > 0 {
      LowBitsRoundTrip(v / 2, k - 1);
      assert LowBits(v, k)[..k - 1] == LowBits(v / 2, k - 1);
    }
  }

  lemma BitsRoundTrip(v: byte)
    ensures FromBits(Bits(v)) == v
  {
    assert Pow2(8) == 256;
    LowBitsRoundTrip(v, 8);
  }

  function BitsOf(d: seq<byte>): (b: seq<bool>)
    ensures |b| == 8 * |d|
  {
    if d == [] then [] else BitsOf(d[..|d| - 1]) + Bits(d[|d| - 1])
  }

  lemma {:induction false} BitsOfConcat(a: seq<byte>, b: seq<byte>)
    ensures BitsOf(a + b) == BitsOf(a) + BitsOf(b)
  {
    hide Bits;
    if b == [] {
      assert a + b == a;
    } else {
      BitsOfConcat(a, b[..|b| - 1]);
      assert (a + b)[..|a + b| - 1] == a + b[..|b| - 1];
    }
  }

  // ----- the wire

  /** The pulse of one colour bit. */
  function Symbol(code: Code, bit: bool): (s: seq<bool>)
    ensures |s| == SymbolLength(code)
  {
    match code
    case Plain =>
      if bit then [true, true, true, true, true, false, false, false]
      else [true, true, true, false, false, false, false, false]
    case Alternate =>
      if bit then [true, true, true, true, true, true, false, false, false, false]
      else [true, true, true, false, false, false, false, false, false, false]
  }

  function WireLength(code: Code, n: nat): nat {
    if code.Plain? then 8 * n else 10 * n
  }

  function Symbols(code: Code, bits: seq<bool>): (w: seq<bool>)
    ensures |w| == WireLength(code, |bits|)
  {
    if bits == [] then [] else Symbols(code, bits[..|bits| - 1]) + Symbol(code, bits[|bits| - 1])
  }

  lemma SymbolsStep(code: Code, bits: seq<bool>, bit: bool)
    ensures Symbols(code, []) == []
    ensures Symbols(code, bits + [bit]) == Symbols(code, bits) + Symbol(code, bit)
  {
    assert (bits + [bit])[..|bits|] == bits;
  }

  lemma {:induction false} SymbolsConcat(code: Code, a: seq<bool>, b: seq<bool>)
    ensures Symbols(code, a + b) == Symbols(code, a) + Symbols(code, b)
  {
    hide Symbols, Symbol, SymbolLength, WireLength;
    if b == [] {
      SymbolsStep(code, a, true);
      assert a + b == a;
    } else {
      var init, last := b[..|b| - 1], b[|b| - 1];
      SymbolsConcat(code, a, init);
      SymbolsStep(code, a + init, last);
      SymbolsStep(code, init, last);
      assert a + b == a + init + [last] && b == init + [last];
    }
  }

  /** The colour bits of a strip: green, red, blue, each most significant bit first. */
  function ColorBits(c: Rgb): (b: seq<bool>)
    ensures |b| == 24
  {
    Bits(c.green) + Bits(c.red) + Bits(c.blue)
  }

  function DataBits(cs: seq<Rgb>): (b: seq<bool>)
    ensures |b| == 24 * |cs|
  {
    if cs == [] then [] else DataBits(cs[..|cs| - 1]) + ColorBits(cs[|cs| - 1])
  }

  // ----- the bytes that the encoders write

  function PlainByte(bit: bool): byte {
    if bit then 0xf8 else 0xe0
  }

  function PlainBytes(bits: seq<bool>): (d: seq<byte>)
    ensures |d| == |bits|
  {
    seq(|bits|, i requires 0 <= i < |bits| => PlainByte(bits[i]))
  }

  const ONE_A := 0xfc
  const ZERO_A := 0xe0
  const ONE_B := 0x3f
  const ZERO_B := 0x38
  const ONE_C0 := 0x0f
  const ZERO_C0 := 0x0e
  const ONE_C := 0xc3
  const ZERO_C := 0x03
  const ONE_D := 0xf0
  const ZERO_D := 0x80

  /** Four colour bits in five bytes. */
  function AltHalf(w: bool, x: bool, y: bool, z: bool): (d: seq<byte>)
    ensures |d| == 5
  {
    [if w then ONE_A else ZERO_A, if x then ONE_B else ZERO_B, if y then ONE_C0 else ZERO_C0,
     if y then ONE_C else ZERO_C, if z then ONE_D else ZERO_D]
  }

  function AltFour(b: seq<bool>): (d: seq<byte>)
    requires |b| == 4
    ensures |d| == 5
  {
    AltHalf(b[0], b[1], b[2], b[3])
  }

  function AltBytes(b: seq<bool>): (d: seq<byte>)
    requires |b| == 8
    ensures |d| == 10
  {
    AltFour(b[..4]) + AltFour(b[4..])
  }

  function ByteCells(code: Code, v: byte): seq<byte> {
    if code.Plain? then PlainBytes(Bits(v)) else AltBytes(Bits(v))
  }

  function Cell(code: Code, c: Rgb): (d: seq<byte>)
    ensures |d| == BytesPerLed(code)
  {
    ByteCells(code, c.green) + ByteCells(code, c.red) + ByteCells(code, c.blue)
  }

  function StripLength(code: Code, leds: nat): nat {
    if code.Plain? then 24 * leds else 30 * leds
  }

  function Strip(code: Code, cs: seq<Rgb>): (d: seq<byte>)
    ensures |d| == StripLength(code, |cs|)
  {
    if cs == [] then [] else Strip(code, cs[..|cs| - 1]) + Cell(code, cs[|cs| - 1])
  }

  // ----- encoding is symbol by symbol

  lemma FourBits(n: nat)
    ensures LowBits(n, 4) == [n / 8 % 2 == 1, n / 4 % 2 == 1, n / 2 % 2 == 1, n % 2 == 1]
  {
    Halves(n);
    assert LowBits(n / 8, 1) == [n / 8 % 2 == 1];
    assert LowBits(n / 4, 2) == LowBits(n / 8, 1) + [n / 4 % 2 == 1];
    assert LowBits(n / 2, 3) == LowBits(n / 4, 2) + [n / 2 % 2 == 1];
  }

  lemma Halves(n: nat)
    ensures n / 2 / 2 == n / 4 && n / 4 / 2 == n / 8 && n / 8 / 2 == n / 16
  {
  }

  lemma EightBits(v: nat)
    ensures LowBits(v, 8) == [v / 16 / 8 % 2 == 1, v / 16 / 4 % 2 == 1, v / 16 / 2 % 2 == 1, v / 16 % 2 == 1,
                              v / 8 % 2 == 1, v / 4 % 2 == 1, v / 2 % 2 == 1, v % 2 == 1]
  {
    FourBits(v / 16);
    Halves(v);
    assert LowBits(v / 8, 5) == LowBits(v / 16, 4) + [v / 8 % 2 == 1];
    assert LowBits(v / 4, 6) == LowBits(v / 8, 5) + [v / 4 % 2 == 1];
    assert LowBits(v / 2, 7) == LowBits(v / 4, 6) + [v / 2 % 2 == 1];
  }

  /** The byte patterns in wire order, for one and for zero. */
  lemma OnePatterns()
    ensures LowBits(0xfc, 8) == [true, true, true, true, true, true, false, false]
    ensures LowBits(0x3f, 8) == [false, false, true, true, true, true, true, true]
    ensures LowBits(0x0f, 8) == [false, false, false, false, true, true, true, true]
    ensures LowBits(0xc3, 8) == [true, true, false, false, false, false, true, true]
    ensures LowBits(0xf0, 8) == [true, true, true, true, false, false, false, false]
  {
    hide LowBits;
    EightBits(0xfc);
    EightBits(0x3f);
    EightBits(0x0f);
    EightBits(0xc3);
    EightBits(0xf0);
  }

  lemma ZeroPatterns()
    ensures LowBits(0xe0, 8) == [true, true, true, false, false, false, false, false]
    ensures LowBits(0x38, 8) == [false, false, true, true, true, false, false, false]
    ensures LowBits(0x0e, 8) == [false, false, false, false, true, true, true, false]
    ensures LowBits(0x03, 8) == [false, false, false, false, false, false, true, true]
    ensures LowBits(0x80, 8) == [true, false, false, false, false, false, false, false]
  {
    hide LowBits;
    EightBits(0xe0);
    EightBits(0x38);
    EightBits(0x0e);
    EightBits(0x03);
    EightBits(0x80);
  }

  /** The five byte patterns are the ten-bit symbols cut at byte boundaries. */
  lemma CutA(w: bool)
    ensures Bits(if w then ONE_A else ZERO_A) == Symbol(Alternate, w)[..8]
  {
    OnePatterns();
    ZeroPatterns();
    hide LowBits;
  }

  lemma CutB(w: bool, x: bool)
    ensures Bits(if x then ONE_B else ZERO_B) == Symbol(Alternate, w)[8..] + Symbol(Alternate, x)[..6]
  {
    OnePatterns();
    ZeroPatterns();
    hide LowBits;
  }

  lemma CutC0(x: bool, y: bool)
    ensures Bits(if y then ONE_C0 else ZERO_C0) == Symbol(Alternate, x)[6..] + Symbol(Alternate, y)[..4]
  {
    OnePatterns();
    ZeroPatterns();
    hide LowBits;
  }

  lemma CutC(y: bool, z: bool)
    ensures Bits(if y then ONE_C else ZERO_C) == Symbol(Alternate, y)[4..] + Symbol(Alternate, z)[..2]
  {
    OnePatterns();
    ZeroPatterns();
    hide LowBits;
  }

  lemma CutD(z: bool)
    ensures Bits(if z then ONE_D else ZERO_D) == Symbol(Alternate, z)[2..]
  {
    OnePatterns();
    ZeroPatterns();
    hide LowBits;
  }

  lemma Recombine(w: seq<bool>, x: seq<bool>, y: seq<bool>, z: seq<bool>)
    requires |w| == |x| == |y| == |z| == 10
    ensures w[..8] + (w[8..] + x[..6]) + (x[6..] + y[..4]) + (y[4..] + z[..2]) + z[2..] == w + x + y + z
  {
  }

  lemma AltHalfBits(w: bool, x: bool, y: bool, z: bool)
    ensures BitsOf(AltHalf(w, x, y, z)) == Symbols(Alternate, [w, x, y, z])
  {
    FiveBytes(AltHalf(w, x, y, z));
    FourSymbols(w, x, y, z);
    CutA(w);
    CutB(w, x);
    CutC0(x, y);
    CutC(y, z);
    CutD(z);
    Recombine(Symbol(Alternate, w), Symbol(Alternate, x), Symbol(Alternate, y), Symbol(Alternate, z));
  }

  lemma FiveBytes(d: seq<byte>)
    requires |d| == 5
    ensures BitsOf(d) == Bits(d[0]) + Bits(d[1]) + Bits(d[2]) + Bits(d[3]) + Bits(d[4])
  {
    assert d[..4][..3] == d[..3] && d[..3][..2] == d[..2] && d[..2][..1] == d[..1] && d[..1][..0] == [];
    assert BitsOf(d[..1]) == Bits(d[0]);
    assert BitsOf(d[..2]) == BitsOf(d[..1]) + Bits(d[1]);
    assert BitsOf(d[..3]) == BitsOf(d[..2]) + Bits(d[2]);
    assert BitsOf(d[..4]) == BitsOf(d[..3]) + Bits(d[3]);
  }

  lemma FourSymbols(w: bool, x: bool, y: bool, z: bool)
    ensures Symbols(Alternate, [w, x, y, z]) ==
            Symbol(Alternate, w) + Symbol(Alternate, x) + Symbol(Alternate, y) + Symbol(Alternate, z)
  {
    hide Symbols, Symbol;
    SymbolsStep(Alternate, [], w);
    SymbolsStep(Alternate, [w], x);
    SymbolsStep(Alternate, [w, x], y);
    SymbolsStep(Alternate, [w, x, y], z);
    assert [] + [w] == [w] && [w] + [x] == [w, x];
    assert [w, x] + [y] == [w, x, y] && [w, x, y] + [z] == [w, x, y, z];
    assert [] + Symbol(Alternate, w) == Symbol(Alternate, w);
  }

  lemma CutPlain(bit: bool)
    ensures Bits(PlainByte(bit)) == Symbol(Plain, bit)
  {
    EightBits(PlainByte(bit));
  }

  lemma {:induction false} PlainIsSymbols(bits: seq<bool>)
    ensures BitsOf(PlainBytes(bits)) == Symbols(Plain, bits)
  {
    if bits != [] {
      var n := |bits| - 1;
      PlainIsSymbols(bits[..n]);
      assert PlainBytes(bits)[..n] == PlainBytes(bits[..n]);
      CutPlain(bits[n]);
    }
  }

  lemma JoinSymbols(d: seq<byte>, e: seq<byte>, x: seq<bool>, y: seq<bool>)
    requires BitsOf(d) == Symbols(Alternate, x) && BitsOf(e) == Symbols(Alternate, y)
    ensures BitsOf(d + e) == Symbols(Alternate, x + y)
  {
    BitsOfConcat(d, e);
    SymbolsConcat(Alternate, x, y);
  }

  lemma AltFourIsSymbols(v: byte, at: nat)
    requires at <= 4
    ensures BitsOf(AltFour(Bits(v)[at..at + 4])) == Symbols(Alternate, Bits(v)[at..at + 4])
  {
    var b := Bits(v)[at..at + 4];
    AltHalfBits(b[0], b[1], b[2], b[3]);
    assert b == [b[0], b[1], b[2], b[3]];
  }

  lemma AltByteIsSymbols(v: byte)
    ensures BitsOf(AltBytes(Bits(v))) == Symbols(Alternate, Bits(v))
  {
    var b := Bits(v);
    assert b[..4] == b[0..0 + 4] && b[4..] == b[4..4 + 4] && b[..4] + b[4..] == b;
    AltFourIsSymbols(v, 0);
    AltFourIsSymbols(v, 4);
    hide Bits, AltFour, Symbols, BitsOf;
    JoinSymbols(AltFour(b[..4]), AltFour(b[4..]), b[..4], b[4..]);
  }

  lemma ByteCellsBits(code: Code, v: byte)
    ensures BitsOf(ByteCells(code, v)) == Symbols(code, Bits(v))
  {
    match code {
      case Plain => PlainIsSymbols(Bits(v));
      case Alternate => AltByteIsSymbols(v);
    }
  }

  lemma CellBits(code: Code, c: Rgb)
    ensures BitsOf(Cell(code, c)) == Symbols(code, ColorBits(c))
  {
    var g, r, b := ByteCells(code, c.green), ByteCells(code, c.red), ByteCells(code, c.blue);
    ByteCellsBits(code, c.green);
    ByteCellsBits(code, c.red);
    ByteCellsBits(code, c.blue);
    BitsOfConcat(g, r);
    BitsOfConcat(g + r, b);
    SymbolsConcat(code, Bits(c.green), Bits(c.red));
    SymbolsConcat(code, Bits(c.green) + Bits(c.red), Bits(c.blue));
  }

  /** For a strip of any length the wire carries exactly one symbol per colour bit, in order. */
  lemma {:induction false} StripIsSymbols(code: Code, cs: seq<Rgb>)
    ensures BitsOf(Strip(code, cs)) == Symbols(code, DataBits(cs))
  {
    if cs != [] {
      var n := |cs| - 1;
      StripIsSymbols(code, cs[..n]);
      CellBits(code, cs[n]);
      BitsOfConcat(Strip(code, cs[..n]), Cell(code, cs[n]));
      SymbolsConcat(code, DataBits(cs[..n]), ColorBits(cs[n]));
    }
  }

  // ----- decoding

  lemma {:induction false} SymbolAt(code: Code, bits: seq<bool>, i: nat, k: nat)
    requires i < |bits| && k < SymbolLength(code)
    ensures WireLength(code, i) + k < |Symbols(code, bits)|
    ensures Symbols(code, bits)[WireLength(code, i) + k] == Symbol(code, bits[i])[k]
  {
    hide Symbol;
    var n := |bits| - 1;
    if i < n {
      SymbolAt(code, bits[..n], i, k);
    }
  }

  /** A receiver that samples each of n symbols in its fourth wire bit. */
  function Sample(code: Code, wire: seq<bool>, n: nat): seq<bool>
    requires WireLength(code, n) <= |wire|
  {
    seq(n, i requires 0 <= i < n => wire[WireLength(code, i) + 3])
  }

  function ColorAt(bits: seq<bool>, i: nat): (nat, nat, nat)
    requires 24 * i + 24 <= |bits|
  {
    (FromBits(bits[24 * i + 8..24 * i + 16]),
     FromBits(bits[24 * i..24 * i + 8]),
     FromBits(bits[24 * i + 16..24 * i + 24]))
  }

  lemma Prefix(a: seq<bool>, b: seq<bool>, lo: nat)
    requires lo + 24 <= |a|
    ensures (a + b)[lo..lo + 24] == a[lo..lo + 24]
  {
  }

  lemma {:induction false} DataBitsAt(cs: seq<Rgb>, i: nat)
    requires i < |cs|
    ensures DataBits(cs)[24 * i..24 * i + 24] == ColorBits(cs[i])
  {
    hide ColorBits;
    var n := |cs| - 1;
    var rest, all := DataBits(cs[..n]), DataBits(cs);
    assert all == rest + ColorBits(cs[n]) && |rest| == 24 * n;
    if i < n {
      DataBitsAt(cs[..n], i);
      assert cs[..n][i] == cs[i];
      Prefix(rest, ColorBits(cs[n]), 24 * i);
    } else {
      assert 24 * i == |rest| && all[|rest|..|rest| + 24] == ColorBits(cs[n]);
    }
  }

  /** The fourth wire bit of a symbol is the colour bit. */
  lemma SampleAt(code: Code, bits: seq<bool>, j: nat)
    requires j < |bits|
    ensures WireLength(code, j) + 3 < |Symbols(code, bits)| && Symbols(code, bits)[WireLength(code, j) + 3] == bits[j]
  {
    SymbolAt(code, bits, j, 3);
  }

  lemma SampleIsData(code: Code, bits: seq<bool>)
    ensures Sample(code, Symbols(code, bits), |bits|) == bits
  {
    hide Symbols, Symbol;
    forall j | 0 <= j < |bits| ensures Sample(code, Symbols(code, bits), |bits|)[j] == bits[j] {
      SampleAt(code, bits, j);
    }
  }

  lemma SliceOfSlice(bits: seq<bool>, at: nat, lo: nat, hi: nat)
    requires at + 24 <= |bits| && lo <= hi <= 24
    ensures bits[at..at + 24][lo..hi] == bits[at + lo..at + hi]
  {
    var x, y := bits[at..at + 24][lo..hi], bits[at + lo..at + hi];
    assert forall k :: 0 <= k < |y| ==> x[k] == y[k];
  }

  lemma Thirds(bits: seq<bool>, at: nat, g: seq<bool>, r: seq<bool>, b: seq<bool>)
    requires at + 24 <= |bits| && |g| == |r| == |b| == 8
    requires bits[at..at + 24] == g + r + b
    ensures bits[at..at + 8] == g && bits[at + 8..at + 16] == r && bits[at + 16..at + 24] == b
  {
    var cb := bits[at..at + 24];
    assert (g + r + b)[..8] == g && (g + r + b)[8..16] == r && (g + r + b)[16..] == b;
    SliceOfSlice(bits, at, 0, 8);
    SliceOfSlice(bits, at, 8, 16);
    SliceOfSlice(bits, at, 16, 24);
  }

  lemma ColorOfData(cs: seq<Rgb>, i: nat)
    requires i < |cs|
    ensures ColorAt(DataBits(cs), i) == (cs[i].red, cs[i].green, cs[i].blue)
  {
    DataBitsAt(cs, i);
    Thirds(DataBits(cs), 24 * i, Bits(cs[i].green), Bits(cs[i].red), Bits(cs[i].blue));
    BitsRoundTrip(cs[i].green);
    BitsRoundTrip(cs[i].red);
    BitsRoundTrip(cs[i].blue);
  }

  /** Either code can be decoded: sampling the wire gives back every colour of the strip. */
  lemma DecodeEncode(code: Code, cs: seq<Rgb>, i: nat)
    requires i < |cs|
    ensures |BitsOf(Strip(code, cs))| == WireLength(code, 24 * |cs|)
    ensures ColorAt(Sample(code, BitsOf(Strip(code, cs)), 24 * |cs|), i) == (cs[i].red, cs[i].green, cs[i].blue)
  {
    StripIsSymbols(code, cs);
    SampleIsData(code, DataBits(cs));
    ColorOfData(cs, i);
  }

  // ----- the reset gap cannot appear inside the data

  /** Wire bits that may be low in a row, plus one. */
  function Window(code: Code): nat {
    if code.Plain? then 6 else 8
  }

  /**
   Among any Window consecutive wire bits of a strip one is high, so low runs
   inside the data are far shorter than the 8 * BYTES_PER_RESET low bits of a reset.
   */
  lemma NoResetInside(code: Code, cs: seq<Rgb>, p: nat)
    requires p + Window(code) <= |BitsOf(Strip(code, cs))|
    ensures true in BitsOf(Strip(code, cs))[p..p + Window(code)]
    ensures Window(code) < 8 * BYTES_PER_RESET
  {
    StripIsSymbols(code, cs);
    HighInWindow(code, DataBits(cs), p);
  }

  lemma HighInWindow(code: Code, bits: seq<bool>, p: nat)
    requires p + Window(code) <= |Symbols(code, bits)|
    ensures true in Symbols(code, bits)[p..p + Window(code)]
  {
    var wire := Symbols(code, bits);
    var i, k := NextHigh(code, p);
    SymbolAt(code, bits, i, k);
    assert wire[p..p + Window(code)][WireLength(code, i) + k - p] == true;
  }

  /** A symbol starts high and stays high for three bits. */
  lemma NextHigh(code: Code, p: nat) returns (i: nat, k: nat)
    ensures k < 3 && p <= WireLength(code, i) + k < p + Window(code)
  {
    match code {
      case Plain => i, k := p / 8, p % 8;
      case Alternate => i, k := p / 10, p % 10;
    }
    if k >= 3 { i, k := i + 1, 0; }
  }
}
