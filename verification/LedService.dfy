/** The LED service: frame building and the control characteristic (src/ble/led_impl.cc). */
module LedService {
  import opened Wrappers
  import opened OutputBuffer
  import opened Ws2812
  import T = Transcoder

  /** What userapp::with did: the app wrote the user buffer, was not loaded, or had a bad descriptor. */
  datatype AppCall = Ran(buffer: seq<byte>) | NotAvailable | BadDescriptor

  datatype RenderResult = Rendered | BufferFull | AppError

  /** Colour modes 1 and 2 convert a triple (HSV and HSL); the conversion is a parameter. */
  type Conversion = (nat, Rgb) -> Rgb

  function Triple(buf: seq<byte>, i: nat): Rgb
    requires 3 * i + 3 <= |buf|
  {
    Rgb(buf[3 * i], buf[3 * i + 1], buf[3 * i + 2])
  }

  /** An unknown mode leaves the colour black. */
  function Shown(mode: nat, conv: Conversion, t: Rgb): Rgb {
    if mode == 0 then t else if mode <= 2 then conv(mode, t) else BLACK
  }

  function Colors(mode: nat, conv: Conversion, buf: seq<byte>, n: nat): (cs: seq<Rgb>)
    requires 3 * n <= |buf|
    ensures |cs| == n
  {
    seq(n, i requires 0 <= i < n => Shown(mode, conv, Triple(buf, i)))
  }

  function Blacks(n: nat): (cs: seq<Rgb>)
    ensures |cs| == n
  {
    seq(n, _ => BLACK)
  }

  /** The colours of one frame: the user's, and after a reset black up to the end of the strip. */
  function FrameColors(mode: nat, conv: Conversion, buf: seq<byte>, nLeds: nat, maxLeds: nat, reset: bool): seq<Rgb>
    requires |buf| == 3 * maxLeds
  {
    Colors(mode, conv, buf, Min(nLeds, maxLeds)) + Blacks(if reset && nLeds < maxLeds then maxLeds - nLeds else 0)
  }

  /** A frame on the wire: a reset gap, one cell per colour, a reset gap. */
  function Frame(code: Code, cs: seq<Rgb>): seq<byte> {
    Repeat(0, BYTES_PER_RESET) + Strip(code, cs) + Repeat(0, BYTES_PER_RESET)
  }

  lemma StripStep(code: Code, cs: seq<Rgb>, c: Rgb)
    ensures Strip(code, cs + [c]) == Strip(code, cs) + Cell(code, c)
  {
    assert (cs + [c])[..|cs|] == cs;
  }

  /** n bits of the idle level. */
  function Low(n: nat): (bits: seq<bool>)
    ensures |bits| == n
  {
    seq(n, _ => false)
  }

  lemma ZeroIsLow()
    ensures BitsOf([0]) == Low(8)
  {
    EightBits(0);
    assert [0][..0] == [];
    assert BitsOf([0]) == BitsOf([]) + Bits(0);
  }

  lemma {:induction false} ZerosAreLow(n: nat)
    ensures BitsOf(Repeat(0, n)) == Low(8 * n)
  {
    if n > 0 {
      ZerosAreLow(n - 1);
      ZeroIsLow();
      assert Repeat(0, n) == Repeat(0, n - 1) + [0];
      BitsOfConcat(Repeat(0, n - 1), [0]);
      hide BitsOf;
    }
  }

  /** On the wire a frame is 8000 low bits, one symbol per colour bit, 8000 low bits. */
  lemma FrameOnTheWire(code: Code, cs: seq<Rgb>)
    ensures BitsOf(Frame(code, cs)) == Low(8000) + Symbols(code, DataBits(cs)) + Low(8000)
  {
    var gap := Repeat(0, BYTES_PER_RESET);
    ZerosAreLow(BYTES_PER_RESET);
    StripIsSymbols(code, cs);
    BitsOfConcat(gap, Strip(code, cs));
    BitsOfConcat(gap + Strip(code, cs), gap);
  }

  /** A frame has one cell per user led, and after a reset one for every led of the strip. */
  lemma FrameLength(mode: nat, conv: Conversion, buf: seq<byte>, nLeds: nat, maxLeds: nat, reset: bool)
    requires |buf| == 3 * maxLeds
    ensures |FrameColors(mode, conv, buf, nLeds, maxLeds, reset)| == if reset then maxLeds else Min(nLeds, maxLeds)
  {
  }

  /**
   What a receiver sees: sampling the data of a frame, led i shows the three bytes
   of the user buffer from 3 i on as red, green and blue (converted in modes 1 and
   2, black in any other), and the leds after the user's are black.
   */
  lemma FrameShowsTheBuffer(code: Code, mode: nat, conv: Conversion, buf: seq<byte>,
                            nLeds: nat, maxLeds: nat, reset: bool, i: nat)
    requires |buf| == 3 * maxLeds && i < |FrameColors(mode, conv, buf, nLeds, maxLeds, reset)|
    ensures var cs := FrameColors(mode, conv, buf, nLeds, maxLeds, reset);
            && |BitsOf(Strip(code, cs))| == WireLength(code, 24 * |cs|) && i < maxLeds
            && ColorAt(Sample(code, BitsOf(Strip(code, cs)), 24 * |cs|), i) ==
                 (if i >= nLeds || mode > 2 then (0, 0, 0)
                  else if mode == 0 then (buf[3 * i], buf[3 * i + 1], buf[3 * i + 2])
                  else var c := conv(mode, Rgb(buf[3 * i], buf[3 * i + 1], buf[3 * i + 2]));
                       (c.red, c.green, c.blue))
  {
    DecodeEncode(code, FrameColors(mode, conv, buf, nLeds, maxLeds, reset), i);
    hide Strip, Cell, BitsOf, Sample, ColorAt, WireLength;
  }

  // ----- the control characteristic

  /** led n of the buffer set to a colour */
  function SetLed(buf: seq<byte>, n: nat, c: Rgb): (r: seq<byte>)
    requires 3 * n + 3 <= |buf|
    ensures |r| == |buf|
  {
    buf[3 * n := c.red][3 * n + 1 := c.green][3 * n + 2 := c.blue]
  }

  /** A run of leds set to the triples of d, as far as both reach; odd bytes at the end are ignored. */
  function SetRun(buf: seq<byte>, from: nat, d: seq<byte>): (r: seq<byte>)
    ensures |r| == |buf|
    decreases |d|
  {
    if |d| < 3 || 3 * from + 3 > |buf| then buf
    else SetRun(SetLed(buf, from, Rgb(d[0], d[1], d[2])), from + 1, d[3..])
  }

  /** The next led of a sequential write after d. */
  function RunEnd(maxLeds: nat, from: nat, d: seq<byte>): nat
    decreases |d|
  {
    if |d| < 3 || from >= maxLeds then from else RunEnd(maxLeds, from + 1, d[3..])
  }

  function Triples(c: Rgb, n: nat): (d: seq<byte>)
    ensures |d| == 3 * n
  {
    if n == 0 then [] else [c.red, c.green, c.blue] + Triples(c, n - 1)
  }

  /** Sequential writes compose: two writes of whole triples are one write of both. */
  lemma {:induction false} SequentialWritesCompose(maxLeds: nat, buf: seq<byte>, from: nat, d: seq<byte>, e: seq<byte>)
    requires |buf| == 3 * maxLeds && |d| % 3 == 0
    ensures SetRun(SetRun(buf, from, d), RunEnd(maxLeds, from, d), e) == SetRun(buf, from, d + e)
    ensures RunEnd(maxLeds, RunEnd(maxLeds, from, d), e) == RunEnd(maxLeds, from, d + e)
    decreases |d|
  {
    if |d| < 3 {
      assert d + e == e;
    } else if from < maxLeds {
      SequentialWritesCompose(maxLeds, SetLed(buf, from, Rgb(d[0], d[1], d[2])), from + 1, d[3..], e);
      assert (d + e)[3..] == d[3..] + e;
    } else if |e| >= 3 {
      assert 3 * from + 3 > |buf|;
    }
  }

  /** A run sets exactly its leds: those it reaches take their triple, the others keep theirs. */
  lemma {:induction false} RunSetsItsLeds(buf: seq<byte>, from: nat, d: seq<byte>, k: nat)
    requires 3 * k + 3 <= |buf|
    ensures Triple(SetRun(buf, from, d), k) ==
            if from <= k < from + |d| / 3 then Triple(d, k - from) else Triple(buf, k)
    decreases |d|
  {
    if |d| >= 3 && 3 * from + 3 <= |buf| {
      var buf' := SetLed(buf, from, Rgb(d[0], d[1], d[2]));
      RunSetsItsLeds(buf', from + 1, d[3..], k);
      assert |d[3..]| / 3 == |d| / 3 - 1;
      if from < k < from + |d| / 3 { assert Triple(d[3..], k - from - 1) == Triple(d, k - from); }
    }
  }

  /** The same byte by byte: whole triples of d from byte 3 * from on, everything else stays. */
  lemma {:induction false} RunBytes(buf: seq<byte>, from: nat, d: seq<byte>, p: nat)
    requires p < |buf| && |buf| % 3 == 0
    ensures SetRun(buf, from, d)[p] == if 3 * from <= p < 3 * from + |d| / 3 * 3 then d[p - 3 * from] else buf[p]
    decreases |d|
  {
    if |d| >= 3 && 3 * from + 3 <= |buf| {
      RunBytes(SetLed(buf, from, Rgb(d[0], d[1], d[2])), from + 1, d[3..], p);
      assert |d[3..]| / 3 == |d| / 3 - 1;
    }
  }

  /** The offset advances by the number of whole triples, but not past the strip. */
  lemma {:induction false} RunEndAt(maxLeds: nat, from: nat, d: seq<byte>)
    ensures RunEnd(maxLeds, from, d) == if from >= maxLeds then from else Min(maxLeds, from + |d| / 3)
    decreases |d|
  {
    if |d| >= 3 && from < maxLeds {
      RunEndAt(maxLeds, from + 1, d[3..]);
      assert |d[3..]| / 3 == |d| / 3 - 1;
    }
  }

  lemma {:induction false} TriplesAt(c: Rgb, n: nat, p: nat)
    requires p < 3 * n
    ensures Triples(c, n)[p] == if p % 3 == 0 then c.red else if p % 3 == 1 then c.green else c.blue
  {
    if p >= 3 {
      TriplesAt(c, n - 1, p - 3);
    }
  }

  lemma FillBytes(buf: seq<byte>, first: nat, count: nat, c: Rgb)
    requires |buf| % 3 == 0
    ensures forall p :: 0 <= p < |buf| ==>
              SetRun(buf, first, Triples(c, count))[p] ==
                if 3 * first <= p < 3 * (first + count) then
                  (if p % 3 == 0 then c.red else if p % 3 == 1 then c.green else c.blue)
                else buf[p]
  {
    hide SetRun, Triples;
    forall p | 0 <= p < |buf|
      ensures SetRun(buf, first, Triples(c, count))[p] ==
                if 3 * first <= p < 3 * (first + count) then
                  (if p % 3 == 0 then c.red else if p % 3 == 1 then c.green else c.blue)
                else buf[p]
    {
      RunBytes(buf, first, Triples(c, count), p);
      if 3 * first <= p < 3 * (first + count) { TriplesAt(c, count, p - 3 * first); }
    }
  }

  class Service {
    const maxLeds: nat                 // MAX_LEDS_PER_THREAD
    const userBuffer: array<byte>
    var resetStrip: bool
    var seqwriteOffset: nat

    ghost predicate Valid() {
      userBuffer.Length == 3 * maxLeds
    }

    constructor (maxLeds: nat)
      ensures Valid() && fresh(userBuffer) && this.maxLeds == maxLeds
      ensures resetStrip && seqwriteOffset == 0
    {
      this.maxLeds := maxLeds;
      userBuffer := new byte[3 * maxLeds];
      resetStrip, seqwriteOffset := true, 0;
    }

    /** One more cell after `before` and the cells of cs. */
    method WriteNext(tc: T.Transcoder, ghost before: seq<byte>, ghost cs: seq<Rgb>, c: Rgb) returns (ret: Ret)
      requires tc.output.Valid() && tc.output.Contents() == before + Strip(tc.code, cs)
      modifies tc.output`pos, tc.output`nLeadingZeros, tc.output.basep
      ensures tc.output.Valid()
      ensures ret.Success? <==> |before| + StripLength(tc.code, |cs| + 1) <= tc.output.length
      ensures tc.output.Contents() == before + Strip(tc.code, if ret.Success? then cs + [c] else cs)
    {
      hide Cell;
      ret := tc.Write(c);
      StripStep(tc.code, cs, c);
    }

    /** The loop over the user's leds, three bytes at a time. */
    method RenderLeds(tc: T.Transcoder, mode: nat, conv: Conversion, n: nat) returns (ret: Ret)
      requires Valid() && n <= maxLeds && tc.output.Valid() && tc.output.basep != userBuffer
      modifies tc.output`pos, tc.output`nLeadingZeros, tc.output.basep
      ensures tc.output.Valid()
      ensures ret.Success? <==> old(tc.output.pos) + StripLength(tc.code, n) <= tc.output.length
      ensures ret.Success? ==>
                tc.output.Contents() ==
                old(tc.output.Contents()) + Strip(tc.code, Colors(mode, conv, userBuffer[..], n))
      ensures old(tc.output.Contents()) <= tc.output.Contents()
    {
      hide Cell;
      ghost var before, buf := tc.output.Contents(), userBuffer[..];
      var ptr := 0;
      ret := Success;
      for i := 0 to n
        invariant tc.output.Valid() && userBuffer[..] == buf
        invariant mode <= 2 ==> ptr == 3 * i
        invariant ret.Success?
        invariant tc.output.Contents() == before + Strip(tc.code, Colors(mode, conv, buf, i))
      {
        var c := BLACK;
        if mode <= 2 {
          c := Rgb(userBuffer[ptr], userBuffer[ptr + 1], userBuffer[ptr + 2]);
          ptr := ptr + 3;
          if mode > 0 { c := conv(mode, c); }
        }
        assert c == Shown(mode, conv, Triple(buf, i));
        assert Colors(mode, conv, buf, i + 1) == Colors(mode, conv, buf, i) + [c];
        ret := WriteNext(tc, before, Colors(mode, conv, buf, i), c);
        if ret.InvalidLength? {
          TooLong(tc.code, i, n);
          return;
        }
      }
    }

    /** The loop that pads the strip with black after a reset. */
    method FillBlack(tc: T.Transcoder, n: nat) returns (ret: Ret)
      requires tc.output.Valid()
      modifies tc.output`pos, tc.output`nLeadingZeros, tc.output.basep
      ensures tc.output.Valid()
      ensures ret.Success? <==> old(tc.output.pos) + StripLength(tc.code, n) <= tc.output.length
      ensures ret.Success? ==> tc.output.Contents() == old(tc.output.Contents()) + Strip(tc.code, Blacks(n))
      ensures old(tc.output.Contents()) <= tc.output.Contents()
    {
      ghost var before := tc.output.Contents();
      ret := Success;
      for i := 0 to n
        invariant tc.output.Valid()
        invariant ret.Success?
        invariant tc.output.Contents() == before + Strip(tc.code, Blacks(i))
      {
        assert Blacks(i + 1) == Blacks(i) + [BLACK];
        ret := WriteNext(tc, before, Blacks(i), BLACK);
        if ret.InvalidLength? {
          TooLong(tc.code, i, n);
          return;
        }
      }
    }

    /**
     Builds one frame.  It succeeds if and only if the app call did not fail and
     the whole frame fits; then exactly the frame has been appended.
     */
    method Render(tc: T.Transcoder, mode: nat, conv: Conversion, nLeds: nat, app: AppCall) returns (ret: RenderResult)
      requires Valid() && tc.output.Valid() && tc.output.basep != userBuffer
      requires app.Ran? ==> |app.buffer| == 3 * maxLeds
      modifies this`resetStrip, userBuffer, tc.output`pos, tc.output`nLeadingZeros, tc.output.basep
      ensures tc.output.Valid()
      ensures var reset, called := old(resetStrip), old(resetStrip) || nLeds > 0;
              var frame := Frame(tc.code, FrameColors(mode, conv, userBuffer[..], nLeds, maxLeds, reset));
              && (ret.Rendered? <==>
                    !(called && app.BadDescriptor?) && old(tc.output.pos) + |frame| <= tc.output.length)
              && (ret.Rendered? ==> tc.output.Contents() == old(tc.output.Contents()) + frame)
              && old(tc.output.Contents()) <= tc.output.Contents()
      // the app is called, and the reset flag cleared, once the first gap fits
      ensures var begun := old(tc.output.pos) + BYTES_PER_RESET <= tc.output.length;
              var called := begun && (old(resetStrip) || nLeds > 0);
              && (ret.AppError? <==> called && app.BadDescriptor?)
              && userBuffer[..] == (if called && app.Ran? then app.buffer else old(userBuffer[..]))
              && resetStrip == (old(resetStrip) && !begun)
    {
      hide Cell;
      ghost var before := tc.output.Contents();
      var reset := resetStrip;
      var w := tc.WriteBusReset();
      if w.InvalidLength? { return BufferFull; }
      if reset || nLeds > 0 {
        resetStrip := false;
        match app {
          case Ran(buffer) => CopyBuffer(buffer);
          case NotAvailable =>
          case BadDescriptor => return AppError;
        }
      }
      ret := RenderCells(tc, mode, conv, nLeds, reset, before);
    }

    /** Everything after the first reset gap. */
    method RenderCells(tc: T.Transcoder, mode: nat, conv: Conversion, nLeds: nat, reset: bool, ghost before: seq<byte>)
        returns (ret: RenderResult)
      requires Valid() && tc.output.Valid() && tc.output.basep != userBuffer
      requires tc.output.Contents() == before + Repeat(0, BYTES_PER_RESET)
      modifies tc.output`pos, tc.output`nLeadingZeros, tc.output.basep
      ensures tc.output.Valid() && userBuffer[..] == old(userBuffer[..]) && !ret.AppError?
      ensures var frame := Frame(tc.code, FrameColors(mode, conv, userBuffer[..], nLeds, maxLeds, reset));
              && (ret.Rendered? <==> |before| + |frame| <= tc.output.length)
              && before <= tc.output.Contents()
              && (ret.Rendered? ==> tc.output.Contents() == before + frame)
    {
      hide Cell, Strip;
      ghost var gap := tc.output.Contents();
      var n, pad := Min(nLeds, maxLeds), if reset && nLeds < maxLeds then maxLeds - nLeds else 0;
      ghost var user := Colors(mode, conv, userBuffer[..], n);
      StripConcat(tc.code, user, Blacks(pad));
      var w := RenderLeds(tc, mode, conv, n);
      if w.InvalidLength? { return BufferFull; }
      assert tc.output.Contents() == gap + Strip(tc.code, user);
      w := FillBlack(tc, pad);
      if w.InvalidLength? { return BufferFull; }
      assert tc.output.Contents() == gap + Strip(tc.code, user + Blacks(pad));
      w := tc.WriteBusReset();
      if w.InvalidLength? { return BufferFull; }
      ret := Rendered;
    }

    /** The app's writes to the user buffer. */
    method CopyBuffer(d: seq<byte>)
      requires Valid() && |d| == 3 * maxLeds
      modifies userBuffer
      ensures userBuffer[..] == d
    {
      for i := 0 to |d|
        invariant userBuffer[..i] == d[..i]
      {
        userBuffer[i] := d[i];
      }
    }

    /** The control characteristic: switch off, fill, set the write offset, write in sequence. */
    method OnControlWrite(data: seq<byte>)
      requires Valid()
      modifies this`resetStrip, this`seqwriteOffset, userBuffer
      ensures Valid()
      ensures data == [0] ==>
                resetStrip && userBuffer[..] == Repeat(0, 3 * maxLeds) && seqwriteOffset == old(seqwriteOffset)
      ensures data != [0] ==> resetStrip == old(resetStrip)
      // fill: `count` leds from `first` on, both low byte first
      ensures |data| == 8 && data[0] == 1 ==>
                var first, count := data[1] as int + 256 * data[2] as int, data[3] as int + 256 * data[4] as int;
                && seqwriteOffset == old(seqwriteOffset)
                && forall p :: 0 <= p < 3 * maxLeds ==>
                     userBuffer[p] ==
                       if 3 * first <= p < 3 * (first + count) then data[5 + p % 3] else old(userBuffer[p])
      ensures |data| == 3 && data[0] == 0x10 ==>
                userBuffer[..] == old(userBuffer[..]) && seqwriteOffset == data[1] as int + 256 * data[2] as int
      // sequential write: the whole triples after the command byte
      ensures |data| > 1 && data[0] == 0x11 ==>
                var from, n := old(seqwriteOffset), (|data| - 1) / 3;
                && seqwriteOffset == (if from >= maxLeds then from else Min(maxLeds, from + n))
                && forall p :: 0 <= p < 3 * maxLeds ==>
                     userBuffer[p] ==
                       if 3 * from <= p < 3 * (from + n) then data[1 + p - 3 * from] else old(userBuffer[p])
      ensures !Command(data) ==> userBuffer[..] == old(userBuffer[..]) && seqwriteOffset == old(seqwriteOffset)
    {
      if |data| == 1 && data[0] == 0 {
        CopyBuffer(Repeat(0, 3 * maxLeds));
        resetStrip := true;
      } else if |data| == 8 && data[0] == 1 {
        ghost var buf := userBuffer[..];
        FillRun(Word16(data, 1), Word16(data, 3), Rgb(data[5], data[6], data[7]));
        FillBytes(buf, Word16(data, 1), Word16(data, 3), Rgb(data[5], data[6], data[7]));
      } else if |data| == 3 && data[0] == 0x10 {
        seqwriteOffset := Word16(data, 1);
      } else if |data| > 1 && data[0] == 0x11 {
        ghost var buf, from := userBuffer[..], seqwriteOffset;
        SequentialWrite(data);
        RunEndAt(maxLeds, from, data[1..]);
        forall p | 0 <= p < |buf| { RunBytes(buf, from, data[1..], p); }
      }
    }

    method FillRun(first: nat, count: nat, c: Rgb)
      requires Valid()
      modifies userBuffer
      ensures userBuffer[..] == SetRun(old(userBuffer[..]), first, Triples(c, count))
    {
      var offset, length := 3 * first, count;
      ghost var led := first;
      ghost var goal := SetRun(userBuffer[..], first, Triples(c, count));
      while offset + 2 < userBuffer.Length && length > 0
        invariant offset == 3 * led
        invariant SetRun(userBuffer[..], led, Triples(c, length)) == goal
        decreases length
      {
        ghost var buf := userBuffer[..];
        userBuffer[offset] := c.red;
        userBuffer[offset + 1] := c.green;
        userBuffer[offset + 2] := c.blue;
        assert userBuffer[..] == SetLed(buf, led, c);
        assert Triples(c, length)[3..] == Triples(c, length - 1);
        offset, length, led := offset + 3, length - 1, led + 1;
      }
    }

    method SequentialWrite(data: seq<byte>)
      requires Valid() && |data| > 1
      modifies this`seqwriteOffset, userBuffer
      ensures userBuffer[..] == SetRun(old(userBuffer[..]), old(seqwriteOffset), data[1..])
      ensures seqwriteOffset == RunEnd(maxLeds, old(seqwriteOffset), data[1..])
    {
      var i := 1;
      ghost var goal := SetRun(userBuffer[..], seqwriteOffset, data[1..]);
      ghost var end := RunEnd(maxLeds, seqwriteOffset, data[1..]);
      while i + 2 < |data| && seqwriteOffset < maxLeds
        invariant i <= |data|
        invariant SetRun(userBuffer[..], seqwriteOffset, data[i..]) == goal
        invariant RunEnd(maxLeds, seqwriteOffset, data[i..]) == end
        decreases |data| - i
      {
        ghost var buf := userBuffer[..];
        var pos := 3 * seqwriteOffset;
        userBuffer[pos] := data[i];
        userBuffer[pos + 1] := data[i + 1];
        userBuffer[pos + 2] := data[i + 2];
        assert userBuffer[..] == SetLed(buf, seqwriteOffset, Rgb(data[i], data[i + 1], data[i + 2]));
        assert data[i..][3..] == data[i + 3..];
        i := i + 3;
        seqwriteOffset := seqwriteOffset + 1;
      }
    }
  }

  /** uint16_decode: little endian. */
  function Word16(d: seq<byte>, at: nat): nat
    requires at + 2 <= |d|
  {
    d[at] as int + 256 * d[at + 1] as int
  }

  /** One of the four commands. */
  predicate Command(data: seq<byte>) {
    || data == [0]
    || (|data| == 8 && data[0] == 1)
    || (|data| == 3 && data[0] == 0x10)
    || (|data| > 1 && data[0] == 0x11)
  }

  lemma TooLong(code: Code, i: nat, n: nat)
    requires i < n
    ensures StripLength(code, i + 1) <= StripLength(code, n)
  {
  }

  lemma {:induction false} StripConcat(code: Code, a: seq<Rgb>, b: seq<Rgb>)
    ensures Strip(code, a + b) == Strip(code, a) + Strip(code, b)
  {
    hide Cell;
    if b == [] {
      assert a + b == a;
    } else {
      StripConcat(code, a, b[..|b| - 1]);
      assert (a + b)[..|a + b| - 1] == a + b[..|b| - 1];
    }
  }
}
