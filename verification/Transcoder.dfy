/** The transcoder objects: one colour at a time into the output buffer. */
module Transcoder {
  import opened Wrappers
  import opened OutputBuffer
  import opened Ws2812

  class Transcoder {
    const code: Code
    const output: Buffer

    constructor (code: Code, output: Buffer)
      ensures this.code == code && this.output == output
    {
      this.code, this.output := code, output;
    }

    method WriteBusReset() returns (ret: Ret)
      requires output.Valid()
      modifies output`pos, output`nLeadingZeros, output.basep
      ensures output.Valid()
      ensures ret.Success? <==> |old(output.Contents())| + BYTES_PER_RESET <= output.length
      ensures output.Contents() == old(output.Contents()) + if ret.Success? then Repeat(0, BYTES_PER_RESET) else []
    {
      ret := output.Fill(0, BYTES_PER_RESET);
    }

    method Write(c: Rgb) returns (ret: Ret)
      requires output.Valid()
      modifies output`pos, output`nLeadingZeros, output.basep
      ensures output.Valid()
      ensures ret.Success? <==> |old(output.Contents())| + BytesPerLed(code) <= output.length
      ensures output.Contents() == old(output.Contents()) + if ret.Success? then Cell(code, c) else []
    {
      var buf;
      match code {
        case Plain => buf := EncodePlain(c);
        case Alternate => buf := EncodeAlternate(c);
      }
      ret := output.Write(buf[..]);
    }

    /** transcode_8mhz::write up to the output. */
    static method EncodePlain(c: Rgb) returns (buf: array<byte>)
      ensures fresh(buf) && buf[..] == Cell(Plain, c)
    {
      buf := new byte[24];
      PlainInto(buf, 0, c.green);
      PlainInto(buf, 8, c.red);
      assert buf[..16] == buf[..8] + buf[8..16];
      PlainInto(buf, 16, c.blue);
      assert buf[..] == buf[..16] + buf[16..24];
    }

    /** transcode_8mhz_alt::write up to the output. */
    static method EncodeAlternate(c: Rgb) returns (buf: array<byte>)
      ensures fresh(buf) && buf[..] == Cell(Alternate, c)
    {
      buf := new byte[30];
      AltInto(buf, 0, c.green);
      AltInto(buf, 10, c.red);
      assert buf[..20] == buf[..10] + buf[10..20];
      AltInto(buf, 20, c.blue);
      assert buf[..] == buf[..20] + buf[20..30];
    }

    /** One byte per bit. */
    static method PlainInto(buf: array<byte>, at: nat, v: byte)
      requires at + 8 <= buf.Length
      modifies buf
      ensures buf[at..at + 8] == PlainBytes(Bits(v))
      ensures buf[..at] == old(buf[..at]) && buf[at + 8..] == old(buf[at + 8..])
    {
      var b := Bits(v);
      for i := 0 to 8
        invariant buf[..at] == old(buf[..at]) && buf[at + 8..] == old(buf[at + 8..])
        invariant forall k :: 0 <= k < i ==> buf[at + k] == PlainByte(b[k])
      {
        buf[at + i] := PlainByte(b[i]);
      }
    }

    /** Ten slots for eight bits; every third bit of a half fills two slots. */
    static method AltInto(buf: array<byte>, at: nat, v: byte)
      requires at + 10 <= buf.Length
      modifies buf
      ensures buf[at..at + 10] == AltBytes(Bits(v))
      ensures buf[..at] == old(buf[..at]) && buf[at + 10..] == old(buf[at + 10..])
    {
      var b := Bits(v);
      AltHalfInto(buf, at, b[..4]);
      AltHalfInto(buf, at + 5, b[4..]);
      assert buf[at..at + 10] == buf[at..at + 5] + buf[at + 5..at + 10];
    }

    static method AltHalfInto(buf: array<byte>, at: nat, b: seq<bool>)
      requires at + 5 <= buf.Length && |b| == 4
      modifies buf
      ensures buf[at..at + 5] == AltFour(b)
      ensures buf[..at] == old(buf[..at]) && buf[at + 5..] == old(buf[at + 5..])
    {
      buf[at] := if b[0] then ONE_A else ZERO_A;
      buf[at + 1] := if b[1] then ONE_B else ZERO_B;
      buf[at + 2] := if b[2] then ONE_C0 else ZERO_C0;
      buf[at + 3] := if b[2] then ONE_C else ZERO_C;
      buf[at + 4] := if b[3] then ONE_D else ZERO_D;
    }
  }
}
