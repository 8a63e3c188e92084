/** The frame queue of include/util.hh: a ring of bytes and a ring of frame lengths. */
module FrameBuf {
  import opened Wrappers
  import C = CircBuf

  datatype Ret = Success | NoMem | Null | Internal | Halted

  function Sum(lens: seq<nat>): nat {
    if lens == [] then 0 else lens[0] + Sum(lens[1..])
  }

  /** Cuts bytes into frames of the given lengths. */
  function Split(lens: seq<nat>, bytes: seq<byte>): (frames: seq<seq<byte>>)
    requires Sum(lens) == |bytes|
    ensures |frames| == |lens|
  {
    if lens == [] then [] else [bytes[..lens[0]]] + Split(lens[1..], bytes[lens[0]..])
  }

  lemma {:induction false} SumAppend(lens: seq<nat>, n: nat)
    ensures Sum(lens + [n]) == Sum(lens) + n
  {
    if lens == [] {
      assert lens + [n] == [n];
    } else {
      SumAppend(lens[1..], n);
      assert (lens + [n])[1..] == lens[1..] + [n];
    }
  }

  /** Appending a length and as many bytes appends one frame. */
  lemma {:induction false} SplitAppend(lens: seq<nat>, bytes: seq<byte>, frame: seq<byte>)
    requires Sum(lens) == |bytes|
    ensures Sum(lens + [|frame|]) == |bytes + frame|
    ensures Split(lens + [|frame|], bytes + frame) == Split(lens, bytes) + [frame]
  {
    SumAppend(lens, |frame|);
    if lens == [] {
      assert bytes + frame == frame == frame[..|frame|];
      assert lens + [|frame|] == [|frame|];
    } else {
      SplitAppend(lens[1..], bytes[lens[0]..], frame);
      assert (lens + [|frame|])[1..] == lens[1..] + [|frame|];
      assert (bytes + frame)[lens[0]..] == bytes[lens[0]..] + frame;
      assert (bytes + frame)[..lens[0]] == bytes[..lens[0]];
    }
  }

  class FrameBuf {
    const bytes: C.CircBuf<byte>       // b_buf
    const lens: C.CircBuf<nat>         // f_buf

    /** The two rings are in step: the frame lengths add up to the bytes. */
    ghost predicate Valid()
      reads this, bytes, lens, bytes.raw, lens.raw
    {
      && bytes.Valid() && lens.Valid()
      && bytes as object != lens && bytes.raw as object != lens.raw
      && Sum(lens.Contents()) == |bytes.Contents()|
    }

    ghost function Frames(): seq<seq<byte>>
      reads this, bytes, lens, bytes.raw, lens.raw
      requires Valid()
    {
      Split(lens.Contents(), bytes.Contents())
    }

    constructor (nBytes: nat, nFrames: nat, strict: bool)
      ensures Valid() && Frames() == [] && fresh(bytes) && fresh(lens) && fresh(bytes.raw) && fresh(lens.raw)
      ensures bytes.raw.Length == nBytes && lens.raw.Length == nFrames && bytes.strict == lens.strict == strict
    {
      bytes := new C.CircBuf<byte>(nBytes, strict);
      lens := new C.CircBuf<nat>(nFrames, strict);
    }

    /** Would the ring's assertion stop an operation on n elements at this slot? */
    static ghost predicate Stops(strict: bool, slot: nat, n: nat, capacity: nat) {
      strict && n > 0 && slot + n >= capacity
    }

    method Push(data: Option<seq<byte>>, n: nat) returns (ret: Ret)
      requires Valid() && (data.Some? ==> |data.value| == n)
      modifies bytes`length, bytes.raw, lens`length, lens.raw
      ensures !ret.Internal?
      ensures ret.NoMem? <==> n > bytes.raw.Length - old(bytes.length) || old(lens.length) == lens.raw.Length
      ensures ret.Null? <==> !ret.NoMem? && n > 0 && data.None?
      ensures !ret.NoMem? && !ret.Null? ==>
                (ret.Halted? <==> old(Stops(bytes.strict, bytes.End(), n, bytes.raw.Length) ||
                                      Stops(lens.strict, lens.End(), 1, lens.raw.Length)))
      ensures !ret.Halted? ==> Valid()
      ensures ret.Success? ==> Frames() == old(Frames()) + [if n == 0 then [] else data.value]
      ensures ret.NoMem? || ret.Null? ==> Frames() == old(Frames())
    {
      if n > bytes.raw.Length - bytes.length || 1 > lens.raw.Length - lens.length {
        return NoMem;
      }
      ghost var l, b := lens.Contents(), bytes.Contents();
      ghost var frame := if n == 0 || data.None? then [] else data.value;
      var r := bytes.Push(data, n);
      if r.Null? { return Null; }
      if r.Halted? { return Halted; }
      assert bytes.Contents() == b + frame && lens.Contents() == l;
      r := lens.Push(Some([n]), 1);
      if r.Halted? { return Halted; }
      assert bytes.Contents() == b + frame && lens.Contents() == l + [n];
      SplitAppend(l, b, frame);
      return Success;
    }

    /** The result is that of the ring of lengths. */
    method Peek(place: bool) returns (ret: C.Ret, frameLen: Option<nat>)
      requires Valid()
      ensures ret == if !place then C.Null else if Frames() == [] then C.InvalidLength else C.Success
      ensures frameLen == if ret.Success? then Some(|Frames()[0]|) else None
    {
      ret, frameLen := lens.Peek(place);
    }

    /** A short buffer receives the frame's prefix; the rest of the frame is dropped. */
    method Pop(data: array?<byte>, n: nat) returns (ret: Ret, dataLen: nat, frameLen: nat)
      requires Valid() && data != bytes.raw && (data != null ==> n <= data.Length)
      modifies bytes`start, bytes`length, lens`start, lens`length, data
      ensures !ret.Internal?
      ensures ret.NoMem? <==> old(Frames()) == []
      ensures ret.Null? <==> !ret.NoMem? && n > 0 && data == null
      ensures !ret.Halted? ==> Valid()
      ensures !ret.NoMem? && !ret.Null? ==>
                (ret.Halted? <==> old(Stops(lens.strict, lens.start, 1, lens.raw.Length) ||
                                      Stops(bytes.strict, bytes.start, Min(n, |Frames()[0]|), bytes.raw.Length)))
      ensures ret.NoMem? || ret.Null? ==> Frames() == old(Frames())
      ensures ret.Success? ==>
                && Frames() == old(Frames())[1..] && frameLen == |old(Frames())[0]| && dataLen == Min(n, frameLen)
                && (dataLen > 0 ==> data[..dataLen] == old(Frames())[0][..dataLen])
    {
      dataLen, frameLen := 0, 0;
      if lens.length == 0 { return NoMem, 0, 0; }
      if n > 0 && data == null { return Null, 0, 0; }
      ghost var l, b := lens.Contents(), bytes.Contents();

      var one := new nat[1];
      var r := lens.Pop(one, 1);
      if r.Halted? { return Halted, 0, 0; }
      if !r.Success? { return Internal, 0, 0; }
      frameLen := one[0];
      assert frameLen == one[..1][0] == l[0] && lens.Contents() == l[1..] && bytes.Contents() == b;
      dataLen := Min(n, frameLen);

      ret := TakeBytes(data, dataLen, frameLen - dataLen);
    }

    /** Copies out a frame's prefix and drops the rest of it. */
    method TakeBytes(data: array?<byte>, dataLen: nat, rest: nat) returns (ret: Ret)
      requires bytes.Valid() && data != bytes.raw && dataLen + rest <= bytes.length
      requires (dataLen > 0 ==> data != null) && (data != null ==> dataLen <= data.Length)
      modifies bytes`start, bytes`length, data
      ensures ret.Success? || ret.Halted?
      ensures ret.Halted? <==> Stops(bytes.strict, old(bytes.start), dataLen, bytes.raw.Length)
      ensures ret.Success? ==> bytes.Valid() && bytes.Contents() == old(bytes.Contents())[dataLen + rest..]
      ensures ret.Success? && dataLen > 0 ==> data[..dataLen] == old(bytes.Contents())[..dataLen]
    {
      ghost var b := bytes.Contents();
      var r := bytes.Pop(data, dataLen);
      if r.Halted? { return Halted; }
      if !r.Success? { return Internal; }
      r := bytes.Discard(rest);
      if !r.Success? { return Internal; }
      assert b[dataLen..][rest..] == b[dataLen + rest..];
      return Success;
    }
  }
}
