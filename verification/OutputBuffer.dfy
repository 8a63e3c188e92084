/** The append-only output buffer (src/core/buffer.cc) with its leading-zero shortcut. */
module OutputBuffer {
  import opened Wrappers

  datatype Ret = Success | InvalidLength

  function Repeat(value: byte, n: nat): (r: seq<byte>)
    ensures |r| == n
  {
    seq(n, _ => value)
  }

  /** fill() returns at once, without moving the position, when this holds. */
  predicate Skips(pos: nat, nLeadingZeros: nat, value: byte, n: nat) {
    value == 0 && pos + n <= nLeadingZeros
  }

  /** What fill() leaves in a buffer with room, when the count of leading zeros has this value. */
  function Filled(contents: seq<byte>, nLeadingZeros: nat, value: byte, n: nat): seq<byte> {
    if Skips(|contents|, nLeadingZeros, value, n) then contents else contents + Repeat(value, n)
  }

  /**
   With the shortcut fill() still appends what it promises if and only if it does
   not fire with something to append; for all contents and arguments that is so
   exactly when the count of leading zeros is 0, where it stays.
   */
  lemma SkipIsHarmless(contents: seq<byte>, nLeadingZeros: nat, value: byte, n: nat)
    ensures Filled(contents, nLeadingZeros, value, n) == contents + Repeat(value, n)
            <==> !Skips(|contents|, nLeadingZeros, value, n) || n == 0
    ensures nLeadingZeros == 0 <==>
            forall c: seq<byte>, v: byte, k: nat :: Filled(c, nLeadingZeros, v, k) == c + Repeat(v, k)
  {
    assert |contents + Repeat(value, n)| == |contents| + n;
    if nLeadingZeros == 0 {
      forall c: seq<byte>, v: byte, k: nat ensures Filled(c, 0, v, k) == c + Repeat(v, k) {
        if Skips(|c|, 0, v, k) { assert c + Repeat(v, k) == c; }
      }
    } else {
      assert Filled([], nLeadingZeros, 0, 1) == [] != [] + Repeat(0, 1) by { assert |Repeat(0, 1)| == 1; }
    }
  }

  class Buffer {
    const basep: array<byte>
    const length: nat
    var pos: nat
    var nLeadingZeros: nat

    /** The loop of fill() has counted n down to 0 before it is stored, so the count never leaves 0. */
    ghost predicate Valid()
      reads this
    {
      pos <= length <= basep.Length && nLeadingZeros == 0
    }

    ghost function Contents(): (c: seq<byte>)
      reads this, basep
      requires Valid()
      ensures |c| == pos
    {
      basep[..pos]
    }

    constructor (p: array<byte>, pos: nat, length: nat)
      requires pos <= length <= p.Length
      ensures Valid() && basep == p && this.length == length && this.pos == pos
    {
      basep := p;
      this.pos, this.length, nLeadingZeros := pos, length, 0;
    }

    method Reset()
      requires Valid()
      modifies this`pos
      ensures Valid() && Contents() == []
    {
      pos := 0;
    }

    method Write(bytes: seq<byte>) returns (ret: Ret)
      requires Valid()
      modifies this`pos, this`nLeadingZeros, basep
      ensures Valid()
      ensures ret.Success? <==> |old(Contents())| + |bytes| <= length
      ensures Contents() == old(Contents()) + if ret.Success? then bytes else []
    {
      if |bytes| > length - pos {
        return InvalidLength;
      }
      nLeadingZeros := if nLeadingZeros < pos then nLeadingZeros else pos;
      for i := 0 to |bytes|
        invariant nLeadingZeros == 0 && pos == old(pos) && pos + |bytes| <= length <= basep.Length
        invariant basep[..pos] == old(basep[..pos])
        invariant forall k :: 0 <= k < i ==> basep[pos + k] == bytes[k]
      {
        basep[pos + i] := bytes[i];
      }
      assert basep[pos..pos + |bytes|] == bytes;
      assert basep[..pos + |bytes|] == basep[..pos] + basep[pos..pos + |bytes|];
      pos := pos + |bytes|;
      return Success;
    }

    method Fill(value: byte, n: nat) returns (ret: Ret)
      requires Valid()
      modifies this`pos, this`nLeadingZeros, basep
      ensures Valid()
      ensures ret.Success? <==> |old(Contents())| + n <= length
      ensures Contents() == old(Contents()) + if ret.Success? then Repeat(value, n) else []
    {
      if n > length - pos {
        return InvalidLength;
      }
      if Skips(pos, nLeadingZeros, value, n) {
        return Success;
      }
      var doSetLeadingZero := pos == 0 && value == 0;
      var left := n;
      while left > 0
        invariant 0 <= left <= n && pos == old(pos) + n - left && old(pos) + n <= length <= basep.Length
        invariant nLeadingZeros == 0
        invariant basep[..pos] == old(basep[..pos]) + Repeat(value, n - left)
      {
        basep[pos] := value;
        pos := pos + 1;
        left := left - 1;
        assert basep[..pos] == basep[..pos - 1] + [value];
      }
      if doSetLeadingZero {
        nLeadingZeros := left;
      }
      return Success;
    }
  }
}
