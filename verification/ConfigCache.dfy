/** One parameter of the configuration: its stored form, its record and its cache entry. */
module ConfigCache {
  import opened Wrappers

  // ----- ids and notification bits (include/cfg/ids.hh)

  /** The parameters of include/def/cfg.def, by index. */
  const N_PARAMS := 5

  /** The flush pass tests the flags against the bit truncated to 16 bits. */
  predicate MaskSurvives(index: nat) {
    Pow2(index) % 0x1_0000 != 0
  }

  /** Of the 32 parameters the header allows, only the first 16 are ever seen by a flush pass. */
  lemma MaskSurvivesBelow16(index: nat)
    ensures MaskSurvives(index) <==> index < 16
  {
    assert Pow2(16) == 0x1_0000 by {
      assert Pow2(4) == 16 && Pow2(8) == 256 && Pow2(12) == 4096;
    }
    if index < 16 {
      PowBelow(index, 16);
    } else {
      var k := PowDivides(index);
    }
  }

  lemma {:induction false} PowBelow(m: nat, n: nat)
    requires m < n
    ensures 0 < Pow2(m) < Pow2(n)
  {
    if m > 0 { PowBelow(m - 1, n - 1); } else if n > 1 { PowBelow(0, n - 1); }
  }

  lemma {:induction false} PowDivides(n: nat) returns (k: nat)
    requires n >= 16 && Pow2(16) == 0x1_0000
    ensures Pow2(n) == 0x1_0000 * k
  {
    if n == 16 {
      k := 1;
    } else {
      k := PowDivides(n - 1);
      k := 2 * k;
    }
  }

  // ----- the stored form of a value (include/cfg/types.hh)

  const HDR_SIZE := 2

  function Padding(valueSize: nat): nat {
    3 - (valueSize + 1) % 4
  }

  function ParamSize(valueSize: nat): nat {
    HDR_SIZE + valueSize + Padding(valueSize)
  }

  /** The padding makes every parameter the shortest whole number of words. */
  lemma ParamSizeIsWholeWords(valueSize: nat)
    ensures ParamSize(valueSize) % 4 == 0
    ensures HDR_SIZE + valueSize <= ParamSize(valueSize) < HDR_SIZE + valueSize + 4
  {
  }

  /** Version, value and padding; the constructor used by set() leaves the padding undefined. */
  function Encode(version: nat, value: seq<byte>, pad: seq<byte>): (d: seq<byte>)
    requires version < 0x1_0000 && |pad| == Padding(|value|)
    ensures |d| == ParamSize(|value|)
  {
    [version % 256, version / 256] + value + pad
  }

  /** The version comes first, low byte first, then the value. */
  lemma EncodeLayout(version: nat, value: seq<byte>, pad: seq<byte>)
    requires version < 0x1_0000 && |pad| == Padding(|value|)
    ensures var d := Encode(version, value, pad);
            d[0] as int + 256 * d[1] as int == version && d[2..2 + |value|] == value
  {
  }

  datatype GetResult = Value(value: seq<byte>) | WrongVersion | NotFound | Failed

  function Decode(version: nat, valueSize: nat, d: seq<byte>): GetResult
    requires |d| >= HDR_SIZE + valueSize
  {
    if d[0] as int + 256 * d[1] as int != version then WrongVersion else Value(d[HDR_SIZE..HDR_SIZE + valueSize])
  }

  // ----- records in flash

  /** FDS stores whole words. */
  function WholeWords(d: seq<byte>): seq<byte> {
    d[..|d| / 4 * 4]
  }

  /** No tail bytes are lost exactly when the length is a whole number of words. */
  lemma WholeWordsKeepsAll(d: seq<byte>)
    ensures WholeWords(d) == d <==> |d| % 4 == 0
    ensures |WholeWords(d)| % 4 == 0
  {
    assert |WholeWords(d)| == |d| / 4 * 4;
  }

  // ----- cache entries

  /** The allocated block may be longer than the data kept in it. */
  datatype Entry = Entry(length: nat, alloc: nat, block: Option<seq<byte>>, subs: seq<nat>)

  const EMPTY_ENTRY := Entry(0, 0, None, [])

  predicate ValidEntry(e: Entry) {
    match e.block
    case None => e.length == e.alloc == 0
    case Some(b) => e.length <= |b| && e.alloc <= |b|
  }

  function Current(e: Entry): seq<byte>
    requires ValidEntry(e) && e.block.Some?
  {
    e.block.value[..e.length]
  }

  /** What a reader's buffer holds after a hit on data d. */
  function Overlay(d: seq<byte>, buf: seq<byte>): seq<byte> {
    d[..Min(|d|, |buf|)] + buf[Min(|d|, |buf|)..]
  }

  /** The buffer keeps its length and gets as many bytes as both have. */
  lemma OverlayAt(d: seq<byte>, buf: seq<byte>, p: nat)
    requires p < |buf|
    ensures |Overlay(d, buf)| == |buf| && Overlay(d, buf)[p] == if p < |d| then d[p] else buf[p]
  {
  }

  /** A record written by set() and read into get()'s object decodes to the value, in its own version only. */
  lemma ParamRoundTrip(version: nat, value: seq<byte>, pad: seq<byte>, buf: seq<byte>, expected: nat)
    requires version < 0x1_0000 && |pad| == Padding(|value|) && |buf| == ParamSize(|value|)
    ensures var d := Overlay(Encode(version, value, pad), buf);
            |d| == |buf| && Decode(expected, |value|, d) == if expected == version then Value(value) else WrongVersion
  {
    var d := Encode(version, value, pad);
    assert Overlay(d, buf) == d;
    assert d[HDR_SIZE..HDR_SIZE + |value|] == value;
  }

  predicate Unchanged(e: Entry, d: seq<byte>)
    requires ValidEntry(e)
  {
    e.block.Some? && e.alloc == |d| && e.block.value[..e.alloc] == d
  }

  /** The exclusive phase of write(). */
  function Store(e: Entry, d: seq<byte>): (e': Entry)
    requires ValidEntry(e)
    ensures ValidEntry(e')
  {
    if Unchanged(e, d) then e
    else if e.block.Some? && e.alloc >= |d| then e.(block := Some(d + e.block.value[|d|..]), length := |d|)
    else e.(block := Some(d), length := |d|)
  }

  /** The first load from flash installs a fresh entry: no subscribers. */
  function Load(record: seq<byte>): (e: Entry)
    ensures ValidEntry(e)
  {
    Entry(|record|, |record|, Some(record), [])
  }

  /**
   A write is visible afterwards if and only if the unchanged-data shortcut does
   not fire while the cache holds a shorter or longer value in the same block.
   */
  lemma StoreTakesEffect(e: Entry, d: seq<byte>)
    requires ValidEntry(e)
    ensures Current(Store(e, d)) == d <==> !(Unchanged(e, d) && e.length != |d|)
  {
    if Unchanged(e, d) && e.length != |d| {
      assert |Current(Store(e, d))| == e.length;
    }
  }

  /** Load 8 bytes, write 4, write 8: the last write reports no change and is hidden. */
  lemma HiddenWrite()
    ensures var e := Store(Load([1, 1, 1, 1, 2, 2, 2, 2]), [9, 9, 9, 9]);
            var d := [9, 9, 9, 9, 2, 2, 2, 2];
            Unchanged(e, d) && Current(Store(e, d)) == [9, 9, 9, 9] != d
  {
    var e := Store(Load([1, 1, 1, 1, 2, 2, 2, 2]), [9, 9, 9, 9]);
    assert e.block.value == [9, 9, 9, 9, 2, 2, 2, 2];
  }

  /** Written twice, the same bytes count as unchanged only in a block that was loaded with their length. */
  lemma SameAgain(e: Entry, d: seq<byte>)
    requires ValidEntry(e)
    ensures Unchanged(Store(e, d), d) <==> e.alloc == |d|
  {
    if e.block.Some? && e.alloc == |d| {
      assert (d + e.block.value[|d|..])[..|d|] == d;
    }
  }

  /** With one length written per parameter, a loaded record of any length does no harm. */
  predicate OneLength(e: Entry, len: nat) {
    e.length == e.alloc || e.length == len
  }

  lemma StoreOneLength(e: Entry, d: seq<byte>)
    requires ValidEntry(e) && OneLength(e, |d|)
    ensures Current(Store(e, d)) == d && OneLength(Store(e, d), |d|)
  {
    StoreTakesEffect(e, d);
  }

  /** The entry as the object that the lock protects. */
  class CacheEntry {
    var length: nat
    var allocLength: nat
    var data: array?<byte>
    var subs: seq<nat>

    function Abs(): Entry
      reads this, data
    {
      Entry(length, allocLength, if data == null then None else Some(data[..]), subs)
    }

    ghost predicate Valid()
      reads this, data
    {
      ValidEntry(Abs())
    }

    constructor ()
      ensures Valid() && Abs() == EMPTY_ENTRY
    {
      length, allocLength, data, subs := 0, 0, null, [];
    }

    method TryRead(buf: array<byte>) returns (hit: bool)
      requires Valid() && data != buf
      modifies buf
      ensures hit <==> Abs().block.Some?
      ensures buf[..] == if hit then Overlay(Current(Abs()), old(buf[..])) else old(buf[..])
    {
      hit := data != null;
      if hit {
        CopyTo(data[..Min(length, buf.Length)], buf);
      }
    }

    /** memcpy into the front of a block. */
    static method CopyTo(src: seq<byte>, dst: array<byte>)
      requires |src| <= dst.Length
      modifies dst
      ensures dst[..] == src + old(dst[|src|..])
    {
      for i := 0 to |src|
        invariant dst[..i] == src[..i]
        invariant dst[i..] == old(dst[i..])
      {
        dst[i] := src[i];
      }
    }

    method StoreData(d: seq<byte>) returns (changed: bool)
      requires Valid()
      modifies this, data
      ensures Valid() && Abs() == Store(old(Abs()), d)
      ensures changed <==> !Unchanged(old(Abs()), d)
      ensures data == old(data) || fresh(data)
    {
      if data != null && allocLength >= |d| {
        if allocLength == |d| && data[..|d|] == d {
          return false;
        }
        CopyTo(d, data);
        length := |d|;
      } else {
        data := new byte[|d|](i requires 0 <= i < |d| => d[i]);
        assert data[..] == d;
        length := |d|;
      }
      return true;
    }

    method LoadRecord(record: seq<byte>)
      modifies this
      ensures Valid() && Abs() == Load(record) && fresh(data)
    {
      data := new byte[|record|](i requires 0 <= i < |record| => record[i]);
      assert data[..] == record;
      length, allocLength, subs := |record|, |record|, [];
    }

    method Subscribe(sub: nat)
      requires Valid()
      modifies this`subs
      ensures Abs() == old(Abs()).(subs := [sub] + old(subs))
    {
      subs := [sub] + subs;
    }
  }
}
