/**
 The user app's file in flash: an image split over records under consecutive
 keys, and one record with its CRC.  The image size and the largest record are
 parameters (4096 bytes and FDS_VIRTUAL_PAGE_SIZE - 8 words in the firmware).
 */
module AppFlash {
  import opened Wrappers

  const CODE_BASE := 0x9800
  const CRC_KEY := 0xa000
  /** Keys between the first code record and the CRC record. */
  const CODE_KEYS := CRC_KEY - CODE_BASE

  /** The key of code record i. */
  function Key(i: nat): nat {
    CODE_BASE + i
  }

  datatype Geometry = Geometry(size: nat, maxRecord: nat)

  type Flash = map<nat, seq<byte>>

  /** A CRC of 16 bits. */
  type Crc = c: nat | c < 0x1_0000

  /** Records needed for n more bytes. */
  function Chunks(n: nat, max: nat): nat
    requires max > 0
  {
    if n == 0 then 0 else 1 + Chunks(n - Min(max, n), max)
  }

  /** A full split leaves the CRC key free. */
  predicate Sane(g: Geometry) {
    g.maxRecord > 0 && Chunks(g.size, g.maxRecord) < CODE_KEYS
  }

  /** The firmware's 4096 bytes in records of at most 1016 words need two of 2048 keys. */
  lemma FirmwareIsSane()
    ensures Sane(Geometry(0x1000, 4 * 1016))
  {
    assert Chunks(32, 4 * 1016) == 1;
    assert Chunks(0x1000, 4 * 1016) == 2;
  }

  predicate HasCode(f: Flash, n: nat) {
    forall k :: 0 <= k < n ==> Key(k) in f
  }

  /** The first n code records, one after the other. */
  function Joined(f: Flash, n: nat): seq<byte>
    requires HasCode(f, n)
  {
    if n == 0 then [] else Joined(f, n - 1) + f[Key(n - 1)]
  }

  /**
   The code records are exactly the first n keys, together they are not longer
   than the image, and there are keys left for the rest of it.
   */
  ghost predicate FitsAt(g: Geometry, f: Flash, n: nat)
    requires g.maxRecord > 0
  {
    && n < CODE_KEYS && HasCode(f, n)
    && (forall k :: n <= k < CODE_KEYS ==> Key(k) !in f)
    && |Joined(f, n)| <= g.size
    && n + Chunks(g.size - |Joined(f, n)|, g.maxRecord) < CODE_KEYS
    && (CRC_KEY in f ==> |f[CRC_KEY]| == 4)
  }

  ghost predicate Fits(g: Geometry, f: Flash)
    requires g.maxRecord > 0
  {
    exists n :: FitsAt(g, f, n)
  }

  /** The file holds the whole image and this CRC. */
  ghost predicate Holds(g: Geometry, f: Flash, image: seq<byte>, crc: Crc)
    requires g.maxRecord > 0
  {
    && CRC_KEY in f && f[CRC_KEY] == Le32(crc)
    && exists n :: FitsAt(g, f, n) && Joined(f, n) == image
  }

  function CrcRecord(f: Flash): Option<seq<byte>> {
    if CRC_KEY in f then Some(f[CRC_KEY]) else None
  }

  function Le32(v: Crc): (b: seq<byte>)
    ensures |b| == 4
  {
    [v % 256, v / 256, 0, 0]
  }

  function Word(b: seq<byte>): nat
    requires |b| == 4
  {
    b[0] as int + 0x100 * b[1] as int + 0x1_0000 * b[2] as int + 0x100_0000 * b[3] as int
  }

  lemma WordOfLe32(v: Crc)
    ensures Word(Le32(v)) == v && Le32(v)[0] as int == v % 256
  {
  }

  // ----- what single record operations do

  lemma {:induction false} JoinedDependsOn(f: Flash, f': Flash, n: nat)
    requires HasCode(f, n) && HasCode(f', n)
    requires forall k :: 0 <= k < n ==> f[Key(k)] == f'[Key(k)]
    ensures Joined(f, n) == Joined(f', n)
  {
    if n > 0 { JoinedDependsOn(f, f', n - 1); }
  }

  lemma {:induction false} SameLengths(f: Flash, f': Flash, n: nat)
    requires HasCode(f, n) && HasCode(f', n)
    requires forall k :: 0 <= k < n ==> |f[Key(k)]| == |f'[Key(k)]|
    ensures |Joined(f, n)| == |Joined(f', n)|
  {
    if n > 0 { SameLengths(f, f', n - 1); }
  }

  lemma {:induction false} JoinedGrows(f: Flash, i: nat, n: nat)
    requires HasCode(f, n) && i <= n
    ensures Joined(f, i) <= Joined(f, n)
  {
    if i < n { JoinedGrows(f, i, n - 1); }
  }

  /** fds_record_update of record i, with the record's own length. */
  lemma UpdateFits(g: Geometry, f: Flash, n: nat, i: nat, d: seq<byte>)
    requires g.maxRecord > 0 && FitsAt(g, f, n) && i < n && |d| == |f[Key(i)]|
    ensures var f' := f[Key(i) := d];
            FitsAt(g, f', n) && |Joined(f', n)| == |Joined(f, n)| && Joined(f', i + 1) == Joined(f, i) + d
            && CrcRecord(f') == CrcRecord(f)
  {
    var f' := f[Key(i) := d];
    SameLengths(f, f', n);
    JoinedDependsOn(f, f', i);
  }

  /** fds_record_write of the next record, as long as possible. */
  lemma AppendFits(g: Geometry, f: Flash, n: nat, d: seq<byte>)
    requires g.maxRecord > 0 && FitsAt(g, f, n) && |Joined(f, n)| < g.size
    requires |d| == Min(g.maxRecord, g.size - |Joined(f, n)|)
    ensures var f' := f[Key(n) := d];
            FitsAt(g, f', n + 1) && Joined(f', n + 1) == Joined(f, n) + d && CrcRecord(f') == CrcRecord(f)
  {
    JoinedDependsOn(f, f[Key(n) := d], n);
  }

  lemma CrcFits(g: Geometry, f: Flash, n: nat, d: seq<byte>)
    requires g.maxRecord > 0 && FitsAt(g, f, n) && |d| == 4
    ensures FitsAt(g, f[CRC_KEY := d], n) && Joined(f[CRC_KEY := d], n) == Joined(f, n)
  {
    JoinedDependsOn(f, f[CRC_KEY := d], n);
  }

  lemma EmptyFits(g: Geometry)
    requires Sane(g)
    ensures FitsAt(g, map[], 0)
  {
  }

  lemma CountIsUnique(g: Geometry, f: Flash, m: nat, n: nat)
    requires g.maxRecord > 0 && FitsAt(g, f, m) && FitsAt(g, f, n)
    ensures m == n
  {
    assert m < n ==> Key(m) in f;
    assert n < m ==> Key(n) in f;
  }

  lemma DropAppend(a: seq<byte>, b: seq<byte>, c: nat)
    requires c <= |a|
    ensures (a + b)[c..] == a[c..] + b
  {
  }

  /** An update changes the bytes of its record only. */
  lemma {:induction false} UpdateReplaces(f: Flash, n: nat, i: nat, d: seq<byte>)
    requires HasCode(f, n) && i < n && |d| == |f[Key(i)]|
    ensures |Joined(f, i)| + |d| <= |Joined(f, n)|
    ensures Joined(f[Key(i) := d], n) == Joined(f, i) + d + Joined(f, n)[|Joined(f, i)| + |d|..]
  {
    var f' := f[Key(i) := d];
    if i == n - 1 {
      JoinedDependsOn(f, f', i);
    } else {
      UpdateReplaces(f, n - 1, i, d);
      assert Joined(f, n) == Joined(f, n - 1) + f[Key(n - 1)] && Joined(f', n) == Joined(f', n - 1) + f[Key(n - 1)];
      hide Joined;
      DropAppend(Joined(f, n - 1), f[Key(n - 1)], |Joined(f, i)| + |d|);
    }
  }

  // ----- a save, one record operation at a time

  /** A save that stores the image completely, fails in the middle, or is cut off by a power failure. */
  datatype SaveResult = Saved | SaveFailed | PowerLost

  /** Where a save is: the next record and the number of bytes stored. */
  datatype SavePc =
    | Updating(i: nat, offset: nat)      // first loop
    | Appending(i: nat, offset: nat)     // second loop
    | Finished
    | Overrun                            // an update would read past the buffer

  datatype Saving = Saving(file: Flash, pc: SavePc)

  /** The next record operation: update a record that exists, append a new one, or store the CRC. */
  function SaveNext(g: Geometry, image: seq<byte>, crc: Crc, s: Saving): Saving
    requires g.maxRecord > 0 && |image| == g.size
  {
    match s.pc
    case Finished | Overrun => s
    case Updating(i, offset) =>
      if offset >= g.size then Saving(s.file[CRC_KEY := Le32(crc)], Finished)
      else if Key(i) !in s.file then Append(g, image, s.file, i, offset)
      else
        var end := offset + |s.file[Key(i)]|;
        if end > g.size then s.(pc := Overrun)
        else Saving(s.file[Key(i) := image[offset..end]], Updating(i + 1, end))
    case Appending(i, offset) =>
      if offset >= g.size then Saving(s.file[CRC_KEY := Le32(crc)], Finished)
      else Append(g, image, s.file, i, offset)
  }

  function Append(g: Geometry, image: seq<byte>, f: Flash, i: nat, offset: nat): Saving
    requires g.maxRecord > 0 && offset < |image| == g.size
  {
    var end := offset + Min(g.maxRecord, g.size - offset);
    Saving(f[Key(i) := image[offset..end]], Appending(i + 1, end))
  }

  /** The file and the place after m record operations of a save: what a save cut off there leaves. */
  function SaveAfter(g: Geometry, f: Flash, image: seq<byte>, crc: Crc, m: nat): Saving
    requires g.maxRecord > 0 && |image| == g.size
  {
    if m == 0 then Saving(f, Updating(0, 0)) else SaveNext(g, image, crc, SaveAfter(g, f, image, crc, m - 1))
  }

  lemma SaveStarts(g: Geometry, f: Flash, image: seq<byte>, crc: Crc)
    requires g.maxRecord > 0 && |image| == g.size
    ensures SaveAfter(g, f, image, crc, 0) == Saving(f, Updating(0, 0))
  {
  }

  ghost function RecordCount(g: Geometry, f: Flash): (n: nat)
    requires g.maxRecord > 0 && Fits(g, f)
    ensures FitsAt(g, f, n)
  {
    var n :| FitsAt(g, f, n);
    n
  }

  /** The bytes in the code records. */
  ghost function CodeBytes(g: Geometry, f: Flash): (b: seq<byte>)
    requires g.maxRecord > 0 && Fits(g, f)
    ensures |b| <= g.size
  {
    Joined(f, RecordCount(g, f))
  }

  /** The front of an image over what was there before. */
  function Torn(image: seq<byte>, was: seq<byte>, o: nat): seq<byte>
    requires o <= |image|
  {
    image[..o] + was[Min(o, |was|)..]
  }

  lemma TornUpdate(image: seq<byte>, was: seq<byte>, o: nat, end: nat)
    requires o <= end <= |image| && end <= |Torn(image, was, o)|
    ensures image[..o] + image[o..end] + Torn(image, was, o)[end..] == Torn(image, was, end)
    ensures image[..o] + image[o..end] == image[..end]
  {
  }

  lemma TornAppend(image: seq<byte>, was: seq<byte>, o: nat, end: nat)
    requires o <= end <= |image| && Torn(image, was, o) == image[..o]
    ensures Torn(image, was, end) == image[..o] + image[o..end] == image[..end]
  {
  }

  /** The number of bytes that a save has stored. */
  function Stored(g: Geometry, pc: SavePc): (o: nat)
    ensures o <= g.size
  {
    if pc.Updating? || pc.Appending? then Min(pc.offset, g.size) else g.size
  }

  /** The file stays well formed, and it holds the image as far as the save has come and the old bytes after that. */
  ghost predicate SaveInv(g: Geometry, before: Flash, image: seq<byte>, crc: Crc, s: Saving, n: nat)
    requires g.maxRecord > 0 && |image| == g.size && Fits(g, before)
  {
    && FitsAt(g, s.file, n) && Joined(s.file, n) == Torn(image, CodeBytes(g, before), Stored(g, s.pc))
    && match s.pc
       case Updating(i, offset) =>
         && i <= n && offset <= g.size && Joined(s.file, i) == image[..offset] && CrcRecord(s.file) == CrcRecord(before)
       case Appending(i, offset) =>
         && i == n && offset <= g.size && Joined(s.file, n) == image[..offset] && CrcRecord(s.file) == CrcRecord(before)
       case Finished => CrcRecord(s.file) == Some(Le32(crc))
       case Overrun => false
  }

  /** Record operations left, the one for the CRC included. */
  function SaveLeft(g: Geometry, s: Saving, n: nat): int
    requires g.maxRecord > 0 && HasCode(s.file, n)
  {
    match s.pc
    case Updating(i, _) => n - i + ChunksLeft(g, |Joined(s.file, n)|) + 1
    case Appending(_, offset) => ChunksLeft(g, offset) + 1
    case _ => 0
  }

  function ChunksLeft(g: Geometry, offset: nat): nat
    requires g.maxRecord > 0
  {
    if offset >= g.size then 0 else Chunks(g.size - offset, g.maxRecord)
  }

  lemma UpdateIsNext(g: Geometry, before: Flash, image: seq<byte>, crc: Crc, s: Saving, n: nat)
    requires g.maxRecord > 0 && |image| == g.size && Fits(g, before) && SaveInv(g, before, image, crc, s, n)
    requires s.pc.Updating? && s.pc.offset < g.size && Key(s.pc.i) in s.file
    ensures var i, offset, end := s.pc.i, s.pc.offset, s.pc.offset + |s.file[Key(s.pc.i)]|;
            && i < n && offset <= end <= g.size
            && SaveNext(g, image, crc, s) == Saving(s.file[Key(i) := image[offset..end]], Updating(i + 1, end))
            && FitsAt(g, s.file, n) && HasCode(s.file, n) && Joined(s.file, i) == image[..offset]
            && Joined(s.file, n) == Torn(image, CodeBytes(g, before), offset) && end <= |Joined(s.file, n)|
  {
    hide Torn, Fits, Chunks;
    assert s.pc.i < n;
    JoinedGrows(s.file, s.pc.i + 1, n);
  }

  lemma UpdateKeepsSave(g: Geometry, before: Flash, image: seq<byte>, crc: Crc, s: Saving, n: nat)
    requires g.maxRecord > 0 && |image| == g.size && Fits(g, before) && SaveInv(g, before, image, crc, s, n)
    requires s.pc.Updating? && s.pc.offset < g.size && Key(s.pc.i) in s.file
    ensures var s' := SaveNext(g, image, crc, s);
            SaveInv(g, before, image, crc, s', n) && SaveLeft(g, s', n) == SaveLeft(g, s, n) - 1
  {
    hide SaveNext, Torn, FitsAt, Fits, Joined, Chunks;
    var i, offset, end := s.pc.i, s.pc.offset, s.pc.offset + |s.file[Key(s.pc.i)]|;
    UpdateIsNext(g, before, image, crc, s, n);
    TornUpdate(image, CodeBytes(g, before), offset, end);
    UpdateFits(g, s.file, n, i, image[offset..end]);
    UpdateReplaces(s.file, n, i, image[offset..end]);
  }

  /** The end of the record that is appended at this offset. */
  function AppendEnd(g: Geometry, offset: nat): (end: nat)
    requires offset < g.size
    ensures end <= g.size
  {
    offset + Min(g.maxRecord, g.size - offset)
  }

  lemma AppendIsNext(g: Geometry, before: Flash, image: seq<byte>, crc: Crc, s: Saving, n: nat)
    requires g.maxRecord > 0 && |image| == g.size && Fits(g, before) && SaveInv(g, before, image, crc, s, n)
    requires (s.pc.Updating? && Key(s.pc.i) !in s.file) || s.pc.Appending?
    requires s.pc.offset < g.size
    ensures var offset, end := s.pc.offset, AppendEnd(g, s.pc.offset);
            && SaveNext(g, image, crc, s) == Saving(s.file[Key(n) := image[offset..end]], Appending(n + 1, end))
            && Joined(s.file, n) == image[..offset] == Torn(image, CodeBytes(g, before), offset)
            && SaveLeft(g, s, n) == ChunksLeft(g, offset) + 1
            && FitsAt(g, s.file, n) && CrcRecord(s.file) == CrcRecord(before)
  {
    hide Torn, Chunks, Fits, CodeBytes;
    assert s.pc.i == n;
    hide FitsAt;
  }

  lemma ChunksShorten(g: Geometry, offset: nat)
    requires g.maxRecord > 0 && offset < g.size
    ensures ChunksLeft(g, offset) == 1 + ChunksLeft(g, AppendEnd(g, offset))
  {
    var rest := g.size - offset;
    assert Chunks(rest, g.maxRecord) == 1 + Chunks(rest - Min(g.maxRecord, rest), g.maxRecord);
    assert g.size - AppendEnd(g, offset) == rest - Min(g.maxRecord, rest);
  }

  lemma AppendKeepsSave(g: Geometry, before: Flash, image: seq<byte>, crc: Crc, s: Saving, n: nat)
    requires g.maxRecord > 0 && |image| == g.size && Fits(g, before) && SaveInv(g, before, image, crc, s, n)
    requires (s.pc.Updating? && Key(s.pc.i) !in s.file) || s.pc.Appending?
    requires s.pc.offset < g.size
    ensures SaveInv(g, before, image, crc, SaveNext(g, image, crc, s), n + 1)
    ensures SaveLeft(g, SaveNext(g, image, crc, s), n + 1) == SaveLeft(g, s, n) - 1
  {
    hide FitsAt, Fits, SaveInv, SaveNext, Joined, Torn, Chunks, ChunksLeft;
    var offset, end := s.pc.offset, AppendEnd(g, s.pc.offset);
    AppendIsNext(g, before, image, crc, s, n);
    ChunksShorten(g, offset);
    TornAppend(image, CodeBytes(g, before), offset, end);
    AppendFits(g, s.file, n, image[offset..end]);
    AppendedInv(g, before, image, crc, s.file[Key(n) := image[offset..end]], n + 1, end);
  }

  lemma AppendedInv(g: Geometry, before: Flash, image: seq<byte>, crc: Crc, f: Flash, n: nat, offset: nat)
    requires g.maxRecord > 0 && |image| == g.size && Fits(g, before) && FitsAt(g, f, n) && offset <= g.size
    requires Joined(f, n) == image[..offset] == Torn(image, CodeBytes(g, before), offset)
    requires CrcRecord(f) == CrcRecord(before)
    ensures SaveInv(g, before, image, crc, Saving(f, Appending(n, offset)), n)
  {
    hide FitsAt, Fits, Joined, Chunks, Torn, CrcRecord;
  }

  lemma CrcKeepsSave(g: Geometry, before: Flash, image: seq<byte>, crc: Crc, s: Saving, n: nat)
    requires g.maxRecord > 0 && |image| == g.size && Fits(g, before) && SaveInv(g, before, image, crc, s, n)
    requires (s.pc.Updating? || s.pc.Appending?) && s.pc.offset >= g.size
    ensures SaveInv(g, before, image, crc, SaveNext(g, image, crc, s), n)
  {
    JoinedGrows(s.file, s.pc.i, n);
    assert Joined(s.file, n) == image;
    CrcFits(g, s.file, n, Le32(crc));
  }

  lemma SaveStepKeeps(g: Geometry, before: Flash, image: seq<byte>, crc: Crc, s: Saving, n: nat) returns (n': nat)
    requires g.maxRecord > 0 && |image| == g.size && Fits(g, before) && SaveInv(g, before, image, crc, s, n)
    ensures SaveInv(g, before, image, crc, SaveNext(g, image, crc, s), n')
    ensures s.pc.Finished? || SaveLeft(g, SaveNext(g, image, crc, s), n') < SaveLeft(g, s, n)
  {
    n' := n;
    if s.pc.Updating? || s.pc.Appending? {
      if s.pc.offset >= g.size {
        CrcKeepsSave(g, before, image, crc, s, n);
      } else if s.pc.Updating? && Key(s.pc.i) in s.file {
        UpdateKeepsSave(g, before, image, crc, s, n);
      } else {
        AppendKeepsSave(g, before, image, crc, s, n);
        n' := n + 1;
      }
    }
  }

  /** Wherever a save is cut off, the file is well formed and holds the front of the image over the old bytes. */
  lemma {:induction false} SaveKeeps(g: Geometry, f: Flash, image: seq<byte>, crc: Crc, m: nat) returns (n: nat)
    requires g.maxRecord > 0 && |image| == g.size && Fits(g, f)
    ensures SaveInv(g, f, image, crc, SaveAfter(g, f, image, crc, m), n)
    ensures var s := SaveAfter(g, f, image, crc, m);
            s.pc.Finished? || SaveLeft(g, s, n) <= CODE_KEYS - m
  {
    if m == 0 {
      n := RecordCount(g, f);
    } else {
      n := SaveKeeps(g, f, image, crc, m - 1);
      n := SaveStepKeeps(g, f, image, crc, SaveAfter(g, f, image, crc, m - 1), n);
    }
  }

  /** A save that has not finished has an operation to do, and it stays inside the buffer. */
  lemma SaveGoesOn(g: Geometry, f: Flash, image: seq<byte>, crc: Crc, m: nat)
    requires g.maxRecord > 0 && |image| == g.size && Fits(g, f)
    ensures !SaveAfter(g, f, image, crc, m).pc.Finished? ==> m < CODE_KEYS
    ensures SaveAfter(g, f, image, crc, m + 1) == SaveNext(g, image, crc, SaveAfter(g, f, image, crc, m))
    ensures !SaveAfter(g, f, image, crc, m + 1).pc.Overrun?
  {
    hide SaveInv, SaveLeft, SaveNext, Fits, FitsAt, Joined, Chunks;
    var n := SaveKeeps(g, f, image, crc, m);
    LeftIsPositive(g, f, image, crc, SaveAfter(g, f, image, crc, m), n);
    var n' := SaveKeeps(g, f, image, crc, m + 1);
    LeftIsPositive(g, f, image, crc, SaveAfter(g, f, image, crc, m + 1), n');
  }

  /** The next operation of the first loop, when there is a record to update. */
  lemma NextUpdate(g: Geometry, f: Flash, image: seq<byte>, crc: Crc, m: nat, file: Flash, i: nat, offset: nat)
    requires g.maxRecord > 0 && |image| == g.size && Fits(g, f) && offset < g.size && Key(i) in file
    requires SaveAfter(g, f, image, crc, m) == Saving(file, Updating(i, offset))
    ensures var end := offset + |file[Key(i)]|;
            && m < CODE_KEYS && end <= g.size
            && SaveAfter(g, f, image, crc, m + 1) == Saving(file[Key(i) := image[offset..end]], Updating(i + 1, end))
  {
    SaveGoesOn(g, f, image, crc, m);
  }

  lemma LeftIsPositive(g: Geometry, before: Flash, image: seq<byte>, crc: Crc, s: Saving, n: nat)
    requires g.maxRecord > 0 && |image| == g.size && Fits(g, before) && SaveInv(g, before, image, crc, s, n)
    ensures !s.pc.Overrun? && HasCode(s.file, n) && (!s.pc.Finished? ==> SaveLeft(g, s, n) > 0)
  {
    hide ChunksLeft;
  }

  /** A save deletes nothing, and its first operation stores something. */
  lemma {:induction false} SaveKeepsKeys(g: Geometry, f: Flash, image: seq<byte>, crc: Crc, m: nat)
    requires g.maxRecord > 0 && |image| == g.size
    ensures forall k :: k in f ==> k in SaveAfter(g, f, image, crc, m).file
    ensures SaveAfter(g, f, image, crc, m).file == map[] <==> f == map[] && m == 0
  {
    if m > 0 {
      SaveKeepsKeys(g, f, image, crc, m - 1);
      var s, s' := SaveAfter(g, f, image, crc, m - 1), SaveAfter(g, f, image, crc, m);
      assert forall k :: k in s.file ==> k in s'.file;
      if f == map[] && m == 1 {
        assert (if g.size == 0 then CRC_KEY else Key(0)) in s'.file;
      } else {
        var k :| k in s.file;
        assert k in s'.file;
      }
    }
  }

  /** Not cut off, a save completes: as many operations as there are keys are enough for any well-formed file. */
  lemma SaveFinishes(g: Geometry, f: Flash, image: seq<byte>, crc: Crc, m: nat)
    requires g.maxRecord > 0 && |image| == g.size && Fits(g, f) && m >= CODE_KEYS
    ensures SaveAfter(g, f, image, crc, m).pc.Finished?
  {
    var n := SaveKeeps(g, f, image, crc, m);
  }

  /**
   What a save leaves after m operations: the front of the image over the old
   bytes under the old CRC record, and on completion the image under its CRC.
   */
  lemma SaveLeaves(g: Geometry, f: Flash, image: seq<byte>, crc: Crc, m: nat)
    requires g.maxRecord > 0 && |image| == g.size && Fits(g, f)
    ensures var s := SaveAfter(g, f, image, crc, m);
            && Fits(g, s.file) && CodeBytes(g, s.file) == Torn(image, CodeBytes(g, f), Stored(g, s.pc))
            && (if s.pc.Finished? then Holds(g, s.file, image, crc) else CrcRecord(s.file) == CrcRecord(f))
  {
    var n := SaveKeeps(g, f, image, crc, m);
    var s := SaveAfter(g, f, image, crc, m);
    CountIsUnique(g, s.file, n, RecordCount(g, s.file));
  }

  // ----- histories of the file

  /** A save cut off after some record operations (or completed), an erase, a restart. */
  datatype FileEvent = Save(image: seq<byte>, crc: Crc, steps: nat) | Erase | Reboot

  predicate FileStep(g: Geometry, f: Flash, e: FileEvent, f': Flash)
    requires g.maxRecord > 0
  {
    match e
    case Save(image, crc, steps) => |image| == g.size && f' == SaveAfter(g, f, image, crc, steps).file
    case Erase => f' == map[]
    case Reboot => f' == f
  }

  predicate FileRun(g: Geometry, fs: seq<Flash>, es: seq<FileEvent>)
    requires g.maxRecord > 0
  {
    && |fs| == |es| + 1 && fs[0] == map[]
    && forall i :: 0 <= i < |es| ==> FileStep(g, fs[i], es[i], fs[i + 1])
  }

  /** Record i holds the i-th part of an image cut into the longest records. */
  predicate CanonicalRecord(g: Geometry, f: Flash, i: nat) {
    Key(i) in f ==> i * g.maxRecord < g.size && |f[Key(i)]| == Min(g.maxRecord, g.size - i * g.maxRecord)
  }

  ghost predicate Canonical(g: Geometry, f: Flash) {
    forall i :: 0 <= i < CODE_KEYS ==> CanonicalRecord(g, f, i)
  }

  lemma {:induction false} CanonicalLength(g: Geometry, f: Flash, n: nat)
    requires HasCode(f, n) && n <= CODE_KEYS && Canonical(g, f)
    ensures |Joined(f, n)| == Min(g.size, n * g.maxRecord)
  {
    if n > 0 {
      CanonicalLength(g, f, n - 1);
      assert CanonicalRecord(g, f, n - 1);
      assert n * g.maxRecord == (n - 1) * g.maxRecord + g.maxRecord;
    }
  }

  lemma UpdateKeepsCanonical(g: Geometry, f: Flash, i: nat, d: seq<byte>, k: nat)
    requires Key(i) in f && |d| == |f[Key(i)]| && CanonicalRecord(g, f, k)
    ensures CanonicalRecord(g, f[Key(i) := d], k)
  {
  }

  lemma AppendKeepsCanonical(g: Geometry, f: Flash, n: nat, d: seq<byte>, k: nat)
    requires HasCode(f, n) && n <= CODE_KEYS && Canonical(g, f) && k < CODE_KEYS
    requires |Joined(f, n)| < g.size && |d| == Min(g.maxRecord, g.size - |Joined(f, n)|)
    ensures CanonicalRecord(g, f[Key(n) := d], k)
  {
    CanonicalLength(g, f, n);
    assert CanonicalRecord(g, f, k);
    hide Canonical, Joined, HasCode;
    if k == n { assert n * g.maxRecord == |Joined(f, n)|; }
  }

  lemma StepKeepsCanonical(g: Geometry, before: Flash, image: seq<byte>, crc: Crc, s: Saving, n: nat, k: nat)
    requires g.maxRecord > 0 && |image| == g.size && Fits(g, before) && SaveInv(g, before, image, crc, s, n)
    requires Canonical(g, s.file) && k < CODE_KEYS
    ensures CanonicalRecord(g, SaveNext(g, image, crc, s).file, k)
  {
    assert HasCode(s.file, n) && n < CODE_KEYS && CanonicalRecord(g, s.file, k);
    hide SaveInv, FitsAt, Fits, Torn, Canonical, CanonicalRecord, Joined, Chunks;
    if s.pc.Updating? && s.pc.offset < g.size && Key(s.pc.i) in s.file {
      UpdateIsNext(g, before, image, crc, s, n);
      var end := s.pc.offset + |s.file[Key(s.pc.i)]|;
      UpdateKeepsCanonical(g, s.file, s.pc.i, image[s.pc.offset..end], k);
    } else if (s.pc.Updating? || s.pc.Appending?) && s.pc.offset < g.size {
      AppendIsNext(g, before, image, crc, s, n);
      AppendKeepsCanonical(g, s.file, n, image[s.pc.offset..AppendEnd(g, s.pc.offset)], k);
    } else {
      CrcKeepsRecord(g, s.file, Le32(crc), k);
    }
  }

  lemma CrcKeepsRecord(g: Geometry, f: Flash, d: seq<byte>, k: nat)
    requires k < CODE_KEYS && CanonicalRecord(g, f, k)
    ensures CanonicalRecord(g, f[CRC_KEY := d], k)
  {
  }

  lemma NextKeepsCanonical(g: Geometry, before: Flash, image: seq<byte>, crc: Crc, s: Saving, n: nat)
    requires g.maxRecord > 0 && |image| == g.size && Fits(g, before) && SaveInv(g, before, image, crc, s, n)
    requires Canonical(g, s.file)
    ensures Canonical(g, SaveNext(g, image, crc, s).file)
  {
    hide SaveNext, SaveInv, FitsAt, Fits, CanonicalRecord;
    forall k | 0 <= k < CODE_KEYS ensures CanonicalRecord(g, SaveNext(g, image, crc, s).file, k) {
      StepKeepsCanonical(g, before, image, crc, s, n, k);
    }
  }

  lemma {:induction false} SaveKeepsCanonical(g: Geometry, f: Flash, image: seq<byte>, crc: Crc, m: nat)
    requires g.maxRecord > 0 && |image| == g.size && Fits(g, f) && Canonical(g, f)
    ensures Canonical(g, SaveAfter(g, f, image, crc, m).file)
  {
    hide SaveNext, SaveInv, FitsAt, Fits, Canonical;
    if m > 0 {
      SaveKeepsCanonical(g, f, image, crc, m - 1);
      var n := SaveKeeps(g, f, image, crc, m - 1);
      NextKeepsCanonical(g, f, image, crc, SaveAfter(g, f, image, crc, m - 1), n);
    }
  }

  /**
   Complete and interrupted saves and erases, in any order, leave a well-formed
   file whose record i has the length Min(max, size - i * max).
   */
  lemma {:induction false} FilesFit(g: Geometry, fs: seq<Flash>, es: seq<FileEvent>, k: nat)
    requires Sane(g) && FileRun(g, fs, es) && k < |fs|
    ensures Fits(g, fs[k]) && Canonical(g, fs[k])
  {
    if k == 0 {
      EmptyFits(g);
    } else {
      FilesFit(g, fs, es, k - 1);
      assert FileStep(g, fs[k - 1], es[k - 1], fs[k]);
      match es[k - 1] {
        case Save(image, crc, steps) =>
          SaveLeaves(g, fs[k - 1], image, crc, steps);
          SaveKeepsCanonical(g, fs[k - 1], image, crc, steps);
        case Erase => EmptyFits(g);
        case Reboot =>
      }
    }
  }

  // ----- loading at boot

  datatype LoadResult = Loaded | NothingStored | ReadError | MissingCrc | InvalidCrc

  /** memset(USERCODE_BUFFER, 0, sizeof(USERCODE_BUFFER)) clears the size of a pointer. */
  function ZeroHead(ram: seq<byte>): (r: seq<byte>)
    requires |ram| >= 4
    ensures |r| == |ram|
  {
    [0, 0, 0, 0] + ram[4..]
  }

  function CopiedOver(d: seq<byte>, ram: seq<byte>): (r: seq<byte>)
    requires |d| <= |ram|
    ensures |r| == |ram|
  {
    d + ram[|d|..]
  }

  /** Copying a record right after what was copied before. */
  lemma CopyNext(d: seq<byte>, e: seq<byte>, ram: seq<byte>)
    requires |d| + |e| <= |ram|
    ensures CopiedOver(d, ram)[..|d|] + e + CopiedOver(d, ram)[|d| + |e|..] == CopiedOver(d + e, ram)
  {
  }

  /** What the find of the next record tells. */
  lemma NextRecord(g: Geometry, f: Flash, n: nat, id: nat)
    requires g.maxRecord > 0 && FitsAt(g, f, n) && id <= n
    ensures HasCode(f, id) && |Joined(f, id)| <= g.size
    ensures Key(id) in f <==> id < n
    ensures id < n ==> HasCode(f, id + 1) && Joined(f, id + 1) == Joined(f, id) + f[Key(id)]
                       && |Joined(f, id)| + |f[Key(id)]| <= g.size
  {
    JoinedGrows(f, id, n);
    if id < n { JoinedGrows(f, id + 1, n); }
  }

  /** RAM after some of the records, from the first on, have been copied over it. */
  ghost predicate FrontCopied(g: Geometry, f: Flash, before: seq<byte>, after: seq<byte>)
    requires g.maxRecord > 0 && Fits(g, f) && |before| == g.size
  {
    exists k :: 0 <= k <= RecordCount(g, f) && |Joined(f, k)| <= g.size && after == CopiedOver(Joined(f, k), before)
  }

  /** RAM after its head was cleared and the records copied over it. */
  ghost function LoadedRam(g: Geometry, f: Flash, ram: seq<byte>): seq<byte>
    requires g.maxRecord > 0 && Fits(g, f) && |ram| == g.size >= 4
  {
    CopiedOver(CodeBytes(g, f), ZeroHead(ram))
  }

  /** Byte by byte: the records, then what was cleared, then what was there. */
  lemma LoadedRamAt(g: Geometry, f: Flash, ram: seq<byte>, p: nat)
    requires g.maxRecord > 0 && Fits(g, f) && |ram| == g.size >= 4 && p < g.size
    ensures |LoadedRam(g, f, ram)| == g.size
    ensures var d := CodeBytes(g, f);
            LoadedRam(g, f, ram)[p] == if p < |d| then d[p] else if p < 4 then 0 else ram[p]
  {
  }

  /** The outcome of a load whose flash operations succeed. */
  ghost function LoadOutcome(g: Geometry, f: Flash, ram: seq<byte>, crc16: seq<byte> -> Crc): LoadResult
    requires g.maxRecord > 0 && Fits(g, f) && |ram| == g.size >= 4
  {
    if CRC_KEY !in f then MissingCrc
    else if Word(f[CRC_KEY]) == crc16(LoadedRam(g, f, ram)) then Loaded
    else InvalidCrc
  }

  /** A file that holds an image and the image's own CRC loads as exactly that image. */
  lemma HeldImageLoads(g: Geometry, f: Flash, image: seq<byte>, crc16: seq<byte> -> Crc, ram: seq<byte>)
    requires Sane(g) && Fits(g, f) && |ram| == |image| == g.size >= 4
    requires Holds(g, f, image, crc16(image))
    ensures LoadOutcome(g, f, ram, crc16).Loaded? && LoadedRam(g, f, ram) == image
  {
    var n :| FitsAt(g, f, n) && Joined(f, n) == image;
    CountIsUnique(g, f, n, RecordCount(g, f));
    assert LoadedRam(g, f, ram) == image;
    WordOfLe32(crc16(image));
  }

  /**
   A save that is cut off over a stored image is noticed at the next load exactly
   when the CRC of the mixture differs from the CRC of the old image.
   */
  lemma TornSaveIsNoticed(g: Geometry, f: Flash, was: seq<byte>, image: seq<byte>, m: nat,
                          crc16: seq<byte> -> Crc, ram: seq<byte>)
    requires Sane(g) && Fits(g, f) && |ram| == |image| == |was| == g.size >= 4 && Holds(g, f, was, crc16(was))
    ensures var s := SaveAfter(g, f, image, crc16(image), m);
            var mixture := Torn(image, was, Stored(g, s.pc));
            Fits(g, s.file) && LoadedRam(g, s.file, ram) == mixture
            && (!s.pc.Finished? ==> (LoadOutcome(g, s.file, ram, crc16).Loaded? <==> crc16(mixture) == crc16(was)))
  {
    var n :| FitsAt(g, f, n) && Joined(f, n) == was;
    CountIsUnique(g, f, n, RecordCount(g, f));
    var s := SaveAfter(g, f, image, crc16(image), m);
    SaveLeaves(g, f, image, crc16(image), m);
    assert LoadedRam(g, s.file, ram) == Torn(image, was, Stored(g, s.pc));
    WordOfLe32(crc16(was));
  }

  /** From any well-formed file a save that finishes stores what a load recovers; one that is not cut off finishes. */
  lemma SavedImageLoads(g: Geometry, f: Flash, image: seq<byte>, m: nat, crc16: seq<byte> -> Crc, ram: seq<byte>)
    requires Sane(g) && Fits(g, f) && |ram| == |image| == g.size >= 4
    ensures var s := SaveAfter(g, f, image, crc16(image), m);
            && Fits(g, s.file)
            && (s.pc.Finished? ==> LoadOutcome(g, s.file, ram, crc16).Loaded? && LoadedRam(g, s.file, ram) == image)
            && (m >= CODE_KEYS ==> s.pc.Finished?)
  {
    SaveLeaves(g, f, image, crc16(image), m);
    var s := SaveAfter(g, f, image, crc16(image), m);
    if s.pc.Finished? { HeldImageLoads(g, s.file, image, crc16, ram); }
    if m >= CODE_KEYS { SaveFinishes(g, f, image, crc16(image), m); }
  }

  /**
   Store/load round trip: after any history of complete and interrupted saves,
   erases and reboots, a save of an image with its own CRC that finishes, followed
   by a load into any RAM, yields exactly that image and reports success.  A save
   that is not cut off finishes.
   */
  lemma SaveLoadRoundTrip(g: Geometry, fs: seq<Flash>, es: seq<FileEvent>, k: nat,
                          image: seq<byte>, crc16: seq<byte> -> Crc, ram: seq<byte>)
    requires Sane(g) && FileRun(g, fs, es) && k < |es| && |ram| == |image| == g.size >= 4
    requires es[k].Save? && es[k].image == image && es[k].crc == crc16(image)
    ensures Fits(g, fs[k + 1])
    ensures SaveAfter(g, fs[k], image, crc16(image), es[k].steps).pc.Finished? ==>
              LoadOutcome(g, fs[k + 1], ram, crc16).Loaded? && LoadedRam(g, fs[k + 1], ram) == image
    ensures es[k].steps >= CODE_KEYS ==> SaveAfter(g, fs[k], image, crc16(image), es[k].steps).pc.Finished?
  {
    FilesFit(g, fs, es, k);
    assert FileStep(g, fs[k], es[k], fs[k + 1]);
    SavedImageLoads(g, fs[k], image, es[k].steps, crc16, ram);
  }
}
