/** What a sequence of write actions leaves in the temporary buffer. */
module AppUpload {
  import opened Wrappers
  import opened AppFlash

  /** One write action: bytes for an offset of the image. */
  datatype Chunk = Chunk(offset: nat, data: seq<byte>)

  function Zeros(n: nat): (z: seq<byte>)
    ensures |z| == n
  {
    seq(n, _ => 0)
  }

  predicate InRange(size: nat, c: Chunk) {
    c.offset + |c.data| <= size
  }

  predicate Covers(size: nat, c: Chunk, p: nat) {
    InRange(size, c) && c.offset <= p < c.offset + |c.data|
  }

  /** write_tempbuf; a chunk that does not fit changes nothing. */
  function Patch(temp: seq<byte>, c: Chunk): (r: seq<byte>)
    ensures |r| == |temp|
  {
    if InRange(|temp|, c) then temp[..c.offset] + c.data + temp[c.offset + |c.data|..] else temp
  }

  function PatchAll(temp: seq<byte>, cs: seq<Chunk>): (r: seq<byte>)
    ensures |r| == |temp|
  {
    if cs == [] then temp else Patch(PatchAll(temp, cs[..|cs| - 1]), cs[|cs| - 1])
  }

  /** A chunk that ends within the buffer replaces its bytes, the last byte included; any other changes nothing. */
  lemma PatchAt(temp: seq<byte>, c: Chunk, p: nat)
    requires p < |temp|
    ensures Patch(temp, c)[p] ==
            if c.offset + |c.data| <= |temp| && c.offset <= p < c.offset + |c.data| then c.data[p - c.offset]
            else temp[p]
  {
  }

  // ----- an image cut into pieces

  /** The pieces one after the other. */
  function Concat(pieces: seq<seq<byte>>): seq<byte> {
    if pieces == [] then [] else Concat(pieces[..|pieces| - 1]) + pieces[|pieces| - 1]
  }

  /** Every piece with its place in the image. */
  function Cut(pieces: seq<seq<byte>>): (cs: seq<Chunk>)
    ensures |cs| == |pieces|
  {
    seq(|pieces|, i requires 0 <= i < |pieces| => Chunk(|Concat(pieces[..i])|, pieces[i]))
  }

  /** After some of the pieces their bytes are in the buffer and the rest is still zero. */
  lemma {:induction false} PiecesFill(size: nat, pieces: seq<seq<byte>>)
    requires |Concat(pieces)| <= size
    ensures PatchAll(Zeros(size), Cut(pieces)) == Concat(pieces) + Zeros(size - |Concat(pieces)|)
  {
    if pieces != [] {
      var n := |pieces| - 1;
      var front, last := pieces[..n], pieces[n];
      PiecesFill(size, front);
      forall i | 0 <= i < n ensures Cut(pieces)[i] == Cut(front)[i] {
        assert pieces[..i] == front[..i];
      }
      assert Cut(pieces)[..n] == Cut(front);
      assert Cut(pieces)[n] == Chunk(|Concat(front)|, last);
      PatchNext(Concat(front), last, size);
    }
  }

  lemma PatchNext(done: seq<byte>, d: seq<byte>, size: nat)
    requires |done| + |d| <= size
    ensures Patch(done + Zeros(size - |done|), Chunk(|done|, d)) == done + d + Zeros(size - |done + d|)
  {
  }

  /** An image sent in consecutive pieces of any lengths, up to its last byte, is rebuilt. */
  lemma PiecesRebuildTheImage(pieces: seq<seq<byte>>)
    ensures PatchAll(Zeros(|Concat(pieces)|), Cut(pieces)) == Concat(pieces)
  {
    PiecesFill(|Concat(pieces)|, pieces);
    assert Concat(pieces) + Zeros(0) == Concat(pieces);
  }

  /** Every byte is the one of the last chunk in range that covers it, or was there before. */
  lemma {:induction false} LastChunkWins(temp: seq<byte>, cs: seq<Chunk>, p: nat, last: nat)
    requires p < |temp| && last <= |cs|
    requires forall i :: last < i < |cs| ==> !Covers(|temp|, cs[i], p)
    requires last < |cs| ==> Covers(|temp|, cs[last], p)
    requires last == |cs| ==> forall i :: 0 <= i < |cs| ==> !Covers(|temp|, cs[i], p)
    ensures PatchAll(temp, cs)[p] == if last < |cs| then cs[last].data[p - cs[last].offset] else temp[p]
  {
    var n := |cs|;
    if n > 0 && last != n - 1 {
      assert !Covers(|temp|, cs[n - 1], p);
      LastChunkWins(temp, cs[..n - 1], p, if last == n then n - 1 else last);
    }
  }

  /** The chunk is a slice of the image. */
  predicate SliceOf(image: seq<byte>, c: Chunk) {
    InRange(|image|, c) ==> c.data == image[c.offset..c.offset + |c.data|]
  }

  /** Byte p of the image was there before or is sent by some chunk. */
  ghost predicate Sent(temp: seq<byte>, cs: seq<Chunk>, image: seq<byte>, p: nat)
    requires p < |temp| == |image|
  {
    temp[p] == image[p] || exists i :: 0 <= i < |cs| && Covers(|image|, cs[i], p)
  }

  /**
   Chunks cut from an image rebuild it as soon as every byte has been sent once:
   in any order, repeated, overlapping, and with out-of-range chunks among them.
   */
  lemma SlicesRebuildTheImage(temp: seq<byte>, cs: seq<Chunk>, image: seq<byte>)
    requires |temp| == |image|
    requires forall i :: 0 <= i < |cs| ==> SliceOf(image, cs[i])
    requires forall p :: 0 <= p < |image| ==> Sent(temp, cs, image, p)
    ensures PatchAll(temp, cs) == image
  {
    forall p | 0 <= p < |image| ensures PatchAll(temp, cs)[p] == image[p] {
      SliceByte(temp, cs, image, p);
    }
  }

  lemma SliceByte(temp: seq<byte>, cs: seq<Chunk>, image: seq<byte>, p: nat)
    requires p < |temp| == |image| && Sent(temp, cs, image, p)
    requires forall i :: 0 <= i < |cs| ==> SliceOf(image, cs[i])
    ensures PatchAll(temp, cs)[p] == image[p]
  {
    var last := LastCover(|image|, cs, p);
    LastChunkWins(temp, cs, p, last);
    hide PatchAll;
    if last < |cs| { assert SliceOf(image, cs[last]); }
  }

  lemma {:induction false} LastCover(size: nat, cs: seq<Chunk>, p: nat) returns (last: nat)
    ensures last <= |cs|
    ensures forall i :: last < i < |cs| ==> !Covers(size, cs[i], p)
    ensures last < |cs| ==> Covers(size, cs[last], p)
    ensures last == |cs| ==> forall i :: 0 <= i < |cs| ==> !Covers(size, cs[i], p)
  {
    var n := |cs|;
    if n == 0 {
      last := 0;
    } else if Covers(size, cs[n - 1], p) {
      last := n - 1;
    } else {
      last := LastCover(size, cs[..n - 1], p);
      if last == n - 1 { last := n; }
    }
  }

  // ----- the actions of the user-app thread

  datatype Action =
    | EraseFile
    | BeginWrite
    | WriteChunk(chunk: Chunk)
    | Commit(crc: Crc)
    | RunImage(crc: Crc)
    | Other                          // notifications and settings: nothing of the app changes

  /** What the actions work on: the temporary buffer, RAM and the file. */
  datatype Machine = Machine(temp: seq<byte>, ram: seq<byte>, file: Flash)

  predicate Sized(g: Geometry, m: Machine) {
    g.maxRecord > 0 && |m.temp| == |m.ram| == g.size
  }

  /** Only a commit or run request whose CRC matches the buffer reaches RAM. */
  predicate Matches(m: Machine, a: Action, crc16: seq<byte> -> Crc) {
    (a.Commit? || a.RunImage?) && crc16(m.temp) == a.crc
  }

  /** The effect of one action; `ops` record operations (or file deletions) of it complete. */
  function AfterAction(g: Geometry, m: Machine, a: Action, ops: nat, crc16: seq<byte> -> Crc): (m': Machine)
    requires Sized(g, m)
    ensures Sized(g, m')
  {
    match a
    case EraseFile => if ops > 0 then m.(file := map[]) else m
    case BeginWrite => m.(temp := Zeros(g.size))
    case WriteChunk(c) => m.(temp := Patch(m.temp, c))
    case Commit(crc) =>
      if Matches(m, a, crc16) then m.(ram := m.temp, file := SaveAfter(g, m.file, m.temp, crc, ops).file) else m
    case RunImage(_) => if Matches(m, a, crc16) then m.(ram := m.temp) else m
    case Other => m
  }

  function AfterAll(g: Geometry, m: Machine, acts: seq<Action>, ops: seq<nat>, crc16: seq<byte> -> Crc): (m': Machine)
    requires Sized(g, m) && |ops| == |acts|
    ensures Sized(g, m')
  {
    var n := |acts|;
    if n == 0 then m
    else AfterAction(g, AfterAll(g, m, acts[..n - 1], ops[..n - 1], crc16), acts[n - 1], ops[n - 1], crc16)
  }

  /** The flash operations of the action all completed. */
  predicate Completes(g: Geometry, m: Machine, a: Action, ops: nat, crc16: seq<byte> -> Crc)
    requires Sized(g, m)
  {
    && (a.EraseFile? ==> ops > 0)
    && (a.Commit? && Matches(m, a, crc16) ==> SaveAfter(g, m.file, m.temp, a.crc, ops).pc.Finished?)
  }

  predicate AllComplete(g: Geometry, m: Machine, acts: seq<Action>, ops: seq<nat>, crc16: seq<byte> -> Crc)
    requires Sized(g, m) && |ops| == |acts|
  {
    var n := |acts|;
    n > 0 ==>
      && AllComplete(g, m, acts[..n - 1], ops[..n - 1], crc16)
      && Completes(g, AfterAll(g, m, acts[..n - 1], ops[..n - 1], crc16), acts[n - 1], ops[n - 1], crc16)
  }

  lemma OneMore(g: Geometry, m: Machine, acts: seq<Action>, ops: seq<nat>, op: nat, crc16: seq<byte> -> Crc)
    requires Sized(g, m) && |ops| < |acts|
    ensures var n, before := |ops|, AfterAll(g, m, acts[..|ops|], ops, crc16);
            && AfterAll(g, m, acts[..n + 1], ops + [op], crc16) == AfterAction(g, before, acts[n], op, crc16)
            && (AllComplete(g, m, acts[..n + 1], ops + [op], crc16) <==>
                  AllComplete(g, m, acts[..n], ops, crc16) && Completes(g, before, acts[n], op, crc16))
  {
    var n := |ops|;
    assert acts[..n + 1][..n] == acts[..n] && (ops + [op])[..n] == ops;
  }

  /** No action, cut off anywhere, leaves a file that the others cannot use. */
  lemma {:induction false} ActionsKeepTheFile(g: Geometry, m: Machine, acts: seq<Action>, ops: seq<nat>,
                                              crc16: seq<byte> -> Crc)
    requires Sane(g) && Sized(g, m) && |ops| == |acts| && Fits(g, m.file)
    ensures Fits(g, AfterAll(g, m, acts, ops, crc16).file)
  {
    var n := |acts|;
    if n > 0 {
      ActionsKeepTheFile(g, m, acts[..n - 1], ops[..n - 1], crc16);
      var m', a := AfterAll(g, m, acts[..n - 1], ops[..n - 1], crc16), acts[n - 1];
      EmptyFits(g);
      if a.Commit? { SaveLeaves(g, m'.file, m'.temp, a.crc, ops[n - 1]); }
    }
  }

  /** The actions of one upload before the commit. */
  function Writes(cs: seq<Chunk>): (acts: seq<Action>)
    ensures |acts| == |cs| + 1
  {
    [BeginWrite] + seq(|cs|, i requires 0 <= i < |cs| => WriteChunk(cs[i]))
  }

  lemma {:induction false} WritesPatch(g: Geometry, m: Machine, cs: seq<Chunk>, ops: seq<nat>, crc16: seq<byte> -> Crc)
    requires Sized(g, m) && |ops| == |cs| + 1
    ensures AfterAll(g, m, Writes(cs), ops, crc16) == m.(temp := PatchAll(Zeros(g.size), cs))
  {
    var acts := Writes(cs);
    if cs == [] {
      assert acts == [BeginWrite];
      assert AfterAll(g, m, acts[..0], ops[..0], crc16) == m;
    } else {
      var n := |cs|;
      WritesPatch(g, m, cs[..n - 1], ops[..n], crc16);
      assert acts[..|acts| - 1] == Writes(cs[..n - 1]);
    }
  }

  function Upload(cs: seq<Chunk>, crc: Crc): seq<Action> {
    Writes(cs) + [Commit(crc)]
  }

  /**
   Upload, end to end, from any well-formed file: begin_write, then any chunks,
   then commit with the CRC of the image that the chunks leave on a zeroed buffer.
   The image is then in RAM; if the save completes, as it does when no flash
   operation fails, a boot load into any RAM recovers the image.
   */
  lemma UploadEndToEnd(g: Geometry, m: Machine, cs: seq<Chunk>, ops: seq<nat>, image: seq<byte>,
                       crc16: seq<byte> -> Crc, bootRam: seq<byte>)
    requires Sane(g) && Sized(g, m) && Fits(g, m.file) && |bootRam| == g.size >= 4 && |ops| == |cs| + 2
    requires PatchAll(Zeros(g.size), cs) == image
    ensures var m' := AfterAll(g, m, Upload(cs, crc16(image)), ops, crc16);
            var save := SaveAfter(g, m.file, image, crc16(image), ops[|cs| + 1]);
            && m' == Machine(image, image, save.file) && Fits(g, m'.file)
            && (save.pc.Finished? ==>
                  LoadOutcome(g, m'.file, bootRam, crc16).Loaded? && LoadedRam(g, m'.file, bootRam) == image)
            && (AllComplete(g, m, Upload(cs, crc16(image)), ops, crc16) ==> save.pc.Finished?)
  {
    hide AfterAll, AfterAction, AllComplete, Completes, PatchAll, LoadOutcome, LoadedRam;
    UploadRuns(g, m, cs, ops, image, crc16);
    CommitDoes(g, m.(temp := image), ops[|cs| + 1], crc16);
    SavedImageLoads(g, m.file, image, ops[|cs| + 1], crc16, bootRam);
  }

  /** The same for an image cut into slices that together send every byte that is not zero. */
  lemma SlicesEndToEnd(g: Geometry, m: Machine, cs: seq<Chunk>, ops: seq<nat>, image: seq<byte>,
                       crc16: seq<byte> -> Crc, bootRam: seq<byte>)
    requires Sane(g) && Sized(g, m) && Fits(g, m.file) && |image| == |bootRam| == g.size >= 4 && |ops| == |cs| + 2
    requires forall i :: 0 <= i < |cs| ==> SliceOf(image, cs[i])
    requires forall p :: 0 <= p < |image| ==> Sent(Zeros(g.size), cs, image, p)
    requires AllComplete(g, m, Upload(cs, crc16(image)), ops, crc16)
    ensures var m' := AfterAll(g, m, Upload(cs, crc16(image)), ops, crc16);
            && m'.temp == m'.ram == image && Fits(g, m'.file)
            && LoadOutcome(g, m'.file, bootRam, crc16).Loaded? && LoadedRam(g, m'.file, bootRam) == image
  {
    SlicesRebuildTheImage(Zeros(g.size), cs, image);
    hide *;
    UploadEndToEnd(g, m, cs, ops, image, crc16, bootRam);
  }

  /** The same for an image sent in consecutive pieces of any lengths. */
  lemma PiecesEndToEnd(g: Geometry, m: Machine, pieces: seq<seq<byte>>, ops: seq<nat>,
                       crc16: seq<byte> -> Crc, bootRam: seq<byte>)
    requires Sane(g) && Sized(g, m) && Fits(g, m.file) && |bootRam| == g.size >= 4
    requires |Concat(pieces)| == g.size && |ops| == |pieces| + 2
    requires AllComplete(g, m, Upload(Cut(pieces), crc16(Concat(pieces))), ops, crc16)
    ensures var image := Concat(pieces);
            var m' := AfterAll(g, m, Upload(Cut(pieces), crc16(image)), ops, crc16);
            && m'.temp == m'.ram == image && Fits(g, m'.file)
            && LoadOutcome(g, m'.file, bootRam, crc16).Loaded? && LoadedRam(g, m'.file, bootRam) == image
  {
    PiecesRebuildTheImage(pieces);
    hide *;
    UploadEndToEnd(g, m, Cut(pieces), ops, Concat(pieces), crc16, bootRam);
  }

  /** A run request that matches puts the image into RAM and leaves the file alone. */
  lemma UploadAndRun(g: Geometry, m: Machine, cs: seq<Chunk>, ops: seq<nat>, image: seq<byte>, crc16: seq<byte> -> Crc)
    requires Sized(g, m) && |ops| == |cs| + 2 && PatchAll(Zeros(g.size), cs) == image
    ensures AfterAll(g, m, Writes(cs) + [RunImage(crc16(image))], ops, crc16) == Machine(image, image, m.file)
  {
    hide AfterAll, AllComplete, Writes, PatchAll;
    var acts := Writes(cs) + [RunImage(crc16(image))];
    WritesPatch(g, m, cs, ops[..|cs| + 1], crc16);
    assert acts[..|acts| - 1] == Writes(cs);
    LastAction(g, m, acts, ops, crc16, m.(temp := image));
  }

  /** A commit or run request with another CRC does nothing at all. */
  lemma WrongCrcIsRefused(g: Geometry, m: Machine, a: Action, ops: nat, crc16: seq<byte> -> Crc)
    requires Sized(g, m) && (a.Commit? || a.RunImage?) && a.crc != crc16(m.temp)
    ensures AfterAction(g, m, a, ops, crc16) == m
  {
  }

  lemma CommitDoes(g: Geometry, m: Machine, ops: nat, crc16: seq<byte> -> Crc)
    requires Sized(g, m)
    ensures var a, save := Commit(crc16(m.temp)), SaveAfter(g, m.file, m.temp, crc16(m.temp), ops);
            && AfterAction(g, m, a, ops, crc16) == Machine(m.temp, m.temp, save.file)
            && (Completes(g, m, a, ops, crc16) <==> save.pc.Finished?)
  {
  }

  lemma UploadRuns(g: Geometry, m: Machine, cs: seq<Chunk>, ops: seq<nat>, image: seq<byte>, crc16: seq<byte> -> Crc)
    requires Sized(g, m) && |ops| == |cs| + 2 && PatchAll(Zeros(g.size), cs) == image
    ensures var acts, before, op := Upload(cs, crc16(image)), m.(temp := image), ops[|cs| + 1];
            && AfterAll(g, m, acts, ops, crc16) == AfterAction(g, before, Commit(crc16(image)), op, crc16)
            && (AllComplete(g, m, acts, ops, crc16) ==> Completes(g, before, Commit(crc16(image)), op, crc16))
  {
    var acts := Upload(cs, crc16(image));
    WritesPatch(g, m, cs, ops[..|cs| + 1], crc16);
    assert acts[..|acts| - 1] == Writes(cs);
    LastAction(g, m, acts, ops, crc16, m.(temp := image));
    hide AfterAll, AllComplete, AfterAction, Completes, Writes, PatchAll;
  }

  lemma LastAction(g: Geometry, m: Machine, acts: seq<Action>, ops: seq<nat>, crc16: seq<byte> -> Crc, before: Machine)
    requires Sized(g, m) && |ops| == |acts| > 0
    requires AfterAll(g, m, acts[..|acts| - 1], ops[..|acts| - 1], crc16) == before
    ensures Sized(g, before)
    ensures AfterAll(g, m, acts, ops, crc16) == AfterAction(g, before, acts[|acts| - 1], ops[|acts| - 1], crc16)
    ensures AllComplete(g, m, acts, ops, crc16) ==> Completes(g, before, acts[|acts| - 1], ops[|acts| - 1], crc16)
  {
  }
}
