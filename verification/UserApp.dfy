/** The user-app store (src/core/userapp.cc) and the actions of its thread, in place. */
module UserApp {
  import opened Wrappers
  import opened AppFlash
  import opened AppUpload
  import AppQueue

  datatype AppState = Uninitialized | LoadingUserApp | UserAppLoaded

  datatype StorageState = Unknown | Empty | StoringUserApp | UserAppStored

  /** The result of one flash operation: done, refused with an error code, or power lost before it. */
  datatype Io = Good | Bad | Cut

  datatype WriteResult = Accepted | InvalidLength

  /** What the firmware reports about itself. */
  datatype Status = Status(app: AppState, storage: StorageState)

  /** The status after an action; a save that a power failure cuts off ends in `StoringUserApp` instead. */
  function StatusAfter(g: Geometry, m: Machine, a: Action, ops: nat, crc16: seq<byte> -> Crc, st: Status): Status
    requires Sized(g, m)
  {
    var app := if Matches(m, a, crc16) then UserAppLoaded else st.app;
    var storage :=
      if a.EraseFile? && ops > 0 then Empty
      else if a.Commit? && Matches(m, a, crc16) && SaveAfter(g, m.file, m.temp, a.crc, ops).pc.Finished? then
        UserAppStored
      else st.storage;
    Status(app, storage)
  }

  /** A commit or run request with the CRC of the buffer loads it and says so; nothing else touches RAM or says so. */
  lemma MatchingRequestsLoad(g: Geometry, m: Machine, a: Action, ops: nat, crc16: seq<byte> -> Crc, st: Status)
    requires Sized(g, m)
    ensures var m', st' := AfterAction(g, m, a, ops, crc16), StatusAfter(g, m, a, ops, crc16, st);
            if (a.Commit? || a.RunImage?) && a.crc == crc16(m.temp) then m'.ram == m.temp && st'.app == UserAppLoaded
            else m'.ram == m.ram && st'.app == st.app
  {
  }

  function StatusAfterAll(g: Geometry, m: Machine, acts: seq<Action>, ops: seq<nat>,
                          crc16: seq<byte> -> Crc, st: Status): Status
    requires Sized(g, m) && |ops| == |acts|
  {
    var n := |acts|;
    if n == 0 then st
    else
      var before := AfterAll(g, m, acts[..n - 1], ops[..n - 1], crc16);
      StatusAfter(g, before, acts[n - 1], ops[n - 1], crc16,
                  StatusAfterAll(g, m, acts[..n - 1], ops[..n - 1], crc16, st))
  }

  lemma OneMoreStatus(g: Geometry, m: Machine, acts: seq<Action>, ops: seq<nat>, op: nat,
                      crc16: seq<byte> -> Crc, st: Status)
    requires Sized(g, m) && |ops| < |acts|
    ensures var n := |ops|;
            StatusAfterAll(g, m, acts[..n + 1], ops + [op], crc16, st) ==
            StatusAfter(g, AfterAll(g, m, acts[..n], ops, crc16), acts[n], op, crc16,
                        StatusAfterAll(g, m, acts[..n], ops, crc16, st))
  {
    var n := |ops|;
    assert acts[..n + 1][..n] == acts[..n] && (ops + [op])[..n] == ops;
  }

  /** What init() finds in a file. */
  function Found(f: Flash): StorageState {
    if f == map[] then Empty else UserAppStored
  }

  /** A save into an empty file that stores something and then stops. */
  predicate Misleads(g: Geometry, m: Machine, a: Action, ops: nat, crc16: seq<byte> -> Crc)
    requires Sized(g, m)
  {
    && a.Commit? && Matches(m, a, crc16) && m.file == map[] && ops > 0
    && !SaveAfter(g, m.file, m.temp, a.crc, ops).pc.Finished?
  }

  /** After an action the storage state is the one a restart would find, except after just such a save. */
  lemma StorageTellsTheFile(g: Geometry, m: Machine, a: Action, ops: nat, crc16: seq<byte> -> Crc, st: Status)
    requires Sized(g, m) && st.storage == Found(m.file)
    ensures StatusAfter(g, m, a, ops, crc16, st).storage == Found(AfterAction(g, m, a, ops, crc16).file)
            <==> !Misleads(g, m, a, ops, crc16)
  {
    if a.Commit? { SaveKeepsKeys(g, m.file, m.temp, a.crc, ops); }
  }

  /** While no flash operation fails, it always is. */
  lemma {:induction false} StorageStaysTrue(g: Geometry, m: Machine, acts: seq<Action>, ops: seq<nat>,
                                            crc16: seq<byte> -> Crc, st: Status)
    requires Sized(g, m) && |ops| == |acts| && st.storage == Found(m.file) && AllComplete(g, m, acts, ops, crc16)
    ensures StatusAfterAll(g, m, acts, ops, crc16, st).storage == Found(AfterAll(g, m, acts, ops, crc16).file)
  {
    hide AfterAction, StatusAfter;
    var n := |acts|;
    if n > 0 {
      StorageStaysTrue(g, m, acts[..n - 1], ops[..n - 1], crc16, st);
      StorageTellsTheFile(g, AfterAll(g, m, acts[..n - 1], ops[..n - 1], crc16), acts[n - 1], ops[n - 1], crc16,
                          StatusAfterAll(g, m, acts[..n - 1], ops[..n - 1], crc16, st));
    }
  }

  class Store {
    const g: Geometry
    const crc16: seq<byte> -> Crc          // crc16_compute, left uninterpreted
    const temp: array<byte>                // m_temp_buf
    const ram: array<byte>                 // USERCODE_BUFFER
    var flash: Flash
    var appState: AppState
    var storageState: StorageState

    ghost predicate Valid()
      reads this
    {
      && Sane(g) && g.size >= 4
      && temp.Length == ram.Length == g.size && temp != ram
      && Fits(g, flash)
    }

    /** What the actions work on. */
    function Abs(): Machine
      reads this, temp, ram
    {
      Machine(temp[..], ram[..], flash)
    }

    function GetStatus(): Status
      reads this
    {
      Status(appState, storageState)
    }

    /** userapp::init() with the image that the firmware carries in m_temp_buf. */
    constructor (g: Geometry, crc16: seq<byte> -> Crc, file: Flash, default: seq<byte>)
      requires Sane(g) && Fits(g, file) && |default| == g.size >= 4
      ensures Valid() && fresh(temp) && fresh(ram)
      ensures this.g == g && this.crc16 == crc16 && flash == file
      ensures temp[..] == default && ram[..] == Zeros(g.size)
      ensures appState.Uninitialized? && storageState == Found(file)
    {
      this.g, this.crc16, flash := g, crc16, file;
      temp := new byte[g.size](i requires 0 <= i < g.size => default[i]);
      ram := new byte[g.size](_ => 0);
      appState := Uninitialized;
      storageState := Found(file);
      new;
      assert temp[..] == default;
      assert ram[..] == Zeros(g.size);
    }

    /** memcpy of n bytes. */
    static method Copy(src: seq<byte>, dst: array<byte>, offset: nat)
      requires offset + |src| <= dst.Length
      modifies dst
      ensures dst[..] == old(dst[..offset]) + src + old(dst[offset + |src|..])
    {
      for i := 0 to |src|
        invariant dst[..offset] == old(dst[..offset])
        invariant dst[offset..offset + i] == src[..i]
        invariant dst[offset + i..] == old(dst[offset + i..])
      {
        dst[offset + i] := src[i];
      }
    }

    method ClearTempbuf()
      requires Valid()
      modifies temp
      ensures temp[..] == Zeros(g.size)
    {
      Copy(Zeros(g.size), temp, 0);
    }

    method WriteTempbuf(c: Chunk) returns (ret: WriteResult)
      requires Valid()
      modifies temp
      ensures ret.Accepted? <==> c.offset + |c.data| <= g.size
      ensures forall p :: 0 <= p < g.size ==>
                temp[p] ==
                  if ret.Accepted? && c.offset <= p < c.offset + |c.data| then c.data[p - c.offset] else old(temp[p])
      ensures temp[..] == Patch(old(temp[..]), c)
    {
      if c.offset + |c.data| > temp.Length {
        return InvalidLength;
      }
      Copy(c.data, temp, c.offset);
      ret := Accepted;
    }

    method LoadFromTempbuf()
      requires Valid()
      modifies this`appState, ram
      ensures Valid() && appState.UserAppLoaded?
      ensures ram[..] == temp[..]
    {
      appState := LoadingUserApp;
      Copy(temp[..], ram, 0);
      appState := UserAppLoaded;
    }

    /** The records before `id` have been copied over what was in RAM. */
    ghost predicate Copied(before: seq<byte>, id: nat, offset: nat)
      reads this, ram
      requires Valid() && |before| == g.size
    {
      && id <= RecordCount(g, flash) && HasCode(flash, id) && offset == |Joined(flash, id)| <= g.size
      && ram[..] == CopiedOver(Joined(flash, id), before)
    }

    lemma CopyBegins()
      requires Valid()
      ensures Copied(ram[..], 0, 0) && FrontCopied(g, flash, ram[..], ram[..])
    {
      NextRecord(g, flash, RecordCount(g, flash), 0);
      assert CopiedOver(Joined(flash, 0), ram[..]) == ram[..];
    }

    lemma CopyEnds(before: seq<byte>, id: nat, offset: nat)
      requires Valid() && |before| == g.size && Copied(before, id, offset) && Key(id) !in flash
      ensures ram[..] == CopiedOver(CodeBytes(g, flash), before)
    {
      NextRecord(g, flash, RecordCount(g, flash), id);
    }

    method CopyRecord(id: nat, offset: nat, ghost before: seq<byte>) returns (offset': nat)
      requires Valid() && |before| == g.size && Copied(before, id, offset) && Key(id) in flash
      modifies ram
      ensures Copied(before, id + 1, offset') && FrontCopied(g, flash, before, ram[..])
      ensures id < RecordCount(g, flash)
    {
      NextRecord(g, flash, RecordCount(g, flash), id);
      CopyNext(Joined(flash, id), flash[Key(id)], before);
      hide CopiedOver, Fits, FitsAt, Sane;
      Copy(flash[Key(id)], ram, offset);
      offset' := offset + |flash[Key(id)]|;
    }

    /** Copies the records, from the first on, over RAM. */
    method CopyRecords(io: nat -> bool) returns (ok: bool, calls: nat)
      requires Valid()
      modifies ram
      ensures ok ==> ram[..] == CopiedOver(CodeBytes(g, flash), old(ram[..]))
      ensures !ok ==> FrontCopied(g, flash, old(ram[..]), ram[..]) && exists c :: !io(c)
    {
      hide Copied, CopiedOver, FrontCopied, Fits, Chunks;
      ghost var before := ram[..];
      CopyBegins();
      var id, offset := 0, 0;
      calls := 0;
      while true
        invariant Copied(before, id, offset) && FrontCopied(g, flash, before, ram[..])
        decreases RecordCount(g, flash) - id
      {
        if !io(calls) { return false, calls; }                           // find
        if Key(id) !in flash { break; }
        if !io(calls + 1) { return false, calls; }                       // open
        offset := CopyRecord(id, offset, before);
        id := id + 1;
        if !io(calls + 2) { return false, calls; }                       // close
        calls := calls + 3;
      }
      CopyEnds(before, id, offset);
      ok := true;
    }

    /**
     Copies the records over RAM and checks the CRC.  Any failure restores the
     application state, whatever has been copied by then.
     */
    method LoadFromFlash(io: nat -> bool) returns (ret: LoadResult)
      requires Valid()
      modifies this`appState, ram
      ensures Valid()
      ensures ret.NothingStored? <==> !storageState.UserAppStored?
      ensures ret.NothingStored? ==> ram[..] == old(ram[..])
      ensures ret.Loaded? ==> appState.UserAppLoaded? && LoadOutcome(g, flash, old(ram[..]), crc16).Loaded?
      ensures !ret.Loaded? ==> appState == old(appState)
      ensures ret.ReadError? ==> FrontCopied(g, flash, ZeroHead(old(ram[..])), ram[..])
      ensures ret.Loaded? || ret.MissingCrc? || ret.InvalidCrc? ==> ram[..] == LoadedRam(g, flash, old(ram[..]))
      ensures storageState.UserAppStored? && (forall c :: io(c)) ==> ret == LoadOutcome(g, flash, old(ram[..]), crc16)
      ensures ret.MissingCrc? ==> CRC_KEY !in flash
      ensures ret.Loaded? || ret.InvalidCrc? ==>
                CRC_KEY in flash && (ret.Loaded? <==> Word(flash[CRC_KEY]) == crc16(ram[..]))
    {
      if !storageState.UserAppStored? {
        return NothingStored;
      }
      var oldState := appState;
      appState := LoadingUserApp;
      Copy([0, 0, 0, 0], ram, 0);
      assert ram[..] == ZeroHead(old(ram[..]));
      var ok, calls := CopyRecords(io);
      if !ok { appState := oldState; return ReadError; }
      if CRC_KEY !in flash {
        appState := oldState;
        return MissingCrc;
      }
      if !io(calls + 1) || !io(calls + 2) {
        appState := oldState;
        return ReadError;
      }
      if Word(flash[CRC_KEY]) != crc16(ram[..]) {
        appState := oldState;
        return InvalidCrc;
      }
      appState := UserAppLoaded;
      return Loaded;
    }

    /** An operation that did not succeed was one of these. */
    static ghost predicate EndsAs(io: nat -> Io, end: Io) {
      end.Good? || exists c :: io(c) == end
    }

    static ghost predicate AllGood(io: nat -> Io, from: nat, n: nat) {
      forall c :: from <= c < from + n ==> io(c).Good?
    }

    /** Flash operations in turn, up to the first that fails. */
    static method InTurn(io: nat -> Io, from: nat, n: nat) returns (end: Io)
      ensures end.Good? <==> AllGood(io, from, n)
      ensures EndsAs(io, end)
    {
      end := Good;
      for i := 0 to n
        invariant end.Good? && AllGood(io, from, i)
      {
        end := io(from + i);
        if !end.Good? { return; }
      }
    }

    /** The save of the buffer over the file `before` has come to record `id` of the first loop. */
    ghost predicate InFirstLoop(before: Flash, crc: Crc, steps: nat, id: nat, offset: nat)
      reads this, temp
    {
      && Sane(g) && temp.Length == g.size && Fits(g, before)
      && SaveAfter(g, before, temp[..], crc, steps) == Saving(flash, Updating(id, offset))
    }

    /** Replaces record `id`, if there is one, keeping its length, by the buffer's bytes at `offset`. */
    method UpdateRecord(io: nat -> Io, calls: nat, id: nat, offset: nat,
                        ghost crc: Crc, ghost before: Flash, ghost steps: nat)
        returns (end: Io, found: bool, length: nat)
      requires InFirstLoop(before, crc, steps, id, offset) && offset < g.size
      modifies this`flash
      ensures found ==> steps < CODE_KEYS
      ensures end.Good? && found ==> InFirstLoop(before, crc, steps + 1, id + 1, offset + length)
      ensures end.Good? && !found ==> Key(id) !in flash
      ensures EndsAs(io, end) && (!end.Good? || !found ==> flash == old(flash))
    {
      hide SaveAfter, Fits, EndsAs, AllGood;
      found, length := false, 0;
      end := InTurn(io, calls, 1);                                         // find
      if !end.Good? || Key(id) !in flash { return; }
      NextUpdate(g, before, temp[..], crc, steps, flash, id, offset);
      found, length := true, |flash[Key(id)]|;
      end := InTurn(io, calls + 1, 3);                                     // open, close, update
      if end.Good? {
        flash := flash[Key(id) := temp[offset..offset + length]];
      }
    }

    /** First loop of the save: update the records that exist. */
    method UpdateRecords(io: nat -> Io, ghost crc: Crc)
        returns (end: Io, calls: nat, id: nat, offset: nat, ghost steps: nat)
      requires Valid()
      modifies this`flash
      ensures InFirstLoop(old(flash), crc, steps, id, offset)
      ensures end.Good? ==> offset >= g.size || Key(id) !in flash
      ensures EndsAs(io, end)
    {
      assert EndsAs(io, Good);
      end, calls, id, offset, steps := Good, 0, 0, 0, 0;
      SaveStarts(g, flash, temp[..], crc);
      assert InFirstLoop(flash, crc, 0, 0, 0);
      hide EndsAs, Valid, InFirstLoop;
      while offset < g.size
        invariant InFirstLoop(old(flash), crc, steps, id, offset)
        invariant end.Good?
        decreases CODE_KEYS - steps
      {
        var found, length;
        end, found, length := UpdateRecord(io, calls, id, offset, crc, old(flash), steps);
        if !end.Good? || !found { return; }
        offset, id, steps := offset + length, id + 1, steps + 1;
        calls := calls + 4;
      }
    }

    /** Second loop of the save: new records for the remainder. */
    method CreateRecords(io: nat -> Io, calls: nat, id: nat, offset: nat,
                         ghost crc: Crc, ghost before: Flash, ghost from: nat)
        returns (end: Io, calls': nat, ghost steps: nat)
      requires Sane(g) && temp.Length == g.size && Fits(g, before)
      requires SaveAfter(g, before, temp[..], crc, from) == Saving(flash, Updating(id, offset))
      requires offset >= g.size || Key(id) !in flash
      modifies this`flash
      ensures SaveAfter(g, before, temp[..], crc, steps).file == flash
      ensures var pc := SaveAfter(g, before, temp[..], crc, steps).pc;
              (pc.Updating? || pc.Appending?) && (end.Good? ==> pc.offset >= g.size)
      ensures EndsAs(io, end)
    {
      hide SaveAfter, Fits, FitsAt;
      calls', steps := calls, from;
      var at, next := offset, id;
      while at < g.size
        invariant SaveAfter(g, before, temp[..], crc, steps) ==
                  Saving(flash, if steps == from then Updating(next, at) else Appending(next, at))
        invariant steps == from ==> at >= g.size || Key(next) !in flash
        decreases g.size - at
      {
        var length := Min(g.maxRecord, g.size - at);
        end := io(calls');                                                 // write
        if !end.Good? { return; }
        SaveGoesOn(g, before, temp[..], crc, steps);
        flash := flash[Key(next) := temp[..][at..at + length]];
        at, next, steps := at + length, next + 1, steps + 1;
        calls' := calls' + 1;
      }
      end := Good;
    }

    /** Both loops. */
    method StoreRecords(io: nat -> Io, ghost crc: Crc) returns (end: Io, calls: nat, ghost steps: nat)
      requires Valid()
      modifies this`flash
      ensures SaveAfter(g, old(flash), temp[..], crc, steps).file == flash
      ensures var pc := SaveAfter(g, old(flash), temp[..], crc, steps).pc;
              (pc.Updating? || pc.Appending?) && (end.Good? ==> pc.offset >= g.size)
      ensures EndsAs(io, end)
    {
      hide SaveAfter, Fits, EndsAs;
      var id, offset;
      end, calls, id, offset, steps := UpdateRecords(io, crc);
      if end.Good? {
        end, calls, steps := CreateRecords(io, calls, id, offset, crc, old(flash), steps);
      }
    }

    /**
     Updates the records that exist, adds records for the rest, then writes the
     CRC.  It ends after `steps` record operations of the save, and reports success
     exactly when that is all of them.
     */
    method SaveTempbufToFlash(crc: Crc, io: nat -> Io) returns (ret: SaveResult, ghost steps: nat)
      requires Valid()
      modifies this`flash, this`storageState
      ensures Valid()
      ensures flash == SaveAfter(g, old(flash), temp[..], crc, steps).file
      ensures ret.Saved? <==> SaveAfter(g, old(flash), temp[..], crc, steps).pc.Finished?
      ensures ret.Saved? ==> storageState.UserAppStored?
      ensures ret.SaveFailed? ==> storageState == old(storageState)
      ensures ret.PowerLost? ==> storageState.StoringUserApp?
      ensures (forall c :: io(c).Good?) ==> ret.Saved?
      ensures ret.PowerLost? ==> exists c :: io(c).Cut?
    {
      hide SaveAfter, Fits, FitsAt;
      var oldState := storageState;
      storageState := StoringUserApp;
      var end, calls;
      end, calls, steps := StoreRecords(io, crc);
      if end.Good? {
        end := io(calls);                                                  // write or update the CRC record
      }
      match end {
        case Cut =>
          ret := PowerLost;
        case Bad =>
          storageState := oldState;
          ret := SaveFailed;
        case Good =>
          SaveGoesOn(g, old(flash), temp[..], crc, steps);
          flash := flash[CRC_KEY := Le32(crc)];
          steps := steps + 1;
          storageState := UserAppStored;
          ret := Saved;
      }
      assert Fits(g, flash) by { SaveLeaves(g, old(flash), temp[..], crc, steps); }
    }

    /** fds_file_delete: refused, or carried out with its completion event. */
    method Erase(io: Io) returns (ok: bool)
      requires Valid()
      modifies this`flash, this`storageState
      ensures Valid() && ok == io.Good?
      ensures flash == if ok then map[] else old(flash)
      ensures storageState == if ok then Empty else old(storageState)
    {
      if !io.Good? { return false; }
      EmptyFits(g);
      flash, storageState := map[], Empty;
      return true;
    }

    /** One iteration of the user-app thread's loop; `ops` of its flash operations completed. */
    method Process(a: Action, io: nat -> Io) returns (save: Option<SaveResult>, ghost ops: nat)
      requires Valid()
      modifies this`flash, this`storageState, this`appState, temp, ram
      ensures Valid()
      ensures Abs() == AfterAction(g, old(Abs()), a, ops, crc16)
      ensures save.Some? <==> a.Commit? && Matches(old(Abs()), a, crc16)
      ensures save.Some? ==> (save.value.Saved? <==> SaveAfter(g, old(flash), old(temp[..]), a.crc, ops).pc.Finished?)
      ensures save == Some(PowerLost) ==> exists c :: io(c).Cut?
      ensures var st := StatusAfter(g, old(Abs()), a, ops, crc16, old(GetStatus()));
              GetStatus() == if save == Some(PowerLost) then st.(storage := StoringUserApp) else st
      ensures (forall c :: io(c).Good?) ==> Completes(g, old(Abs()), a, ops, crc16)
    {
      save, ops := None, 0;
      match a {
        case EraseFile =>
          var ok := Erase(io(0));
          ops := if ok then 1 else 0;
        case BeginWrite => ClearTempbuf();
        case WriteChunk(c) => var ret := WriteTempbuf(c);
        case Commit(crc) =>
          if crc16(temp[..]) == crc {
            LoadFromTempbuf();
            var r;
            r, ops := SaveTempbufToFlash(crc, io);
            save := Some(r);
          }
        case RunImage(crc) =>
          if crc16(temp[..]) == crc {
            LoadFromTempbuf();
          }
        case Other =>
      }
    }

    static lemma First(acts: seq<Action>, k: nat, a: Action, rest: seq<Action>)
      requires k <= |acts| && [a] + rest == acts[k..]
      ensures k < |acts| && a == acts[k] && rest == acts[k + 1..]
    {
      assert rest == acts[k..][1..];
    }

    /**
     The thread's loop until the queue is empty or power is lost: what it did is
     the effect of the actions that were queued, in their order.
     */
    method Serve(q: AppQueue.ActionQueue, io: (nat, nat) -> Io) returns (powered: bool, ghost ops: seq<nat>)
      requires Valid() && q.Valid()
      modifies this`flash, this`storageState, this`appState, temp, ram, q
      ensures Valid() && q.Valid()
      ensures |ops| <= |old(q.Pending())| && q.Pending() == old(q.Pending())[|ops|..]
      ensures Abs() == AfterAll(g, old(Abs()), old(q.Pending())[..|ops|], ops, crc16)
      ensures powered ==> q.queue == []
      ensures var st := StatusAfterAll(g, old(Abs()), old(q.Pending())[..|ops|], ops, crc16, old(GetStatus()));
              GetStatus() == if powered then st else st.(storage := StoringUserApp)
      ensures (forall i, c :: !io(i, c).Cut?) ==> powered
      ensures (forall i, c :: io(i, c).Good?) ==> AllComplete(g, old(Abs()), old(q.Pending())[..|ops|], ops, crc16)
    {
      hide AfterAction, Completes, Matches, StatusAfter, AppQueue.ActionQueue.Valid, AppQueue.ActionQueue.Pending;
      ops, powered := [], true;
      ghost var acts, start, st := q.Pending(), Abs(), GetStatus();
      var turn := 0;
      while q.queue != []
        invariant Valid() && q.Valid()
        invariant |ops| <= |acts| && q.Pending() == acts[|ops|..]
        invariant Abs() == AfterAll(g, start, acts[..|ops|], ops, crc16)
        invariant GetStatus() == StatusAfterAll(g, start, acts[..|ops|], ops, crc16, st)
        invariant (forall i, c :: io(i, c).Good?) ==> AllComplete(g, start, acts[..|ops|], ops, crc16)
        decreases |q.queue|
      {
        var a := q.Receive();
        First(acts, |ops|, a, q.Pending());
        var now := turn;
        var save;
        ghost var op;
        save, op := Process(a, (c: nat) => io(now, c));
        OneMore(g, start, acts, ops, op, crc16);
        OneMoreStatus(g, start, acts, ops, op, crc16, st);
        ops, turn := ops + [op], turn + 1;
        if save == Some(PowerLost) {
          return false, ops;
        }
      }
    }

    /** The boot sequence of the user-app thread: flash first, the default image otherwise. */
    method Boot(io: nat -> bool) returns (ret: LoadResult)
      requires Valid() && appState.Uninitialized?
      modifies this`appState, ram
      ensures Valid() && appState.UserAppLoaded?
      ensures ret.Loaded? ==>
                ram[..] == LoadedRam(g, flash, old(ram[..])) && LoadOutcome(g, flash, old(ram[..]), crc16).Loaded?
      ensures (forall c :: io(c)) ==>
                (ret.Loaded? <==> storageState.UserAppStored? && LoadOutcome(g, flash, old(ram[..]), crc16).Loaded?)
      ensures !ret.Loaded? ==> ram[..] == temp[..]
    {
      ret := LoadFromFlash(io);
      if !ret.Loaded? {
        LoadFromTempbuf();
      }
    }
  }

  /**
   From the queue to the next boot: whatever the store held, once the queued
   actions of one upload have been served and no flash operation failed, a restart
   runs the image that the chunks make.
   */
  method UploadThenRestart(store: Store, q: AppQueue.ActionQueue, ghost cs: seq<Chunk>, default: seq<byte>)
      returns (restarted: Store)
    requires store.Valid() && q.Valid() && |default| == store.g.size
    requires q.Pending() == Upload(cs, store.crc16(PatchAll(Zeros(store.g.size), cs)))
    modifies store, store.temp, store.ram, q
    ensures store.GetStatus() == Status(UserAppLoaded, UserAppStored)
    ensures store.ram[..] == PatchAll(Zeros(store.g.size), cs)
    ensures restarted.Valid() && fresh(restarted) && restarted.flash == store.flash
    ensures restarted.GetStatus() == Status(UserAppLoaded, UserAppStored)
    ensures restarted.ram[..] == PatchAll(Zeros(store.g.size), cs)
  {
    hide PatchAll, Sane, Fits, LoadedRam;
    ghost var acts, start := q.Pending(), store.Abs();
    ghost var image := PatchAll(Zeros(store.g.size), cs);
    var powered, ops := store.Serve(q, (_, _) => Good);
    assert acts[..|ops|] == acts;
    UploadEndToEnd(store.g, start, cs, ops, image, store.crc16, Zeros(store.g.size));
    restarted := new Store(store.g, store.crc16, store.flash, default);
    var ret := restarted.Boot(_ => true);
  }
}
