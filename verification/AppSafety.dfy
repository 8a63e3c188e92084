/**
 Loading a user app while render threads run it.  The user-app thread boots, then
 serves upload actions; it copies an image into RAM one byte at a time inside an
 exclusive section.  Any number of render threads call with() or with_desc(),
 which run the image inside a shared section when the state says it is loaded.
 */
module AppSafety {
  import opened Wrappers
  import opened LockSpec
  import F = AppFlash

  datatype AppState = Uninitialized | Loading | Loaded

  /** Where an image comes from. */
  datatype Origin =
    | DefaultImage
    | FromFlash(file: F.Flash, before: seq<byte>)    // the file, and RAM before the load
    | Uploaded(crc: F.Crc)                           // the CRC of the commit or run request

  datatype Approval = Approval(origin: Origin, image: seq<byte>)

  /** Where the user-app thread is. */
  datatype Loader =
    | Boot                                                               // about to call load_from_flash
    | Fallback                                                           // the flash load failed
    | Serving                                                            // in the action loop
    | Accepted(crc: F.Crc)                                               // commit or run: the CRC matched
    | CopyFlash(file: F.Flash, ram: seq<byte>, pos: nat, before: AppState, boot: bool)    // state and RAM before
    | CopyTemp(origin: Origin, pos: nat)

  /** A render thread between taking and giving the lock; `Running` is the callback. */
  datatype Render = Outside | Entered | Running

  datatype State = State(
    g: F.Geometry,
    lock: Lock,
    ram: seq<byte>,
    temp: seq<byte>,
    appState: AppState,
    loader: Loader,
    threads: seq<Render>,
    default: seq<byte>,            // what the firmware carries in the buffer
    approved: Option<Approval>)    // history: the image of the last complete load

  datatype Event =
    | NothingStored                                // boot: no app in flash
    | LoadFlash(file: F.Flash)                     // boot: load_from_flash, with this file
    | Reload(file: F.Flash)                        // load_from_flash called again later
    | FailLoad                                     // a flash operation failed on the way
    | LoadTemp
    | CopyByte
    | EndLoad
    | ChangeTemp(temp: seq<byte>)                  // begin_write or write
    | Request(crc: F.Crc)                          // commit or run
    | Enter(t: nat)
    | Check(t: nat, valid: bool)                   // valid: the descriptor table is well formed
    | Leave(t: nat)

  /** The thread that loads; render threads are numbered from 0. */
  function LoaderId(s: State): nat { |s.threads| }

  ghost predicate Init(s: State) {
    && s.lock == UNLOCKED && s.appState.Uninitialized? && s.loader.Boot? && s.approved.None?
    && s.temp == s.default && Sized(s)
    && forall t :: 0 <= t < |s.threads| ==> s.threads[t].Outside?
  }

  predicate Sized(s: State) {
    s.g.maxRecord > 0 && |s.ram| == |s.temp| == s.g.size >= 4
  }

  /** The bytes that the current copy reads. */
  ghost function Source(s: State): seq<byte> {
    match s.loader
    case CopyFlash(file, _, _, _, _) => if s.g.maxRecord > 0 && F.Fits(s.g, file) then F.CodeBytes(s.g, file) else []
    case _ => s.temp
  }

  ghost predicate Enabled(s: State, e: Event) {
    match e
    case NothingStored => s.loader.Boot?
    case LoadFlash(file) => s.loader.Boot? && MayExclude(s.lock) && Sized(s) && F.Fits(s.g, file)
    case Reload(file) => s.loader.Serving? && MayExclude(s.lock) && Sized(s) && F.Fits(s.g, file)
    case FailLoad => s.loader.CopyFlash?
    case LoadTemp => (s.loader.Fallback? || s.loader.Accepted?) && MayExclude(s.lock)
    case CopyByte => Copying(s.loader) && s.loader.pos < |Source(s)| <= |s.ram|
    case EndLoad =>
      && Copying(s.loader) && s.loader.pos == |Source(s)|
      && (s.loader.CopyFlash? ==> Sized(s) && F.Fits(s.g, s.loader.file))
    case ChangeTemp(temp) => s.loader.Serving? && |temp| == |s.temp|
    case Request(_) => s.loader.Serving?
    case Enter(t) => t < |s.threads| && s.threads[t].Outside? && MayShare(s.lock)
    case Check(t, _) => t < |s.threads| && s.threads[t].Entered?
    case Leave(t) => t < |s.threads| && s.threads[t].Running?
  }

  function Acquired(s: State): State {
    s.(lock := s.lock.(exclusive := Some(LoaderId(s))), appState := Loading)
  }

  /** load_from_flash returns an error: the old state comes back, RAM stays as it is. */
  function Failed(s: State): State
    requires s.loader.CopyFlash?
  {
    s.(lock := s.lock.(exclusive := None), appState := s.loader.before,
       loader := if s.loader.boot then Fallback else Serving)
  }

  function Finished(s: State, a: Approval): State {
    s.(lock := s.lock.(exclusive := None), appState := Loaded, loader := Serving, approved := Some(a))
  }

  /** load_from_flash begins by clearing the head of RAM. */
  function Begin(s: State, file: F.Flash, boot: bool): State
    requires |s.ram| >= 4
  {
    Acquired(s).(loader := CopyFlash(file, s.ram, 0, s.appState, boot), ram := F.ZeroHead(s.ram))
  }

  ghost function Do(s: State, e: Event, crc16: seq<byte> -> F.Crc): State
    requires Enabled(s, e)
  {
    match e
    case NothingStored => s.(loader := Fallback)
    case LoadFlash(file) => Begin(s, file, true)
    case Reload(file) => Begin(s, file, false)
    case FailLoad => Failed(s)
    case LoadTemp =>
      Acquired(s).(loader := CopyTemp(if s.loader.Fallback? then DefaultImage else Uploaded(s.loader.crc), 0))
    case CopyByte =>
      s.(ram := s.ram[s.loader.pos := Source(s)[s.loader.pos]], loader := s.loader.(pos := s.loader.pos + 1))
    case EndLoad =>
      if s.loader.CopyTemp? then Finished(s, Approval(s.loader.origin, s.temp))
      else if F.CRC_KEY !in s.loader.file || F.Word(s.loader.file[F.CRC_KEY]) != crc16(s.ram) then Failed(s)
      else Finished(s, Approval(FromFlash(s.loader.file, s.loader.ram), s.ram))
    case ChangeTemp(temp) => s.(temp := temp)
    case Request(crc) => if crc16(s.temp) == crc then s.(loader := Accepted(crc)) else s
    case Enter(t) => s.(lock := s.lock.(shared := s.lock.shared + {t}), threads := s.threads[t := Entered])
    case Check(t, valid) =>
      if s.appState.Loaded? && valid then s.(threads := s.threads[t := Running])
      else s.(lock := s.lock.(shared := s.lock.shared - {t}), threads := s.threads[t := Outside])
    case Leave(t) => s.(lock := s.lock.(shared := s.lock.shared - {t}), threads := s.threads[t := Outside])
  }

  ghost predicate Path(ss: seq<State>, es: seq<Event>, crc16: seq<byte> -> F.Crc) {
    && |ss| == |es| + 1
    && forall i :: 0 <= i < |es| ==> Enabled(ss[i], es[i]) && ss[i + 1] == Do(ss[i], es[i], crc16)
  }

  /** The default image, an upload with the CRC it was to have, or what a successful load of a file leaves in RAM. */
  ghost predicate Justified(g: F.Geometry, a: Approval, default: seq<byte>, crc16: seq<byte> -> F.Crc) {
    match a.origin
    case DefaultImage => a.image == default
    case FromFlash(file, before) =>
      && g.maxRecord > 0 && F.Fits(g, file) && |before| == g.size >= 4
      && a.image == F.LoadedRam(g, file, before) && F.LoadOutcome(g, file, before, crc16).Loaded?
    case Uploaded(crc) => crc16(a.image) == crc
  }

  // ----- the invariant

  predicate Copying(l: Loader) {
    l.CopyFlash? || l.CopyTemp?
  }

  ghost predicate LockInv(s: State) {
    && Exclusion(s.lock)
    && (Copying(s.loader) <==> s.lock.exclusive.Some?)
    && forall t: nat :: t in s.lock.shared <==> t < |s.threads| && !s.threads[t].Outside?
  }

  /** RAM before the first byte of the current copy. */
  ghost function Base(s: State): seq<byte>
    requires Copying(s.loader)
  {
    if s.loader.CopyFlash? && |s.loader.ram| >= 4 then F.ZeroHead(s.loader.ram) else s.ram
  }

  ghost predicate CopyInv(s: State) {
    && Sized(s)
    && (Copying(s.loader) ==>
          && s.appState.Loading?
          && s.loader.pos <= |Source(s)| <= |s.ram| == |Base(s)|
          && s.ram == Source(s)[..s.loader.pos] + Base(s)[s.loader.pos..])
    && (s.loader.CopyFlash? ==> !s.loader.before.Loaded? && F.Fits(s.g, s.loader.file) && |s.loader.ram| == |s.ram|)
  }

  /** What the thread knows about the buffer at each point of its program. */
  ghost predicate TempInv(s: State, crc16: seq<byte> -> F.Crc) {
    match s.loader
    case Boot | Fallback => s.temp == s.default && !s.appState.Loaded?
    case CopyFlash(_, _, _, _, boot) => boot ==> s.temp == s.default
    case Accepted(crc) => crc16(s.temp) == crc
    case CopyTemp(origin, _) => !origin.FromFlash? && Justified(s.g, Approval(origin, s.temp), s.default, crc16)
    case Serving => true
  }

  ghost predicate LoadedInv(s: State, crc16: seq<byte> -> F.Crc) {
    && (s.appState.Loaded? ==>
          && !Copying(s.loader) && s.approved.Some? && s.approved.value.image == s.ram
          && Justified(s.g, s.approved.value, s.default, crc16))
    && forall t :: 0 <= t < |s.threads| && s.threads[t].Running? ==> s.appState.Loaded?
  }

  ghost predicate Inv(s: State, crc16: seq<byte> -> F.Crc) {
    LockInv(s) && CopyInv(s) && TempInv(s, crc16) && LoadedInv(s, crc16)
  }

  /** A callback in progress keeps every load from beginning. */
  lemma RunningBlocksLoads(s: State, t: nat)
    requires LockInv(s) && t < |s.threads| && !s.threads[t].Outside?
    ensures !Copying(s.loader) && !MayExclude(s.lock)
  {
    assert t in s.lock.shared;
  }

  lemma StepKeepsRunning(s: State, e: Event, crc16: seq<byte> -> F.Crc, t: nat)
    requires Inv(s, crc16) && Enabled(s, e)
    requires t < |s.threads| && Do(s, e, crc16).threads[t].Running?
    ensures Do(s, e, crc16).appState.Loaded?
  {
    if s.threads[t].Running? { RunningBlocksLoads(s, t); }
  }

  lemma StepKeepsTemp(s: State, e: Event, crc16: seq<byte> -> F.Crc)
    requires Inv(s, crc16) && Enabled(s, e) && !e.Reload?
    ensures TempInv(Do(s, e, crc16), crc16)
  {
    hide F.Fits, F.CodeBytes, F.LoadedRam, F.LoadOutcome;
  }

  /** One more byte of the source over the base. */
  lemma OneByte(source: seq<byte>, base: seq<byte>, i: nat)
    requires i < |source| <= |base|
    ensures (source[..i] + base[i..])[i := source[i]] == source[..i + 1] + base[i + 1..]
  {
  }

  lemma CopyByteKeeps(s: State, crc16: seq<byte> -> F.Crc)
    requires CopyInv(s) && Enabled(s, CopyByte)
    ensures CopyInv(Do(s, CopyByte, crc16))
  {
    hide F.Fits, F.CodeBytes, F.ZeroHead;
    OneByte(Source(s), Base(s), s.loader.pos);
    assert s.loader.CopyTemp? ==> Base(s)[s.loader.pos + 1..] == s.ram[s.loader.pos + 1..];
  }

  lemma OthersKeepCopy(s: State, e: Event, crc16: seq<byte> -> F.Crc)
    requires CopyInv(s) && Enabled(s, e) && !e.CopyByte? && !e.Reload?
    requires (Copying(s.loader) <==> s.lock.exclusive.Some?) && (s.loader.Boot? ==> !s.appState.Loaded?)
    requires forall t: nat :: t in s.lock.shared <==> t < |s.threads| && !s.threads[t].Outside?
    ensures CopyInv(Do(s, e, crc16))
  {
    hide F.Fits, F.CodeBytes;
  }

  lemma StepKeepsCopy(s: State, e: Event, crc16: seq<byte> -> F.Crc)
    requires Inv(s, crc16) && Enabled(s, e) && !e.Reload?
    ensures CopyInv(Do(s, e, crc16)) && TempInv(Do(s, e, crc16), crc16)
  {
    StepKeepsTemp(s, e, crc16);
    if e.CopyByte? { CopyByteKeeps(s, crc16); } else { OthersKeepCopy(s, e, crc16); }
    hide CopyInv, TempInv, LoadedInv, Do, Enabled;
  }

  /** Byte by byte under any interleaving, a load from flash does what it does in one piece. */
  lemma FlashLoadAgrees(s: State, crc16: seq<byte> -> F.Crc)
    requires Inv(s, crc16) && Enabled(s, EndLoad) && s.loader.CopyFlash?
    ensures var s' := Do(s, EndLoad, crc16);
            && s'.ram == F.LoadedRam(s.g, s.loader.file, s.loader.ram)
            && (s'.appState.Loaded? <==> F.LoadOutcome(s.g, s.loader.file, s.loader.ram, crc16).Loaded?)
  {
    assert s.ram == F.LoadedRam(s.g, s.loader.file, s.loader.ram);
  }

  lemma EndIsJustified(s: State, crc16: seq<byte> -> F.Crc)
    requires Inv(s, crc16) && Enabled(s, EndLoad)
    ensures var s' := Do(s, EndLoad, crc16);
            s'.appState.Loaded? ==> s'.approved.Some? && s'.approved.value.image == s'.ram
                                    && Justified(s'.g, s'.approved.value, s'.default, crc16)
  {
    if s.loader.CopyFlash? {
      FlashLoadAgrees(s, crc16);
    } else {
      assert s.ram == s.temp;
    }
  }

  lemma StepKeepsInv(s: State, e: Event, crc16: seq<byte> -> F.Crc)
    requires Inv(s, crc16) && Enabled(s, e) && !e.Reload?
    ensures Inv(Do(s, e, crc16), crc16)
  {
    var s' := Do(s, e, crc16);
    StepKeepsCopy(s, e, crc16);
    forall t | 0 <= t < |s'.threads| && s'.threads[t].Running? ensures s'.appState.Loaded? {
      StepKeepsRunning(s, e, crc16, t);
    }
    if e.EndLoad? { EndIsJustified(s, crc16); }
  }

  /**
   Over all interleavings of render threads with booting, uploading and loading, a
   callback runs only on a completely loaded image that is the default one or has
   the CRC of its record or request, and never while an image is being copied.
   load_from_flash must not be called again after boot, as userapp.hh asks.
   */
  lemma {:induction false} CallbacksRunApprovedImages(ss: seq<State>, es: seq<Event>, crc16: seq<byte> -> F.Crc, k: nat)
    requires Path(ss, es, crc16) && Init(ss[0]) && k < |ss|
    requires forall i :: 0 <= i < |es| ==> !es[i].Reload?
    ensures Inv(ss[k], crc16)
    ensures forall t :: 0 <= t < |ss[k].threads| && ss[k].threads[t].Running? ==>
              && !Copying(ss[k].loader) && ss[k].approved.Some?
              && ss[k].ram == ss[k].approved.value.image
              && Justified(ss[k].g, ss[k].approved.value, ss[k].default, crc16)
  {
    if k > 0 {
      CallbacksRunApprovedImages(ss, es, crc16, k - 1);
      StepKeepsInv(ss[k - 1], es[k - 1], crc16);
    }
  }

  // ----- loaded images do run

  /** A render thread runs the callback exactly when an app is loaded and its descriptor is valid. */
  lemma CheckDecides(s: State, t: nat, valid: bool, crc16: seq<byte> -> F.Crc)
    requires Enabled(s, Check(t, valid))
    ensures Do(s, Check(t, valid), crc16).threads[t].Running? <==> s.appState.Loaded? && valid
    ensures !Do(s, Check(t, valid), crc16).threads[t].Running? ==> Do(s, Check(t, valid), crc16).threads[t].Outside?
  {
  }

  lemma Extend(ss: seq<State>, es: seq<Event>, e: Event, crc16: seq<byte> -> F.Crc)
      returns (ss': seq<State>, es': seq<Event>)
    requires Path(ss, es, crc16) && Enabled(ss[|es|], e)
    ensures Path(ss', es', crc16) && ss' == ss + [Do(ss[|es|], e, crc16)] && es' == es + [e]
  {
    hide Do, Enabled;
    ss', es' := ss + [Do(ss[|es|], e, crc16)], es + [e];
  }

  /** A copy goes on to its end. */
  lemma {:induction false} CopyRun(ss: seq<State>, es: seq<Event>, crc16: seq<byte> -> F.Crc)
      returns (ss': seq<State>, es': seq<Event>)
    requires Path(ss, es, crc16) && Inv(ss[|es|], crc16) && Copying(ss[|es|].loader)
    ensures Path(ss', es', crc16) && ss <= ss' && es <= es' && Inv(ss'[|es'|], crc16)
    ensures forall i :: |es| <= i < |es'| ==> es'[i].CopyByte?
    ensures var s, s' := ss[|es|], ss'[|es'|];
            && s' == s.(ram := s'.ram, loader := s.loader.(pos := |Source(s)|)) && Enabled(s', EndLoad)
    decreases |Source(ss[|es|])| - ss[|es|].loader.pos
  {
    var s := ss[|es|];
    if s.loader.pos == |Source(s)| {
      ss', es' := ss, es;
    } else {
      StepKeepsInv(s, CopyByte, crc16);
      CopyByteMoves(s, crc16);
      hide Do, Enabled, Inv, Source;
      var tt, fs := Extend(ss, es, CopyByte, crc16);
      ss', es' := CopyRun(tt, fs, crc16);
    }
  }

  lemma CopyByteMoves(s: State, crc16: seq<byte> -> F.Crc)
    requires Inv(s, crc16) && Copying(s.loader) && s.loader.pos != |Source(s)|
    ensures s.loader.pos < |Source(s)| && Enabled(s, CopyByte)
    ensures var s' := Do(s, CopyByte, crc16);
            && s' == s.(ram := s'.ram, loader := s.loader.(pos := s.loader.pos + 1))
            && Copying(s'.loader) && Source(s') == Source(s)
  {
  }

  /** Once the image is loaded and nobody writes, a render thread gets to its callback. */
  lemma RenderRun(ss: seq<State>, es: seq<Event>, t: nat, crc16: seq<byte> -> F.Crc)
      returns (ss': seq<State>, es': seq<Event>)
    requires Path(ss, es, crc16) && ss[|es|].appState.Loaded? && MayShare(ss[|es|].lock)
    requires t < |ss[|es|].threads| && ss[|es|].threads[t].Outside?
    ensures Path(ss', es', crc16) && ss <= ss' && es' == es + [Enter(t), Check(t, true)]
    ensures var s, s' := ss[|es|], ss'[|es'|];
            && t < |s'.threads| && s'.threads[t].Running? && s'.ram == s.ram && s'.approved == s.approved
  {
    ss', es' := Extend(ss, es, Enter(t), crc16);
    ss', es' := Extend(ss', es', Check(t, true), crc16);
  }

  /** From the decision to load the buffer to a callback that runs it. */
  lemma BufferRuns(ss: seq<State>, es: seq<Event>, t: nat, crc16: seq<byte> -> F.Crc)
      returns (ss': seq<State>, es': seq<Event>)
    requires Path(ss, es, crc16) && Inv(ss[|es|], crc16) && Enabled(ss[|es|], LoadTemp)
    requires t < |ss[|es|].threads| && ss[|es|].threads[t].Outside?
    ensures Path(ss', es', crc16) && ss <= ss' && es <= es'
    ensures forall i :: |es| <= i < |es'| ==> !es'[i].Reload?
    ensures var s, s' := ss[|es|], ss'[|es'|];
            && t < |s'.threads| && s'.threads[t].Running? && s'.ram == s.temp
            && s'.approved ==
                 Some(Approval(if s.loader.Fallback? then DefaultImage else Uploaded(s.loader.crc), s.temp))
  {
    StepKeepsInv(ss[|es|], LoadTemp, crc16);
    ss', es' := Extend(ss, es, LoadTemp, crc16);
    ss', es' := CopyRun(ss', es', crc16);
    EndOfBuffer(ss'[|es'|], crc16);
    ss', es' := Extend(ss', es', EndLoad, crc16);
    hide Inv;
    ss', es' := RenderRun(ss', es', t, crc16);
  }

  lemma EndOfBuffer(s: State, crc16: seq<byte> -> F.Crc)
    requires Inv(s, crc16) && Enabled(s, EndLoad) && s.loader.CopyTemp?
    ensures var s' := Do(s, EndLoad, crc16);
            && s'.appState.Loaded? && MayShare(s'.lock) && s'.threads == s.threads && s'.ram == s.temp
            && s'.approved == Some(Approval(s.loader.origin, s.temp))
  {
    assert s.ram == s.temp;
  }

  /** Without an app in flash every render thread can get to run the default image. */
  lemma DefaultRuns(s: State, t: nat, crc16: seq<byte> -> F.Crc) returns (ss: seq<State>, es: seq<Event>)
    requires Init(s) && t < |s.threads|
    ensures Path(ss, es, crc16) && ss[0] == s && forall i :: 0 <= i < |es| ==> !es[i].Reload?
    ensures t < |ss[|es|].threads| && ss[|es|].threads[t].Running? && ss[|es|].ram == s.default
  {
    ss, es := Extend([s], [], NothingStored, crc16);
    ss, es := BufferRuns(ss, es, t, crc16);
  }

  /** A boot load that fails, at whatever point, ends with the default image running. */
  lemma FailedBootRunsDefault(s: State, e: Event, t: nat, crc16: seq<byte> -> F.Crc)
      returns (ss: seq<State>, es: seq<Event>)
    requires Inv(s, crc16) && s.loader.CopyFlash? && s.loader.boot && t < |s.threads|
    requires (e.FailLoad? || e.EndLoad?) && Enabled(s, e) && !Do(s, e, crc16).appState.Loaded?
    ensures Path(ss, es, crc16) && ss[0] == s && es != [] && es[0] == e
    ensures forall i :: 0 <= i < |es| ==> !es[i].Reload?
    ensures t < |ss[|es|].threads| && ss[|es|].threads[t].Running? && ss[|es|].ram == s.default
  {
    assert s.lock.exclusive.Some? && s.lock.shared == {};
    assert t !in s.lock.shared;
    StepKeepsInv(s, e, crc16);
    ss, es := Extend([s], [], e, crc16);
    ss, es := BufferRuns(ss, es, t, crc16);
  }

  /** Whenever nobody is inside the lock, any image can be uploaded, requested and run. */
  lemma UploadRuns(s: State, image: seq<byte>, t: nat, crc16: seq<byte> -> F.Crc)
      returns (ss: seq<State>, es: seq<Event>)
    requires Inv(s, crc16) && s.loader.Serving? && MayExclude(s.lock) && |image| == |s.temp|
    requires t < |s.threads| && s.threads[t].Outside?
    ensures Path(ss, es, crc16) && ss[0] == s && forall i :: 0 <= i < |es| ==> !es[i].Reload?
    ensures t < |ss[|es|].threads| && ss[|es|].threads[t].Running? && ss[|es|].ram == image
    ensures ss[|es|].approved == Some(Approval(Uploaded(crc16(image)), image))
  {
    ss, es := Extend([s], [], ChangeTemp(image), crc16);
    ss, es := Extend(ss, es, Request(crc16(image)), crc16);
    assert Inv(ss[2], crc16) by {
      StepKeepsInv(s, ChangeTemp(image), crc16);
      StepKeepsInv(ss[1], Request(crc16(image)), crc16);
    }
    ss, es := BufferRuns(ss, es, t, crc16);
  }

  /** A stored image whose CRC matches its record is run after boot. */
  lemma StoredImageRuns(s: State, file: F.Flash, t: nat, crc16: seq<byte> -> F.Crc)
      returns (ss: seq<State>, es: seq<Event>)
    requires Init(s) && t < |s.threads| && F.Fits(s.g, file) && F.LoadOutcome(s.g, file, s.ram, crc16).Loaded?
    ensures Path(ss, es, crc16) && ss[0] == s && forall i :: 0 <= i < |es| ==> !es[i].Reload?
    ensures t < |ss[|es|].threads| && ss[|es|].threads[t].Running? && ss[|es|].ram == F.LoadedRam(s.g, file, s.ram)
  {
    assert Inv(s, crc16);
    StepKeepsInv(s, LoadFlash(file), crc16);
    ss, es := Extend([s], [], LoadFlash(file), crc16);
    ss, es := CopyRun(ss, es, crc16);
    FlashLoadAgrees(ss[|es|], crc16);
    EndOfFlash(ss[|es|], crc16);
    ss, es := Extend(ss, es, EndLoad, crc16);
    hide Inv;
    ss, es := RenderRun(ss, es, t, crc16);
  }

  lemma EndOfFlash(s: State, crc16: seq<byte> -> F.Crc)
    requires Enabled(s, EndLoad) && s.loader.CopyFlash?
    ensures MayShare(Do(s, EndLoad, crc16).lock) && Do(s, EndLoad, crc16).threads == s.threads
  {
  }

  // ----- why only at boot

  /** A reload in which j bytes have been copied. */
  ghost function CopyState(s: State, file: F.Flash, j: nat): State
    requires Sized(s) && F.Fits(s.g, file) && j <= |F.CodeBytes(s.g, file)|
  {
    Acquired(s).(ram := F.CodeBytes(s.g, file)[..j] + F.ZeroHead(s.ram)[j..],
                 loader := CopyFlash(file, s.ram, j, s.appState, false))
  }

  lemma CopyStep(s: State, file: F.Flash, j: nat, crc16: seq<byte> -> F.Crc)
    requires Sized(s) && F.Fits(s.g, file) && j < |F.CodeBytes(s.g, file)|
    ensures Enabled(CopyState(s, file, j), CopyByte)
    ensures Do(CopyState(s, file, j), CopyByte, crc16) == CopyState(s, file, j + 1)
  {
    var source, base := F.CodeBytes(s.g, file), F.ZeroHead(s.ram);
    assert (source[..j] + base[j..])[j := source[j]] == source[..j + 1] + base[j + 1..];
  }

  lemma ReloadBegins(s: State, file: F.Flash, crc16: seq<byte> -> F.Crc)
    requires s.loader.Serving? && MayExclude(s.lock) && Sized(s) && F.Fits(s.g, file)
    ensures Enabled(s, Reload(file)) && Do(s, Reload(file), crc16) == CopyState(s, file, 0)
  {
    assert CopyState(s, file, 0).ram == F.ZeroHead(s.ram);
  }

  /** A reload up to the point where j bytes have been copied. */
  lemma {:induction false} ReloadRun(s: State, file: F.Flash, j: nat, crc16: seq<byte> -> F.Crc)
      returns (ss: seq<State>, es: seq<Event>)
    requires s.loader.Serving? && MayExclude(s.lock) && Sized(s) && F.Fits(s.g, file) && j <= |F.CodeBytes(s.g, file)|
    ensures Path(ss, es, crc16) && es != [] && ss[0] == s && es[0] == Reload(file) && ss[|es|] == CopyState(s, file, j)
  {
    if j == 0 {
      ReloadBegins(s, file, crc16);
      ss, es := Extend([s], [], Reload(file), crc16);
    } else {
      ss, es := ReloadRun(s, file, j - 1, crc16);
      CopyStep(s, file, j - 1, crc16);
      hide Do, Enabled, CopyState, F.Fits;
      ss, es := Extend(ss, es, CopyByte, crc16);
    }
  }

  /**
   The boot-only rule is needed: begun in any state where an app is loaded, a
   reload of a file with other bytes can fail at a point that leaves RAM different
   from the approved image, and yet restores the state "loaded".
   */
  lemma LateReloadCanLeaveAMixture(s: State, file: F.Flash, p: nat, crc16: seq<byte> -> F.Crc)
      returns (ss: seq<State>, es: seq<Event>)
    requires Inv(s, crc16) && s.appState.Loaded? && s.loader.Serving? && MayExclude(s.lock)
    requires F.Fits(s.g, file) && p < |F.CodeBytes(s.g, file)| && F.CodeBytes(s.g, file)[p] != s.ram[p]
    ensures Path(ss, es, crc16) && ss[0] == s && es != [] && es[0] == Reload(file)
    ensures var s' := ss[|es|];
            && s'.appState.Loaded? && s'.loader.Serving? && s'.lock == s.lock
            && s'.approved.Some? && s'.ram != s'.approved.value.image
  {
    ss, es := ReloadRun(s, file, p + 1, crc16);
    assert CopyState(s, file, p + 1).ram[p] == F.CodeBytes(s.g, file)[p];
    hide F.Fits;
    ss, es := Extend(ss, es, FailLoad, crc16);
  }
}
