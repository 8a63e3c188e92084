/**
 The write-behind configuration cache as concurrent steps: any number of tasks
 that read, write and subscribe, and the task that flushes dirty parameters.

 Cache sections run under the lock of module RwLock.  An exclusive section is
 one step, allowed when no task is inside a shared section; between steps nobody
 is inside one, so a shared section can always begin.  The shared section that
 calls the subscribers spans several steps.
 */
module ConfigBackend {
  import opened Wrappers
  import opened LockSpec
  import opened ConfigCache

  /** Where a task is between its sections. */
  datatype Thread =
    | Idle
    | Missed(id: nat, buf: seq<byte>)          // read(): shared attempt missed
    | Updated(id: nat)                         // write(): data changed, subscribers not called yet
    | Notifying(id: nat, rest: seq<nat>)       // write(): inside the shared section, `rest` still to call

  /** The flush task; `flags` is the notification value it took, `id` the parameter it is at. */
  datatype Flusher =
    | Sleeping
    | Scan(flags: set<nat>, id: nat)
    | Located(flags: set<nat>, id: nat, found: bool)   // fds_record_find done, write or update next

  /** What a subscriber is called with: the bytes after the header, and the length of the whole record. */
  datatype Delivery = Delivery(bytes: seq<byte>, length: nat)

  datatype State = State(
    cache: seq<Entry>,
    flash: map<nat, seq<byte>>,
    dirty: set<nat>,                   // pending notification bits
    flusher: Flusher,
    threads: seq<Thread>,
    halted: bool,                      // APP_ERROR_CHECK stopped the system
    nextSub: nat,                      // subscribers are numbered in order of registration
    seen: map<nat, Delivery>,          // last call of each subscriber
    due: seq<set<nat>>)                // history: subscribers registered before the last changing write

  datatype FlashResult = Done | NoSpace | FlashError

  datatype Event =
    | Read(t: nat, id: nat, buf: seq<byte>)
    | ReadAgain(t: nat, ok: bool)              // ok: find, open and close succeed if the record exists
    | Write(t: nat, id: nat, d: seq<byte>)
    | BeginNotify(t: nat)
    | Call(t: nat)
    | EndNotify(t: nat)
    | Subscribe(t: nat, id: nat)
    | Wake
    | Find(ok: bool)                           // scan one parameter; ok: found or not found
    | Flush(result: FlashResult)

  ghost predicate Init(s: State) {
    && s.cache == seq(N_PARAMS, _ => EMPTY_ENTRY)
    && s.due == seq(N_PARAMS, _ => {})
    && s.dirty == {} && s.flusher.Sleeping? && !s.halted && s.seen == map[] && s.nextSub == 0
    && (forall id :: id in s.flash ==> id < N_PARAMS && |s.flash[id]| % 4 == 0)
    && forall t :: 0 <= t < |s.threads| ==> s.threads[t].Idle?
  }

  function LockView(s: State): Lock {
    Lock((set t | 0 <= t < |s.threads| && s.threads[t].Notifying?), None)
  }

  predicate Shape(s: State) {
    && |s.cache| == |s.due| == N_PARAMS
    && forall id :: 0 <= id < N_PARAMS ==> ValidEntry(s.cache[id])
  }

  predicate Cached(s: State, id: nat) {
    id < |s.cache| && s.cache[id].block.Some?
  }

  function Data(s: State, id: nat): seq<byte>
    requires Shape(s) && Cached(s, id)
  {
    Current(s.cache[id])
  }

  function Delivered(d: seq<byte>): Delivery {
    Delivery(if |d| >= HDR_SIZE then d[HDR_SIZE..] else [], |d|)
  }

  predicate IdleAt(s: State, t: nat) {
    t < |s.threads| && s.threads[t].Idle?
  }

  predicate Enabled(s: State, e: Event)
    requires Shape(s)
  {
    && !s.halted
    && match e
       case Read(t, id, _) => IdleAt(s, t) && id < N_PARAMS
       case ReadAgain(t, _) =>
         t < |s.threads| && s.threads[t].Missed? && s.threads[t].id < N_PARAMS && MayExclude(LockView(s))
       case Write(t, id, _) => IdleAt(s, t) && id < N_PARAMS && MayExclude(LockView(s))
       case BeginNotify(t) => t < |s.threads| && s.threads[t].Updated? && s.threads[t].id < N_PARAMS
       case Call(t) =>
         t < |s.threads| && s.threads[t].Notifying? && s.threads[t].rest != [] && Cached(s, s.threads[t].id)
       case EndNotify(t) => t < |s.threads| && s.threads[t].Notifying? && s.threads[t].rest == []
       case Subscribe(t, id) => IdleAt(s, t) && id < N_PARAMS && MayExclude(LockView(s))
       case Wake => s.flusher.Sleeping? && s.dirty != {}
       case Find(_) => s.flusher.Scan?
       case Flush(_) => s.flusher.Located? && Cached(s, s.flusher.id)
  }

  function Goto(s: State, t: nat, thread: Thread): State
    requires t < |s.threads|
  {
    s.(threads := s.threads[t := thread])
  }

  function SetEntry(s: State, id: nat, e: Entry): State
    requires id < |s.cache|
  {
    s.(cache := s.cache[id := e])
  }

  function Do(s: State, e: Event): State
    requires Shape(s) && Enabled(s, e)
  {
    match e
    case Read(t, id, buf) => if Cached(s, id) then s else Goto(s, t, Missed(id, buf))
    case ReadAgain(t, ok) =>
      var id := s.threads[t].id;
      if Cached(s, id) || id !in s.flash || !ok then Goto(s, t, Idle)
      else SetEntry(Goto(s, t, Idle), id, Load(s.flash[id])).(due := s.due[id := {}])
    case Write(t, id, d) =>
      if Unchanged(s.cache[id], d) then s
      else SetEntry(Goto(s, t, Updated(id)), id, Store(s.cache[id], d))
           .(dirty := s.dirty + {id}, due := s.due[id := set sub | sub in s.cache[id].subs])
    case BeginNotify(t) => Goto(s, t, Notifying(s.threads[t].id, s.cache[s.threads[t].id].subs))
    case Call(t) =>
      var id, rest := s.threads[t].id, s.threads[t].rest;
      Goto(s, t, Notifying(id, rest[1..])).(seen := s.seen[rest[0] := Delivered(Data(s, id))])
    case EndNotify(t) => Goto(s, t, Idle)
    case Subscribe(t, id) =>
      SetEntry(s, id, s.cache[id].(subs := [s.nextSub] + s.cache[id].subs)).(nextSub := s.nextSub + 1)
    case Wake => s.(flusher := Scan(s.dirty, 0), dirty := {})
    case Find(ok) =>
      var Scan(flags, id) := s.flusher;
      if id >= N_PARAMS then s.(flusher := Sleeping)
      else if id !in flags || !MaskSurvives(id) then s.(flusher := Scan(flags, id + 1))
      else if !ok then s.(halted := true)
      else s.(flusher := Located(flags, id, id in s.flash))
    case Flush(result) =>
      var Located(flags, id, _) := s.flusher;
      match result
      case Done => s.(flash := s.flash[id := WholeWords(Data(s, id))], flusher := Scan(flags, id + 1))
      case NoSpace => s.(flusher := Scan(flags, id))   // garbage collection, then find again
      case FlashError => s.(halted := true)
  }

  /** What a read returns; a miss under shared access returns nothing yet. */
  datatype ReadResult = Hit(data: seq<byte>) | Missing | IoError

  function Result(s: State, e: Event): Option<ReadResult>
    requires Shape(s) && Enabled(s, e)
  {
    match e
    case Read(_, id, buf) => if Cached(s, id) then Some(Hit(Overlay(Data(s, id), buf))) else None
    case ReadAgain(t, ok) =>
      var Missed(id, buf) := s.threads[t];
      if Cached(s, id) then Some(Hit(Overlay(Data(s, id), buf)))
      else if id !in s.flash then Some(Missing)
      else if !ok then Some(IoError)
      else Some(Hit(Overlay(s.flash[id], buf)))
    case _ => None
  }

  ghost predicate Path(ss: seq<State>, es: seq<Event>) {
    && |ss| == |es| + 1
    && forall i :: 0 <= i < |es| ==> Shape(ss[i]) && Enabled(ss[i], es[i]) && ss[i + 1] == Do(ss[i], es[i])
  }

  ghost predicate Run(ss: seq<State>, es: seq<Event>) {
    Path(ss, es) && Init(ss[0])
  }

  // ----- write-behind coherence

  ghost predicate InPass(f: Flusher, id: nat) {
    !f.Sleeping? && id in f.flags && f.id <= id
  }

  /** Flash holds the cached words, or the parameter is dirty, or the current pass has yet to write it. */
  ghost predicate Coherent(s: State, id: nat)
    requires Shape(s) && Cached(s, id)
  {
    (id in s.flash && s.flash[id] == WholeWords(Data(s, id))) || id in s.dirty || InPass(s.flusher, id)
  }

  ghost predicate FlushInv(s: State) {
    && Shape(s)
    && (forall id :: Cached(s, id) ==> Coherent(s, id))
    && (forall id :: id in s.flash ==> |s.flash[id]| % 4 == 0)
    && (forall id :: id in s.dirty ==> Cached(s, id))
    && (!s.flusher.Sleeping? ==> forall id :: id in s.flusher.flags ==> Cached(s, id))
    // a record is created only when there is none: no second record under one key
    && (s.flusher.Located? ==> s.flusher.id in s.flusher.flags && (s.flusher.found <==> s.flusher.id in s.flash))
  }

  lemma StepKeepsShape(s: State, e: Event)
    requires Shape(s) && Enabled(s, e)
    ensures Shape(Do(s, e))
    ensures forall id :: Cached(s, id) ==> Cached(Do(s, e), id)
  {
  }

  /** Only a write changes cached words, and only a flush changes a record. */
  lemma DataStays(s: State, e: Event, id: nat)
    requires Shape(s) && Enabled(s, e) && Cached(s, id) && !(e.Write? && e.id == id)
    ensures Shape(Do(s, e)) && Cached(Do(s, e), id) && Data(Do(s, e), id) == Data(s, id)
    ensures (e.Flush? && s.flusher.id == id)
         || ((id in Do(s, e).flash <==> id in s.flash) && (id in s.flash ==> Do(s, e).flash[id] == s.flash[id]))
  {
    StepKeepsShape(s, e);
  }

  lemma MarkStays(s: State, e: Event, id: nat)
    requires Shape(s) && Enabled(s, e) && id < N_PARAMS && (id in s.dirty || InPass(s.flusher, id))
    requires s.flusher.Located? ==> s.flusher.id in s.flusher.flags
    ensures id in Do(s, e).dirty || InPass(Do(s, e).flusher, id) || (e == Flush(Done) && s.flusher.id == id)
  {
    MaskSurvivesBelow16(id);
  }

  lemma StepKeepsCoherent(s: State, e: Event, id: nat)
    requires FlushInv(s) && Enabled(s, e) && Cached(Do(s, e), id)
    ensures Shape(Do(s, e)) && Coherent(Do(s, e), id)
  {
    StepKeepsShape(s, e);
    if e.Write? && e.id == id {
      assert Cached(s, id) ==> Coherent(s, id);
    } else if Cached(s, id) {
      assert Coherent(s, id);
      DataStays(s, e, id);
      if id in s.dirty || InPass(s.flusher, id) { MarkStays(s, e, id); }
    } else {
      LoadIsCoherent(s, e, id);
    }
  }

  lemma LoadIsCoherent(s: State, e: Event, id: nat)
    requires FlushInv(s) && Enabled(s, e) && !Cached(s, id) && Cached(Do(s, e), id) && !e.Write?
    ensures Shape(Do(s, e)) && Coherent(Do(s, e), id)
  {
    StepKeepsShape(s, e);
    assert Data(Do(s, e), id) == s.flash[id];
    WholeWordsKeepsAll(s.flash[id]);
  }

  lemma StepKeepsFlushInv(s: State, e: Event)
    requires FlushInv(s) && Enabled(s, e)
    ensures FlushInv(Do(s, e))
  {
    StepKeepsShape(s, e);
    forall id | Cached(Do(s, e), id) ensures Coherent(Do(s, e), id) {
      StepKeepsCoherent(s, e, id);
    }
    if e.Flush? { WholeWordsKeepsAll(Data(s, s.flusher.id)); }
  }

  /**
   In every state of every run a cached parameter is in flash, dirty, or still to
   be written by the current pass.
   */
  lemma {:induction false} WriteBehind(ss: seq<State>, es: seq<Event>, k: nat)
    requires Run(ss, es) && k < |ss|
    ensures FlushInv(ss[k])
  {
    if k > 0 {
      WriteBehind(ss, es, k - 1);
      StepKeepsFlushInv(ss[k - 1], es[k - 1]);
    }
  }

  /** Once the flusher sleeps with nothing dirty, flash holds the words of every cached parameter. */
  lemma SleepingMeansStored(s: State, id: nat)
    requires FlushInv(s) && s.flusher.Sleeping? && s.dirty == {} && Cached(s, id)
    ensures id in s.flash && s.flash[id] == WholeWords(Data(s, id))
  {
    assert Coherent(s, id);
  }

  /** Operations left in the current pass (at most) when every one of them succeeds. */
  function PassLeft(f: Flusher): nat {
    match f
    case Sleeping => 0
    case Scan(_, id) => if id <= N_PARAMS then 2 * (N_PARAMS - id) + 2 else 1
    case Located(_, id, _) => if id <= N_PARAMS then 2 * (N_PARAMS - id) + 1 else 2
  }

  predicate Succeeds(e: Event) {
    e == Find(true) || e == Flush(Done)
  }

  lemma PassGetsShorter(s: State, e: Event)
    requires Shape(s) && Enabled(s, e) && Succeeds(e)
    ensures PassLeft(Do(s, e).flusher) < PassLeft(s.flusher) && Do(s, e).dirty == s.dirty && !Do(s, e).halted
  {
  }

  /** A flush pass whose operations succeed ends, with nothing dirty. */
  lemma {:induction false} PassEnds(ss: seq<State>, es: seq<Event>, p: nat, k: nat)
    requires Run(ss, es) && p <= k <= |es| && !ss[p].halted && ss[p].dirty == {}
    requires forall i :: p <= i < k ==> Succeeds(es[i])
    ensures Shape(ss[k]) && !ss[k].halted && ss[k].dirty == {}
    ensures k - p <= PassLeft(ss[p].flusher) - PassLeft(ss[k].flusher)
    ensures (forall e :: Succeeds(e) ==> !Enabled(ss[k], e)) ==> ss[k].flusher.Sleeping?
  {
    hide Do, PassLeft;
    WriteBehind(ss, es, k);
    if p < k {
      PassEnds(ss, es, p, k - 1);
      PassGetsShorter(ss[k - 1], es[k - 1]);
    }
    assert Succeeds(Find(true)) && Succeeds(Flush(Done));
  }

  // ----- subscribers converge

  /** Some task still has to call this subscriber of the parameter. */
  ghost predicate CallPending(s: State, id: nat, sub: nat) {
    exists t :: 0 <= t < |s.threads| &&
      match s.threads[t]
      case Updated(i) => i == id
      case Notifying(i, rest) => i == id && sub in rest
      case _ => false
  }

  ghost predicate Informed(s: State, id: nat, sub: nat)
    requires Shape(s) && Cached(s, id)
  {
    (sub in s.seen && s.seen[sub] == Delivered(Data(s, id))) || CallPending(s, id, sub)
  }

  /** A subscriber belongs to one parameter; whoever calls subscribers calls those of a cached parameter. */
  ghost predicate ListInv(s: State) {
    && Shape(s)
    && (forall id, sub :: 0 <= id < N_PARAMS && sub in s.cache[id].subs ==> sub < s.nextSub)
    && (forall id, jd, sub ::
          0 <= id < N_PARAMS && 0 <= jd < N_PARAMS && sub in s.cache[id].subs && sub in s.cache[jd].subs ==> id == jd)
    && (forall t :: 0 <= t < |s.threads| ==> ThreadInv(s, s.threads[t]))
  }

  ghost predicate ThreadInv(s: State, thread: Thread)
    requires Shape(s)
  {
    match thread
    case Updated(id) => Cached(s, id)
    case Notifying(id, rest) => Cached(s, id) && forall sub :: sub in rest ==> sub in s.cache[id].subs
    case _ => true
  }

  ghost predicate DueInv(s: State) {
    && Shape(s)
    && forall id, sub :: 0 <= id < N_PARAMS && sub in s.due[id] ==>
         Cached(s, id) && sub in s.cache[id].subs && Informed(s, id, sub)
  }

  /** While a task calls subscribers, no entry is replaced: exclusive sections wait for it. */
  lemma NotifyingBlocksExclusive(s: State, e: Event, t: nat)
    requires Shape(s) && Enabled(s, e) && t < |s.threads| && s.threads[t].Notifying?
    ensures Do(s, e).cache == s.cache && Do(s, e).due == s.due
  {
    assert t in LockView(s).shared;
  }

  /** The second attempt of a read loads the record of the parameter into the cache. */
  predicate LoadsEntry(s: State, e: Event, id: nat)
    requires Shape(s) && Enabled(s, e)
  {
    e.ReadAgain? && e.ok && s.threads[e.t].id == id && !Cached(s, id) && id in s.flash
  }

  lemma SubscribersMove(s: State, e: Event, id: nat)
    requires Shape(s) && Enabled(s, e) && id < N_PARAMS
    ensures Shape(Do(s, e))
    ensures var subs := s.cache[id].subs;
            Do(s, e).cache[id].subs ==
              if LoadsEntry(s, e, id) then [] else if e.Subscribe? && e.id == id then [s.nextSub] + subs else subs
    ensures Do(s, e).nextSub == if e.Subscribe? then s.nextSub + 1 else s.nextSub
    ensures Cached(Do(s, e), id) <==> Cached(s, id) || LoadsEntry(s, e, id) || (e.Write? && e.id == id)
  {
    StepKeepsShape(s, e);
  }

  lemma DueIsOld(s: State, e: Event, id: nat, sub: nat)
    requires Shape(s) && Enabled(s, e) && id < N_PARAMS && sub in Do(s, e).due[id]
    ensures (e.Write? && e.id == id && !Unchanged(s.cache[id], e.d) && sub in s.cache[id].subs)
         || (sub in s.due[id] && (Cached(s, id) ==> Cached(Do(s, e), id) && Data(Do(s, e), id) == Data(s, id)))
  {
    StepKeepsShape(s, e);
  }

  /** A call that was pending is still pending, or has just delivered the current value. */
  lemma PendingMoves(s: State, e: Event, id: nat, sub: nat, t: nat)
    requires ListInv(s) && Enabled(s, e) && Cached(s, id) && sub in s.cache[id].subs && t < |s.threads|
    requires s.threads[t] == Updated(id)
          || (s.threads[t].Notifying? && s.threads[t].id == id && sub in s.threads[t].rest)
    ensures var s' := Do(s, e);
            CallPending(s', id, sub) || (sub in s'.seen && s'.seen[sub] == Delivered(Data(s, id)))
  {
    var s' := Do(s, e);
    if e == Call(t) {
      if s.threads[t].rest[0] != sub { assert s'.threads[t] == Notifying(id, s.threads[t].rest[1..]); }
    } else if e == BeginNotify(t) {
      assert s'.threads[t] == Notifying(id, s.cache[id].subs);
    } else {
      assert s'.threads[t] == s.threads[t];
    }
  }

  /** Another parameter's subscriber is called with another parameter's value. */
  lemma SeenMoves(s: State, e: Event, id: nat, sub: nat)
    requires ListInv(s) && Enabled(s, e) && Cached(s, id) && sub in s.cache[id].subs && sub in s.seen
    requires s.seen[sub] == Delivered(Data(s, id))
    ensures sub in Do(s, e).seen && Do(s, e).seen[sub] == Delivered(Data(s, id))
  {
    if e.Call? {
      assert ThreadInv(s, s.threads[e.t]);
      assert s.threads[e.t].rest[0] in s.threads[e.t].rest;
    }
  }

  lemma StepKeepsInformed(s: State, e: Event, id: nat, sub: nat)
    requires ListInv(s) && DueInv(s) && Enabled(s, e) && id < N_PARAMS && sub in Do(s, e).due[id]
    ensures Shape(Do(s, e)) && Cached(Do(s, e), id) && Informed(Do(s, e), id, sub)
  {
    var s' := Do(s, e);
    StepKeepsShape(s, e);
    DueIsOld(s, e, id, sub);
    if sub in s.due[id] && Data(s', id) == Data(s, id) {
      assert Informed(s, id, sub);
      if sub in s.seen && s.seen[sub] == Delivered(Data(s, id)) {
        SeenMoves(s, e, id, sub);
      } else {
        var t :| 0 <= t < |s.threads| && (s.threads[t] == Updated(id) ||
          (s.threads[t].Notifying? && s.threads[t].id == id && sub in s.threads[t].rest));
        PendingMoves(s, e, id, sub, t);
      }
    } else {
      assert s'.threads[e.t] == Updated(id);
    }
  }

  lemma StepKeepsDue(s: State, e: Event)
    requires ListInv(s) && DueInv(s) && Enabled(s, e)
    ensures DueInv(Do(s, e))
  {
    var s' := Do(s, e);
    StepKeepsShape(s, e);
    forall id, sub | 0 <= id < N_PARAMS && sub in s'.due[id]
      ensures Cached(s', id) && sub in s'.cache[id].subs && Informed(s', id, sub)
    {
      StepKeepsInformed(s, e, id, sub);
      DueIsOld(s, e, id, sub);
      if sub in s.due[id] { SubscribersMove(s, e, id); }
    }
  }

  lemma StepKeepsThread(s: State, e: Event, t: nat)
    requires ListInv(s) && Enabled(s, e) && t < |s.threads|
    ensures Shape(Do(s, e)) && ThreadInv(Do(s, e), Do(s, e).threads[t])
  {
    StepKeepsShape(s, e);
    assert ThreadInv(s, s.threads[t]);
    if s.threads[t].Notifying? {
      NotifyingBlocksExclusive(s, e, t);
      assert Do(s, e).threads[t] == s.threads[t] || e == Call(t) || e == EndNotify(t);
    }
  }

  lemma StepKeepsLists(s: State, e: Event)
    requires ListInv(s) && Enabled(s, e)
    ensures ListInv(Do(s, e))
  {
    var s' := Do(s, e);
    StepKeepsShape(s, e);
    forall t | 0 <= t < |s'.threads| ensures ThreadInv(s', s'.threads[t]) {
      StepKeepsThread(s, e, t);
    }
    forall id | 0 <= id < N_PARAMS
      ensures forall sub :: sub in s'.cache[id].subs ==>
                sub in s.cache[id].subs || (e.Subscribe? && e.id == id && sub == s.nextSub)
      ensures e.Subscribe? ==> s'.nextSub == s.nextSub + 1
      ensures !e.Subscribe? ==> s'.nextSub == s.nextSub
    {
    }
  }

  lemma {:induction false} NotifyInvHolds(ss: seq<State>, es: seq<Event>, k: nat)
    requires Run(ss, es) && k < |ss|
    ensures ListInv(ss[k]) && DueInv(ss[k])
  {
    if k > 0 {
      NotifyInvHolds(ss, es, k - 1);
      StepKeepsLists(ss[k - 1], es[k - 1]);
      StepKeepsDue(ss[k - 1], es[k - 1]);
    }
  }

  lemma {:induction false} StaysCached(ss: seq<State>, es: seq<Event>, j: nat, k: nat, id: nat)
    requires Path(ss, es) && j <= k < |ss| && Shape(ss[j]) && Cached(ss[j], id)
    ensures Shape(ss[k]) && Cached(ss[k], id)
  {
    hide Do;
    if j < k {
      StaysCached(ss, es, j, k - 1, id);
      StepKeepsShape(ss[k - 1], es[k - 1]);
    }
  }

  /** No load of the parameter between two points of a run. */
  ghost predicate NoLoad(ss: seq<State>, es: seq<Event>, j: nat, k: nat, id: nat)
    requires Path(ss, es) && j <= k <= |es|
  {
    forall i :: j <= i < k ==> !LoadsEntry(ss[i], es[i], id)
  }

  /** What can be told before the call: nothing is left to load. */
  predicate Settled(s: State, id: nat) {
    Cached(s, id) || id !in s.flash
  }

  lemma StaysSettled(s: State, e: Event, id: nat)
    requires Shape(s) && Enabled(s, e) && Settled(s, id)
    ensures Settled(Do(s, e), id) && !LoadsEntry(s, e, id)
  {
    StepKeepsShape(s, e);
  }

  /**
   A subscriber registered by event j is on the list at k if and only if the
   record was not loaded in between; so it always is when the parameter was
   cached at j, which a caller arranges by a get or set that succeeds before, or
   had no record.
   */
  lemma {:induction false} SubscriberStays(ss: seq<State>, es: seq<Event>, j: nat, k: nat, id: nat)
    requires Path(ss, es) && j < k <= |es| && es[j].Subscribe? && es[j].id == id
    ensures Shape(ss[k]) && ss[j].nextSub < ss[k].nextSub
    ensures ss[j].nextSub in ss[k].cache[id].subs <==> NoLoad(ss, es, j, k, id)
    ensures Settled(ss[j], id) ==> NoLoad(ss, es, j, k, id) && Settled(ss[k], id)
  {
    hide Do;
    SubscribersMove(ss[k - 1], es[k - 1], id);
    if j < k - 1 {
      SubscriberStays(ss, es, j, k - 1, id);
      assert NoLoad(ss, es, j, k, id) <==> NoLoad(ss, es, j, k - 1, id) && !LoadsEntry(ss[k - 1], es[k - 1], id);
    }
    if Settled(ss[k - 1], id) { StaysSettled(ss[k - 1], es[k - 1], id); }
  }

  /** A continuation of s that begins with this call of subscribe. */
  ghost predicate Subscribes(s: State, t: nat, id: nat, ss: seq<State>, es: seq<Event>) {
    Path(ss, es) && es != [] && ss[0] == s && es[0] == Subscribe(t, id)
  }

  predicate Listed(s: State, id: nat, sub: nat) {
    id < |s.cache| && sub in s.cache[id].subs
  }

  /**
   Exactly when subscribing is safe, to be checked before the call: the subscriber
   is on the list in every continuation if and only if the parameter is cached or
   has no record.
   */
  lemma SubscribeIsSafe(s: State, t: nat, id: nat)
    requires Shape(s) && Enabled(s, Subscribe(t, id))
    ensures (forall ss, es :: Subscribes(s, t, id, ss, es) ==> Listed(ss[|es|], id, s.nextSub)) <==> Settled(s, id)
  {
    if Settled(s, id) {
      forall ss, es | Subscribes(s, t, id, ss, es) ensures Listed(ss[|es|], id, s.nextSub) {
        SubscriberStays(ss, es, 0, |es|, id);
      }
    } else {
      var ss, es := LoadAfterSubscribe(s, t, id);
      assert Subscribes(s, t, id, ss, es) && !Listed(ss[|es|], id, s.nextSub);
    }
  }

  /** Subscribe, then read for the first time. */
  lemma LoadAfterSubscribe(s: State, t: nat, id: nat) returns (ss: seq<State>, es: seq<Event>)
    requires Shape(s) && Enabled(s, Subscribe(t, id)) && !Settled(s, id)
    ensures Path(ss, es) && es == [Subscribe(t, id), Read(t, id, []), ReadAgain(t, true)]
    ensures Shape(ss[3]) && ss[0] == s && ss[3].threads == s.threads && !ss[3].halted
    ensures ss[3].cache == s.cache[id := Load(s.flash[id])] && ss[3].seen == s.seen && ss[3].nextSub == s.nextSub + 1
  {
    ss, es := [s], [];
    ss, es := Extend(ss, es, Subscribe(t, id));
    ss, es := Extend(ss, es, Read(t, id, []));
    ss, es := Extend(ss, es, ReadAgain(t, true));
    assert s.threads[t := Missed(id, [])][t := Idle] == s.threads;
  }

  lemma Extend(ss: seq<State>, es: seq<Event>, e: Event) returns (ss': seq<State>, es': seq<Event>)
    requires Path(ss, es) && Shape(ss[|es|]) && Enabled(ss[|es|], e)
    ensures Path(ss', es') && ss' == ss + [Do(ss[|es|], e)] && es' == es + [e] && Shape(ss'[|es'|])
  {
    StepKeepsShape(ss[|es|], e);
    hide Do, Enabled;
    ss', es' := ss + [Do(ss[|es|], e)], es + [e];
  }

  /** Once a parameter is cached its list of subscribers only grows, at the front. */
  lemma {:induction false} SubscribersOnlyGrow(ss: seq<State>, es: seq<Event>, j: nat, k: nat, id: nat)
    requires Path(ss, es) && j <= k <= |es| && Shape(ss[j]) && Cached(ss[j], id)
    ensures Shape(ss[k])
    ensures var a, b := ss[j].cache[id].subs, ss[k].cache[id].subs;
            |a| <= |b| && b[|b| - |a|..] == a
  {
    hide Do, Enabled;
    if j < k {
      SubscribersOnlyGrow(ss, es, j, k - 1, id);
      StaysCached(ss, es, j, k - 1, id);
      SubscribersMove(ss[k - 1], es[k - 1], id);
    }
  }

  lemma ListedAndDue(s: State, e: Event, id: nat, sub: nat)
    requires Shape(s) && Enabled(s, e) && id < N_PARAMS && sub in s.cache[id].subs
    requires (e.Write? && e.id == id && !Unchanged(s.cache[id], e.d)) || (sub in s.due[id] && Cached(s, id))
    ensures Shape(Do(s, e)) && Cached(Do(s, e), id) && sub in Do(s, e).cache[id].subs && sub in Do(s, e).due[id]
  {
    StepKeepsShape(s, e);
  }

  /** Who is on the list at a changing write is due from then on. */
  lemma {:induction false} WriteMakesDue(ss: seq<State>, es: seq<Event>, w: nat, k: nat, id: nat, sub: nat)
    requires Path(ss, es) && w < k <= |es| && es[w].Write? && es[w].id == id
    requires !Unchanged(ss[w].cache[id], es[w].d) && sub in ss[w].cache[id].subs
    ensures Shape(ss[k]) && Cached(ss[k], id) && sub in ss[k].cache[id].subs && sub in ss[k].due[id]
  {
    hide Do;
    if w < k - 1 { WriteMakesDue(ss, es, w, k - 1, id, sub); }
    ListedAndDue(ss[k - 1], es[k - 1], id, sub);
  }

  /** A subscriber of a parameter that has not been called and is on no list that is. */
  ghost predicate Uncalled(s: State, id: nat, sub: nat) {
    && Shape(s) && sub < s.nextSub && sub !in s.seen
    && forall jd :: 0 <= jd < N_PARAMS && sub in s.cache[jd].subs ==> jd == id && !Cached(s, id)
  }

  lemma StepKeepsUncalled(s: State, e: Event, id: nat, sub: nat)
    requires ListInv(s) && Uncalled(s, id, sub) && Enabled(s, e) && id < N_PARAMS
    requires e.Write? && e.id == id ==> sub !in s.cache[id].subs
    ensures Uncalled(Do(s, e), id, sub)
    ensures sub !in s.cache[id].subs ==> sub !in Do(s, e).cache[id].subs
  {
    StepKeepsShape(s, e);
    if e.Call? { CallsAreListed(s, e.t); }
    hide ListInv;
    forall jd | 0 <= jd < N_PARAMS { SubscribersMove(s, e, jd); }
  }

  /** Whoever is called is on the list of a cached parameter. */
  lemma CallsAreListed(s: State, t: nat)
    requires ListInv(s) && Enabled(s, Call(t))
    ensures var Notifying(id, rest) := s.threads[t];
            rest[0] < s.nextSub && id < N_PARAMS && Cached(s, id) && rest[0] in s.cache[id].subs
  {
    assert ThreadInv(s, s.threads[t]);
    assert s.threads[t].rest[0] in s.threads[t].rest;
  }

  lemma NewIsUncalled(s: State, e: Event)
    requires ListInv(s) && Enabled(s, e) && e.Subscribe? && !Cached(s, e.id)
    requires forall sub :: sub in s.seen ==> sub < s.nextSub
    ensures Uncalled(Do(s, e), e.id, s.nextSub)
  {
    StepKeepsShape(s, e);
  }

  /** As long as the parameter is not cached its subscribers are not called. */
  lemma {:induction false} UncachedIsUncalled(ss: seq<State>, es: seq<Event>, j: nat, k: nat, id: nat)
    requires Run(ss, es) && j < k <= |es| && es[j].Subscribe? && es[j].id == id
    requires Shape(ss[k]) && !Cached(ss[k], id)
    ensures Uncalled(ss[k], id, ss[j].nextSub)
  {
    hide Do;
    NotifyInvHolds(ss, es, k - 1);
    SubscribersMove(ss[k - 1], es[k - 1], id);
    if j < k - 1 {
      UncachedIsUncalled(ss, es, j, k - 1, id);
      StepKeepsUncalled(ss[k - 1], es[k - 1], id, ss[j].nextSub);
    } else {
      SeenAreOld(ss, es, j);
      NewIsUncalled(ss[j], es[j]);
    }
  }

  lemma {:induction false} SeenAreOld(ss: seq<State>, es: seq<Event>, k: nat)
    requires Run(ss, es) && k <= |es|
    ensures forall sub :: sub in ss[k].seen ==> sub < ss[k].nextSub
  {
    if k > 0 {
      SeenAreOld(ss, es, k - 1);
      NotifyInvHolds(ss, es, k - 1);
      hide Init;
      StepKeepsSeenOld(ss[k - 1], es[k - 1]);
    }
  }

  lemma StepKeepsSeenOld(s: State, e: Event)
    requires ListInv(s) && Enabled(s, e) && forall sub :: sub in s.seen ==> sub < s.nextSub
    ensures forall sub :: sub in Do(s, e).seen ==> sub < Do(s, e).nextSub
  {
    if e.Call? { CallsAreListed(s, e.t); }
    hide ListInv;
  }

  /** Whoever was dropped by a load is never called. */
  lemma {:induction false} DroppedIsNeverCalled(ss: seq<State>, es: seq<Event>, j: nat, i: nat, k: nat, id: nat)
    requires Run(ss, es) && j < i < k <= |es| && es[j].Subscribe? && es[j].id == id && LoadsEntry(ss[i], es[i], id)
    ensures Uncalled(ss[k], id, ss[j].nextSub) && ss[j].nextSub !in ss[k].cache[id].subs
  {
    hide Do;
    NotifyInvHolds(ss, es, k - 1);
    if i == k - 1 {
      UncachedIsUncalled(ss, es, j, i, id);
      SubscribersMove(ss[i], es[i], id);
    } else {
      DroppedIsNeverCalled(ss, es, j, i, k - 1, id);
    }
    StepKeepsUncalled(ss[k - 1], es[k - 1], id, ss[j].nextSub);
  }

  /** No writer of the parameter is between its exclusive phase and the end of its notify phase. */
  predicate Quiet(s: State, id: nat) {
    forall t :: 0 <= t < |s.threads| ==>
      match s.threads[t] case Updated(i) => i != id case Notifying(i, _) => i != id case _ => true
  }

  /**
   However tasks interleave: a subscriber registered by event j, followed by a
   changing write w of its parameter, was last called with the current value at
   every later point where no notify is pending, if and only if the record was not
   loaded between j and w; otherwise it is never called.  A call of subscribe that
   is safe is never followed by a load.
   */
  lemma SubscribersConverge(ss: seq<State>, es: seq<Event>, j: nat, w: nat, k: nat, id: nat)
    requires Run(ss, es) && j < w < k <= |es| && es[j].Subscribe? && es[j].id == id
    requires es[w].Write? && es[w].id == id && !Unchanged(ss[w].cache[id], es[w].d) && Quiet(ss[k], id)
    ensures Shape(ss[k]) && Cached(ss[k], id)
    ensures var sub, seen := ss[j].nextSub, ss[k].seen;
            if NoLoad(ss, es, j, w, id) then sub in seen && seen[sub] == Delivered(Data(ss[k], id)) else sub !in seen
    ensures Settled(ss[j], id) ==> NoLoad(ss, es, j, w, id)
  {
    hide Do;
    var sub := ss[j].nextSub;
    SubscriberStays(ss, es, j, w, id);
    NotifyInvHolds(ss, es, k);
    SubscribersMove(ss[w], es[w], id);
    StaysCached(ss, es, w + 1, k, id);
    if NoLoad(ss, es, j, w, id) {
      WriteMakesDue(ss, es, w, k, id, sub);
      assert Informed(ss[k], id, sub);
    } else {
      var i :| j <= i < w && LoadsEntry(ss[i], es[i], id);
      DroppedIsNeverCalled(ss, es, j, i, k, id);
    }
  }

  /**
   How a subscriber is lost, from every reachable state in which subscribing is not
   safe: it registers, the first read loads the record, and a write of another
   value ends without a call.
   */
  lemma LostSubscriber(ss: seq<State>, es: seq<Event>, t: nat, id: nat, d: seq<byte>)
      returns (ss': seq<State>, es': seq<Event>)
    requires Run(ss, es) && Shape(ss[|es|]) && Enabled(ss[|es|], Subscribe(t, id)) && !Settled(ss[|es|], id)
    requires d != ss[|es|].flash[id]
    ensures Path(ss', es') && |es'| == 6 && ss'[0] == ss[|es|]
    ensures es'[0] == Subscribe(t, id) && es'[3] == Write(t, id, d) && !Unchanged(ss'[3].cache[id], d)
    ensures Quiet(ss'[6], id) && Cached(ss'[6], id) && ss[|es|].nextSub !in ss'[6].seen
  {
    SeenAreOld(ss, es, |es|);
    NotifyInvHolds(ss, es, |es|);
    UncachedIsQuiet(ss[|es|], id);
    assert MayExclude(LockView(ss[|es|]));
    hide Run, ListInv, DueInv, MayExclude;
    ss', es' := LoadAfterSubscribe(ss[|es|], t, id);
    assert LockView(ss'[3]) == LockView(ss[|es|]);
    ss', es' := WriteCallsNobody(ss', es', t, id, d);
  }

  lemma UncachedIsQuiet(s: State, id: nat)
    requires ListInv(s) && !Cached(s, id)
    ensures Quiet(s, id)
  {
    forall t | 0 <= t < |s.threads| ensures ThreadInv(s, s.threads[t]) {
    }
  }

  lemma WriteCallsNobody(ss: seq<State>, es: seq<Event>, t: nat, id: nat, d: seq<byte>)
      returns (ss': seq<State>, es': seq<Event>)
    requires Path(ss, es) && Shape(ss[|es|]) && !ss[|es|].halted && MayExclude(LockView(ss[|es|]))
    requires IdleAt(ss[|es|], t) && id < N_PARAMS && Quiet(ss[|es|], id)
    requires Cached(ss[|es|], id) && ss[|es|].cache[id].subs == [] && !Unchanged(ss[|es|].cache[id], d)
    ensures Path(ss', es') && ss <= ss' && es' == es + [Write(t, id, d), BeginNotify(t), EndNotify(t)]
    ensures var s' := ss'[|es'|];
            Shape(s') && Quiet(s', id) && Cached(s', id) && s'.seen == ss[|es|].seen
  {
    ss', es' := Extend(ss, es, Write(t, id, d));
    ss', es' := Extend(ss', es', BeginNotify(t));
    ss', es' := Extend(ss', es', EndNotify(t));
  }

  // ----- reads refine a plain map

  /** The value of a parameter as its users see it: the cached words, else the record in flash. */
  ghost function Value(s: State, id: nat): Option<seq<byte>>
    requires Shape(s)
  {
    if Cached(s, id) then Some(Data(s, id))
    else if id in s.flash then Some(s.flash[id])
    else None
  }

  /** Every write of a parameter has the length that its type fixes. */
  predicate RightLength(e: Event, len: seq<nat>)
    requires |len| == N_PARAMS
  {
    e.Write? && e.id < N_PARAMS ==> |e.d| == len[e.id]
  }

  ghost predicate LengthInv(s: State, len: seq<nat>) {
    && Shape(s) && |len| == N_PARAMS
    && forall id :: 0 <= id < N_PARAMS ==> OneLength(s.cache[id], len[id])
  }

  lemma StepKeepsLength(s: State, e: Event, len: seq<nat>)
    requires LengthInv(s, len) && Enabled(s, e) && RightLength(e, len)
    ensures LengthInv(Do(s, e), len)
  {
    StepKeepsShape(s, e);
    if e.Write? { StoreOneLength(s.cache[e.id], e.d); }
  }

  lemma LoadKeepsValue(s: State, e: Event, id: nat)
    requires Shape(s) && Enabled(s, e) && e.ReadAgain? && id < N_PARAMS
    ensures Shape(Do(s, e)) && Value(Do(s, e), id) == Value(s, id)
  {
    var i := s.threads[e.t].id;
    if i in s.flash { assert Current(Load(s.flash[i])) == s.flash[i]; }
  }

  lemma OthersKeepValue(s: State, e: Event, id: nat)
    requires Shape(s) && Enabled(s, e) && !e.ReadAgain? && !(e.Write? && e.id == id) && id < N_PARAMS
    ensures Shape(Do(s, e)) && Value(Do(s, e), id) == Value(s, id)
  {
    StepKeepsShape(s, e);
    if Cached(s, id) { DataStays(s, e, id); }
  }

  /** A write sets its parameter; loads, flushes, notifications and subscriptions change no value. */
  lemma StepRefinesMap(s: State, e: Event, len: seq<nat>, id: nat)
    requires LengthInv(s, len) && Enabled(s, e) && RightLength(e, len) && id < N_PARAMS
    ensures Shape(Do(s, e))
    ensures Value(Do(s, e), id) == if e.Write? && e.id == id then Some(e.d) else Value(s, id)
  {
    if e.Write? && e.id == id {
      StepKeepsShape(s, e);
      StoreOneLength(s.cache[id], e.d);
    } else if e.ReadAgain? {
      LoadKeepsValue(s, e, id);
    } else {
      OthersKeepValue(s, e, id);
    }
  }

  /** The latest write of a parameter in lock order, or its value before the run. */
  function Latest(before: Option<seq<byte>>, es: seq<Event>, id: nat): Option<seq<byte>> {
    if es == [] then before
    else
      var e := es[|es| - 1];
      if e.Write? && e.id == id then Some(e.d) else Latest(before, es[..|es| - 1], id)
  }

  lemma {:induction false} RunRefinesMap(ss: seq<State>, es: seq<Event>, k: nat, len: seq<nat>, id: nat)
    requires Run(ss, es) && k < |ss| && |len| == N_PARAMS && id < N_PARAMS
    requires forall i :: 0 <= i < |es| ==> RightLength(es[i], len)
    ensures LengthInv(ss[k], len) && Shape(ss[0])
    ensures Value(ss[k], id) == Latest(Value(ss[0], id), es[..k], id)
  {
    if k > 0 {
      RunRefinesMap(ss, es, k - 1, len, id);
      StepKeepsLength(ss[k - 1], es[k - 1], len);
      StepRefinesMap(ss[k - 1], es[k - 1], len, id);
      assert es[..k][..k - 1] == es[..k - 1];
    }
  }

  /** Once a parameter was written, or read with success, it stays cached. */
  lemma UseCaches(ss: seq<State>, es: seq<Event>, u: nat, k: nat, id: nat, buf: seq<byte>)
    requires Path(ss, es) && u < k <= |es|
    requires (es[u].Write? && es[u].id == id)
          || (Reads(ss[u], es[u], id, buf) && Result(ss[u], es[u]).Some? && Result(ss[u], es[u]).value.Hit?)
    ensures Shape(ss[k]) && Cached(ss[k], id)
  {
    StepKeepsShape(ss[u], es[u]);
    StaysCached(ss, es, u + 1, k, id);
  }

  // ----- write-behind to the last byte

  /** The lengths that param<T> writes for values of these sizes. */
  function Lengths(sizes: seq<nat>): (len: seq<nat>)
    ensures |len| == |sizes|
  {
    seq(|sizes|, i requires 0 <= i < |sizes| => ParamSize(sizes[i]))
  }

  /** A run in which every write of a parameter has the length of its type. */
  ghost predicate TypedRun(ss: seq<State>, es: seq<Event>, sizes: seq<nat>) {
    && Run(ss, es) && |sizes| == N_PARAMS
    && forall i :: 0 <= i < |es| ==> RightLength(es[i], Lengths(sizes))
  }

  ghost predicate WholeInv(s: State) {
    FlushInv(s) && forall id :: Cached(s, id) ==> |Data(s, id)| % 4 == 0
  }

  lemma StepKeepsWhole(s: State, e: Event, sizes: seq<nat>)
    requires |sizes| == N_PARAMS && WholeInv(s) && LengthInv(s, Lengths(sizes))
    requires Enabled(s, e) && RightLength(e, Lengths(sizes))
    ensures WholeInv(Do(s, e)) && LengthInv(Do(s, e), Lengths(sizes))
  {
    StepKeepsFlushInv(s, e);
    StepKeepsLength(s, e, Lengths(sizes));
    forall id: nat | Cached(Do(s, e), id) ensures |Data(Do(s, e), id)| % 4 == 0 {
      StepRefinesMap(s, e, Lengths(sizes), id);
      ParamSizeIsWholeWords(sizes[id]);
    }
  }

  lemma {:induction false} RunKeepsWhole(ss: seq<State>, es: seq<Event>, k: nat, sizes: seq<nat>)
    requires TypedRun(ss, es, sizes) && k < |ss|
    ensures WholeInv(ss[k]) && LengthInv(ss[k], Lengths(sizes))
  {
    if k > 0 {
      RunKeepsWhole(ss, es, k - 1, sizes);
      StepKeepsWhole(ss[k - 1], es[k - 1], sizes);
    }
  }

  /**
   In every state of every run of typed parameters a cached parameter is in flash
   to the last byte, or dirty, or still to be written by the current pass.
   */
  lemma NoTailIsLost(ss: seq<State>, es: seq<Event>, k: nat, sizes: seq<nat>, id: nat)
    requires TypedRun(ss, es, sizes) && k < |ss| && Shape(ss[k]) && Cached(ss[k], id)
    ensures var s := ss[k];
            (id in s.flash && s.flash[id] == Data(s, id)) || id in s.dirty || InPass(s.flusher, id)
  {
    RunKeepsWhole(ss, es, k, sizes);
    assert Coherent(ss[k], id);
    WholeWordsKeepsAll(Data(ss[k], id));
  }

  function Record(s: State, id: nat): Option<seq<byte>> {
    if id in s.flash then Some(s.flash[id]) else None
  }

  /** With the flush task asleep and nothing dirty, flash is the map of the latest writes. */
  lemma QuietMeansStored(ss: seq<State>, es: seq<Event>, k: nat, sizes: seq<nat>, id: nat)
    requires TypedRun(ss, es, sizes) && k < |ss| && id < N_PARAMS
    requires ss[k].flusher.Sleeping? && ss[k].dirty == {}
    ensures Shape(ss[0]) && Record(ss[k], id) == Latest(Value(ss[0], id), es[..k], id)
  {
    RunRefinesMap(ss, es, k, Lengths(sizes), id);
    RunKeepsWhole(ss, es, k, sizes);
    if Cached(ss[k], id) {
      SleepingMeansStored(ss[k], id);
      WholeWordsKeepsAll(Data(ss[k], id));
    }
  }

  /**
   In any run, from the moment the flush task takes its notification: while flush
   operations succeed and nothing else happens the pass ends within a bound, and
   flash then is the map of the latest writes.
   */
  lemma PassStoresEverything(ss: seq<State>, es: seq<Event>, p: nat, sizes: seq<nat>)
    requires TypedRun(ss, es, sizes) && p < |es| && es[p].Wake?
    requires forall i :: p < i < |es| ==> Succeeds(es[i])
    ensures Shape(ss[0]) && Shape(ss[|es|])
    ensures |es| - p - 1 <= 2 * N_PARAMS + 2
    ensures (forall e :: Succeeds(e) ==> !Enabled(ss[|es|], e)) ==>
              forall id :: 0 <= id < N_PARAMS ==> Record(ss[|es|], id) == Latest(Value(ss[0], id), es, id)
  {
    WakeTakesAll(ss[p], es[p]);
    hide Do, Enabled, PassLeft, Latest, Value, Record, Init;
    PassEnds(ss, es, p + 1, |es|);
    RunKeepsWhole(ss, es, 0, sizes);
    if forall e :: Succeeds(e) ==> !Enabled(ss[|es|], e) {
      assert es[..|es|] == es;
      forall id | 0 <= id < N_PARAMS ensures Record(ss[|es|], id) == Latest(Value(ss[0], id), es, id) {
        QuietMeansStored(ss, es, |es|, sizes, id);
      }
    }
  }

  lemma WakeTakesAll(s: State, e: Event)
    requires Shape(s) && Enabled(s, e) && e.Wake?
    ensures Do(s, e).dirty == {} && !Do(s, e).halted && PassLeft(Do(s, e).flusher) <= 2 * N_PARAMS + 2
  {
  }

  /** Operations until flash is up to date (at most) when every one of them succeeds. */
  function FlushLeft(s: State): nat {
    PassLeft(s.flusher) + if s.dirty == {} then 0 else 2 * N_PARAMS + 3
  }

  lemma NextFlush(s: State) returns (e: Event)
    requires FlushInv(s) && !s.halted && (!s.flusher.Sleeping? || s.dirty != {})
    ensures (e.Wake? || Succeeds(e)) && Enabled(s, e) && FlushLeft(Do(s, e)) < FlushLeft(s) && !Do(s, e).halted
  {
    e := match s.flusher
      case Sleeping => Wake
      case Scan(_, _) => Find(true)
      case Located(_, _, _) => Flush(Done);
    if e.Wake? { WakeTakesAll(s, e); } else { PassGetsShorter(s, e); }
  }

  /**
   Every write gets to flash: any run that has not halted can be continued by at
   most 25 flush operations after which flash is the map of its latest writes.
   */
  lemma {:induction false} FlushCompletes(ss: seq<State>, es: seq<Event>, sizes: seq<nat>)
      returns (ss': seq<State>, es': seq<Event>)
    requires TypedRun(ss, es, sizes) && !ss[|es|].halted
    ensures TypedRun(ss', es', sizes) && ss <= ss' && es <= es'
    ensures |es'| - |es| <= FlushLeft(ss[|es|]) <= 4 * N_PARAMS + 5
    ensures forall i :: |es| <= i < |es'| ==> es'[i].Wake? || Succeeds(es'[i])
    ensures ss'[|es'|].flusher.Sleeping? && ss'[|es'|].dirty == {} && Shape(ss'[0])
    ensures forall id :: 0 <= id < N_PARAMS ==> Record(ss'[|es'|], id) == Latest(Value(ss'[0], id), es, id)
    decreases FlushLeft(ss[|es|])
  {
    assert FlushLeft(ss[|es|]) <= 4 * N_PARAMS + 5;
    hide Do, Enabled, FlushLeft, Latest, Value, Record, Init;
    RunKeepsWhole(ss, es, |es|, sizes);
    RunKeepsWhole(ss, es, 0, sizes);
    var s := ss[|es|];
    if s.flusher.Sleeping? && s.dirty == {} {
      ss', es' := ss, es;
      assert es[..|es|] == es;
      forall id | 0 <= id < N_PARAMS ensures Record(s, id) == Latest(Value(ss[0], id), es, id) {
        QuietMeansStored(ss, es, |es|, sizes, id);
      }
    } else {
      var e := NextFlush(s);
      var tt, fs := Extend(ss, es, e);
      ss', es' := FlushCompletes(tt, fs, sizes);
      forall id | 0 <= id < N_PARAMS ensures Latest(Value(ss'[0], id), fs, id) == Latest(Value(ss'[0], id), es, id) {
        LatestSkips(Value(ss'[0], id), es, e, id);
      }
    }
  }

  lemma LatestSkips(before: Option<seq<byte>>, es: seq<Event>, e: Event, id: nat)
    requires !e.Write?
    ensures Latest(before, es + [e], id) == Latest(before, es, id)
  {
    assert (es + [e])[..|es|] == es;
  }

  /** Every store looks the record up first, also when it is repeated for want of space. */
  lemma {:induction false} EveryStoreLooksUp(ss: seq<State>, es: seq<Event>, i: nat, k: nat)
    requires Path(ss, es) && i < k < |es| && es[i].Flush? && forall j :: i < j < k ==> !es[j].Find?
    ensures !ss[k].flusher.Located? && !es[k].Flush?
  {
    hide Do;
    if i < k - 1 { EveryStoreLooksUp(ss, es, i, k - 1); }
    OnlyFindLocates(ss[k - 1], es[k - 1]);
  }

  lemma OnlyFindLocates(s: State, e: Event)
    requires Shape(s) && Enabled(s, e) && !e.Find? && (s.flusher.Located? ==> e.Flush?)
    ensures !Do(s, e).flusher.Located? || Do(s, e).halted
  {
  }

  /** Only a write that changes its parameter makes it dirty: nothing else wears the flash. */
  lemma DirtyByChange(s: State, e: Event, id: nat)
    requires Shape(s) && Enabled(s, e)
    ensures id in Do(s, e).dirty && id !in s.dirty ==> e.Write? && e.id == id && !Unchanged(s.cache[id], e.d)
  {
  }

  /** The system halts at a flash error, that is on a failed lookup or store of a flagged parameter, and only there. */
  lemma HaltsOnFlashErrors(ss: seq<State>, es: seq<Event>, k: nat)
    requires Run(ss, es) && k < |es|
    ensures var f := ss[k].flusher;
            ss[k + 1].halted <==>
              || es[k] == Flush(FlashError)
              || (es[k] == Find(false) && f.id < N_PARAMS && f.id in f.flags)
  {
    if ss[k].flusher.Scan? { MaskSurvivesBelow16(ss[k].flusher.id); }
  }

  // ----- what reads return

  /** The event reads parameter id into the buffer. */
  predicate Reads(s: State, e: Event, id: nat, buf: seq<byte>) {
    match e
    case Read(_, i, b) => i == id && b == buf
    case ReadAgain(t, _) => t < |s.threads| && s.threads[t] == Missed(id, buf)
    case _ => false
  }

  /**
   Every successful read returns the latest write in lock order, or the record
   that was in flash; a read finds nothing only when there is neither.
   */
  lemma ReadsReturnTheLatestWrite(ss: seq<State>, es: seq<Event>, k: nat, len: seq<nat>, id: nat, buf: seq<byte>)
    requires Run(ss, es) && k < |es| && |len| == N_PARAMS && id < N_PARAMS && Reads(ss[k], es[k], id, buf)
    requires forall i :: 0 <= i < |es| ==> RightLength(es[i], len)
    ensures Shape(ss[0])
    ensures var latest := Latest(Value(ss[0], id), es[..k], id);
            match Result(ss[k], es[k])
            case Some(Hit(data)) => latest.Some? && data == Overlay(latest.value, buf)
            case Some(Missing) => latest.None?
            case _ => true
  {
    RunRefinesMap(ss, es, k, len, id);
  }

  /** What every attempt of a read answers: a hit always has data, and a failure has exactly one cause. */
  lemma ReadAnswers(s: State, e: Event, id: nat, buf: seq<byte>)
    requires Shape(s) && Enabled(s, e) && Reads(s, e, id, buf)
    ensures var r := Result(s, e);
            && (Cached(s, id) || (e.ReadAgain? && id in s.flash && e.ok) <==> r.Some? && r.value.Hit?)
            && (e.Read? && !Cached(s, id) <==> r.None?)
            && (e.ReadAgain? && !Cached(s, id) && id !in s.flash <==> r == Some(Missing))
            && (e.ReadAgain? && !Cached(s, id) && id in s.flash && !e.ok <==> r == Some(IoError))
    ensures var r := Result(s, e);
            r.Some? && r.value.Hit? ==>
              var d := if Cached(s, id) then Data(s, id) else s.flash[id];
              && |r.value.data| == |buf|
              && forall p :: 0 <= p < |buf| ==> r.value.data[p] == if p < |d| then d[p] else buf[p]
  {
  }

  /** The second attempt of a read is for the same parameter and into the same buffer as the first. */
  lemma {:induction false} SecondAttemptGoesOn(ss: seq<State>, es: seq<Event>, j: nat, k: nat,
                                               t: nat, id: nat, buf: seq<byte>)
    requires Path(ss, es) && j < k <= |es| && es[j] == Read(t, id, buf) && !Cached(ss[j], id)
    requires forall i :: j < i < k ==> !es[i].ReadAgain? || es[i].t != t
    ensures t < |ss[k].threads| && ss[k].threads[t] == Missed(id, buf)
    ensures k < |es| && es[k].ReadAgain? && es[k].t == t ==> Reads(ss[k], es[k], id, buf)
  {
    hide Do;
    if j < k - 1 { SecondAttemptGoesOn(ss, es, j, k - 1, t, id, buf); }
    MissedStays(ss[k - 1], es[k - 1], t);
  }

  lemma MissedStays(s: State, e: Event, t: nat)
    requires Shape(s) && Enabled(s, e) && t < |s.threads|
    ensures t < |Do(s, e).threads|
    ensures s.threads[t].Missed? && !(e.ReadAgain? && e.t == t) ==> Do(s, e).threads[t] == s.threads[t]
    ensures e.Read? && e.t == t && !Cached(s, e.id) ==> Do(s, e).threads[t] == Missed(e.id, e.buf)
  {
  }

  /** Once a parameter was set, its reads cannot fail. */
  lemma GetAfterSetSucceeds(ss: seq<State>, es: seq<Event>, u: nat, k: nat, id: nat, buf: seq<byte>)
    requires Run(ss, es) && u < k < |es| && es[u].Write? && es[u].id == id && Reads(ss[k], es[k], id, buf)
    ensures Shape(ss[k]) && Result(ss[k], es[k]).Some? && Result(ss[k], es[k]).value.Hit?
  {
    UseCaches(ss, es, u, k, id, buf);
  }

  /** param<T>::get on what the backend's read returned. */
  function Get(version: nat, valueSize: nat, r: ReadResult): GetResult
    requires r.Hit? ==> |r.data| >= HDR_SIZE + valueSize
  {
    match r
    case Hit(d) => Decode(version, valueSize, d)
    case Missing => NotFound
    case IoError => Failed
  }

  /**
   param<T>::get after param<T>::set, in any run: the value set last comes back to
   a parameter of the same version, any other version is refused.
   */
  lemma GetReturnsLastSet(ss: seq<State>, es: seq<Event>, k: nat, len: seq<nat>, id: nat, buf: seq<byte>,
                          version: nat, value: seq<byte>, pad: seq<byte>, expected: nat)
    requires Run(ss, es) && k < |es| && |len| == N_PARAMS && id < N_PARAMS && Reads(ss[k], es[k], id, buf)
    requires forall i :: 0 <= i < |es| ==> RightLength(es[i], len)
    requires version < 0x1_0000 && |pad| == Padding(|value|) && |buf| == ParamSize(|value|)
    requires Shape(ss[0]) && Latest(Value(ss[0], id), es[..k], id) == Some(Encode(version, value, pad))
    ensures match Result(ss[k], es[k])
            case Some(r) =>
              && (r.Hit? ==> |r.data| == |buf|)
              && Get(expected, |value|, r) ==
                   (if r.IoError? then Failed else if expected == version then GetResult.Value(value) else WrongVersion)
            case None => true
  {
    ReadsReturnTheLatestWrite(ss, es, k, len, id, buf);
    ParamRoundTrip(version, value, pad, buf, expected);
  }

  /**
   What a subscriber is called with: once nothing is pending after a changing write,
   the bytes it was called with last begin with the value that was set last, and
   the length is that of the whole record.
   */
  lemma SubscribersGetTheValue(ss: seq<State>, es: seq<Event>, j: nat, w: nat, k: nat, sizes: seq<nat>, id: nat,
                               version: nat, value: seq<byte>, pad: seq<byte>)
    requires TypedRun(ss, es, sizes) && j < w < k <= |es| && es[j].Subscribe? && es[j].id == id < N_PARAMS
    requires es[w].Write? && es[w].id == id && !Unchanged(ss[w].cache[id], es[w].d) && Quiet(ss[k], id)
    requires NoLoad(ss, es, j, w, id) || Settled(ss[j], id)
    requires version < 0x1_0000 && |pad| == Padding(|value|)
    requires Shape(ss[0]) && Latest(Value(ss[0], id), es[..k], id) == Some(Encode(version, value, pad))
    ensures ss[j].nextSub in ss[k].seen
    ensures var call := ss[k].seen[ss[j].nextSub];
            && call.length == ParamSize(|value|)
            && |value| <= |call.bytes| && call.bytes[..|value|] == value
  {
    SubscribersConverge(ss, es, j, w, k, id);
    RunRefinesMap(ss, es, k, Lengths(sizes), id);
    EncodeLayout(version, value, pad);
    var d := Encode(version, value, pad);
    assert d[2..][..|value|] == d[2..2 + |value|];
  }

  // ----- no task is stuck

  /** An idle task can always call read, and write or subscribe whenever nobody calls subscribers. */
  lemma IdleTasksCanCall(s: State, t: nat, id: nat, d: seq<byte>)
    requires Shape(s) && !s.halted && IdleAt(s, t) && id < N_PARAMS
    ensures Enabled(s, Read(t, id, d))
    ensures (forall u :: 0 <= u < |s.threads| ==> !s.threads[u].Notifying?)
            <==> Enabled(s, Write(t, id, d)) && Enabled(s, Subscribe(t, id))
  {
    forall u | 0 <= u < |s.threads| && s.threads[u].Notifying? ensures u in LockView(s).shared {
    }
    if forall u :: 0 <= u < |s.threads| ==> !s.threads[u].Notifying? {
      assert LockView(s).shared == {};
    }
  }

  /** Steps a task still has to take in its call (at most), while nobody else subscribes. */
  function ThreadLeft(s: State, t: nat): nat
    requires Shape(s) && t < |s.threads|
  {
    match s.threads[t]
    case Idle => 0
    case Missed(_, _) => 1
    case Updated(id) => 3 + if id < N_PARAMS then |s.cache[id].subs| else 0
    case Notifying(_, rest) => 1 + |rest|
  }

  /** A task inside a call can take its next step, or another one inside a shared section can. */
  lemma NoTaskIsStuck(ss: seq<State>, es: seq<Event>, k: nat, t: nat) returns (e: Event)
    requires Run(ss, es) && k < |ss| && !ss[k].halted && t < |ss[k].threads| && !ss[k].threads[t].Idle?
    ensures Shape(ss[k]) && Enabled(ss[k], e) && (e.ReadAgain? || e.BeginNotify? || e.Call? || e.EndNotify?)
    ensures e.t == t || (ss[k].threads[t].Missed? && ss[k].threads[e.t].Notifying?)
    ensures Shape(Do(ss[k], e)) && ThreadLeft(Do(ss[k], e), e.t) < ThreadLeft(ss[k], e.t)
  {
    NotifyInvHolds(ss, es, k);
    MissedIds(ss, es, k, t);
    hide Run;
    var s, u := ss[k], t;
    if s.threads[t].Missed? && !MayExclude(LockView(s)) {
      u :| u in LockView(s).shared;
    }
    assert ThreadInv(s, s.threads[u]);
    e := match s.threads[u]
      case Missed(_, _) => ReadAgain(t, true)
      case Updated(_) => BeginNotify(u)
      case Notifying(_, rest) => if rest == [] then EndNotify(u) else Call(u);
    hide ListInv, DueInv;
    StepKeepsShape(s, e);
  }

  lemma ThreadsStay(s: State, e: Event, t: nat)
    requires Shape(s) && Enabled(s, e)
    ensures |Do(s, e).threads| == |s.threads|
    ensures t < |s.threads| && Do(s, e).threads[t].Missed? ==>
              Do(s, e).threads[t] == s.threads[t] || Do(s, e).threads[t].id < N_PARAMS
  {
  }

  lemma {:induction false} MissedIds(ss: seq<State>, es: seq<Event>, k: nat, t: nat)
    requires Run(ss, es) && k < |ss| && t < |ss[k].threads|
    ensures ss[k].threads[t].Missed? ==> ss[k].threads[t].id < N_PARAMS
  {
    hide Do;
    if k > 0 {
      ThreadsStay(ss[k - 1], es[k - 1], t);
      MissedIds(ss, es, k - 1, t);
    }
  }

  // ----- the loop of the flush task

  /** Only cached parameters are flagged. */
  predicate Sound(cache: seq<Entry>, flags: set<nat>) {
    && |cache| == N_PARAMS && (forall i :: 0 <= i < N_PARAMS ==> ValidEntry(cache[i]))
    && forall i :: i in flags ==> i < N_PARAMS && cache[i].block.Some?
  }

  /** What a pass over the parameters below `end` leaves in flash. */
  ghost predicate Flushed(cache: seq<Entry>, flags: set<nat>,
                          before: map<nat, seq<byte>>, after: map<nat, seq<byte>>, end: nat)
    requires Sound(cache, flags)
  {
    && (forall i :: i in flags && i < end ==> i in after && after[i] == WholeWords(Current(cache[i])))
    && (forall i :: i !in flags || i >= end ==>
          (i in after <==> i in before) && (i in before ==> after[i] == before[i]))
  }

  /** The outcomes that are not "no space": one for each parameter that a pass stores. */
  function Answers(results: seq<FlashResult>): seq<FlashResult> {
    if results == [] then []
    else if results[0].NoSpace? then Answers(results[1..])
    else [results[0]] + Answers(results[1..])
  }

  ghost function FlagsBelow(flags: set<nat>, id: nat): set<nat> {
    set i | i in flags && i < id
  }

  /** The pass is at this parameter: the answers for the flagged ones before it are used up, none was an error. */
  ghost predicate Progress(flags: set<nat>, answers: seq<FlashResult>, left: seq<FlashResult>, id: nat) {
    var n := |FlagsBelow(flags, id)|;
    && Answers(left) == answers[Min(n, |answers|)..]
    && forall i :: 0 <= i < n && i < |answers| ==> !answers[i].FlashError?
  }

  /** One of the first answers, as many as there are flags, is an error. */
  ghost predicate MeetsError(flags: set<nat>, answers: seq<FlashResult>) {
    exists i :: 0 <= i < |flags| && i < |answers| && answers[i].FlashError?
  }

  lemma CountFlags(flags: set<nat>, id: nat)
    ensures |FlagsBelow(flags, id + 1)| == |FlagsBelow(flags, id)| + if id in flags then 1 else 0
    ensures |FlagsBelow(flags, id)| + (if id in flags then 1 else 0) <= |flags|
  {
    assert FlagsBelow(flags, id + 1) == FlagsBelow(flags, id) + if id in flags then {id} else {};
    assert id !in FlagsBelow(flags, id);
    Fewer(FlagsBelow(flags, id + 1), flags);
  }

  lemma Fewer(a: set<nat>, b: set<nat>)
    requires a <= b
    ensures |a| <= |b|
  {
    assert b == a + (b - a);
  }

  lemma ProgressMoves(flags: set<nat>, answers: seq<FlashResult>,
                      left: seq<FlashResult>, left': seq<FlashResult>, id: nat)
    requires Progress(flags, answers, left, id)
    requires id !in flags ==> left' == left
    requires id in flags ==> Answers(left') == Answers(left)[Min(1, |Answers(left)|)..]
    ensures id in flags && Answers(left) != [] && Answers(left)[0].FlashError? ==> MeetsError(flags, answers)
    ensures !(id in flags && Answers(left) != [] && Answers(left)[0].FlashError?) ==>
              Progress(flags, answers, left', id + 1)
  {
    hide Answers;
    CountFlags(flags, id);
    var n := |FlagsBelow(flags, id)|;
    if id in flags && Answers(left) != [] {
      assert Answers(left)[0] == answers[n];
    }
  }

  lemma ProgressEnds(flags: set<nat>, answers: seq<FlashResult>, left: seq<FlashResult>, end: nat)
    requires Progress(flags, answers, left, end) && forall i :: i in flags ==> i < end
    ensures !MeetsError(flags, answers)
  {
    hide Answers;
    assert FlagsBelow(flags, end) == flags;
  }

  lemma FlushedMoves(cache: seq<Entry>, flags: set<nat>,
                     before: map<nat, seq<byte>>, after: map<nat, seq<byte>>, id: nat)
    requires Sound(cache, flags) && id < N_PARAMS
    requires Flushed(cache, flags, before, after, id)
    ensures Flushed(cache, flags, before,
                    if id in flags then after[id := WholeWords(Current(cache[id]))] else after, id + 1)
  {
  }

  class FlushTask {
    var flash: map<nat, seq<byte>>
    var halted: bool

    constructor (flash: map<nat, seq<byte>>)
      ensures this.flash == flash && !halted
    {
      this.flash, halted := flash, false;
    }

    /** Stores one parameter: again and again without space, halting on any other error. */
    method StoreRecord(id: nat, e: Entry, results: seq<FlashResult>) returns (left: seq<FlashResult>)
      requires ValidEntry(e) && e.block.Some? && !halted
      modifies this
      ensures halted <==> Answers(results) != [] && Answers(results)[0].FlashError?
      ensures flash == if halted then old(flash) else old(flash)[id := WholeWords(Current(e))]
      ensures Answers(left) == Answers(results)[Min(1, |Answers(results)|)..]
    {
      left := results;
      while left != [] && left[0].NoSpace?
        invariant Answers(left) == Answers(results)
      {
        left := left[1..];
      }
      if left != [] && left[0].FlashError? {
        halted := true;
      } else {
        flash := flash[id := WholeWords(Current(e))];
      }
      left := if left == [] then [] else left[1..];
    }

    /** A pass has come to parameter `id`. */
    ghost predicate At(cache: seq<Entry>, flags: set<nat>, before: map<nat, seq<byte>>,
                       results: seq<FlashResult>, left: seq<FlashResult>, id: nat)
      reads this
    {
      && Sound(cache, flags) && !halted
      && Flushed(cache, flags, before, flash, id) && Progress(flags, Answers(results), left, id)
    }

    /** One round of the pass. */
    method PassParameter(cache: seq<Entry>, flags: set<nat>, id: nat, left: seq<FlashResult>,
                         ghost before: map<nat, seq<byte>>, ghost results: seq<FlashResult>)
        returns (rest: seq<FlashResult>)
      requires At(cache, flags, before, results, left, id) && id < N_PARAMS
      modifies this
      ensures !halted ==> At(cache, flags, before, results, rest, id + 1)
      ensures halted ==>
                Sound(cache, flags) && id in flags && Flushed(cache, flags, before, flash, id)
                && MeetsError(flags, Answers(results))
    {
      hide Flushed, Progress, MeetsError, Answers, WholeWords;
      MaskSurvivesBelow16(id);
      FlushedMoves(cache, flags, before, flash, id);
      rest := left;
      if id in flags && MaskSurvives(id) {
        rest := StoreRecord(id, cache[id], left);
      }
      ProgressMoves(flags, Answers(results), left, rest, id);
    }

    lemma PassStarts(cache: seq<Entry>, flags: set<nat>, results: seq<FlashResult>)
      requires Sound(cache, flags) && !halted
      ensures At(cache, flags, flash, results, results, 0)
    {
      assert FlagsBelow(flags, 0) == {};
    }

    lemma PassIsDone(cache: seq<Entry>, flags: set<nat>, before: map<nat, seq<byte>>,
                     results: seq<FlashResult>, left: seq<FlashResult>)
      requires At(cache, flags, before, results, left, N_PARAMS)
      ensures Sound(cache, flags) && Flushed(cache, flags, before, flash, N_PARAMS)
      ensures !MeetsError(flags, Answers(results)) && !halted
    {
      ProgressEnds(flags, Answers(results), left, N_PARAMS);
    }

    /**
     One pass with the cache at rest.  `results` are the outcomes of the record
     operations in order (success once they run out).
     */
    method Pass(cache: seq<Entry>, flags: set<nat>, results: seq<FlashResult>)
      requires Sound(cache, flags) && !halted
      modifies this
      ensures !halted ==> Flushed(cache, flags, old(flash), flash, N_PARAMS)
      ensures halted ==> exists id :: id in flags && Flushed(cache, flags, old(flash), flash, id)
      ensures halted <==> MeetsError(flags, Answers(results))
    {
      hide At, Sound, Flushed, MeetsError, Answers;
      var left := results;
      PassStarts(cache, flags, results);
      for id := 0 to N_PARAMS
        invariant At(cache, flags, old(flash), results, left, id) && !halted
      {
        left := PassParameter(cache, flags, id, left, old(flash), results);
        if halted { return; }
      }
      PassIsDone(cache, flags, old(flash), results, left);
    }
  }
}
