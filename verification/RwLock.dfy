/**
 The writer-preference readers/writers lock, one step per semaphore operation
 and one step per load or store of a counter, for any number of tasks.

 Readers and writers run the same "light switch": take a mutex, count, let the
 first one in take the group's semaphore (the last one out gives it back), and
 give the mutex.  The readers' switch is (read_lock, n_readers, resource_lock);
 the writers' is (write_lock, n_writers, block_readers).  The semaphores belong
 to a group: the task that gives one back need not be the one that took it.
 */
module RwLock {
  import opened Wrappers
  import LockSpec

  datatype Group = Readers | Writers

  datatype Stage = TakeMutex | Load | Store(r: nat) | Semaphore | GiveMutex

  /** The next operation of a task. */
  datatype Pc =
    | Idle
    | TakeGate                                       // read(): take block_readers
    | Switch(g: Group, up: bool, stage: Stage)       // enter (up) or leave (down) a group
    | GiveGate                                       // read(): give block_readers
    | Reading                                        // read(): the callback
    | TakeResource                                   // write(): take resource_lock
    | Writing                                        // write(): the callback
    | GiveResource                                   // write(): give resource_lock

  /** A mutex (with its holder), the counter it guards, and the group's semaphore (true: free). */
  datatype Side = Side(mutex: Option<nat>, count: nat, free: bool)

  datatype State = State(readers: Side, writers: Side, pcs: seq<Pc>)

  /** A task calls read(), calls write(), or executes its next operation. */
  datatype Event = BeginRead(t: nat) | BeginWrite(t: nat) | Advance(t: nat)

  /** size_t is 32 bits wide. */
  const WORD := 0x1_0000_0000

  // ----- the steps

  ghost predicate Init(s: State) {
    && |s.pcs| < WORD
    && s.readers == s.writers == Side(None, 0, true)
    && forall t :: 0 <= t < |s.pcs| ==> s.pcs[t].Idle?
  }

  function Get(s: State, g: Group): Side {
    if g.Readers? then s.readers else s.writers
  }

  function Put(s: State, g: Group, side: Side): State {
    if g.Readers? then s.(readers := side) else s.(writers := side)
  }

  function Goto(s: State, t: nat, pc: Pc): State
    requires t < |s.pcs|
  {
    s.(pcs := s.pcs[t := pc])
  }

  /** A take blocks while the semaphore is held; every other operation runs. */
  predicate Enabled(s: State, e: Event) {
    && e.t < |s.pcs|
    && match e
       case BeginRead(t) => s.pcs[t].Idle?
       case BeginWrite(t) => s.pcs[t].Idle?
       case Advance(t) =>
         match s.pcs[t]
         case Idle => false
         case TakeGate => s.writers.free
         case TakeResource => s.readers.free
         case Switch(g, up, TakeMutex) => Get(s, g).mutex.None?
         case Switch(g, up, Semaphore) => up ==> Get(s, g).free
         case _ => true
  }

  function Do(s: State, e: Event): State
    requires Enabled(s, e)
  {
    match e
    case BeginRead(t) => Goto(s, t, TakeGate)
    case BeginWrite(t) => Goto(s, t, Switch(Writers, true, TakeMutex))
    case Advance(t) =>
      match s.pcs[t]
      case Idle => s
      case TakeGate => Goto(s, t, Switch(Readers, true, TakeMutex)).(writers := s.writers.(free := false))
      case Switch(g, up, stage) =>
        Put(Goto(s, t, SwitchPc(g, up, stage, Get(s, g))), g, SwitchSide(Get(s, g), t, up, stage))
      case GiveGate => Goto(s, t, Reading).(writers := s.writers.(free := true))
      case Reading => Goto(s, t, Switch(Readers, false, TakeMutex))
      case TakeResource => Goto(s, t, Writing).(readers := s.readers.(free := false))
      case Writing => Goto(s, t, GiveResource)
      case GiveResource => Goto(s, t, Switch(Writers, false, TakeMutex)).(readers := s.readers.(free := true))
  }

  function Counted(up: bool, r: nat): nat {
    if up then (r + 1) % WORD else (r - 1) % WORD
  }

  function SwitchSide(side: Side, t: nat, up: bool, stage: Stage): Side {
    match stage
    case TakeMutex => side.(mutex := Some(t))
    case Load => side
    case Store(r) => side.(count := Counted(up, r))
    case Semaphore => side.(free := !up)
    case GiveMutex => side.(mutex := None)
  }

  function SwitchPc(g: Group, up: bool, stage: Stage, side: Side): Pc {
    match stage
    case TakeMutex => Switch(g, up, Load)
    case Load => Switch(g, up, Store(side.count))
    case Store(r) => Switch(g, up, if Counted(up, r) == (if up then 1 else 0) then Semaphore else GiveMutex)
    case Semaphore => Switch(g, up, GiveMutex)
    case GiveMutex => if !up then Idle else if g.Readers? then GiveGate else TakeResource
  }

  /** States ss[0], ss[1], ... joined by the events es[0], es[1], ... */
  ghost predicate Path(ss: seq<State>, es: seq<Event>) {
    && |ss| == |es| + 1
    && forall i :: 0 <= i < |es| ==> Enabled(ss[i], es[i]) && ss[i + 1] == Do(ss[i], es[i])
  }

  ghost predicate Run(ss: seq<State>, es: seq<Event>) {
    Path(ss, es) && Init(ss[0])
  }

  // ----- which phase a task is in

  predicate HoldsMutex(pc: Pc, g: Group) {
    pc.Switch? && pc.g == g && !pc.stage.TakeMutex?
  }

  /** After the task's increment of the group's counter and before its decrement. */
  predicate InGroup(pc: Pc, g: Group) {
    match pc
    case Switch(h, up, stage) => h == g && (if up then stage.Semaphore? || stage.GiveMutex?
                                            else stage.TakeMutex? || stage.Load? || stage.Store?)
    case GiveGate | Reading => g.Readers?
    case TakeResource | Writing | GiveResource => g.Writers?
    case _ => false
  }

  /** One of those on whose behalf the group keeps its semaphore. */
  predicate Keeps(pc: Pc, g: Group) {
    match pc
    case Switch(h, up, Semaphore) => h == g && !up
    case _ => InGroup(pc, g)
  }

  /** A single outsider that holds the semaphore of group g. */
  predicate Outsider(pc: Pc, g: Group) {
    match pc
    case Switch(h, up, _) => g.Writers? && h.Readers? && up
    case GiveGate => g.Writers?
    case Writing | GiveResource => g.Readers?
    case _ => false
  }

  ghost function Where(s: State, phase: Pc -> bool): set<nat> {
    set t | 0 <= t < |s.pcs| && phase(s.pcs[t])
  }

  function Hold(g: Group): Pc -> bool { (pc: Pc) => HoldsMutex(pc, g) }
  function Member(g: Group): Pc -> bool { (pc: Pc) => InGroup(pc, g) }
  function Keeper(g: Group): Pc -> bool { (pc: Pc) => Keeps(pc, g) }
  function Outside(g: Group): Pc -> bool { (pc: Pc) => Outsider(pc, g) }

  ghost function Holding(s: State, g: Group): set<nat> { Where(s, Hold(g)) }
  ghost function Members(s: State, g: Group): set<nat> { Where(s, Member(g)) }
  ghost function Keepers(s: State, g: Group): set<nat> { Where(s, Keeper(g)) }
  ghost function Outsiders(s: State, g: Group): set<nat> { Where(s, Outside(g)) }

  // ----- the invariant, once for each group

  ghost predicate MutexInv(s: State, g: Group) {
    Holding(s, g) == if Get(s, g).mutex.Some? then {Get(s, g).mutex.value} else {}
  }

  ghost predicate CountInv(s: State, g: Group) {
    |s.pcs| < WORD && Get(s, g).count == |Members(s, g)|
  }

  /**
   A register loaded under the mutex still equals the counter when it is stored
   back, and the holder that goes for the semaphore is the first in or last out.
   */
  ghost predicate HolderInv(s: State, g: Group) {
    Get(s, g).mutex.Some? ==>
      var t := Get(s, g).mutex.value;
      && t < |s.pcs| && HoldsMutex(s.pcs[t], g)
      && (s.pcs[t].stage.Store? ==> s.pcs[t].stage.r == Get(s, g).count)
      && (s.pcs[t].stage.Semaphore? ==> Members(s, g) == if s.pcs[t].up then {t} else {})
  }

  /** The semaphore is held by the group, by one outsider, or by nobody. */
  ghost predicate SemaphoreInv(s: State, g: Group) {
    HeldBy(Get(s, g).free, Keepers(s, g), Outsiders(s, g))
  }

  ghost predicate HeldBy(free: bool, keepers: set<nat>, outsiders: set<nat>) {
    && (free <==> keepers == {} && outsiders == {})
    && (outsiders != {} ==> |outsiders| == 1 && keepers == {})
  }

  ghost predicate SideInv(s: State, g: Group) {
    MutexInv(s, g) && CountInv(s, g) && HolderInv(s, g) && SemaphoreInv(s, g)
  }

  ghost predicate Inv(s: State) {
    SideInv(s, Readers) && SideInv(s, Writers)
  }

  // ----- every step keeps the invariant

  lemma At(s: State, t: nat, phase: Pc -> bool)
    ensures t in Where(s, phase) <==> t < |s.pcs| && phase(s.pcs[t])
    ensures |Where(s, phase)| <= |s.pcs|
  {
    Below(Where(s, phase), |s.pcs|);
  }

  /** One task moves to another phase; the set of tasks in a phase follows. */
  lemma Moved(s: State, s': State, t: nat, phase: Pc -> bool)
    requires t < |s.pcs| && t < |s'.pcs| && s'.pcs == s.pcs[t := s'.pcs[t]]
    ensures Where(s', phase) == if phase(s'.pcs[t]) then Where(s, phase) + {t} else Where(s, phase) - {t}
    ensures t in Where(s, phase) <==> phase(s.pcs[t])
    ensures |Where(s, phase)| <= |s.pcs| && |Where(s', phase)| <= |s.pcs|
  {
    Below(Where(s, phase), |s.pcs|);
    Below(Where(s', phase), |s.pcs|);
  }

  lemma MovedCount(s: State, s': State, t: nat, phase: Pc -> bool)
    requires t < |s.pcs| && t < |s'.pcs| && s'.pcs == s.pcs[t := s'.pcs[t]]
    ensures |Where(s', phase)| ==
            |Where(s, phase)| - (if phase(s.pcs[t]) then 1 else 0) + (if phase(s'.pcs[t]) then 1 else 0)
    ensures |Where(s, phase)| <= |s.pcs| && |Where(s', phase)| <= |s.pcs|
    ensures phase(s.pcs[t]) ==> |Where(s, phase)| > 0
  {
    Moved(s, s', t, phase);
  }

  lemma {:induction false} Below(a: set<nat>, n: nat)
    requires forall x :: x in a ==> x < n
    ensures |a| <= n
  {
    if a != {} {
      assert n > 0 by { var x :| x in a; }
      Below(a - {n - 1}, n - 1);
    }
  }

  lemma OtherThan(a: set<nat>, x: nat) returns (y: nat)
    requires |a| > 1 || (x !in a && |a| > 0)
    ensures y in a && y != x
  {
    assert a - {x} != {} by {
      assert a == if x in a then (a - {x}) + {x} else a - {x};
    }
    y :| y in a - {x};
  }

  lemma Singleton(a: set<nat>, x: nat)
    requires |a| == 1 && x in a
    ensures a == {x}
  {
    assert |a - {x}| == 0;
  }

  /** Only the task of the event moves. */
  lemma OneMoves(s: State, e: Event)
    requires Enabled(s, e)
    ensures |Do(s, e).pcs| == |s.pcs| && Do(s, e).pcs == s.pcs[e.t := Do(s, e).pcs[e.t]]
  {
  }

  /** A mutex is taken when free and given by one of its holders; nothing else changes who holds it. */
  lemma MutexEffect(s: State, e: Event, g: Group)
    requires Enabled(s, e)
    ensures var pc, pc' := s.pcs[e.t], Do(s, e).pcs[e.t];
            var before, after := Get(s, g).mutex, Get(Do(s, e), g).mutex;
            || (before.None? && after == Some(e.t) && HoldsMutex(pc', g))
            || (HoldsMutex(pc, g) && after.None? && !HoldsMutex(pc', g))
            || (after == before && HoldsMutex(pc', g) == HoldsMutex(pc, g))
  {
  }

  lemma StepKeepsMutex(s: State, e: Event, g: Group)
    requires MutexInv(s, g) && Enabled(s, e)
    ensures MutexInv(Do(s, e), g)
  {
    hide Do, HoldsMutex, Where, Get;
    OneMoves(s, e);
    MutexEffect(s, e, g);
    Moved(s, Do(s, e), e.t, Hold(g));
  }

  lemma Increment(r: nat)
    requires r < WORD
    ensures Counted(true, r) == if r + 1 == WORD then 0 else r + 1
    ensures r > 0 ==> Counted(false, r) == r - 1
  {
  }

  predicate Stores(s: State, e: Event, g: Group)
    requires Enabled(s, e)
  {
    e.Advance? && s.pcs[e.t].Switch? && s.pcs[e.t].g == g && s.pcs[e.t].stage.Store?
  }

  lemma OnlyHolderStores(s: State, e: Event, g: Group)
    requires MutexInv(s, g) && Enabled(s, e) && Stores(s, e, g)
    ensures Get(s, g).mutex == Some(e.t)
  {
    At(s, e.t, Hold(g));
  }

  /** The group changes only when a counter is stored, and with it. */
  lemma OnlyStoresCount(s: State, e: Event, g: Group)
    requires Enabled(s, e) && !Stores(s, e, g)
    ensures Get(Do(s, e), g).count == Get(s, g).count
    ensures InGroup(Do(s, e).pcs[e.t], g) == InGroup(s.pcs[e.t], g)
  {
  }

  lemma MembersStay(s: State, e: Event, g: Group)
    requires Enabled(s, e) && !Stores(s, e, g)
    ensures Members(Do(s, e), g) == Members(s, g)
  {
    var s' := Do(s, e);
    OnlyStoresCount(s, e, g);
    Moved(s, s', e.t, Member(g));
  }

  lemma StepKeepsCount(s: State, e: Event, g: Group)
    requires MutexInv(s, g) && CountInv(s, g) && HolderInv(s, g) && Enabled(s, e)
    ensures CountInv(Do(s, e), g)
  {
    if Stores(s, e, g) {
      OnlyHolderStores(s, e, g);
      MovedCount(s, Do(s, e), e.t, Member(g));
      Increment(Get(s, g).count);
    } else {
      OnlyStoresCount(s, e, g);
      MembersStay(s, e, g);
    }
  }

  /** Without a store, the holder is the same task as before or has just loaded the counter. */
  lemma HolderMoves(s: State, e: Event, g: Group)
    requires MutexInv(s, g) && Enabled(s, e) && !Stores(s, e, g)
    ensures var side, pc := Get(Do(s, e), g), Do(s, e).pcs[e.t];
            && (side.mutex != Some(e.t) && side.mutex.Some? ==> side.mutex == Get(s, g).mutex)
            && (side.mutex == Some(e.t) ==>
                  HoldsMutex(pc, g) && !pc.stage.Semaphore? && (pc.stage.Store? ==> pc.stage.r == side.count))
  {
    At(s, e.t, Hold(g));
  }

  lemma StoreFindsTheEdge(s: State, e: Event, g: Group)
    requires MutexInv(s, g) && CountInv(s, g) && HolderInv(s, g) && Enabled(s, e) && Stores(s, e, g)
    ensures HolderInv(Do(s, e), g)
  {
    var s' := Do(s, e);
    OnlyHolderStores(s, e, g);
    StepKeepsCount(s, e, g);
    At(s', e.t, Member(g));
    if |Members(s', g)| == 1 && s.pcs[e.t].up { Singleton(Members(s', g), e.t); }
  }

  lemma StepKeepsHolder(s: State, e: Event, g: Group)
    requires MutexInv(s, g) && CountInv(s, g) && HolderInv(s, g) && Enabled(s, e)
    ensures HolderInv(Do(s, e), g)
  {
    if Stores(s, e, g) {
      StoreFindsTheEdge(s, e, g);
    } else {
      HolderMoves(s, e, g);
      OnlyStoresCount(s, e, g);
      MembersStay(s, e, g);
    }
  }

  // ----- the group semaphores

  /** Apart from the holder of the mutex, the keepers of the semaphore are the group. */
  lemma KeepersAreMembers(s: State, g: Group, u: nat)
    requires MutexInv(s, g) && Get(s, g).mutex != Some(u)
    ensures u in Keepers(s, g) <==> u in Members(s, g)
  {
    if u < |s.pcs| {
      At(s, u, Hold(g));
    }
  }

  datatype Effect = Unchanged | OutsiderTakes | OutsiderGives | FirstTakes | LastGives | Joins | Leaves

  /** What an event does to the semaphore of group g. */
  function EffectOn(s: State, e: Event, g: Group): Effect
    requires Enabled(s, e)
  {
    if !e.Advance? then Unchanged else
    match s.pcs[e.t]
    case TakeGate => if g.Writers? then OutsiderTakes else Unchanged
    case GiveGate => if g.Writers? then OutsiderGives else Unchanged
    case TakeResource => if g.Readers? then OutsiderTakes else Unchanged
    case GiveResource => if g.Readers? then OutsiderGives else Unchanged
    case Switch(h, up, Semaphore) => if h != g then Unchanged else if up then FirstTakes else LastGives
    case Switch(h, up, Store(r)) =>
      if h != g || Counted(up, r) == (if up then 1 else 0) then Unchanged else if up then Joins else Leaves
    case _ => Unchanged
  }

  lemma EffectIsRight(s: State, e: Event, g: Group)
    requires Enabled(s, e)
    ensures var pc, pc' := s.pcs[e.t], Do(s, e).pcs[e.t];
            var before, after := Get(s, g).free, Get(Do(s, e), g).free;
            match EffectOn(s, e, g)
            case Unchanged => after == before && Keeps(pc', g) == Keeps(pc, g) && Outsider(pc', g) == Outsider(pc, g)
            case OutsiderTakes => before && !after && !Keeps(pc', g) && Outsider(pc', g)
            case OutsiderGives => after && Outsider(pc, g) && !Keeps(pc', g) && !Outsider(pc', g)
            case FirstTakes => before && !after && Keeps(pc', g) && !Outsider(pc', g)
            case LastGives => after && Keeps(pc, g) && !Keeps(pc', g) && !Outsider(pc', g)
            case Joins =>
              && after == before && InGroup(pc', g) && Keeps(pc', g) && !Outsider(pc', g)
              && !Keeps(pc, g) && !Outsider(pc, g)
            case Leaves => after == before && Keeps(pc, g) && !InGroup(pc', g) && !Keeps(pc', g) && !Outsider(pc', g)
  {
  }

  /** A task that joins or leaves without touching the semaphore is not alone in its group. */
  lemma AnotherKeeper(s: State, e: Event, g: Group) returns (u: nat)
    requires SideInv(s, g) && Enabled(s, e) && (EffectOn(s, e, g).Joins? || EffectOn(s, e, g).Leaves?)
    ensures u != e.t && u in Keepers(s, g)
  {
    OnlyHolderStores(s, e, g);
    At(s, e.t, Member(g));
    Increment(Get(s, g).count);
    u := OtherThan(Members(s, g), e.t);
    KeepersAreMembers(s, g, u);
  }

  lemma LastKeeper(s: State, e: Event, g: Group)
    requires SideInv(s, g) && Enabled(s, e) && EffectOn(s, e, g).LastGives?
    ensures Keepers(s, g) == {e.t}
  {
    At(s, e.t, Hold(g));
    At(s, e.t, Keeper(g));
    forall u | u in Keepers(s, g) ensures u == e.t {
      if u != e.t { KeepersAreMembers(s, g, u); }
    }
  }

  /** How one task's move changes who holds a semaphore. */
  lemma HolderMoved(free: bool, keepers: set<nat>, outsiders: set<nat>,
                    free': bool, keepers': set<nat>, outsiders': set<nat>, t: nat, effect: Effect)
    requires HeldBy(free, keepers, outsiders)
    requires keepers' == if t in keepers' then keepers + {t} else keepers - {t}
    requires outsiders' == if t in outsiders' then outsiders + {t} else outsiders - {t}
    requires match effect
             case Unchanged =>
               free' == free && (t in keepers' <==> t in keepers) && (t in outsiders' <==> t in outsiders)
             case OutsiderTakes => free && !free' && t !in keepers' && t in outsiders'
             case OutsiderGives => free' && t in outsiders && t !in keepers' && t !in outsiders'
             case FirstTakes => free && !free' && t in keepers' && t !in outsiders'
             case LastGives => free' && keepers == {t} && t !in keepers' && t !in outsiders'
             case Joins => free' == free && t in keepers' && t !in outsiders' && t !in outsiders && keepers != {}
             case Leaves => free' == free && t in keepers && t !in outsiders' && keepers' != {}
    ensures HeldBy(free', keepers', outsiders')
  {
    if effect.OutsiderGives? { Singleton(outsiders, t); }
  }

  lemma StepKeepsSemaphore(s: State, e: Event, g: Group)
    requires SideInv(s, g) && Enabled(s, e)
    ensures SemaphoreInv(Do(s, e), g)
  {
    var s' := Do(s, e);
    var effect := EffectOn(s, e, g);
    if effect.Joins? || effect.Leaves? { var u := AnotherKeeper(s, e, g); StaysKeeper(s, e, g, u); }
    if effect.LastGives? { LastKeeper(s, e, g); }
    EffectIsRight(s, e, g);
    MovedHolders(s, s', e.t, g);
    hide Do, Enabled, EffectOn, Where, Keeps, Outsider, InGroup, Get;
    HolderMoved(Get(s, g).free, Keepers(s, g), Outsiders(s, g),
                Get(s', g).free, Keepers(s', g), Outsiders(s', g), e.t, effect);
  }

  lemma MovedHolders(s: State, s': State, t: nat, g: Group)
    requires t < |s.pcs| && t < |s'.pcs| && s'.pcs == s.pcs[t := s'.pcs[t]]
    ensures Keepers(s', g) == if t in Keepers(s', g) then Keepers(s, g) + {t} else Keepers(s, g) - {t}
    ensures Outsiders(s', g) == if t in Outsiders(s', g) then Outsiders(s, g) + {t} else Outsiders(s, g) - {t}
    ensures t in Keepers(s, g) <==> Keeps(s.pcs[t], g)
    ensures t in Keepers(s', g) <==> Keeps(s'.pcs[t], g)
    ensures t in Outsiders(s, g) <==> Outsider(s.pcs[t], g)
    ensures t in Outsiders(s', g) <==> Outsider(s'.pcs[t], g)
  {
    hide Keeps, Outsider;
    Moved(s, s', t, Keeper(g));
    Moved(s, s', t, Outside(g));
  }

  lemma StaysKeeper(s: State, e: Event, g: Group, u: nat)
    requires Enabled(s, e) && u != e.t && u in Keepers(s, g)
    ensures u in Keepers(Do(s, e), g)
  {
  }

  lemma StepKeepsInv(s: State, e: Event)
    requires Inv(s) && Enabled(s, e)
    ensures Inv(Do(s, e))
  {
    forall g: Group ensures SideInv(Do(s, e), g) {
      assert SideInv(s, g);
      StepKeepsMutex(s, e, g);
      StepKeepsCount(s, e, g);
      StepKeepsHolder(s, e, g);
      StepKeepsSemaphore(s, e, g);
    }
  }

  lemma InitInv(s: State)
    requires Init(s)
    ensures Inv(s)
  {
    forall g: Group ensures SideInv(s, g) {
      assert Members(s, g) == Holding(s, g) == Keepers(s, g) == Outsiders(s, g) == {};
    }
  }

  lemma {:induction false} PathKeepsInv(ss: seq<State>, es: seq<Event>, k: nat)
    requires Path(ss, es) && Inv(ss[0]) && k < |ss|
    ensures Inv(ss[k])
  {
    if k > 0 {
      PathKeepsInv(ss, es, k - 1);
      StepKeepsInv(ss[k - 1], es[k - 1]);
    }
  }

  // ----- safety in every run

  /**
   In every state of every run a write callback overlaps no other callback, and
   both counters are the number of tasks in the matching phase of the protocol.
   */
  lemma CallbacksExclude(ss: seq<State>, es: seq<Event>, k: nat, t: nat, u: nat)
    requires Run(ss, es) && k < |ss| && t < |ss[k].pcs| && u < |ss[k].pcs| && t != u
    ensures ss[k].pcs[t].Writing? ==> !ss[k].pcs[u].Writing? && !ss[k].pcs[u].Reading?
    ensures ss[k].readers.count == |Members(ss[k], Readers)| && ss[k].writers.count == |Members(ss[k], Writers)|
  {
    InitInv(ss[0]);
    PathKeepsInv(ss, es, k);
    if ss[k].pcs[t].Writing? { InvExcludes(ss[k], t, u); }
  }

  lemma InvExcludes(s: State, t: nat, u: nat)
    requires SemaphoreInv(s, Readers) && t < |s.pcs| && u < |s.pcs| && t != u && s.pcs[t].Writing?
    ensures !s.pcs[u].Writing? && !s.pcs[u].Reading?
  {
    At(s, t, Outside(Readers));
    At(s, u, Outside(Readers));
    At(s, u, Keeper(Readers));
    Singleton(Outsiders(s, Readers), t);
  }

  /** No give is ever lost: a mutex is given by its holder and a semaphore only while it is taken. */
  lemma GivesFindTheSemaphoreTaken(s: State, t: nat)
    requires Inv(s) && t < |s.pcs|
    ensures s.pcs[t].Switch? && s.pcs[t].stage.GiveMutex? ==> Get(s, s.pcs[t].g).mutex == Some(t)
    ensures s.pcs[t].Switch? && s.pcs[t].stage.Semaphore? && !s.pcs[t].up ==> !Get(s, s.pcs[t].g).free
    ensures s.pcs[t].GiveGate? ==> !s.writers.free
    ensures s.pcs[t].GiveResource? ==> !s.readers.free
  {
    if s.pcs[t].Switch? {
      At(s, t, Hold(s.pcs[t].g));
      At(s, t, Keeper(s.pcs[t].g));
    }
    At(s, t, Outside(Writers));
    At(s, t, Outside(Readers));
  }

  // ----- refinement of the lock that users see

  function ReadingPc(): Pc -> bool { (pc: Pc) => pc.Reading? }

  ghost function View(s: State): LockSpec.Lock {
    LockSpec.Lock(Where(s, ReadingPc()),
                  if exists w :: 0 <= w < |s.pcs| && s.pcs[w].Writing? then
                    var w :| 0 <= w < |s.pcs| && s.pcs[w].Writing?;
                    Some(w)
                  else
                    None)
  }

  lemma ViewOfWriter(s: State, t: nat)
    requires SemaphoreInv(s, Readers) && t < |s.pcs| && s.pcs[t].Writing?
    ensures View(s) == LockSpec.Lock({}, Some(t))
  {
    forall u | 0 <= u < |s.pcs| && u != t ensures !s.pcs[u].Writing? && !s.pcs[u].Reading? {
      InvExcludes(s, t, u);
    }
  }

  lemma ViewWithoutWriter(s: State)
    requires forall u :: 0 <= u < |s.pcs| ==> !s.pcs[u].Writing?
    ensures View(s) == LockSpec.Lock(Where(s, ReadingPc()), None)
  {
  }

  /** A writer that gets the resource finds no reader in a callback. */
  lemma NobodyReads(s: State)
    requires SemaphoreInv(s, Readers) && s.readers.free
    ensures Where(s, ReadingPc()) == {}
  {
    forall u | 0 <= u < |s.pcs| ensures !s.pcs[u].Reading? {
      At(s, u, Keeper(Readers));
    }
  }

  lemma WritingChanges(s: State, e: Event)
    requires Enabled(s, e)
    ensures var pc, pc' := s.pcs[e.t], Do(s, e).pcs[e.t];
            && (pc'.Writing? ==> pc.TakeResource? && e.Advance?)
            && (pc'.Reading? ==> pc.GiveGate?)
  {
  }

  /** Every step of the protocol is a step of the abstract lock, or invisible to its users. */
  lemma StepRefines(s: State, e: Event)
    requires Inv(s) && Enabled(s, e)
    ensures LockSpec.Exclusion(View(s))
    ensures LockSpec.Next(View(s), View(Do(s, e)), e.t)
  {
    StepKeepsSemaphore(s, e, Readers);
    ViewMoves(s, e);
  }

  lemma ViewMoves(s: State, e: Event)
    requires Enabled(s, e) && SemaphoreInv(s, Readers) && SemaphoreInv(Do(s, e), Readers)
    ensures LockSpec.Exclusion(View(s))
    ensures LockSpec.Next(View(s), View(Do(s, e)), e.t)
  {
    WritingChanges(s, e);
    if w :| 0 <= w < |s.pcs| && s.pcs[w].Writing? {
      ViewWithWriter(s, e, w);
    } else {
      ViewWithReaders(s, e);
    }
  }

  lemma ViewWithWriter(s: State, e: Event, w: nat)
    requires Enabled(s, e) && SemaphoreInv(s, Readers) && SemaphoreInv(Do(s, e), Readers)
    requires w < |s.pcs| && s.pcs[w].Writing?
    ensures LockSpec.Exclusion(View(s))
    ensures LockSpec.Next(View(s), View(Do(s, e)), e.t)
  {
    var s' := Do(s, e);
    assert s'.pcs == s.pcs[e.t := s'.pcs[e.t]];
    assert w == e.t ==> s'.pcs[w] == GiveResource;
    hide Do, Enabled, SemaphoreInv;
    ViewOfWriter(s, w);
    if w != e.t {
      ViewOfWriter(s', w);
    } else {
      forall u | 0 <= u < |s.pcs| && u != w ensures !s.pcs[u].Writing? && !s.pcs[u].Reading? { InvExcludes(s, w, u); }
      ViewWithoutWriter(s');
      assert Where(s', ReadingPc()) == {};
    }
  }

  lemma ViewWithReaders(s: State, e: Event)
    requires Enabled(s, e) && SemaphoreInv(s, Readers) && SemaphoreInv(Do(s, e), Readers)
    requires forall u :: 0 <= u < |s.pcs| ==> !s.pcs[u].Writing?
    ensures LockSpec.Exclusion(View(s))
    ensures LockSpec.Next(View(s), View(Do(s, e)), e.t)
  {
    var s' := Do(s, e);
    WritingChanges(s, e);
    ViewWithoutWriter(s);
    assert s'.pcs == s.pcs[e.t := s'.pcs[e.t]];
    if s'.pcs[e.t].Writing? {
      ViewOfWriter(s', e.t);
      NobodyReads(s);
    } else {
      forall u | 0 <= u < |s'.pcs| ensures !s'.pcs[u].Writing? {
        assert u != e.t ==> s'.pcs[u] == s.pcs[u];
      }
      ViewWithoutWriter(s');
      ReadersMove(s, s', e.t);
    }
  }

  lemma ReadersMove(s: State, s': State, t: nat)
    requires t < |s.pcs| && t < |s'.pcs| && s'.pcs == s.pcs[t := s'.pcs[t]]
    ensures var r, r' := Where(s, ReadingPc()), Where(s', ReadingPc());
            LockSpec.Next(LockSpec.Lock(r, None), LockSpec.Lock(r', None), t)
  {
    Moved(s, s', t, ReadingPc());
    hide Where;
    var r, r' := Where(s, ReadingPc()), Where(s', ReadingPc());
    assert r' == r || (t !in r && r' == r + {t}) || (t in r && r' == r - {t});
  }

  // ----- freedom from deadlock

  /** The first reader's take of the resource never waits (key to deadlock freedom). */
  lemma FirstReaderNeverWaits(s: State, t: nat)
    requires Inv(s) && t < |s.pcs| && s.pcs[t] == Switch(Readers, true, Semaphore)
    ensures s.readers.free
  {
    At(s, t, Hold(Readers));
    At(s, t, Outside(Writers));
    forall u: nat ensures u !in Keepers(s, Readers) && u !in Outsiders(s, Readers) {
      At(s, u, Hold(Readers));
      At(s, u, Member(Readers));
      At(s, u, Keeper(Readers));
      At(s, u, Outside(Readers));
      At(s, u, Keeper(Writers));
    }
    assert Keepers(s, Readers) == {} && Outsiders(s, Readers) == {};
  }

  /** Whoever holds a group's mutex can run, except the first writer waiting for the gate. */
  lemma MutexHolderRuns(s: State, g: Group) returns (u: nat)
    requires Inv(s) && Get(s, g).mutex.Some?
    ensures u < |s.pcs| && Get(s, g).mutex == Some(u)
    ensures Enabled(s, Advance(u)) || (g.Writers? && s.pcs[u] == Switch(Writers, true, Semaphore))
  {
    u := Get(s, g).mutex.value;
    assert SideInv(s, g);
    if s.pcs[u] == Switch(Readers, true, Semaphore) { FirstReaderNeverWaits(s, u); }
  }

  /** If a reader's semaphore is held, some task can run. */
  lemma ReadersRun(s: State) returns (u: nat)
    requires Inv(s) && !s.readers.free
    ensures u < |s.pcs| && Enabled(s, Advance(u))
  {
    u :| u in Keepers(s, Readers) || u in Outsiders(s, Readers);
    if !Enabled(s, Advance(u)) {
      u := MutexHolderRuns(s, Readers);
    }
  }

  /** While the gate is held, some task can run. */
  lemma GateRuns(s: State) returns (u: nat)
    requires Inv(s) && !s.writers.free
    ensures u < |s.pcs| && Enabled(s, Advance(u))
  {
    u :| u in Keepers(s, Writers) || u in Outsiders(s, Writers);
    if !Enabled(s, Advance(u)) {
      if u in Outsiders(s, Writers) {
        if s.pcs[u].stage.Semaphore? { FirstReaderNeverWaits(s, u); }
        u := MutexHolderRuns(s, Readers);
      } else if s.pcs[u].TakeResource? {
        u := ReadersRun(s);
      } else {
        var k := u;
        u := MutexHolderRuns(s, Writers);
        if !Enabled(s, Advance(u)) {
          // u is the first writer, so k cannot be a member of the group
          KeepersAreMembers(s, Writers, k);
          assert false;
        }
      }
    }
  }

  /** In every reachable state with a task inside the protocol, some task can step. */
  lemma NoDeadlock(s: State, t: nat) returns (u: nat)
    requires Inv(s) && t < |s.pcs| && !s.pcs[t].Idle?
    ensures u < |s.pcs| && Enabled(s, Advance(u))
  {
    u := t;
    if !Enabled(s, Advance(u)) {
      match s.pcs[t] {
        case TakeGate => u := GateRuns(s);
        case TakeResource => u := ReadersRun(s);
        case Switch(g, up, stage) =>
          if stage.Semaphore? {
            if g.Readers? { FirstReaderNeverWaits(s, t); assert false; }
            u := GateRuns(s);
          } else {
            u := MutexHolderRuns(s, g);
            if !Enabled(s, Advance(u)) { u := GateRuns(s); }
          }
      }
    }
  }

  // ----- every call runs its callback, once

  /** How often task t has stepped out of a callback, from event j up to event k. */
  function Callbacks(ss: seq<State>, es: seq<Event>, t: nat, callback: Pc, j: nat, k: nat): nat
    requires j <= k <= |es| < |ss|
  {
    if j == k then 0
    else
      var ran := es[k - 1] == Advance(t) && t < |ss[k - 1].pcs| && ss[k - 1].pcs[t] == callback;
      Callbacks(ss, es, t, callback, j, k - 1) + if ran then 1 else 0
  }

  /** Inside read() (or write()), before the callback has returned. */
  predicate BeforeReturn(pc: Pc, g: Group) {
    match pc
    case Switch(h, up, _) => h == g && up
    case TakeGate | GiveGate | Reading => g.Readers?
    case TakeResource | Writing => g.Writers?
    case _ => false
  }

  predicate AfterReturn(pc: Pc, g: Group) {
    match pc
    case Switch(h, up, _) => h == g && !up
    case GiveResource => g.Writers?
    case Idle => true
    case _ => false
  }

  /** A task moves from before the callback to after it by the callback only. */
  lemma CallbackSeparates(s: State, e: Event, t: nat, g: Group)
    requires Enabled(s, e) && t < |s.pcs| && !s.pcs[t].Idle?
    ensures t < |Do(s, e).pcs|
    ensures var pc, pc' := s.pcs[t], Do(s, e).pcs[t];
            var callback := if g.Readers? then Reading else Writing;
            && (BeforeReturn(pc, g) ==>
                  if e == Advance(t) && pc == callback then AfterReturn(pc', g) else BeforeReturn(pc', g))
            && (AfterReturn(pc, g) ==> AfterReturn(pc', g))
  {
  }

  /**
   Whatever the other tasks do, a call of read() (write()) runs its callback
   exactly once before it returns, and never the other callback.
   */
  lemma CallsRunTheirCallback(ss: seq<State>, es: seq<Event>, t: nat, g: Group, j: nat, k: nat)
    requires Path(ss, es) && j < k <= |es| && es[j] == if g.Readers? then BeginRead(t) else BeginWrite(t)
    requires forall i :: j < i < k ==> t < |ss[i].pcs| && !ss[i].pcs[t].Idle?
    ensures t < |ss[k].pcs|
    ensures var (own, other) := if g.Readers? then (Reading, Writing) else (Writing, Reading);
            ss[k].pcs[t].Idle? ==>
              Callbacks(ss, es, t, own, j, k) == 1 && Callbacks(ss, es, t, other, j, k) == 0
  {
    CallbacksSoFar(ss, es, t, g, j, k);
  }

  lemma {:induction false} CallbacksSoFar(ss: seq<State>, es: seq<Event>, t: nat, g: Group, j: nat, k: nat)
    requires Path(ss, es) && j < k <= |es| && es[j] == if g.Readers? then BeginRead(t) else BeginWrite(t)
    requires forall i :: j < i < k ==> t < |ss[i].pcs| && !ss[i].pcs[t].Idle?
    ensures t < |ss[k].pcs|
    ensures var (own, other) := if g.Readers? then (Reading, Writing) else (Writing, Reading);
            && Callbacks(ss, es, t, other, j, k) == 0
            && ((BeforeReturn(ss[k].pcs[t], g) && !ss[k].pcs[t].Idle? && Callbacks(ss, es, t, own, j, k) == 0)
                || (AfterReturn(ss[k].pcs[t], g) && Callbacks(ss, es, t, own, j, k) == 1))
  {
    var s, e := ss[k - 1], es[k - 1];
    if k - 1 == j {
      assert Callbacks(ss, es, t, Reading, j, j) == Callbacks(ss, es, t, Writing, j, j) == 0;
    } else {
      CallbacksSoFar(ss, es, t, g, j, k - 1);
      hide Do, Enabled;
      CallbackSeparates(s, e, t, g);
    }
  }

  // ----- every task gets through

  /** Operations a task still has to execute before it is idle again (at most). */
  function Left(pc: Pc): nat {
    match pc
    case Idle => 0
    case TakeGate => 13
    case Switch(g, up, stage) => StageLeft(stage) + if !up then 0 else if g.Readers? then 7 else 8
    case GiveGate => 7
    case Reading => 6
    case TakeResource => 8
    case Writing => 7
    case GiveResource => 6
  }

  function StageLeft(stage: Stage): nat {
    match stage
    case TakeMutex => 5
    case Load => 4
    case Store(_) => 3
    case Semaphore => 2
    case GiveMutex => 1
  }

  /** Readers that hold, or are giving back, their share of the resource. */
  predicate ReaderInside(pc: Pc) {
    pc.Reading? || (pc.Switch? && pc.g.Readers? && !pc.up)
  }

  function Weight(inside: bool, pc: Pc): nat {
    if inside && !ReaderInside(pc) then 0 else Left(pc)
  }

  /** Remaining work of all tasks, or (inside) of the readers that are inside. */
  function Work(pcs: seq<Pc>, inside: bool): nat {
    if pcs == [] then 0 else Weight(inside, pcs[0]) + Work(pcs[1..], inside)
  }

  lemma {:induction false} WorkMoves(pcs: seq<Pc>, inside: bool, t: nat, pc: Pc)
    requires t < |pcs|
    ensures Work(pcs[t := pc], inside) == Work(pcs, inside) - Weight(inside, pcs[t]) + Weight(inside, pc)
  {
    if t == 0 {
      assert pcs[0 := pc][1..] == pcs[1..];
    } else {
      WorkMoves(pcs[1..], inside, t - 1, pc);
      assert pcs[t := pc][1..] == pcs[1..][t - 1 := pc];
    }
  }

  lemma LeftFalls(s: State, e: Event)
    requires Enabled(s, e) && e.Advance?
    ensures var pc, pc' := s.pcs[e.t], Do(s, e).pcs[e.t];
            && Left(pc') < Left(pc)
            && (ReaderInside(pc) ==> ReaderInside(pc') || pc'.Idle?)
            && (ReaderInside(pc') && !ReaderInside(pc) ==> pc.GiveGate?)
            && (InGroup(pc', Readers) && !InGroup(pc, Readers) ==> Outsider(pc, Writers))
  {
  }

  lemma AdvanceWorks(s: State, e: Event)
    requires Enabled(s, e) && e.Advance?
    ensures Work(Do(s, e).pcs, false) < Work(s.pcs, false)
  {
    LeftFalls(s, e);
    WorkMoves(s.pcs, false, e.t, Do(s, e).pcs[e.t]);
  }

  /**
   When no new call begins, the lock drains: at most Work operations remain, and
   when none of them can run every call has returned.  No task is left blocked.
   */
  lemma {:induction false} Drains(ss: seq<State>, es: seq<Event>)
    requires Path(ss, es) && Inv(ss[0])
    requires forall i :: 0 <= i < |es| ==> es[i].Advance?
    ensures |es| <= Work(ss[0].pcs, false) - Work(ss[|es|].pcs, false)
    ensures (forall t :: !Enabled(ss[|es|], Advance(t))) ==>
              forall t :: 0 <= t < |ss[|es|].pcs| ==> ss[|es|].pcs[t].Idle?
  {
    var n := |es|;
    if n > 0 {
      Drains(ss[..n], es[..n - 1]);
      AdvanceWorks(ss[n - 1], es[n - 1]);
    }
    PathKeepsInv(ss, es, n);
    if t :| 0 <= t < |ss[n].pcs| && !ss[n].pcs[t].Idle? {
      var u := NoDeadlock(ss[n], t);
    }
  }

  // ----- writers come first

  /** From the first writer's take of block_readers until the last writer gives it back. */
  ghost predicate WritersOwnGate(s: State) {
    Keepers(s, Writers) != {}
  }

  function InsidePc(): Pc -> bool { (pc: Pc) => ReaderInside(pc) }

  lemma NobodyEnters(s: State, t: nat)
    requires Inv(s) && WritersOwnGate(s) && t < |s.pcs|
    ensures !s.writers.free && !Outsider(s.pcs[t], Writers)
  {
    At(s, t, Outside(Writers));
  }

  /** A writer that waits for the resource is one of those who own the gate. */
  lemma WaitingWriterOwnsGate(s: State, t: nat)
    requires t < |s.pcs| && (s.pcs[t].TakeResource? || s.pcs[t].Writing?)
    ensures WritersOwnGate(s)
  {
    At(s, t, Keeper(Writers));
  }

  predicate InsideStep(s: State, e: Event) {
    e.Advance? && e.t < |s.pcs| && ReaderInside(s.pcs[e.t])
  }

  /** While the writers own the gate a task may leave the readers, but none joins them. */
  lemma NobodyJoins(s: State, e: Event)
    requires Inv(s) && WritersOwnGate(s) && Enabled(s, e)
    ensures var pc, pc' := s.pcs[e.t], Do(s, e).pcs[e.t];
            && (ReaderInside(pc') ==> ReaderInside(pc))
            && (InGroup(pc', Readers) ==> InGroup(pc, Readers))
            && Weight(true, pc') + (if InsideStep(s, e) then 1 else 0) <= Weight(true, pc)
  {
    NobodyEnters(s, e.t);
    assert !s.pcs[e.t].GiveGate?;
    if e.Advance? { LeftFalls(s, e); }
  }

  /** A step while the writers own the gate: no reader enters, and a reader inside only gets closer to leaving. */
  lemma StepPrefersWriters(s: State, e: Event)
    requires Inv(s) && WritersOwnGate(s) && Enabled(s, e)
    ensures var s' := Do(s, e);
            && Where(s', InsidePc()) <= Where(s, InsidePc())
            && Members(s', Readers) <= Members(s, Readers)
            && Work(s'.pcs, true) + (if InsideStep(s, e) then 1 else 0) <= Work(s.pcs, true)
  {
    NobodyJoins(s, e);
    OneMoves(s, e);
    hide Inv, Where, WritersOwnGate, Do, Enabled, InGroup, ReaderInside, Weight, Work, InsideStep;
    var s' := Do(s, e);
    WorkMoves(s.pcs, true, e.t, s'.pcs[e.t]);
    Moved(s, s', e.t, InsidePc());
    Moved(s, s', e.t, Member(Readers));
    At(s, e.t, InsidePc());
    At(s, e.t, Member(Readers));
  }

  function InsideSteps(ss: seq<State>, es: seq<Event>): nat
    requires |ss| == |es| + 1
  {
    if es == [] then 0
    else InsideSteps(ss[..|es|], es[..|es| - 1]) + if InsideStep(ss[|es| - 1], es[|es| - 1]) then 1 else 0
  }

  /**
   While the writers own the gate n_readers never rises and no reader callback
   starts.  A waiting writer therefore waits for at most the remaining steps of
   the readers that were already inside (and for other writers).
   */
  lemma WritersComeFirst(ss: seq<State>, es: seq<Event>)
    requires Path(ss, es) && Inv(ss[0])
    requires forall i :: 0 <= i < |es| ==> WritersOwnGate(ss[i])
    ensures ss[|es|].readers.count <= ss[0].readers.count
    ensures Where(ss[|es|], InsidePc()) <= Where(ss[0], InsidePc())
    ensures InsideSteps(ss, es) <= Work(ss[0].pcs, true) - Work(ss[|es|].pcs, true)
  {
    MembersShrink(ss, es);
    PathKeepsInv(ss, es, |es|);
    Smaller(Members(ss[|es|], Readers), Members(ss[0], Readers));
  }

  lemma {:induction false} MembersShrink(ss: seq<State>, es: seq<Event>)
    requires Path(ss, es) && Inv(ss[0])
    requires forall i :: 0 <= i < |es| ==> WritersOwnGate(ss[i])
    ensures Members(ss[|es|], Readers) <= Members(ss[0], Readers)
    ensures Where(ss[|es|], InsidePc()) <= Where(ss[0], InsidePc())
    ensures InsideSteps(ss, es) <= Work(ss[0].pcs, true) - Work(ss[|es|].pcs, true)
  {
    var n := |es|;
    hide Inv, Do, Enabled, Where, Work, InsideStep, WritersOwnGate;
    if n > 0 {
      MembersShrink(ss[..n], es[..n - 1]);
      PathKeepsInv(ss, es, n - 1);
      StepPrefersWriters(ss[n - 1], es[n - 1]);
    }
  }

  lemma Smaller(a: set<nat>, b: set<nat>)
    requires a <= b
    ensures |a| <= |b|
  {
    assert b == a + (b - a);
  }
}
