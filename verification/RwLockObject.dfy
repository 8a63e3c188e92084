/** The lock object of include/task.hh, changed in place one operation at a time. */
module RwLockObject {
  import opened Wrappers
  import opened RwLock

  /** Which of the four semaphores the kernel could create. */
  datatype Created = Created(readLock: bool, writeLock: bool, resourceLock: bool, blockReaders: bool)

  const ALL_CREATED := Created(true, true, true, true)

  datatype InitResult = Success | OutOfResources

  // ----- a lock some of whose semaphores were not created

  /** The semaphore that the operation takes or gives exists. */
  predicate Exists(h: Created, pc: Pc) {
    match pc
    case TakeGate | GiveGate => h.blockReaders
    case TakeResource | GiveResource => h.resourceLock
    case Switch(g, _, stage) =>
      if stage.Semaphore? then (if g.Readers? then h.resourceLock else h.blockReaders)
      else stage.TakeMutex? || stage.GiveMutex? ==> if g.Readers? then h.readLock else h.writeLock
    case _ => true
  }

  /** An operation on a semaphore that does not exist never completes. */
  predicate Runs(h: Created, s: State, e: Event) {
    Enabled(s, e) && (e.Advance? ==> Exists(h, s.pcs[e.t]))
  }

  /** The lock as init() leaves it: a binary semaphore can be taken if it exists. */
  ghost predicate InitWith(h: Created, s: State) {
    && |s.pcs| < WORD
    && s.readers == Side(None, 0, h.resourceLock) && s.writers == Side(None, 0, h.blockReaders)
    && forall t :: 0 <= t < |s.pcs| ==> s.pcs[t].Idle?
  }

  ghost predicate RunWith(h: Created, ss: seq<State>, es: seq<Event>) {
    && |ss| == |es| + 1 && InitWith(h, ss[0])
    && forall i :: 0 <= i < |es| ==> Runs(h, ss[i], es[i]) && ss[i + 1] == Do(ss[i], es[i])
  }

  ghost predicate RunEndsAt(h: Created, ss: seq<State>, es: seq<Event>, t: nat, pc: Pc) {
    RunWith(h, ss, es) && t < |ss[|es|].pcs| && ss[|es|].pcs[t] == pc
  }

  /** In some run some task gets there. */
  ghost predicate Reaches(h: Created, pc: Pc) {
    exists ss, es, t :: RunEndsAt(h, ss, es, t, pc)
  }

  /** With free binary semaphores in place of the missing ones, which nobody takes or gives. */
  function Whole(h: Created, s: State): State {
    s.(readers := s.readers.(free := s.readers.free || !h.resourceLock),
       writers := s.writers.(free := s.writers.free || !h.blockReaders))
  }

  /** Nobody gets past a missing semaphore, so nothing behind it is ever counted. */
  ghost predicate StuckInv(h: Created, s: State) {
    && Inv(Whole(h, s))
    && (!h.readLock ==> s.readers.mutex.None?)
    && (!h.writeLock ==> s.writers.mutex.None? && s.writers.count == 0)
    && (!h.readLock || !h.blockReaders ==> s.readers.count == 0)
  }

  lemma WholeSteps(h: Created, s: State, e: Event)
    requires Runs(h, s, e)
    ensures Enabled(Whole(h, s), e) && Do(Whole(h, s), e) == Whole(h, Do(s, e))
  {
  }

  lemma StepKeepsStuck(h: Created, s: State, e: Event)
    requires StuckInv(h, s) && Runs(h, s, e)
    ensures StuckInv(h, Do(s, e))
  {
    if e.Advance? && s.pcs[e.t].Switch? && s.pcs[e.t].stage.Store? { NoStoreBehind(h, s, e); }
    WholeSteps(h, s, e);
    StepKeepsInv(Whole(h, s), e);
    hide Inv, Whole;
  }

  lemma NoStoreBehind(h: Created, s: State, e: Event)
    requires StuckInv(h, s) && Runs(h, s, e) && e.Advance?
    requires s.pcs[e.t].Switch? && s.pcs[e.t].stage.Store?
    ensures if s.pcs[e.t].g.Readers? then h.readLock && h.blockReaders else h.writeLock
  {
    var w := Whole(h, s);
    var Switch(g, up, _) := s.pcs[e.t];
    At(w, e.t, Hold(g));
    At(w, e.t, Member(Readers));
    At(w, e.t, Outside(Writers));
  }

  lemma {:induction false} RunIsStuck(h: Created, ss: seq<State>, es: seq<Event>, k: nat)
    requires RunWith(h, ss, es) && k < |ss|
    ensures StuckInv(h, ss[k])
  {
    if k == 0 {
      InitInv(Whole(h, ss[0]));
    } else {
      RunIsStuck(h, ss, es, k - 1);
      StepKeepsStuck(h, ss[k - 1], es[k - 1]);
    }
  }

  lemma NobodyBehind(h: Created, s: State, t: nat)
    requires StuckInv(h, s) && t < |s.pcs|
    ensures s.pcs[t].Reading? ==> h.readLock && h.resourceLock && h.blockReaders
    ensures s.pcs[t].Writing? ==> h.writeLock && h.resourceLock && h.blockReaders
  {
    var w := Whole(h, s);
    forall g: Group ensures t in Members(w, g) <==> InGroup(s.pcs[t], g) { At(w, t, Member(g)); }
    forall g: Group ensures t in Keepers(w, g) <==> Keeps(s.pcs[t], g) { At(w, t, Keeper(g)); }
    At(w, t, Outside(Readers));
  }

  lemma Extend(h: Created, ss: seq<State>, es: seq<Event>, e: Event) returns (ss': seq<State>, es': seq<Event>)
    requires RunWith(h, ss, es) && Runs(h, ss[|es|], e)
    ensures RunWith(h, ss', es') && ss'[|es'|] == Do(ss[|es|], e)
  {
    ss', es' := ss + [Do(ss[|es|], e)], es + [e];
  }

  /** One task alone calls read() or write() and gets to its callback in eight steps. */
  lemma LoneCall(h: Created, e: Event, goal: Pc)
    requires h.resourceLock && h.blockReaders
    requires (e == BeginRead(0) && goal.Reading? && h.readLock) || (e == BeginWrite(0) && goal.Writing? && h.writeLock)
    ensures Reaches(h, goal)
  {
    var ss, es := [State(Side(None, 0, true), Side(None, 0, true), [Idle])], [];
    ss, es := Extend(h, ss, es, e);
    ss, es := Extend(h, ss, es, Advance(0));
    ss, es := Extend(h, ss, es, Advance(0));
    ss, es := Extend(h, ss, es, Advance(0));
    ss, es := Extend(h, ss, es, Advance(0));
    ss, es := Extend(h, ss, es, Advance(0));
    ss, es := Extend(h, ss, es, Advance(0));
    if e.BeginRead? { ss, es := Extend(h, ss, es, Advance(0)); }
    assert RunEndsAt(h, ss, es, 0, goal);
  }

  /**
   A read callback can ever run if and only if all semaphores but write_lock were
   created, a write callback if and only if all but read_lock were.
   */
  lemma CallbacksNeedTheirSemaphores(h: Created)
    ensures Reaches(h, Reading) <==> h.readLock && h.resourceLock && h.blockReaders
    ensures Reaches(h, Writing) <==> h.writeLock && h.resourceLock && h.blockReaders
  {
    forall ss, es, t, pc | RunEndsAt(h, ss, es, t, pc)
      ensures pc.Reading? ==> h.readLock && h.resourceLock && h.blockReaders
      ensures pc.Writing? ==> h.writeLock && h.resourceLock && h.blockReaders
    {
      RunIsStuck(h, ss, es, |es|);
      NobodyBehind(h, ss[|es|], t);
    }
    if h.resourceLock && h.blockReaders {
      if h.readLock { LoneCall(h, BeginRead(0), Reading); }
      if h.writeLock { LoneCall(h, BeginWrite(0), Writing); }
    }
  }

  /** init() succeeds without write_lock; reads then work, but no write ever gets to its callback. */
  lemma InitMissesWriteLock()
    ensures var h := Created(true, false, true, true);
            h.readLock && Reaches(h, Reading) && !Reaches(h, Writing)
  {
    CallbacksNeedTheirSemaphores(Created(true, false, true, true));
  }

  class LockObject {
    var made: Created              // which handles are not null
    var readLock: Option<nat>      // mutex: its holder
    var writeLock: Option<nat>     // mutex: its holder
    var resourceLock: bool         // binary semaphore: true when it can be taken
    var blockReaders: bool         // binary semaphore: true when it can be taken
    var nReaders: nat
    var nWriters: nat
    var pcs: seq<Pc>               // the next operation of every task

    function Abs(): State
      reads this
    {
      State(Side(readLock, nReaders, resourceLock), Side(writeLock, nWriters, blockReaders), pcs)
    }

    /** Every semaphore exists and the lock is in its initial state. */
    ghost predicate Initialized()
      reads this
    {
      made == ALL_CREATED && Init(Abs())
    }

    constructor (tasks: nat)
      ensures pcs == seq(tasks, _ => Idle)
    {
      made := Created(false, false, false, false);
      readLock, writeLock, resourceLock, blockReaders := None, None, false, false;
      nReaders, nWriters := 0, 0;
      pcs := seq(tasks, _ => Idle);
    }

    /**
     All four checks test read_lock, so success says no more than that the first
     mutex exists.  Giving a binary semaphore that does not exist has no effect.
     */
    method Initialize(made: Created) returns (ret: InitResult)
      requires |pcs| < WORD && forall t :: 0 <= t < |pcs| ==> pcs[t].Idle?
      modifies this
      ensures ret.Success? <==> made.readLock
      ensures pcs == old(pcs)
      ensures ret.Success? ==> this.made == made && InitWith(made, Abs())
      ensures ret.Success? ==> (Initialized() <==> made.writeLock && made.resourceLock && made.blockReaders)
    {
      nReaders, nWriters := 0, 0;
      readLock, writeLock, resourceLock, blockReaders := None, None, false, false;
      this.made := Created(made.readLock, false, false, false);
      if !made.readLock {
        return OutOfResources;
      }
      this.made := made;
      resourceLock, blockReaders := made.resourceLock, made.blockReaders;
      return Success;
    }

    /**
     A binary semaphore or mutex is taken only when it exists and is free, and
     given only when it exists; the counters change by load and store.
     */
    method Step(e: Event) returns (ran: bool)
      modifies this
      ensures ran <==> Runs(made, old(Abs()), e)
      ensures Abs() == if ran then Do(old(Abs()), e) else old(Abs())
      ensures made == old(made)
    {
      if e.t >= |pcs| || !Ready(e) || (e.Advance? && !Exists(made, pcs[e.t])) {
        return false;
      }
      ran := true;
      var t := e.t;
      match e {
        case BeginRead(_) => pcs := pcs[t := TakeGate];
        case BeginWrite(_) => pcs := pcs[t := Switch(Writers, true, TakeMutex)];
        case Advance(_) =>
          match pcs[t] {
            case TakeGate =>
              blockReaders := false;
              pcs := pcs[t := Switch(Readers, true, TakeMutex)];
            case GiveGate =>
              blockReaders := true;
              pcs := pcs[t := Reading];
            case Reading =>
              pcs := pcs[t := Switch(Readers, false, TakeMutex)];
            case TakeResource =>
              resourceLock := false;
              pcs := pcs[t := Writing];
            case Writing =>
              pcs := pcs[t := GiveResource];
            case GiveResource =>
              resourceLock := true;
              pcs := pcs[t := Switch(Writers, false, TakeMutex)];
            case Switch(g, up, stage) =>
              if g.Readers? { ReaderSwitch(t, up, stage); } else { WriterSwitch(t, up, stage); }
          }
      }
    }

    predicate Ready(e: Event)
      reads this
      requires e.t < |pcs|
    {
      if !e.Advance? then pcs[e.t].Idle? else
      match pcs[e.t]
      case Idle => false
      case TakeGate => blockReaders
      case TakeResource => resourceLock
      case Switch(g, _, TakeMutex) => if g.Readers? then readLock.None? else writeLock.None?
      case Switch(g, up, Semaphore) => !up || (if g.Readers? then resourceLock else blockReaders)
      case _ => true
    }

    method ReaderSwitch(t: nat, up: bool, stage: Stage)
      requires t < |pcs| && pcs[t] == Switch(Readers, up, stage) && Enabled(Abs(), Advance(t))
      modifies this
      ensures Abs() == Do(old(Abs()), Advance(t)) && made == old(made)
    {
      match stage {
        case TakeMutex =>
          readLock := Some(t);
          pcs := pcs[t := Switch(Readers, up, Load)];
        case Load =>
          pcs := pcs[t := Switch(Readers, up, Store(nReaders))];
        case Store(r) =>
          nReaders := if up then (r + 1) % WORD else (r - 1) % WORD;
          pcs := pcs[t := Switch(Readers, up, if nReaders == (if up then 1 else 0) then Semaphore else GiveMutex)];
        case Semaphore =>
          resourceLock := !up;
          pcs := pcs[t := Switch(Readers, up, GiveMutex)];
        case GiveMutex =>
          readLock := None;
          pcs := pcs[t := if up then GiveGate else Idle];
      }
    }

    method WriterSwitch(t: nat, up: bool, stage: Stage)
      requires t < |pcs| && pcs[t] == Switch(Writers, up, stage) && Enabled(Abs(), Advance(t))
      modifies this
      ensures Abs() == Do(old(Abs()), Advance(t)) && made == old(made)
    {
      match stage {
        case TakeMutex =>
          writeLock := Some(t);
          pcs := pcs[t := Switch(Writers, up, Load)];
        case Load =>
          pcs := pcs[t := Switch(Writers, up, Store(nWriters))];
        case Store(w) =>
          nWriters := if up then (w + 1) % WORD else (w - 1) % WORD;
          pcs := pcs[t := Switch(Writers, up, if nWriters == (if up then 1 else 0) then Semaphore else GiveMutex)];
        case Semaphore =>
          blockReaders := !up;
          pcs := pcs[t := Switch(Writers, up, GiveMutex)];
        case GiveMutex =>
          writeLock := None;
          pcs := pcs[t := if up then TakeResource else Idle];
      }
    }
  }
}
