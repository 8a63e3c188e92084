/**
 The LED task's render loop (src/led/thread.cc) against the SPI completion
 interrupt: two buffers, one notification slot, and a wait that can time out.
 A failed APP_ERROR_CHECK or assert halts the system in `fault`.
 */
module LedThread {
  import opened Wrappers
  import opened SpiTransport

  /** What a buffer holds: frame 0 is black, frame n the result of render n. */
  datatype Content = Torn | Frame(n: nat)

  datatype Pc = Filling | FirstSet | ToSend | Sent | Rendering | Waiting | ToSet | Delay

  datatype State = State(
    spi: Spi,
    pc: Pc,
    idx: nat,                  // tc_idx
    content: seq<Content>,     // tc[0] and tc[1]
    pending: bool,             // the task's notification slot
    frame: nat,                // renders completed
    sent: seq<Content>,        // history: content of the buffer at each start of a transfer
    fault: bool)

  datatype Event =
    | Fill                     // write the black frame into the first buffer
    | SetBuffer(driverOk: bool)
    | Send
    | BeginRender              // flip the index and clear the other buffer
    | RenderMore
    | EndRender(ok: bool)
    | TakeNotification
    | Timeout
    | Wake                     // the refresh interval has passed
    | Interrupt                // transfer complete

  ghost predicate Init(s: State) {
    && s.spi == INITIALIZED && s.pc.Filling? && s.idx == 0 && |s.content| == 2
    && !s.pending && s.frame == 0 && s.sent == [] && !s.fault
  }

  predicate Shape(s: State) {
    s.idx < 2 && |s.content| == 2 && (s.spi.configured.Some? ==> s.spi.configured.value < 2)
  }

  predicate Enabled(s: State, e: Event) {
    && !s.fault
    && match e
       case Fill => s.pc.Filling?
       case SetBuffer(_) => s.pc.FirstSet? || s.pc.ToSet?
       case Send => s.pc.ToSend?
       case BeginRender => s.pc.Sent?
       case RenderMore => s.pc.Rendering?
       case EndRender(_) => s.pc.Rendering?
       case TakeNotification => s.pc.Waiting? && s.pending
       case Timeout => s.pc.Waiting? && !s.pending
       case Wake => s.pc.Delay?
       case Interrupt => s.spi.active.Some?
  }

  function Do(s: State, e: Event): (s': State)
    requires Shape(s) && Enabled(s, e)
    ensures Shape(s')
  {
    match e
    case Fill => s.(content := s.content[0 := Frame(0)], pc := FirstSet)
    case SetBuffer(driverOk) =>
      var (spi, ret) := AfterSetBuffer(s.spi, s.idx, driverOk);
      if !ret.Success? then s.(spi := spi, fault := true)
      else s.(spi := spi, pc := if s.pc.FirstSet? then ToSend else Delay)
    case Send =>
      var (spi, ret) := AfterSend(s.spi);
      if !ret.Success? then s.(spi := spi, fault := true)
      else s.(spi := spi, pc := Sent,
              sent := s.sent + [if spi.configured.Some? then s.content[spi.configured.value] else Torn])
    case BeginRender =>
      var idx := (s.idx + 1) % 2;
      s.(idx := idx, content := s.content[idx := Torn], pc := Rendering)
    case RenderMore => s.(content := s.content[s.idx := Torn])
    case EndRender(ok) =>
      if !ok then s.(fault := true)
      else s.(content := s.content[s.idx := Frame(s.frame + 1)], frame := s.frame + 1, pc := Waiting)
    case TakeNotification => s.(pending := false, pc := ToSet)
    case Timeout => s.(pc := ToSet)
    case Wake => s.(pc := ToSend)
    case Interrupt =>
      // eSetValueWithoutOverwrite fails when a notification is pending
      if s.pending then s.(fault := true)
      else s.(pending := true, spi := AfterDone(s.spi, true))
  }

  ghost predicate Path(ss: seq<State>, es: seq<Event>) {
    && |ss| == |es| + 1
    && forall i :: 0 <= i < |es| ==> Shape(ss[i]) && Enabled(ss[i], es[i]) && ss[i + 1] == Do(ss[i], es[i])
  }

  ghost predicate Run(ss: seq<State>, es: seq<Event>) {
    Path(ss, es) && Init(ss[0])
  }

  // ----- no tearing, timeouts included

  /** Frames went out in order, each once. */
  predicate InOrder(sent: seq<Content>) {
    forall i :: 0 <= i < |sent| ==> sent[i] == Frame(i)
  }

  /** Where the frames are at each point of the loop. */
  predicate Placed(s: State)
    requires Shape(s)
  {
    var other := s.content[1 - s.idx];
    match s.pc
    case Filling => s.idx == 0 && s.frame == 0 && s.sent == [] && s.spi == INITIALIZED && !s.pending
    case FirstSet =>
      && s.idx == 0 && s.frame == 0 && s.sent == []
      && s.spi == INITIALIZED && !s.pending && s.content[0] == Frame(0)
    case ToSend | Delay =>
      && s.spi.ready && s.spi.queued == s.spi.configured == Some(s.idx)
      && s.content[s.idx] == Frame(s.frame) && |s.sent| == s.frame
    case Sent =>
      s.spi.configured == Some(s.idx) && s.content[s.idx] == Frame(s.frame) && |s.sent| == s.frame + 1
    case Rendering =>
      s.spi.configured == Some(1 - s.idx) && other == Frame(s.frame) && |s.sent| == s.frame + 1
    case Waiting | ToSet =>
      s.frame > 0 && s.spi.configured == Some(1 - s.idx) && other == Frame(s.frame - 1) &&
      s.content[s.idx] == Frame(s.frame) && |s.sent| == s.frame
  }

  predicate Inv(s: State) {
    Shape(s) && InOrder(s.sent) && (s.fault || (Consistent(s.spi) && Placed(s)))
  }

  lemma StepKeepsOrder(s: State, e: Event)
    requires Inv(s) && Enabled(s, e)
    ensures InOrder(Do(s, e).sent)
  {
  }

  lemma StepKeepsPlaces(s: State, e: Event)
    requires Shape(s) && Consistent(s.spi) && Placed(s) && Enabled(s, e) && !Do(s, e).fault
    ensures Consistent(Do(s, e).spi) && Placed(Do(s, e))
  {
    hide InOrder;
  }

  lemma StepKeepsInv(s: State, e: Event)
    requires Inv(s) && Enabled(s, e)
    ensures Inv(Do(s, e))
  {
    StepKeepsOrder(s, e);
    if !Do(s, e).fault { StepKeepsPlaces(s, e); }
    hide InOrder, Placed, Consistent, Do;
  }

  lemma {:induction false} InvHolds(ss: seq<State>, es: seq<Event>, k: nat)
    requires Run(ss, es) && k < |ss|
    ensures Inv(ss[k])
  {
    if k > 0 {
      InvHolds(ss, es, k - 1);
      StepKeepsInv(ss[k - 1], es[k - 1]);
    }
  }

  lemma StepLeavesTheWire(s: State, e: Event)
    requires Inv(s) && Enabled(s, e) && !s.fault && s.spi.active.Some?
    ensures s.spi.active.value < 2 && s.sent != []
    ensures s.content[s.spi.active.value] == s.sent[|s.sent| - 1] == Frame(|s.sent| - 1)
    ensures Do(s, e).content[s.spi.active.value] == s.content[s.spi.active.value]
  {
  }

  /**
   In every run, timeouts included: the buffer on the wire holds a complete frame,
   the last one started, and no step changes it; the frames that go out are the
   black one and then render 1, 2, 3, ... each once.
   */
  lemma NoTearing(ss: seq<State>, es: seq<Event>, k: nat)
    requires Run(ss, es) && k < |es|
    ensures Shape(ss[k]) && InOrder(ss[k].sent)
    ensures ss[k].spi.active.Some? && !ss[k].fault ==>
              && ss[k].spi.active.value < 2 && ss[k].sent != []
              && ss[k].content[ss[k].spi.active.value] == ss[k].sent[|ss[k].sent| - 1] == Frame(|ss[k].sent| - 1)
              && ss[k + 1].content[ss[k].spi.active.value] == ss[k].content[ss[k].spi.active.value]
  {
    InvHolds(ss, es, k);
    hide Init;
    if ss[k].spi.active.Some? && !ss[k].fault { StepLeavesTheWire(ss[k], es[k]); }
  }

  /** After the wait, set_buffer fails if and only if the transfer is late (or the driver refuses). */
  lemma LateTransferFaults(s: State, driverOk: bool)
    requires Inv(s) && Enabled(s, SetBuffer(driverOk))
    ensures Do(s, SetBuffer(driverOk)).fault <==> s.spi.active.Some? || !driverOk
    ensures Do(s, SetBuffer(driverOk)).content == s.content && Do(s, SetBuffer(driverOk)).sent == s.sent
  {
  }

  /** A completion faults if and only if the task has not taken the last notification; otherwise it notifies. */
  lemma InterruptNotifies(s: State)
    requires Shape(s) && Enabled(s, Interrupt)
    ensures Do(s, Interrupt).fault <==> s.pending
    ensures !s.pending ==> Do(s, Interrupt).pending && Do(s, Interrupt).spi.ready
  {
  }

  // ----- no faults without timeouts and failing calls

  predicate Benign(e: Event) {
    match e
    case SetBuffer(driverOk) => driverOk
    case EndRender(ok) => ok
    case Timeout => false
    case _ => true
  }

  /** The completion of the current transfer has been notified or is still to come, not both. */
  predicate InStep(s: State) {
    match s.pc
    case Sent | Rendering | Waiting => s.pending <==> s.spi.ready
    case _ => !s.pending && s.spi.ready
  }

  lemma StepKeepsInStep(s: State, e: Event)
    requires Inv(s) && InStep(s) && Enabled(s, e) && Benign(e)
    ensures InStep(Do(s, e)) && !Do(s, e).fault
  {
  }

  /**
   If no wait times out and the driver and renderer succeed, the loop never
   faults: set_buffer is never busy, send always finds a buffer, and a completion
   never finds an old notification pending.
   */
  lemma {:induction false} NoFaultWithoutTimeout(ss: seq<State>, es: seq<Event>, k: nat)
    requires Run(ss, es) && k < |ss|
    requires forall i :: 0 <= i < |es| ==> Benign(es[i])
    ensures Inv(ss[k]) && InStep(ss[k]) && !ss[k].fault
  {
    if k > 0 {
      NoFaultWithoutTimeout(ss, es, k - 1);
      StepKeepsInv(ss[k - 1], es[k - 1]);
      StepKeepsInStep(ss[k - 1], es[k - 1]);
    }
  }

  /** Such a run is never stuck: the task or the interrupt can take a benign step that takes the loop forward. */
  lemma AlwaysAStep(s: State) returns (e: Event)
    requires Inv(s) && InStep(s) && !s.fault
    ensures Benign(e) && Enabled(s, e) && !e.RenderMore?
  {
    e := match s.pc
      case Filling => Fill
      case FirstSet | ToSet => SetBuffer(true)
      case ToSend => Send
      case Sent => BeginRender
      case Rendering => EndRender(true)
      case Waiting => if s.pending then TakeNotification else Interrupt
      case Delay => Wake;
  }

  // ----- frames go out

  /** A step of the task that takes its loop forward. */
  predicate LoopStep(e: Event) {
    !e.RenderMore? && !e.Interrupt?
  }

  function LoopSteps(es: seq<Event>): nat {
    if es == [] then 0 else LoopSteps(es[..|es| - 1]) + if LoopStep(es[|es| - 1]) then 1 else 0
  }

  /** Where the loop is, counted from the point at which the next frame is set. */
  function Place(pc: Pc): int {
    match pc
    case Filling | ToSet => 0
    case FirstSet | Delay => 1
    case ToSend => 2
    case Sent => -3
    case Rendering => -2
    case Waiting => -1
  }

  lemma StepKeepsPlace(s: State, e: Event)
    requires Inv(s) && Enabled(s, e) && !Do(s, e).fault
    ensures 6 * |Do(s, e).sent| + Place(Do(s, e).pc) == 6 * |s.sent| + Place(s.pc) + if LoopStep(e) then 1 else 0
  {
  }

  lemma {:induction false} LoopAdvances(ss: seq<State>, es: seq<Event>, k: nat)
    requires Run(ss, es) && k < |ss| && !ss[k].fault
    ensures 6 * |ss[k].sent| + Place(ss[k].pc) == LoopSteps(es[..k])
  {
    hide Do, Place;
    if k > 0 {
      FaultsStay(ss[k - 1], es[k - 1]);
      LoopAdvances(ss, es, k - 1);
      InvHolds(ss, es, k - 1);
      hide Inv;
      StepKeepsPlace(ss[k - 1], es[k - 1]);
      assert es[..k][..k - 1] == es[..k - 1];
    } else {
      assert Place(ss[0].pc) == 0 by { StartsAtZero(ss[0]); }
    }
  }

  lemma StartsAtZero(s: State)
    requires Init(s)
    ensures Place(s.pc) == 0
  {
  }

  /**
   Every frame goes out: a run that has not faulted, timeouts included, has sent
   exactly one frame for every six steps of its loop, the first with the third.
   */
  lemma FramesGoOut(ss: seq<State>, es: seq<Event>, k: nat)
    requires Run(ss, es) && k < |ss| && !ss[k].fault
    ensures |ss[k].sent| == (LoopSteps(es[..k]) + 3) / 6
    ensures forall n :: 0 <= n < (LoopSteps(es[..k]) + 3) / 6 ==> ss[k].sent[n] == Frame(n)
  {
    LoopAdvances(ss, es, k);
    InvHolds(ss, es, k);
  }

  lemma FaultsStay(s: State, e: Event)
    requires Shape(s) && Enabled(s, e)
    ensures !s.fault
  {
  }

  function Interrupts(es: seq<Event>): nat {
    if es == [] then 0 else Interrupts(es[..|es| - 1]) + if es[|es| - 1].Interrupt? then 1 else 0
  }

  /** Every completion interrupt belongs to a frame: as many have come as frames are no longer on the wire. */
  lemma {:induction false} OneInterruptPerFrame(ss: seq<State>, es: seq<Event>, k: nat)
    requires Run(ss, es) && k < |ss| && !ss[k].fault
    ensures Interrupts(es[..k]) + (if ss[k].spi.active.Some? then 1 else 0) == |ss[k].sent|
  {
    InvHolds(ss, es, k);
    if k > 0 {
      FaultsStay(ss[k - 1], es[k - 1]);
      OneInterruptPerFrame(ss, es, k - 1);
      InvHolds(ss, es, k - 1);
      StepKeepsInterrupts(ss[k - 1], es[k - 1]);
      assert es[..k][..k - 1] == es[..k - 1];
    }
  }

  lemma StepKeepsInterrupts(s: State, e: Event)
    requires Inv(s) && Enabled(s, e) && !Do(s, e).fault
    ensures |Do(s, e).sent| - (if Do(s, e).spi.active.Some? then 1 else 0) ==
            |s.sent| - (if s.spi.active.Some? then 1 else 0) + (if e.Interrupt? then 1 else 0)
  {
  }

  /**
   In a benign run every step but RenderMore counts: with n of them at least
   (n - 2) / 7 frames have gone out, in order.
   */
  lemma BenignRunsSendFrames(ss: seq<State>, es: seq<Event>)
    requires Run(ss, es) && forall i :: 0 <= i < |es| ==> Benign(es[i])
    ensures var sent := ss[|es|].sent;
            && LoopSteps(es) + Interrupts(es) <= 7 * |sent| + 2
            && forall n :: 0 <= n < |sent| ==> sent[n] == Frame(n)
  {
    NoFaultWithoutTimeout(ss, es, |es|);
    assert es[..|es|] == es;
    LoopAdvances(ss, es, |es|);
    InvHolds(ss, es, |es|);
    OneInterruptPerFrame(ss, es, |es|);
  }

  /** The LED task and its completion interrupt, in place, on a transport object. */
  class LedTask {
    const tp: Transport
    var pc: Pc
    var tcIdx: nat
    var tc: seq<Content>
    var notification: bool
    var frame: nat
    ghost var sent: seq<Content>
    var fault: bool

    ghost function Abs(): State
      reads this, tp
    {
      State(tp.Abs(), pc, tcIdx, tc, notification, frame, sent, fault)
    }

    constructor (tp: Transport)
      requires tp.Abs() == INITIALIZED
      ensures this.tp == tp && Init(Abs())
    {
      this.tp := tp;
      pc, tcIdx, tc, notification, frame, sent, fault := Filling, 0, [Torn, Torn], false, 0, [], false;
    }

    /** One step of the task's loop. */
    method TaskStep(e: Event)
      requires Shape(Abs()) && Enabled(Abs(), e) && !e.Interrupt?
      modifies this, tp
      ensures Abs() == Do(old(Abs()), e)
    {
      match e {
        case Fill =>
          tc := tc[0 := Frame(0)];
          pc := FirstSet;
        case SetBuffer(driverOk) =>
          var ret := tp.SetBuffer(tcIdx, driverOk);
          if ret.Success? {
            pc := if pc.FirstSet? then ToSend else Delay;
          } else {
            fault := true;
          }
        case Send =>
          var ret := tp.Send();
          if ret.Success? {
            sent := sent + [if tp.configured.Some? then tc[tp.configured.value] else Torn];
            pc := Sent;
          } else {
            fault := true;
          }
        case BeginRender =>
          tcIdx := (tcIdx + 1) % 2;
          tc := tc[tcIdx := Torn];
          pc := Rendering;
        case RenderMore =>
          tc := tc[tcIdx := Torn];
        case EndRender(ok) =>
          if ok {
            frame := frame + 1;
            tc := tc[tcIdx := Frame(frame)];
            pc := Waiting;
          } else {
            fault := true;
          }
        case TakeNotification =>
          notification := false;
          pc := ToSet;
        case Timeout =>
          pc := ToSet;
        case Wake =>
          pc := ToSend;
      }
    }

    /** spim_evt_handler with the callback on_send_complete, which must find the notification slot empty. */
    method CompletionInterrupt()
      requires Shape(Abs()) && Enabled(Abs(), Interrupt)
      modifies this, tp
      ensures Abs() == Do(old(Abs()), Interrupt)
    {
      if notification {
        fault := true;
      } else {
        notification := true;
        tp.OnDone(true);
      }
    }
  }
}
