/** The SPI transport (src/periph/spi.cc) over the SPIM driver. */
module SpiTransport {
  import opened Wrappers

  datatype Ret = Success | Busy | NoBuffer | DriverError

  /**
   `ready` and `queued` are the transport's own state; `configured` is the buffer
   that the driver was given last, `active` the one that DMA is reading.
   */
  datatype Spi = Spi(ready: bool, queued: Option<nat>, configured: Option<nat>, active: Option<nat>)

  const INITIALIZED := Spi(true, None, None, None)

  /** set_buffer: refuse while busy, hand the buffer to the driver, remember it. */
  function AfterSetBuffer(s: Spi, buf: nat, driverOk: bool): (Spi, Ret) {
    if !s.ready then (s, Busy)
    else if !driverOk then (s, DriverError)
    else (s.(configured := Some(buf), queued := Some(buf)), Success)
  }

  /** send: even when there is no buffer the transport stops being ready. */
  function AfterSend(s: Spi): (Spi, Ret) {
    if !s.ready then (s, Busy)
    else if s.queued.None? then (s.(ready := false), NoBuffer)
    else (s.(ready := false, active := s.configured), Success)
  }

  /** The completion event; `release` is what the callback returned (false without a callback). */
  function AfterDone(s: Spi, release: bool): Spi {
    s.(ready := true, active := None, queued := if release then None else s.queued)
  }

  /**
   The transport is ready exactly when nothing is being transmitted, so no
   completion event can fall between the ready check and the end of a call.
   */
  predicate Consistent(s: Spi) {
    && (s.ready <==> s.active.None?)
    && (s.active.Some? ==> s.active == s.configured)
    && (s.queued.Some? ==> s.queued == s.configured)
  }

  /** A call or event keeps consistency unless it reports that there was no buffer. */
  lemma CallsKeepConsistent(s: Spi, buf: nat, driverOk: bool, release: bool)
    requires Consistent(s)
    ensures Consistent(AfterSetBuffer(s, buf, driverOk).0)
    ensures Consistent(AfterSend(s).0) <==> !AfterSend(s).1.NoBuffer?
    ensures Consistent(AfterDone(s, release))
    ensures AfterSend(s).1.Success? <==> s.active.None? && s.queued.Some?
  {
  }

  /**
   One transfer: a buffer that was set is the one that is sent; until the
   completion event every call is refused; after it the next send needs a new
   buffer exactly when the callback released this one.
   */
  lemma OneTransfer(s: Spi, buf: nat, other: nat, release: bool)
    requires Consistent(s) && s.ready
    ensures var (filled, r0) := AfterSetBuffer(s, buf, true);
            var (sent, r1) := AfterSend(filled);
            && r0.Success? && r1.Success? && sent.active == Some(buf)
            && (forall ok: bool :: AfterSetBuffer(sent, other, ok) == (sent, Busy)) && AfterSend(sent) == (sent, Busy)
            && var done := AfterDone(sent, release);
            && done.active.None? && AfterSetBuffer(done, other, true).1.Success?
            && (if release then AfterSend(done).1.NoBuffer?
                else AfterSend(done).1.Success? && AfterSend(done).0.active == Some(buf))
    ensures AfterSetBuffer(s, buf, false) == (s, DriverError)
  {
  }

  class Transport {
    var ready: bool
    var queued: Option<nat>
    var configured: Option<nat>
    var active: Option<nat>

    function Abs(): Spi
      reads this
    {
      Spi(ready, queued, configured, active)
    }

    constructor ()
      ensures Abs() == INITIALIZED
    {
      ready, queued, configured, active := true, None, None, None;
    }

    method SetBuffer(buf: nat, driverOk: bool) returns (ret: Ret)
      modifies this
      ensures (Abs(), ret) == AfterSetBuffer(old(Abs()), buf, driverOk)
    {
      if !ready {
        return Busy;
      }
      if !driverOk {
        return DriverError;
      }
      configured := Some(buf);
      queued := Some(buf);
      return Success;
    }

    method Send() returns (ret: Ret)
      modifies this
      ensures (Abs(), ret) == AfterSend(old(Abs()))
    {
      if !ready {
        return Busy;
      }
      ret := if queued.None? then NoBuffer else Success;
      ready := false;
      if ret.Success? {
        active := configured;
      }
    }

    method OnDone(release: bool)
      modifies this
      ensures Abs() == AfterDone(old(Abs()), release)
    {
      active := None;
      if release {
        queued := None;
      }
      ready := true;
    }
  }
}
