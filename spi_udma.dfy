/**
  The SPI/uDMA streaming engine.  The uDMA channel for SSI1 TX sends one
  buffer to the SPI data register and disables itself when done; the SSI1
  interrupt then re-arms it.  Re-arming alternates between the frame buffer
  and a two-byte run of the single static zero byte, the reset gap the LEDs
  need to latch a frame.  When the gap has gone out and the frame is armed
  again, the handler writes 1 to the caller's done variable.

  The vendor ROM calls are not modelled one by one: their only effect here
  is on three hardware registers, the channel-enable bit, the channel's
  transfer descriptor and the two interrupt status words.
 */
module SpiUdma {
  import opened Ws2812

  /** What the channel reads from: the registered frame buffer, or the static byte ucZero. */
  datatype Source = FrameBuffer | ZeroByte

  /** The channel's primary control structure, as the ROM control/transfer calls leave it. */
  datatype Descriptor = Unconfigured | Armed(source: Source, length: nat, srcIncrement: bool)

  /** The caller's done variable as the engine sees it: no pointer, or the byte it points to. */
  datatype DoneVar = NoDoneVar | DoneVar(value: bv8)

  /** Everything the three entry points read or write, as one value. */
  datatype Engine = Engine(
    ping: bv8,
    done: DoneVar,
    frameSize: Uint16,
    channelEnabled: bool,
    descriptor: Descriptor,
    ssiIntStatus: nat,
    dmaErrorStatus: nat)

  /** The static ucZero, which is never written. */
  const ZERO_BYTE: bv8 := 0

  /** Bytes of ucZero sent as the reset gap. */
  const RESET_GAP_LENGTH: nat := 2

  /** The reset gap: two bytes from ucZero, source address not incremented. */
  const GAP_DESCRIPTOR: Descriptor := Armed(ZeroByte, RESET_GAP_LENGTH, false)

  /** The whole frame buffer, source address incremented by one byte. */
  function FrameDescriptor(size: Uint16): Descriptor
  {
    Armed(FrameBuffer, size, true)
  }

  // ---------------------------------------------------------------------------
  // The engine as a transition system
  // ---------------------------------------------------------------------------

  /** The state after reset: C statics start at zero, the channel is off. */
  const RESET: Engine := Engine(0, NoDoneVar, 0, false, Unconfigured, 0, 0)

  /** InitSPITransfer's effect on the engine, for a frame buffer of `size` bytes. */
  function Start(e: Engine, size: Uint16): (r: Engine)
    ensures r.ping == e.ping && r.ssiIntStatus == e.ssiIntStatus && r.dmaErrorStatus == e.dmaErrorStatus
    ensures r.done == DoneVar(0) && r.frameSize == size
    ensures r.channelEnabled && r.descriptor == Armed(FrameBuffer, size, true)
  {
    e.(done := DoneVar(0), frameSize := size, descriptor := FrameDescriptor(size), channelEnabled := true)
  }

  /** SSI1IntHandler's effect on the engine. */
  function Handle(e: Engine): (r: Engine)
    ensures r.ssiIntStatus == 0 && r.channelEnabled
    ensures r.frameSize == e.frameSize && r.dmaErrorStatus == e.dmaErrorStatus
    ensures r.done.DoneVar? == e.done.DoneVar?
    ensures !e.channelEnabled ==> (r.ping == 0 <==> e.ping != 0)
  {
    var e := e.(ssiIntStatus := 0);
    if e.channelEnabled then e
    else if e.ping != 0 then
      e.(descriptor := FrameDescriptor(e.frameSize), ping := 0,
         done := if e.done.DoneVar? then DoneVar(1) else NoDoneVar, channelEnabled := true)
    else
      e.(descriptor := GAP_DESCRIPTOR, ping := 1, channelEnabled := true)
  }

  /** uDMAErrorHandler's effect on the engine. */
  function HandleError(e: Engine): (r: Engine)
    ensures r.dmaErrorStatus == 0 && r == e.(dmaErrorStatus := 0)
  {
    if e.dmaErrorStatus != 0 then e.(dmaErrorStatus := 0) else e
  }

  /** Whether a call of SSI1IntHandler in state e writes 1 to the done variable. */
  predicate RaisesDone(e: Engine)
  {
    !e.channelEnabled && e.ping != 0 && e.done.DoneVar?
  }

  /** The hardware side: the armed transfer finishes and the channel disables itself. */
  function Complete(e: Engine): Engine
  {
    e.(channelEnabled := false)
  }

  /** The engine after k transfer completions, each served by SSI1IntHandler. */
  function Run(e: Engine, k: nat): Engine
  {
    if k == 0 then e else Handle(Complete(Run(e, k - 1)))
  }

  /** How many of those k handler calls wrote 1 to the done variable. */
  function RaiseCount(e: Engine, k: nat): nat
  {
    if k == 0 then 0
    else RaiseCount(e, k - 1) + (if RaisesDone(Complete(Run(e, k - 1))) then 1 else 0)
  }

  /**
    The bytes a descriptor sends: the frame or the zero byte, read with the
    source address incremented or fixed.
   */
  function Transmitted(d: Descriptor, frame: seq<bv8>): (out: seq<bv8>)
    requires d.Armed?
    requires d.source == FrameBuffer && d.srcIncrement ==> d.length <= |frame|
    requires d.source == FrameBuffer && !d.srcIncrement && d.length > 0 ==> |frame| > 0
    requires d.source == ZeroByte && d.srcIncrement ==> d.length <= 1
    ensures |out| == d.length
  {
    var src := if d.source == FrameBuffer then frame else [ZERO_BYTE];
    if d.srcIncrement then src[..d.length] else seq(d.length, _ requires |src| > 0 => src[0])
  }

  // ---------------------------------------------------------------------------
  // Properties of the transition system
  // ---------------------------------------------------------------------------

  /**
    One handler call: it always leaves the channel enabled and the status
    cleared; it writes the done variable exactly when RaisesDone holds, and
    only ever writes 1; and it raises the flag at the moment the frame is
    re-armed, not when the frame has finished.
   */
  lemma HandleDoneWrite(e: Engine)
    ensures Handle(e).channelEnabled && Handle(e).ssiIntStatus == 0
    ensures Handle(e).done == if RaisesDone(e) then DoneVar(1) else e.done
    ensures RaisesDone(e) ==> Handle(e).descriptor == FrameDescriptor(e.frameSize)
    ensures Handle(e).frameSize == e.frameSize && Handle(e).dmaErrorStatus == e.dmaErrorStatus
  {
  }

  /** While the channel is still enabled the handler only clears the SSI status. */
  lemma HandleWhileEnabled(e: Engine)
    requires e.channelEnabled
    ensures Handle(e) == e.(ssiIntStatus := 0)
  {
  }

  /**
    Strict alternation: of two consecutive completions, from any state, one
    arms the gap and the other arms the frame, and exactly one of them raises
    the done flag when a done variable is registered.
   */
  lemma {:induction false} StrictAlternation(e: Engine)
    ensures var e1 := Handle(Complete(e)); var e2 := Handle(Complete(e1));
      {e1.descriptor, e2.descriptor} == {GAP_DESCRIPTOR, FrameDescriptor(e.frameSize)}
      && e1.descriptor != e2.descriptor
      && (e.done.DoneVar? ==> (RaisesDone(Complete(e)) != RaisesDone(Complete(e1))))
  {
    var e1 := Handle(Complete(e));
    if e.ping != 0 {
      assert e1.ping == 0 && e1.descriptor == FrameDescriptor(e.frameSize);
    } else {
      assert e1.ping == 1 && e1.descriptor == GAP_DESCRIPTOR;
    }
  }

  /**
    From ping == 0 (the state after reset, which InitSPITransfer keeps),
    the k-th completion arms the gap when k is odd and the frame when k is
    even, and the done flag has been raised floor(k / 2) times.
   */
  lemma {:induction false} RunFromPingZero(e: Engine, k: nat)
    requires e.ping == 0
    ensures Run(e, k).ping == if k % 2 == 0 then 0 else 1
    ensures Run(e, k).frameSize == e.frameSize
    ensures k > 0 ==> Run(e, k).channelEnabled
    ensures k > 0 ==> Run(e, k).descriptor == if k % 2 == 1 then GAP_DESCRIPTOR else FrameDescriptor(e.frameSize)
    ensures RaiseCount(e, k) == if e.done.DoneVar? then k / 2 else 0
    ensures Run(e, k).done == if e.done.DoneVar? && k >= 2 then DoneVar(1) else e.done
  {
    if k > 0 {
      RunFromPingZero(e, k - 1);
    }
  }

  /** The start of a stream: after reset and InitSPITransfer, N completions raise the flag N / 2 times. */
  lemma StreamFromReset(size: Uint16, k: nat)
    ensures RaiseCount(Start(RESET, size), k) == k / 2
    ensures k > 0 ==> Run(Start(RESET, size), k).descriptor
                      == if k % 2 == 1 then GAP_DESCRIPTOR else FrameDescriptor(size)
  {
    RunFromPingZero(Start(RESET, size), k);
  }

  /**
    ucPing is not reset by InitSPITransfer: calling it again after the gap
    was armed makes the next completion re-arm the frame at once, with no
    reset gap, and raise the done flag.
   */
  lemma RestartAfterGapSkipsGap(e: Engine, size: Uint16)
    requires e.ping != 0
    ensures Run(Start(e, size), 1).descriptor == FrameDescriptor(size)
    ensures RaiseCount(Start(e, size), 1) == 1
  {
  }

  /** A fault cleared by uDMAErrorHandler changes nothing about the stream that follows. */
  lemma {:induction false} ErrorHandlerTransparent(e: Engine, k: nat)
    ensures Run(HandleError(e), k) == Run(e, k).(dmaErrorStatus := 0)
    ensures RaiseCount(HandleError(e), k) == RaiseCount(e, k)
  {
    if k > 0 {
      ErrorHandlerTransparent(e, k - 1);
      assert Complete(Run(HandleError(e), k - 1)) == Complete(Run(e, k - 1)).(dmaErrorStatus := 0);
    }
  }

  /** Every descriptor the handler arms is the gap or the frame of the registered size. */
  lemma {:induction false} RunDescriptors(e: Engine, k: nat)
    requires k > 0
    ensures Run(e, k).descriptor in {GAP_DESCRIPTOR, FrameDescriptor(e.frameSize)}
    ensures Run(e, k).frameSize == e.frameSize
  {
    if k > 1 {
      RunDescriptors(e, k - 1);
    }
  }

  /** The reset gap holds the line low: it sends the zero byte twice. */
  lemma GapSendsZeros(frame: seq<bv8>)
    ensures Transmitted(GAP_DESCRIPTOR, frame) == [0, 0]
  {
  }

  /**
    With a frame buffer left all LOW (as InitSPITransfer leaves it) every
    transfer the engine ever arms sends either the two-byte gap or the
    all-off frame.
   */
  lemma DarkStream(e: Engine, k: nat, frame: seq<bv8>)
    requires k > 0 && e.frameSize <= |frame|
    requires forall i :: 0 <= i < e.frameSize ==> frame[i] == WS2812_SPI_LOW
    ensures Run(e, k).descriptor in {GAP_DESCRIPTOR, FrameDescriptor(e.frameSize)}
    ensures Transmitted(Run(e, k).descriptor, frame) in {[0, 0], seq(e.frameSize, _ => WS2812_SPI_LOW)}
  {
    RunDescriptors(e, k);
    if Run(e, k).descriptor == GAP_DESCRIPTOR {
      GapSendsZeros(frame);
    } else {
      assert Transmitted(Run(e, k).descriptor, frame) == seq(e.frameSize, _ => WS2812_SPI_LOW);
    }
  }

  // ---------------------------------------------------------------------------
  // The driver, over the statics of lib/SPI_uDMA_drv.c and the hardware registers
  // ---------------------------------------------------------------------------

  /** The caller's uint8_t done variable. */
  class DoneFlag {
    var value: bv8
  }

  class SpiUdmaDriver {
    // File-scope statics.
    var doneVar: DoneFlag?
    var spiArray: array?<bv8>
    var spiArraySize: Uint16
    // SSI1IntHandler's function-static ucPing.
    var ping: bv8
    // Hardware registers, changed only through the ROM calls.
    var channelEnabled: bool
    var descriptor: Descriptor
    var ssiIntStatus: nat
    var dmaErrorStatus: nat

    /** The state as one value. */
    function State(): Engine
      reads this, doneVar
    {
      Engine(ping, if doneVar == null then NoDoneVar else DoneVar(doneVar.value), spiArraySize,
             channelEnabled, descriptor, ssiIntStatus, dmaErrorStatus)
    }

    /** Reset: the statics are zero and the hardware is idle. */
    constructor ()
      ensures State() == RESET && doneVar == null && spiArray == null
    {
      doneVar, spiArray, spiArraySize, ping := null, null, 0, 0;
      channelEnabled, descriptor, ssiIntStatus, dmaErrorStatus := false, Unconfigured, 0, 0;
    }

    /** SSI1IntHandler. */
    method Ssi1IntHandler()
      modifies this, doneVar
      ensures doneVar == old(doneVar) && spiArray == old(spiArray) && spiArraySize == old(spiArraySize)
      ensures spiArray != null ==> spiArray[..] == old(spiArray[..])
      ensures State() == Handle(old(State()))
      ensures channelEnabled && ssiIntStatus == 0 && dmaErrorStatus == old(dmaErrorStatus)
      ensures old(channelEnabled) ==>
        ping == old(ping) && descriptor == old(descriptor) && (doneVar != null ==> doneVar.value == old(doneVar.value))
      ensures !old(channelEnabled) && old(ping) == 0 ==>
        descriptor == GAP_DESCRIPTOR && ping == 1 && (doneVar != null ==> doneVar.value == old(doneVar.value))
      ensures !old(channelEnabled) && old(ping) != 0 ==>
        descriptor == FrameDescriptor(spiArraySize) && ping == 0 && (doneVar != null ==> doneVar.value == 1)
    {
      // ROM_SSIIntStatus, then ROM_SSIIntClear of every bit read.
      var status := ssiIntStatus;
      ssiIntStatus := ssiIntStatus - status;
      if !channelEnabled {
        if ping != 0 {
          descriptor := FrameDescriptor(spiArraySize);
          ping := 0;
          if doneVar != null {
            doneVar.value := 1;
          }
        } else {
          descriptor := GAP_DESCRIPTOR;
          ping := 1;
        }
        channelEnabled := true;
      }
    }

    /** uDMAErrorHandler: clear a pending error and carry on. */
    method UdmaErrorHandler()
      modifies this
      ensures State() == HandleError(old(State()))
      ensures dmaErrorStatus == 0
      ensures ping == old(ping) && descriptor == old(descriptor) && channelEnabled == old(channelEnabled)
      ensures doneVar == old(doneVar) && spiArray == old(spiArray) && spiArraySize == old(spiArraySize)
      ensures ssiIntStatus == old(ssiIntStatus)
    {
      var status := dmaErrorStatus;
      if status != 0 {
        dmaErrorStatus := 0;
      }
    }

    /** InitSPITransfer: register buffer and done variable, blank the buffer, arm the frame. */
    method InitSpiTransfer(buf: array<bv8>, size: Uint16, done: DoneFlag)
      requires size <= buf.Length
      modifies this, buf, done
      ensures doneVar == done && spiArray == buf && spiArraySize == size
      ensures buf[..] == AllOff(old(buf[..]), size)
      ensures done.value == 0
      ensures descriptor == FrameDescriptor(size) && channelEnabled
      ensures ping == old(ping)
      ensures State() == Start(old(State()), size)
    {
      doneVar := done;
      spiArray := buf;
      spiArraySize := size;
      for i := 0 to size
        modifies buf
        invariant buf[..] == if i == 0 then old(buf[..]) else AllOff(old(buf[..]), size)
      {
        ArrayInit(buf, size);
        AllOffIdempotent(old(buf[..]), size);
      }
      AllOffContents(old(buf[..]), size);
      descriptor := FrameDescriptor(size);
      done.value := 0;
      channelEnabled := true;
    }
  }
}
