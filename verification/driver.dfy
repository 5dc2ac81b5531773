/** The operations of the `InkyFrame5_7` driver (src/display/mod.rs): each
    is a plan of frames, sent over the wire by `Wire.Execute`. The driver's
    only own state is the background colour. */
module Driver {
  import opened Wrappers
  import opened Commands
  import opened Colors
  import opened Framebuffer
  import opened Wire

  /** The driver's own state: the background colour used by `clear_frame`
      and the VCOM setting. */
  datatype Panel = Panel(background: Color)

  // ---------------------------------------------------------------------
  // Building blocks

  /** `WIDTH` and `HEIGHT` as the `u32` constants the driver shifts. */
  const WidthWord: bv32 := 600
  const HeightWord: bv32 := 448

  /** `x as u8` on a `u32`: the low eight bits. */
  function LowByte(v: bv32): (b: bv8)
    ensures b as bv32 == v & 0xFF
  {
    (v & 0xFF) as bv8
  }

  /** A big-endian 16-bit value, as the controller reads two bytes. */
  function BigEndian16(hi: bv8, lo: bv8): (v: nat)
    ensures v < 65536
  {
    hi as nat * 256 + lo as nat
  }

  /** `send_resolution`: `TconResolution`, then the width and the height as
      big-endian 16-bit values, one `send_data` call per byte. */
  function Resolution(): Frame
  {
    Transfer(TconResolution,
      [[LowByte(WidthWord >> 8)], [LowByte(WidthWord)], [LowByte(HeightWord >> 8)], [LowByte(HeightWord)]])
  }

  /** The VCOM and data interval byte for a background colour: the
      colour's code in bits 7..5 over the fixed low bits `0x17`. */
  function VcomByte(c: Color): (b: bv8)
    ensures b >> 5 == Nibble(c)
    ensures b & 0x1F == 0x17
  {
    0x17 | ((Nibble(c) & 0x07) << 5)
  }

  /** `update_vcom`. */
  function Vcom(p: Panel): Frame
  {
    Transfer(VcomAndDataIntervalSetting, [[VcomByte(p.background)]])
  }

  /** `reset`: reset pulse with 10 ms settling delays, then a busy wait. */
  function Reset(): seq<Frame>
  {
    [Pause(ResetLow), Pause(DelayMs(10)), Pause(ResetHigh), Pause(DelayMs(10)), Pause(WaitIdle)]
  }

  // ---------------------------------------------------------------------
  // Operations

  /** The fixed configuration `init` sends after the reset. */
  function Configuration(): seq<Frame>
  {
    [ Transfer(PanelSetting, [[0xEF, 0x08]]),
      Transfer(PowerSetting, [[0x37, 0x00, 0x23, 0x23]]),
      Transfer(PowerOffSequenceSetting, [[0x00]]),
      Transfer(BoosterSoftStart, [[0xC7, 0xC7, 0x1D]]),
      Transfer(PllControl, [[0x3C]]),
      Transfer(TemperatureSensor, [[0x00]]),
      Transfer(VcomAndDataIntervalSetting, [[0x37]]),
      Transfer(TconSetting, [[0x22]]) ]
  }

  /** `init` (and `wake_up`, which is the same call). */
  function Init(): seq<Frame>
  {
    Reset() + [Pause(WaitIdle)] + Configuration() +
    [ Resolution(),
      Transfer(FlashMode, [[0xAA]]),
      Pause(DelayMs(10)),
      Transfer(VcomAndDataIntervalSetting, [[0x37]]) ]
  }

  /** `wake_up`: initialises the controller again. */
  function WakeUp(): seq<Frame>
  {
    Init()
  }

  /** `power_off`: the command alone, no parameters. */
  function PowerOffOp(): seq<Frame>
  {
    [Transfer(PowerOff, [])]
  }

  /** `sleep`: deep sleep with its check code. */
  function Sleep(): seq<Frame>
  {
    [Transfer(DeepSleep, [[DeepSleepCheckCode]])]
  }

  /** `update_frame`: the buffer is sent verbatim after
      `DataStartTransmission1` and closed with `DataStop`. */
  function UpdateFrame(p: Panel, buffer: seq<bv8>): seq<Frame>
  {
    [Pause(WaitIdle), Vcom(p), Resolution(),
     Transfer(DataStartTransmission1, [buffer]), Transfer(DataStop, [])]
  }

  /** `display_frame`: power on, refresh, power off, each after a busy
      wait, and a final busy wait. */
  function DisplayFrame(): seq<Frame>
  {
    [Pause(WaitIdle), Transfer(PowerOn, []), Pause(WaitIdle), Transfer(DisplayRefresh, []),
     Pause(WaitIdle), Transfer(PowerOff, []), Pause(WaitIdle)]
  }

  /** `update_and_display_frame`. */
  function UpdateAndDisplayFrame(p: Panel, buffer: seq<bv8>): seq<Frame>
  {
    UpdateFrame(p, buffer) + DisplayFrame()
  }

  /** The number of bytes `clear_frame` sends: `WIDTH / 2 * HEIGHT`. */
  const ClearLen: nat := Width / 2 * Height

  /** `clear_frame`: the background byte `WIDTH / 2 * HEIGHT` times through
      `data_x_times`, then `display_frame`; no `DataStop` is sent. */
  function ClearFrame(p: Panel): seq<Frame>
  {
    ClearUpload(p) + DisplayFrame()
  }

  /** The part of `clear_frame` before `display_frame`. */
  function ClearUpload(p: Panel): seq<Frame>
  {
    [Pause(WaitIdle), Vcom(p), Resolution(),
     Transfer(DataStartTransmission1,
       [seq(ClearLen, _ => ColorsByte(p.background, p.background))])]
  }

  /** `set_background_color`: only the stored colour changes. */
  function SetBackgroundColor(p: Panel, c: Color): (p': Panel)
    ensures p'.background == c
  {
    p.(background := c)
  }

  /** Running a plan from the start of an operation. */
  function Run(plan: seq<Frame>, bus: Bus): Outcome
  {
    Execute(Render(plan), bus, 0)
  }

  /** `new`: a White panel, returned only if `init` succeeded. */
  function New(bus: Bus): (r: Result<Panel, SpiError>)
    ensures r.Ok? <==> Run(Init(), bus).error.None?
    ensures r.Ok? ==> r.value.background == White
    ensures r.Err? ==> Run(Init(), bus).error == Some(r.error)
  {
    match Run(Init(), bus).error
    case None => Ok(Panel(DefaultBackground))
    case Some(e) => Err(e)
  }

  // ---------------------------------------------------------------------
  // Exact traces

  /** The resolution bytes are the big-endian halves of `WIDTH` (600) and
      `HEIGHT` (448). */
  lemma ResolutionBytes()
    ensures Resolution() == Transfer(TconResolution, [[0x02], [0x58], [0x01], [0xC0]])
    ensures WidthWord as nat == Width && HeightWord as nat == Height
    ensures BigEndian16(0x02, 0x58) == Width && BigEndian16(0x01, 0xC0) == Height
  {
  }

  /** `send_resolution` on the wire: `TconResolution`, then each byte
      after its own DC-high. */
  lemma ResolutionTrace()
    ensures Render([Resolution()]) ==
      [DcLow, Write(0x61), DcHigh, Write(0x02), DcHigh, Write(0x58),
       DcHigh, Write(0x01), DcHigh, Write(0xC0)]
  {
    ResolutionBytes();
    RenderOne(Resolution());
    SendByte(0x02);
    SendByte(0x58);
    SendByte(0x01);
    SendByte(0xC0);
    RenderChunksCons([0xC0], []);
    RenderChunksCons([0x01], [[0xC0]]);
    RenderChunksCons([0x58], [[0x01], [0xC0]]);
    RenderChunksCons([0x02], [[0x58], [0x01], [0xC0]]);
    assert [[0x02]] + [[0x58], [0x01], [0xC0]] == [[0x02], [0x58], [0x01], [0xC0]];
  }

  /** `power_off` and `sleep` on the wire. */
  lemma PowerOffAndSleepTraces()
    ensures Render(PowerOffOp()) == [DcLow, Write(0x02)]
    ensures Render(Sleep()) == [DcLow, Write(0x07), DcHigh, Write(0xA5)]
  {
    RenderOne(Transfer(PowerOff, []));
    RenderOne(Transfer(DeepSleep, [[0xA5]]));
    SendByte(0xA5);
    RenderChunksCons([0xA5], []);
  }

  /** One busy wait, then one bare command. */
  lemma WaitThenCommandTrace(c: Command)
    ensures Render([Pause(WaitIdle), Transfer(c, [])]) ==
      [Act(WaitIdle), DcLow, Write(Address(c))]
  {
    RenderCons(Pause(WaitIdle), [Transfer(c, [])]);
    RenderOne(Transfer(c, []));
  }

  /** `display_frame` on the wire. */
  lemma DisplayFrameTrace()
    ensures Render(DisplayFrame()) ==
      [Act(WaitIdle), DcLow, Write(0x04)] + ([Act(WaitIdle), DcLow, Write(0x12)] +
      [Act(WaitIdle), DcLow, Write(0x02), Act(WaitIdle)])
  {
    var on := [Pause(WaitIdle), Transfer(PowerOn, [])];
    var refresh := [Pause(WaitIdle), Transfer(DisplayRefresh, [])];
    var rest := [Pause(WaitIdle), Transfer(PowerOff, []), Pause(WaitIdle)];
    DisplayFrameSplit();
    PowerOffThenWaitTrace();
    WaitThenCommandTrace(DisplayRefresh);
    RenderAppend(refresh, rest);
    WaitThenCommandTrace(PowerOn);
    RenderAppend(on, refresh + rest);
  }

  /** `display_frame` as its three waits-then-commands and the last wait. */
  lemma DisplayFrameSplit()
    ensures DisplayFrame() ==
      [Pause(WaitIdle), Transfer(PowerOn, [])] + ([Pause(WaitIdle), Transfer(DisplayRefresh, [])] +
      [Pause(WaitIdle), Transfer(PowerOff, []), Pause(WaitIdle)])
  {
  }

  /** The tail of `display_frame`: power off, then wait once more. */
  lemma PowerOffThenWaitTrace()
    ensures Render([Pause(WaitIdle), Transfer(PowerOff, []), Pause(WaitIdle)]) ==
      [Act(WaitIdle), DcLow, Write(0x02), Act(WaitIdle)]
  {
    var off := [Pause(WaitIdle), Transfer(PowerOff, [])];
    var last := [Pause(WaitIdle)];
    assert off + last == [Pause(WaitIdle), Transfer(PowerOff, []), Pause(WaitIdle)];
    WaitThenCommandTrace(PowerOff);
    RenderOne(Pause(WaitIdle));
    RenderAppend(off, last);
  }

  // ---------------------------------------------------------------------
  // What the controller receives

  /** The controller receives the resolution as one command with four
      parameter bytes. */
  lemma ResolutionStep()
    ensures StepOf(Resolution()) == Send(TconResolution, [0x02, 0x58, 0x01, 0xC0])
  {
    ResolutionBytes();
    assert Concat([[0xC0]]) == [0xC0];
    assert Concat([[0x01], [0xC0]]) == [0x01, 0xC0];
    assert Concat([[0x58], [0x01], [0xC0]]) == [0x58, 0x01, 0xC0];
  }

  /** `init`, as the controller reads it: the reset pulse and two busy
      waits, the configuration commands with their fixed parameters, the
      resolution, the flash mode, a 10 ms delay and the VCOM setting again. */
  lemma InitSteps()
    ensures Decode(Render(Init())) == Some(
      [Hold(ResetLow), Hold(DelayMs(10)), Hold(ResetHigh), Hold(DelayMs(10)), Hold(WaitIdle),
       Hold(WaitIdle)] +
      [Send(PanelSetting, [0xEF, 0x08]),
       Send(PowerSetting, [0x37, 0x00, 0x23, 0x23]),
       Send(PowerOffSequenceSetting, [0x00]),
       Send(BoosterSoftStart, [0xC7, 0xC7, 0x1D]),
       Send(PllControl, [0x3C]),
       Send(TemperatureSensor, [0x00]),
       Send(VcomAndDataIntervalSetting, [0x37]),
       Send(TconSetting, [0x22])] +
      [Send(TconResolution, [0x02, 0x58, 0x01, 0xC0]),
       Send(FlashMode, [0xAA]),
       Hold(DelayMs(10)),
       Send(VcomAndDataIntervalSetting, [0x37])])
  {
    RenderRoundTrip(Init());
    var head := Reset() + [Pause(WaitIdle)];
    var tail := [Resolution(), Transfer(FlashMode, [[0xAA]]), Pause(DelayMs(10)),
                 Transfer(VcomAndDataIntervalSetting, [[0x37]])];
    assert Init() == head + Configuration() + tail;
    FlattenAppend(head + Configuration(), tail);
    FlattenAppend(head, Configuration());
    ResetSteps();
    ConfigurationSteps();
    TailSteps();
  }

  /** `wake_up` sends the controller the whole initialisation again. */
  lemma WakeUpSteps()
    ensures Decode(Render(WakeUp())) == Some(
      [Hold(ResetLow), Hold(DelayMs(10)), Hold(ResetHigh), Hold(DelayMs(10)), Hold(WaitIdle),
       Hold(WaitIdle)] +
      [Send(PanelSetting, [0xEF, 0x08]),
       Send(PowerSetting, [0x37, 0x00, 0x23, 0x23]),
       Send(PowerOffSequenceSetting, [0x00]),
       Send(BoosterSoftStart, [0xC7, 0xC7, 0x1D]),
       Send(PllControl, [0x3C]),
       Send(TemperatureSensor, [0x00]),
       Send(VcomAndDataIntervalSetting, [0x37]),
       Send(TconSetting, [0x22])] +
      [Send(TconResolution, [0x02, 0x58, 0x01, 0xC0]),
       Send(FlashMode, [0xAA]),
       Hold(DelayMs(10)),
       Send(VcomAndDataIntervalSetting, [0x37])])
  {
    InitSteps();
  }

  lemma ResetSteps()
    ensures Flatten(Reset() + [Pause(WaitIdle)]) ==
      [Hold(ResetLow), Hold(DelayMs(10)), Hold(ResetHigh), Hold(DelayMs(10)), Hold(WaitIdle),
       Hold(WaitIdle)]
  {
    FlattenIndex(Reset() + [Pause(WaitIdle)]);
  }

  lemma ConfigurationSteps()
    ensures Flatten(Configuration()) ==
      [Send(PanelSetting, [0xEF, 0x08]),
       Send(PowerSetting, [0x37, 0x00, 0x23, 0x23]),
       Send(PowerOffSequenceSetting, [0x00]),
       Send(BoosterSoftStart, [0xC7, 0xC7, 0x1D]),
       Send(PllControl, [0x3C]),
       Send(TemperatureSensor, [0x00]),
       Send(VcomAndDataIntervalSetting, [0x37]),
       Send(TconSetting, [0x22])]
  {
    FlattenIndex(Configuration());
    StepOfOneChunk(PanelSetting, [0xEF, 0x08]);
    StepOfOneChunk(PowerSetting, [0x37, 0x00, 0x23, 0x23]);
    StepOfOneChunk(PowerOffSequenceSetting, [0x00]);
    StepOfOneChunk(BoosterSoftStart, [0xC7, 0xC7, 0x1D]);
    StepOfOneChunk(PllControl, [0x3C]);
    StepOfOneChunk(TemperatureSensor, [0x00]);
    StepOfOneChunk(VcomAndDataIntervalSetting, [0x37]);
    StepOfOneChunk(TconSetting, [0x22]);
  }

  lemma TailSteps()
    ensures Flatten([Resolution(), Transfer(FlashMode, [[0xAA]]), Pause(DelayMs(10)),
                     Transfer(VcomAndDataIntervalSetting, [[0x37]])]) ==
      [Send(TconResolution, [0x02, 0x58, 0x01, 0xC0]), Send(FlashMode, [0xAA]),
       Hold(DelayMs(10)), Send(VcomAndDataIntervalSetting, [0x37])]
  {
    FlattenIndex([Resolution(), Transfer(FlashMode, [[0xAA]]), Pause(DelayMs(10)),
                  Transfer(VcomAndDataIntervalSetting, [[0x37]])]);
    ResolutionStep();
    StepOfOneChunk(FlashMode, [0xAA]);
    StepOfOneChunk(VcomAndDataIntervalSetting, [0x37]);
  }

  // ---------------------------------------------------------------------
  // VCOM

  /** The controller can read the background colour back out of the VCOM
      byte. */
  lemma VcomDecodes(c: Color)
    ensures FromNibble(VcomByte(c) >> 5) == Ok(c)
  {
    FromNibbleRoundTrip(c);
  }

  /** For the default background the VCOM byte is `0x37`, the byte `init`
      sends, so a new panel's `update_vcom` repeats init's setting. */
  lemma InitVcomIsDefault()
    ensures VcomByte(DefaultBackground) == 0x37
    ensures Init()[|Init()| - 1] == Vcom(Panel(DefaultBackground))
    ensures Configuration()[6] == Vcom(Panel(DefaultBackground))
  {
  }

  /** `init` does not call `update_vcom`: its fixed VCOM byte is the
      `update_vcom` byte of a White background and of no other colour, so a
      panel re-initialised after `set_background_color` still sends 0x37. */
  lemma InitVcomIgnoresBackground(c: Color)
    ensures Init()[|Init()| - 1] == Vcom(Panel(c)) <==> c == White
    ensures Configuration()[6] == Vcom(Panel(c)) <==> c == White
  {
    InitVcomIsDefault();
    VcomDecodes(c);
    VcomDecodes(White);
  }

  // ---------------------------------------------------------------------
  // Frames

  /** `update_frame`, as the controller reads it: the buffer arrives
      verbatim and in order as the parameters of `DataStartTransmission1`,
      and `DataStop` closes it. */
  lemma UpdateFrameSteps(p: Panel, buffer: seq<bv8>)
    ensures Decode(Render(UpdateFrame(p, buffer))) == Some(
      [Hold(WaitIdle),
       Send(VcomAndDataIntervalSetting, [VcomByte(p.background)]),
       Send(TconResolution, [0x02, 0x58, 0x01, 0xC0]),
       Send(DataStartTransmission1, buffer),
       Send(DataStop, [])])
  {
    var fs := UpdateFrame(p, buffer);
    RenderRoundTrip(fs);
    FlattenIndex(fs);
    ResolutionStep();
    StepOfOneChunk(VcomAndDataIntervalSetting, [VcomByte(p.background)]);
    StepOfOneChunk(DataStartTransmission1, buffer);
    var ss := Flatten(fs);
    assert ss[0] == Hold(WaitIdle);
    assert ss[1] == Send(VcomAndDataIntervalSetting, [VcomByte(p.background)]);
    assert ss[2] == Send(TconResolution, [0x02, 0x58, 0x01, 0xC0]);
    assert ss[3] == Send(DataStartTransmission1, buffer);
    assert ss[4] == Send(DataStop, []);
    assert ss == [ss[0], ss[1], ss[2], ss[3], ss[4]];
  }

  /** `update_frame` on the wire: a busy wait, `update_vcom`,
      `send_resolution`, `cmd_with_data` with the buffer, then the bare
      `DataStop` command. */
  lemma UpdateFrameTrace(p: Panel, buffer: seq<bv8>)
    ensures Render(UpdateFrame(p, buffer)) ==
      [Act(WaitIdle)] +
      CmdWithData(VcomAndDataIntervalSetting, [VcomByte(p.background)]) +
      Render([Resolution()]) +
      CmdWithData(DataStartTransmission1, buffer) +
      CommandEvents(DataStop)
  {
    var fs := UpdateFrame(p, buffer);
    var a := [fs[0], fs[1]];
    var b := [fs[2]];
    var c := [fs[3], fs[4]];
    assert fs == a + b + c;
    RenderAppend(a + b, c);
    RenderAppend(a, b);
    HeadFramesTrace(p);
    DataFramesTrace(buffer);
  }

  lemma HeadFramesTrace(p: Panel)
    ensures Render([Pause(WaitIdle), Vcom(p)]) ==
      [Act(WaitIdle)] + CmdWithData(VcomAndDataIntervalSetting, [VcomByte(p.background)])
  {
    RenderCons(Pause(WaitIdle), [Vcom(p)]);
    RenderOne(Vcom(p));
    RenderOneChunk(VcomAndDataIntervalSetting, [VcomByte(p.background)]);
  }

  lemma DataFramesTrace(buffer: seq<bv8>)
    ensures Render([Transfer(DataStartTransmission1, [buffer]), Transfer(DataStop, [])]) ==
      CmdWithData(DataStartTransmission1, buffer) + CommandEvents(DataStop)
  {
    RenderCons(Transfer(DataStartTransmission1, [buffer]), [Transfer(DataStop, [])]);
    RenderOne(Transfer(DataStop, []));
    RenderOneChunk(DataStartTransmission1, buffer);
  }

  /** `WIDTH / 2 * HEIGHT` and `WIDTH * HEIGHT / 2` agree for this panel. */
  lemma ClearLenIsBufferLen()
    ensures ClearLen == BufferLen == 134400
  {
  }

  lemma ClearUploadSteps(p: Panel)
    ensures Flatten(ClearUpload(p)) ==
      [Hold(WaitIdle),
       Send(VcomAndDataIntervalSetting, [VcomByte(p.background)]),
       Send(TconResolution, [0x02, 0x58, 0x01, 0xC0]),
       Send(DataStartTransmission1, seq(ClearLen, _ => ColorsByte(p.background, p.background)))]
  {
    var bg := ColorsByte(p.background, p.background);
    FlattenIndex(ClearUpload(p));
    ResolutionStep();
    StepOfOneChunk(VcomAndDataIntervalSetting, [VcomByte(p.background)]);
    StepOfOneChunk(DataStartTransmission1, seq(ClearLen, _ => bg));
    var ss := Flatten(ClearUpload(p));
    assert ss == [ss[0], ss[1], ss[2], ss[3]];
  }

  /** The upload part of `clear_frame` on the wire: as in `update_frame`
      up to the data, then the bare `DataStartTransmission1` command and
      `data_x_times` of the background pair. */
  lemma ClearUploadTrace(p: Panel)
    ensures Render(ClearUpload(p)) ==
      [Act(WaitIdle)] +
      CmdWithData(VcomAndDataIntervalSetting, [VcomByte(p.background)]) +
      Render([Resolution()]) +
      (CommandEvents(DataStartTransmission1) + DataXTimes(ColorsByte(p.background, p.background), ClearLen))
  {
    var bg := ColorsByte(p.background, p.background);
    var fs := ClearUpload(p);
    var a := [fs[0], fs[1]];
    var b := [fs[2]];
    var c := [fs[3]];
    assert fs == a + b + c;
    RenderAppend(a + b, c);
    RenderAppend(a, b);
    HeadFramesTrace(p);
    RenderOne(fs[3]);
    RenderOneChunk(DataStartTransmission1, seq(ClearLen, _ => bg));
    assert DataXTimes(bg, ClearLen) == SendData(seq(ClearLen, _ => bg));
  }

  /** `clear_frame`, as the controller reads it: `WIDTH / 2 * HEIGHT`
      bytes of the background pair after `DataStartTransmission1`, then
      `display_frame`. */
  lemma ClearFrameSteps(p: Panel)
    ensures Decode(Render(ClearFrame(p))) == Some(
      [Hold(WaitIdle),
       Send(VcomAndDataIntervalSetting, [VcomByte(p.background)]),
       Send(TconResolution, [0x02, 0x58, 0x01, 0xC0]),
       Send(DataStartTransmission1, seq(ClearLen, _ => ColorsByte(p.background, p.background)))]
      + Flatten(DisplayFrame()))
  {
    RenderRoundTrip(ClearFrame(p));
    FlattenAppend(ClearUpload(p), DisplayFrame());
    ClearUploadSteps(p);
  }

  /** `clear_frame` gives the controller what `update_frame` of a cleared
      buffer would, minus the closing `DataStop`, followed by
      `display_frame`; it never sends `DataStop`. */
  lemma ClearFrameIsUpdateOfClearedBuffer(p: Panel, d: Display)
    requires |d.buffer| == BufferLen
    ensures Flatten(ClearFrame(p)) ==
      Flatten(UpdateFrame(p, ClearBuffer(d, p.background).buffer))[..4] + Flatten(DisplayFrame())
    ensures Flatten(UpdateFrame(p, ClearBuffer(d, p.background).buffer))[4] == Send(DataStop, [])
    ensures forall i :: 0 <= i < |ClearFrame(p)| ==> Flatten(ClearFrame(p))[i].Send? ==>
      Flatten(ClearFrame(p))[i].cmd != DataStop
  {
    var cleared := ClearBuffer(d, p.background).buffer;
    ClearLenIsBufferLen();
    assert cleared == seq(ClearLen, _ => ColorsByte(p.background, p.background));
    assert UpdateFrame(p, cleared) == ClearUpload(p) + [Transfer(DataStop, [])];
    FlattenAppend(ClearUpload(p), [Transfer(DataStop, [])]);
    FlattenAppend(ClearUpload(p), DisplayFrame());
    NoDataStop(p);
  }

  lemma NoDataStop(p: Panel)
    ensures forall i :: 0 <= i < |ClearFrame(p)| ==> Flatten(ClearFrame(p))[i].Send? ==>
      Flatten(ClearFrame(p))[i].cmd != DataStop
  {
    FlattenIndex(ClearFrame(p));
  }

  // ---------------------------------------------------------------------
  // Running against the bus

  /** On a reliable bus `new` succeeds with the default background, having
      emitted all of `init`. */
  lemma NewOnReliableBus()
    ensures Run(Init(), Reliable) == Outcome(Render(Init()), None)
    ensures New(Reliable) == Ok(Panel(White))
  {
    ReliableRunsAll(Render(Init()), 0);
  }

  /** Any operation whose `k`-th SPI write fails returns that error, and
      what reached the wire is the start of its trace up to and including
      that write: nothing after it is emitted. */
  lemma RunAborts(plan: seq<Frame>, k: nat, e: SpiError)
    requires k < WriteCount(Render(plan))
    ensures var o := Run(plan, FailsAt(k, e));
      o.error == Some(e) &&
      o.emitted == Render(plan)[..|o.emitted|] &&
      WriteCount(o.emitted) == k + 1 &&
      o.emitted[|o.emitted| - 1].Write?
  {
    ExecuteFailsWithin(Render(plan), k, e, 0);
    ExecutePrefix(Render(plan), FailsAt(k, e), 0);
    ExecuteStopsAtFailure(Render(plan), FailsAt(k, e), 0);
  }

  /** `update_and_display_frame` is `update_frame?` then
      `display_frame?`: the display part runs only if the update returned
      `Ok`, with its writes numbered after the update's. */
  lemma UpdateAndDisplayIsSequence(p: Panel, buffer: seq<bv8>, bus: Bus)
    ensures Run(UpdateAndDisplayFrame(p, buffer), bus) ==
      var u := Run(UpdateFrame(p, buffer), bus);
      if u.error.Some? then u
      else
        var d := Execute(Render(DisplayFrame()), bus, WriteCount(Render(UpdateFrame(p, buffer))));
        Outcome(Render(UpdateFrame(p, buffer)) + d.emitted, d.error)
  {
    ExecutePlans(UpdateFrame(p, buffer), DisplayFrame(), bus);
  }
}
