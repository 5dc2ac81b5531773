/** What the driver puts on the wire: the data/command (DC) pin, SPI byte
    writes and the non-SPI actions between them; the helpers `command`,
    `send_data`, `data_x_times`, `cmd_with_data` and `write`
    (src/display/mod.rs), the controller's reading of the wire, and the
    early abort on the first failing SPI write. */
module Wire {
  import opened Wrappers
  import opened Commands

  /** Steps that are not SPI traffic. Reset-pin results are discarded by the
      source, so none of these can fail. `WaitIdle` is one whole busy-wait
      loop. */
  datatype Action = ResetLow | ResetHigh | DelayMs(ms: nat) | WaitIdle

  /** One event on the wire. */
  datatype Event = DcLow | DcHigh | Write(b: bv8) | Act(a: Action)

  /** How an operation is built: a command followed by the data passed to
      each of its `send_data` / `data_x_times` calls (one chunk per call),
      or a non-SPI action. */
  datatype Frame = Transfer(cmd: Command, chunks: seq<seq<bv8>>) | Pause(a: Action)

  /** What the controller receives: a command with all of its parameter
      bytes, or a non-SPI action. */
  datatype Step = Send(cmd: Command, data: seq<bv8>) | Hold(a: Action)

  // ---------------------------------------------------------------------
  // Rendering

  /** One SPI write per byte, in order. */
  function Writes(d: seq<bv8>): (es: seq<Event>)
    ensures |es| == |d|
  {
    if |d| == 0 then [] else [Write(d[0])] + Writes(d[1..])
  }

  lemma {:induction false} WritesIndex(d: seq<bv8>)
    ensures forall i :: 0 <= i < |d| ==> Writes(d)[i] == Write(d[i])
    decreases |d|
  {
    if |d| > 0 {
      WritesIndex(d[1..]);
    }
  }

  /** `command`: DC low, then the opcode byte. */
  function CommandEvents(c: Command): seq<Event>
  {
    [DcLow, Write(Address(c))]
  }

  /** `send_data`: DC high, then one write per byte. */
  function SendData(d: seq<bv8>): (es: seq<Event>)
    ensures |es| == |d| + 1 && es[0] == DcHigh
    ensures forall i :: 1 <= i <= |d| ==> es[i] == Write(d[i - 1])
  {
    WritesIndex(d);
    [DcHigh] + Writes(d)
  }

  /** `data_x_times`: DC high, then the same byte `n` times. */
  function DataXTimes(v: bv8, n: nat): (es: seq<Event>)
    ensures |es| == n + 1 && es[0] == DcHigh
    ensures forall i :: 1 <= i <= n ==> es[i] == Write(v)
  {
    SendData(seq(n, _ => v))
  }

  /** `cmd_with_data`: a command followed by one `send_data`. */
  function CmdWithData(c: Command, d: seq<bv8>): seq<Event>
  {
    CommandEvents(c) + SendData(d)
  }

  function RenderChunks(chunks: seq<seq<bv8>>): seq<Event>
  {
    if |chunks| == 0 then [] else SendData(chunks[0]) + RenderChunks(chunks[1..])
  }

  function RenderFrame(f: Frame): seq<Event>
  {
    match f
    case Transfer(c, chunks) => CommandEvents(c) + RenderChunks(chunks)
    case Pause(a) => [Act(a)]
  }

  /** The events an operation emits when every write succeeds. */
  function Render(fs: seq<Frame>): seq<Event>
  {
    if |fs| == 0 then [] else RenderFrame(fs[0]) + Render(fs[1..])
  }

  lemma RenderOne(f: Frame)
    ensures Render([f]) == RenderFrame(f)
  {
    assert [f][1..] == [];
  }

  lemma RenderCons(f: Frame, fs: seq<Frame>)
    ensures Render([f] + fs) == RenderFrame(f) + Render(fs)
  {
    assert ([f] + fs)[0] == f;
    assert ([f] + fs)[1..] == fs;
  }

  lemma RenderChunksCons(c: seq<bv8>, cs: seq<seq<bv8>>)
    ensures RenderChunks([c] + cs) == SendData(c) + RenderChunks(cs)
  {
    assert ([c] + cs)[0] == c;
    assert ([c] + cs)[1..] == cs;
  }

  /** A command whose parameters are sent in one `send_data` call is
      `cmd_with_data`. */
  lemma RenderOneChunk(c: Command, d: seq<bv8>)
    ensures RenderFrame(Transfer(c, [d])) == CmdWithData(c, d)
  {
    RenderChunksCons(d, []);
    assert [d] + [] == [d];
    assert RenderChunks([d]) == SendData(d) + [];
    assert SendData(d) + [] == SendData(d);
  }

  /** A parameter of one byte: DC high, then that byte. */
  lemma SendByte(b: bv8)
    ensures SendData([b]) == [DcHigh, Write(b)]
  {
    assert Writes([b]) == [Write(b)];
  }

  lemma {:induction false} RenderAppend(a: seq<Frame>, b: seq<Frame>)
    ensures Render(a + b) == Render(a) + Render(b)
    decreases |a|
  {
    if |a| > 0 {
      assert (a + b)[0] == a[0];
      assert (a + b)[1..] == a[1..] + b;
      RenderAppend(a[1..], b);
      assert Render(a + b) == RenderFrame(a[0]) + Render(a[1..] + b);
    } else {
      assert a + b == b;
    }
  }

  /** All chunks of one command, joined. */
  function Concat(chunks: seq<seq<bv8>>): (d: seq<bv8>)
  {
    if |chunks| == 0 then [] else chunks[0] + Concat(chunks[1..])
  }

  /** The controller's view of one frame: a command with all of its
      parameter bytes, whatever the number of `send_data` calls. */
  function StepOf(f: Frame): Step
  {
    match f
    case Transfer(c, chunks) => Send(c, Concat(chunks))
    case Pause(a) => Hold(a)
  }

  /** A command whose parameters are sent in one `send_data` call. */
  lemma StepOfOneChunk(c: Command, d: seq<bv8>)
    ensures StepOf(Transfer(c, [d])) == Send(c, d)
  {
    assert [d][0] == d && [d][1..] == [];
    assert Concat([d]) == d + Concat([]);
    assert d + [] == d;
  }

  /** The controller's view of a frame list, frame by frame. */
  function Flatten(fs: seq<Frame>): (ss: seq<Step>)
    ensures |ss| == |fs|
  {
    if |fs| == 0 then [] else [StepOf(fs[0])] + Flatten(fs[1..])
  }

  lemma {:induction false} FlattenIndex(fs: seq<Frame>)
    ensures forall i :: 0 <= i < |fs| ==> Flatten(fs)[i] == StepOf(fs[i])
    decreases |fs|
  {
    if |fs| > 0 {
      FlattenIndex(fs[1..]);
    }
  }

  lemma {:induction false} FlattenAppend(a: seq<Frame>, b: seq<Frame>)
    ensures Flatten(a + b) == Flatten(a) + Flatten(b)
    decreases |a|
  {
    if |a| > 0 {
      assert (a + b)[0] == a[0];
      assert (a + b)[1..] == a[1..] + b;
      FlattenAppend(a[1..], b);
    } else {
      assert a + b == b;
    }
  }

  // ---------------------------------------------------------------------
  // The controller's reading of the wire

  /** The controller's state: the DC level (true is high, data) and the
      steps received so far. */
  datatype Reader = Reader(dataMode: bool, steps: seq<Step>)

  /** One event as the controller sees it: a byte written with DC low is an
      opcode and opens a new command; a byte written with DC high is a
      parameter of the open command. An unknown opcode, or a parameter with
      no open command, is rejected. */
  function ReadEvent(st: Reader, e: Event): (r: Option<Reader>)
  {
    match e
    case DcLow => Some(st.(dataMode := false))
    case DcHigh => Some(st.(dataMode := true))
    case Act(a) => Some(st.(steps := st.steps + [Hold(a)]))
    case Write(b) =>
      if !st.dataMode then
        match FromAddress(b)
        case Some(c) => Some(st.(steps := st.steps + [Send(c, [])]))
        case None => None
      else if |st.steps| > 0 && st.steps[|st.steps| - 1].Send? then
        var last := st.steps[|st.steps| - 1];
        Some(st.(steps := st.steps[..|st.steps| - 1] + [Send(last.cmd, last.data + [b])]))
      else None
  }

  function ReadFrom(st: Reader, es: seq<Event>): Option<Reader>
    decreases |es|
  {
    if |es| == 0 then Some(st)
    else
      match ReadEvent(st, es[0])
      case Some(st') => ReadFrom(st', es[1..])
      case None => None
  }

  /** The steps a controller receives from `es`, starting in command mode. */
  function Decode(es: seq<Event>): Option<seq<Step>>
  {
    match ReadFrom(Reader(false, []), es)
    case Some(st) => Some(st.steps)
    case None => None
  }

  /** Reading a concatenation is reading one part after the other. */
  lemma {:induction false} ReadFromAppend(st: Reader, a: seq<Event>, b: seq<Event>)
    ensures ReadFrom(st, a + b) ==
      match ReadFrom(st, a)
      case Some(st') => ReadFrom(st', b)
      case None => None
    decreases |a|
  {
    if |a| > 0 {
      assert (a + b)[0] == a[0];
      assert (a + b)[1..] == a[1..] + b;
      match ReadEvent(st, a[0])
      case Some(st') => ReadFromAppend(st', a[1..], b);
      case None =>
    } else {
      assert a + b == b;
    }
  }

  /** Parameter bytes written in data mode extend the open command. */
  lemma {:induction false} ReadWrites(st: Reader, pre: seq<Step>, c: Command, data: seq<bv8>, d: seq<bv8>)
    requires st == Reader(true, pre + [Send(c, data)])
    ensures ReadFrom(st, Writes(d)) == Some(Reader(true, pre + [Send(c, data + d)]))
    decreases |d|
  {
    if |d| > 0 {
      var st' := Reader(true, pre + [Send(c, data + [d[0]])]);
      assert ReadEvent(st, Write(d[0])) == Some(st');
      assert Writes(d)[1..] == Writes(d[1..]);
      ReadWrites(st', pre, c, data + [d[0]], d[1..]);
      assert data + [d[0]] + d[1..] == data + d;
    } else {
      assert data + d == data;
    }
  }

  /** Every chunk of a transfer lands in the same open command. */
  lemma {:induction false} ReadChunks(st: Reader, pre: seq<Step>, c: Command, data: seq<bv8>, chunks: seq<seq<bv8>>)
    requires st.steps == pre + [Send(c, data)]
    ensures ReadFrom(st, RenderChunks(chunks)).Some?
    ensures ReadFrom(st, RenderChunks(chunks)).value.steps == pre + [Send(c, data + Concat(chunks))]
    decreases |chunks|
  {
    if |chunks| > 0 {
      var hi := Reader(true, pre + [Send(c, data)]);
      ReadFromAppend(st, SendData(chunks[0]), RenderChunks(chunks[1..]));
      ReadFromAppend(st, [DcHigh], Writes(chunks[0]));
      assert ReadFrom(st, [DcHigh]) == Some(hi);
      ReadWrites(hi, pre, c, data, chunks[0]);
      var st' := Reader(true, pre + [Send(c, data + chunks[0])]);
      ReadChunks(st', pre, c, data + chunks[0], chunks[1..]);
      assert data + chunks[0] + Concat(chunks[1..]) == data + Concat(chunks);
    } else {
      assert data + Concat(chunks) == data;
    }
  }

  /** One frame adds exactly its own step. */
  lemma ReadFrame(st: Reader, f: Frame)
    ensures ReadFrom(st, RenderFrame(f)).Some?
    ensures ReadFrom(st, RenderFrame(f)).value.steps == st.steps + Flatten([f])
  {
    match f
    case Pause(a) =>
      assert RenderFrame(f) == [Act(a)];
    case Transfer(c, chunks) =>
      ReadTransfer(st, c, chunks);
  }

  /** A command transfer opens its command and fills in its parameters. */
  lemma ReadTransfer(st: Reader, c: Command, chunks: seq<seq<bv8>>)
    ensures ReadFrom(st, RenderFrame(Transfer(c, chunks))).Some?
    ensures ReadFrom(st, RenderFrame(Transfer(c, chunks))).value.steps ==
      st.steps + [Send(c, Concat(chunks))]
  {
    var open := Reader(false, st.steps + [Send(c, [])]);
    assert ReadFrom(st, CommandEvents(c)) == Some(open) by {
      AddressRoundTrip(c);
    }
    ReadFromAppend(st, CommandEvents(c), RenderChunks(chunks));
    ReadChunks(open, st.steps, c, [], chunks);
    assert [] + Concat(chunks) == Concat(chunks);
  }

  lemma {:induction false} ReadRender(st: Reader, fs: seq<Frame>)
    ensures ReadFrom(st, Render(fs)).Some?
    ensures ReadFrom(st, Render(fs)).value.steps == st.steps + Flatten(fs)
    decreases |fs|
  {
    if |fs| > 0 {
      ReadFromAppend(st, RenderFrame(fs[0]), Render(fs[1..]));
      ReadFrame(st, fs[0]);
      var st' := ReadFrom(st, RenderFrame(fs[0])).value;
      ReadRender(st', fs[1..]);
      assert Flatten(fs) == Flatten([fs[0]]) + Flatten(fs[1..]);
    }
  }

  /** The controller reads back exactly the commands, parameters and
      actions an operation was built from. */
  lemma RenderRoundTrip(fs: seq<Frame>)
    ensures Decode(Render(fs)) == Some(Flatten(fs))
  {
    ReadRender(Reader(false, []), fs);
    assert [] + Flatten(fs) == Flatten(fs);
  }

  /** `command` on its own: the controller opens that command, with no
      parameters yet. */
  lemma CommandDecodes(c: Command)
    ensures Decode(CommandEvents(c)) == Some([Send(c, [])])
  {
    var f := Transfer(c, []);
    RenderOne(f);
    assert RenderFrame(f) == CommandEvents(c) + [];
    assert CommandEvents(c) + [] == CommandEvents(c);
    RenderRoundTrip([f]);
    FlattenIndex([f]);
    assert Flatten([f]) == [StepOf(f)];
    assert StepOf(f) == Send(c, []);
  }

  /** `cmd_with_data`: the controller receives the command with exactly
      those parameter bytes, in order. */
  lemma CmdWithDataDecodes(c: Command, d: seq<bv8>)
    ensures Decode(CmdWithData(c, d)) == Some([Send(c, d)])
  {
    var f := Transfer(c, [d]);
    RenderOneChunk(c, d);
    RenderOne(f);
    RenderRoundTrip([f]);
    StepOfOneChunk(c, d);
    FlattenIndex([f]);
    assert Flatten([f]) == [StepOf(f)];
  }

  // ---------------------------------------------------------------------
  // Running against the SPI bus

  /** `SPI::Error`, opaque to the driver. */
  datatype SpiError = SpiError(code: nat)

  /** The SPI bus as one operation sees it. Every write is followed by `?`,
      so only the first write that fails can matter: either every write
      succeeds, or writes numbered `0 .. write - 1` (counted from the start
      of the operation) succeed and write number `write` fails with `err`. */
  datatype Bus = Reliable | FailsAt(write: nat, err: SpiError)

  /** What an operation did: the events it got as far as emitting (a failed
      write included) and the error it returned, if any. */
  datatype Outcome = Outcome(emitted: seq<Event>, error: Option<SpiError>)

  function WriteCount(es: seq<Event>): (n: nat)
    ensures n <= |es|
  {
    if |es| == 0 then 0 else (if es[0].Write? then 1 else 0) + WriteCount(es[1..])
  }

  lemma WriteCountCons(e: Event, es: seq<Event>)
    ensures WriteCount([e] + es) == (if e.Write? then 1 else 0) + WriteCount(es)
  {
    assert ([e] + es)[0] == e;
    assert ([e] + es)[1..] == es;
  }

  lemma {:induction false} WriteCountAppend(a: seq<Event>, b: seq<Event>)
    ensures WriteCount(a + b) == WriteCount(a) + WriteCount(b)
    decreases |a|
  {
    if |a| > 0 {
      assert (a + b)[0] == a[0];
      assert (a + b)[1..] == a[1..] + b;
      WriteCountAppend(a[1..], b);
    } else {
      assert a + b == b;
    }
  }

  /** `send_data` makes one SPI write per byte. */
  lemma {:induction false} WriteCountWrites(d: seq<bv8>)
    ensures WriteCount(Writes(d)) == |d|
    decreases |d|
  {
    if |d| > 0 {
      WriteCountCons(Write(d[0]), Writes(d[1..]));
      WriteCountWrites(d[1..]);
    }
  }

  /** Does write number `k` of the operation fail? */
  predicate Fails(bus: Bus, k: nat)
  {
    bus.FailsAt? && bus.write == k
  }

  /** Runs events in order, `done` writes having already been made. The
      first failing write ends the run with its error. */
  function Execute(es: seq<Event>, bus: Bus, done: nat): (o: Outcome)
    ensures |o.emitted| <= |es|
    decreases |es|
  {
    if |es| == 0 then Outcome([], None)
    else if es[0].Write? && Fails(bus, done) then
      Outcome([es[0]], Some(bus.err))
    else
      var next := if es[0].Write? then done + 1 else done;
      var rest := Execute(es[1..], bus, next);
      Outcome([es[0]] + rest.emitted, rest.error)
  }

  /** A run returns no error exactly when none of its writes is the one the
      bus fails; an error is the bus's, raised by the write it names. */
  lemma {:induction false} ExecuteOutcome(es: seq<Event>, bus: Bus, done: nat)
    ensures var o := Execute(es, bus, done);
      o.error.None? ==>
        |o.emitted| == |es| && !(bus.FailsAt? && done <= bus.write < done + WriteCount(es))
    ensures var o := Execute(es, bus, done);
      o.error.Some? ==>
        bus.FailsAt? && o.error == Some(bus.err) && done + WriteCount(o.emitted) == bus.write + 1
    decreases |es|
  {
    if |es| > 0 {
      if es[0].Write? && Fails(bus, done) {
        WriteCountCons(es[0], []);
        assert [es[0]] + [] == [es[0]];
      } else {
        var next := if es[0].Write? then done + 1 else done;
        ExecuteOutcome(es[1..], bus, next);
        var rest := Execute(es[1..], bus, next);
        WriteCountCons(es[0], rest.emitted);
        WriteCountCons(es[0], es[1..]);
        assert es == [es[0]] + es[1..];
      }
    }
  }

  /** What is emitted is a prefix of the events, so nothing after a failing
      write reaches the wire (and with no failure, by the length, it is all
      of them). */
  lemma {:induction false} ExecutePrefix(es: seq<Event>, bus: Bus, done: nat)
    ensures Execute(es, bus, done).emitted == es[..|Execute(es, bus, done).emitted|]
    decreases |es|
  {
    if |es| > 0 && !(es[0].Write? && Fails(bus, done)) {
      var next := if es[0].Write? then done + 1 else done;
      ExecutePrefix(es[1..], bus, next);
      var rest := Execute(es[1..], bus, next);
      assert es[..|rest.emitted| + 1] == [es[0]] + es[1..][..|rest.emitted|];
    }
  }

  /** A run that returns an error stops right after the write that failed. */
  lemma {:induction false} ExecuteStopsAtFailure(es: seq<Event>, bus: Bus, done: nat)
    ensures var o := Execute(es, bus, done);
      o.error.Some? ==> o.emitted[|o.emitted| - 1].Write?
    decreases |es|
  {
    if |es| > 0 && !(es[0].Write? && Fails(bus, done)) {
      var next := if es[0].Write? then done + 1 else done;
      ExecuteStopsAtFailure(es[1..], bus, next);
    }
  }

  /** A bus that fails at one of the run's writes makes the run fail with
      that error, having made exactly the writes up to the failing one. */
  lemma ExecuteFailsWithin(es: seq<Event>, k: nat, e: SpiError, done: nat)
    requires done <= k < done + WriteCount(es)
    ensures Execute(es, FailsAt(k, e), done).error == Some(e)
    ensures WriteCount(Execute(es, FailsAt(k, e), done).emitted) == k - done + 1
  {
    ExecuteOutcome(es, FailsAt(k, e), done);
  }

  /** On a reliable bus everything is emitted and `Ok` is returned. */
  lemma ReliableRunsAll(es: seq<Event>, done: nat)
    ensures Execute(es, Reliable, done) == Outcome(es, None)
  {
    ExecutePrefix(es, Reliable, done);
  }

  /** Sequencing with `?`, failing half: when `a` returns an error, `b`
      never runs and the combined run is exactly the run of `a`. */
  lemma {:induction false} ExecuteAppendFailed(a: seq<Event>, b: seq<Event>, bus: Bus, done: nat)
    requires Execute(a, bus, done).error.Some?
    ensures Execute(a + b, bus, done) == Execute(a, bus, done)
    decreases |a|
  {
    assert (a + b)[0] == a[0];
    assert (a + b)[1..] == a[1..] + b;
    if !(a[0].Write? && Fails(bus, done)) {
      var next := if a[0].Write? then done + 1 else done;
      ExecuteAppendFailed(a[1..], b, bus, next);
    }
  }

  /** Sequencing with `?`, succeeding half: when `a` returns `Ok`, all of it
      is emitted and then `b` runs, its writes numbered after `a`'s (`k` is
      the number of writes made once `a` is done). */
  lemma {:induction false} ExecuteAppendOk(a: seq<Event>, b: seq<Event>, bus: Bus, done: nat, k: nat)
    requires Execute(a, bus, done).error.None? && k == done + WriteCount(a)
    ensures Execute(a + b, bus, done) == Outcome(a + Execute(b, bus, k).emitted, Execute(b, bus, k).error)
    decreases |a|
  {
    if |a| == 0 {
      assert a + b == b;
      assert a + Execute(b, bus, done).emitted == Execute(b, bus, done).emitted;
    } else {
      var next := if a[0].Write? then done + 1 else done;
      ExecuteOkStep(a, b, bus, done);
      ExecuteAppendOk(a[1..], b, bus, next, k);
      var ob := Execute(b, bus, k);
      assert [a[0]] + (a[1..] + ob.emitted) == a + ob.emitted by {
        assert a == [a[0]] + a[1..];
      }
    }
  }

  /** The first step of `ExecuteAppendOk`: the rest of `a` also runs without
      error, and the combined run starts with `a`'s first event. */
  lemma ExecuteOkStep(a: seq<Event>, b: seq<Event>, bus: Bus, done: nat)
    requires |a| > 0 && Execute(a, bus, done).error.None?
    ensures var next := if a[0].Write? then done + 1 else done;
      Execute(a[1..], bus, next).error.None? &&
      next + WriteCount(a[1..]) == done + WriteCount(a) &&
      Execute(a + b, bus, done) ==
        Outcome([a[0]] + Execute(a[1..] + b, bus, next).emitted, Execute(a[1..] + b, bus, next).error)
  {
    WriteCountCons(a[0], a[1..]);
    assert a == [a[0]] + a[1..];
    ExecuteStep(a, bus, done);
    assert (a + b)[0] == a[0];
    assert (a + b)[1..] == a[1..] + b;
    ExecuteStep(a + b, bus, done);
  }

  /** One step of a run whose first event does not fail. */
  lemma ExecuteStep(es: seq<Event>, bus: Bus, done: nat)
    requires |es| > 0 && !(es[0].Write? && Fails(bus, done))
    ensures var next := if es[0].Write? then done + 1 else done;
      Execute(es, bus, done) ==
        Outcome([es[0]] + Execute(es[1..], bus, next).emitted, Execute(es[1..], bus, next).error)
  {
  }

  /** The two halves together: the behaviour of `a?; b?`. */
  lemma ExecuteAppend(a: seq<Event>, b: seq<Event>, bus: Bus, done: nat)
    ensures Execute(a + b, bus, done) ==
      var oa := Execute(a, bus, done);
      if oa.error.Some? then oa
      else
        var ob := Execute(b, bus, done + WriteCount(a));
        Outcome(a + ob.emitted, ob.error)
  {
    if Execute(a, bus, done).error.Some? {
      ExecuteAppendFailed(a, b, bus, done);
    } else {
      ExecuteAppendOk(a, b, bus, done, done + WriteCount(a));
    }
  }

  /** `ExecuteAppend` for plans: operation `a` followed by operation `b`. */
  lemma ExecutePlans(a: seq<Frame>, b: seq<Frame>, bus: Bus)
    ensures Execute(Render(a + b), bus, 0) ==
      var oa := Execute(Render(a), bus, 0);
      if oa.error.Some? then oa
      else
        var ob := Execute(Render(b), bus, WriteCount(Render(a)));
        Outcome(Render(a) + ob.emitted, ob.error)
  {
    RenderAppend(a, b);
    ExecuteAppend(Render(a), Render(b), bus, 0);
  }
}
