/** The Inky Frame's busy signal, read through an 8-bit parallel-in,
    serial-out shift register (src/shift_register.rs). */
module ShiftRegister {
  import opened Wrappers

  /** The GPIO error type shared by the three pins, opaque to the driver. */
  datatype GpioError = GpioError(code: nat)

  /** One pin operation of a register read. */
  datatype PinOp = LatchLow | LatchHigh | Sample | ClockLow | ClockHigh

  /** The pins' answer to one operation: the level read (for an output
      operation any level stands for success) or an error. */
  datatype Reply = Level(high: bool) | Fail(error: GpioError)

  /** A sample that read high. */
  predicate High(r: Reply)
  {
    r.Level? && r.high
  }

  /** The answer to the k-th pin operation of one read. */
  type Pins = nat -> Reply

  /** `IS_BUSY_FLAG`: the register bit that carries the busy line. */
  const BusyFlag: nat := 7

  /** The number of pin operations in a complete read: latch low, latch
      high, then a sample and a clock pulse for each of the 8 bits. */
  const ReadLength: nat := 2 + 3 * 8

  /** The operations of a complete read, in order. */
  function ReadSequence(): (ops: seq<PinOp>)
  {
    [LatchLow, LatchHigh] + seq(24, k requires 0 <= k < 24 => [Sample, ClockLow, ClockHigh][k % 3])
  }

  /** Where the i-th sample (0-based) falls among the pin operations. */
  function SampleOp(i: nat): nat
  {
    2 + 3 * i
  }

  /** The latch is pulsed low then high before anything else; then each of
      the 8 samples is followed by one clock pulse, low then high; and
      those are the only samples. */
  lemma ReadSequenceShape()
    ensures |ReadSequence()| == ReadLength == 26
    ensures ReadSequence()[0] == LatchLow && ReadSequence()[1] == LatchHigh
    ensures forall i :: 0 <= i < 8 ==>
      ReadSequence()[SampleOp(i)] == Sample &&
      ReadSequence()[SampleOp(i) + 1] == ClockLow &&
      ReadSequence()[SampleOp(i) + 2] == ClockHigh
    ensures forall k :: 0 <= k < ReadLength && ReadSequence()[k] == Sample ==>
      k >= 2 && (k - 2) % 3 == 0 && (k - 2) / 3 < 8
  {
  }

  /** The operations around the n-th sample. */
  lemma SampleStep(n: nat)
    requires n < 8
    ensures SampleOp(n) + 2 < ReadLength
    ensures ReadSequence()[SampleOp(n)] == Sample
    ensures ReadSequence()[SampleOp(n) + 1] == ClockLow
    ensures ReadSequence()[SampleOp(n) + 2] == ClockHigh
  {
  }

  /** A prefix of the read grows by the next operation. */
  lemma PrefixGrows(k: nat)
    requires k < ReadLength
    ensures ReadSequence()[..k + 1] == ReadSequence()[..k] + [ReadSequence()[k]]
  {
  }

  /** Bit `j` of a byte. */
  predicate Bit(b: bv8, j: nat)
    requires j < 8
  {
    (b >> j) & 1 == 1
  }

  /** Every operation before the n-th succeeded. */
  predicate OkUpTo(pins: Pins, n: nat)
  {
    forall k :: 0 <= k < n ==> pins(k).Level?
  }

  /** Shifting a bit in from the right moves every bit up by one. */
  lemma ShiftIn(x: bv8, high: bool)
    ensures var y := (x << 1) | (if high then 1 else 0);
      Bit(y, 0) == high &&
      forall j :: 0 <= j < 7 ==> Bit(y, j + 1) == Bit(x, j)
  {
    var y := (x << 1) | (if high then 1 else 0);
    forall j | 0 <= j < 7
      ensures Bit(y, j + 1) == Bit(x, j)
    {
      assert j == 0 || j == 1 || j == 2 || j == 3 || j == 4 || j == 5 || j == 6;
    }
  }

  /** Shifting in the n-th sample keeps the earlier samples, each one
      place higher. */
  lemma ShiftInSample(x: bv8, n: nat, pins: Pins)
    requires n < 8 && pins(SampleOp(n)).Level?
    requires forall j :: 0 <= j < n ==> Bit(x, n - 1 - j) == High(pins(SampleOp(j)))
    ensures var y := (x << 1) | (if High(pins(SampleOp(n))) then 1 else 0);
      forall j :: 0 <= j <= n ==> Bit(y, n - j) == High(pins(SampleOp(j)))
  {
    ShiftIn(x, High(pins(SampleOp(n))));
  }

  /** Operation `k` succeeded, so the operations before `k + 1` all did. */
  lemma OkUpToGrows(pins: Pins, k: nat)
    requires OkUpTo(pins, k) && pins(k).Level?
    ensures OkUpTo(pins, k + 1)
  {
  }

  /** Operation `k` of the read failed: the read as a whole fails, and the
      trace that ends with it has the shape the error path promises. */
  lemma FailEnds(pins: Pins, trace: seq<PinOp>, k: nat)
    requires k < ReadLength && |trace| == k + 1
    requires OkUpTo(pins, k) && pins(k).Fail?
    ensures !OkUpTo(pins, ReadLength)
    ensures |trace| > 0 && OkUpTo(pins, |trace| - 1) && pins(|trace| - 1) == Fail(pins(k).error)
  {
  }

  /** One turn of the loop in `read_register`: sample the data pin as bit
      `n` (counting from the most significant), then pulse the clock low and
      high. The first failing operation stops the turn with its error. */
  method ClockIn(pins: Pins, n: nat, x: bv8, trace: seq<PinOp>)
      returns (y: bv8, trace': seq<PinOp>, failed: Option<GpioError>)
    requires n < 8 && |trace| == SampleOp(n) && trace == ReadSequence()[..|trace|]
    requires OkUpTo(pins, |trace|)
    requires forall j :: 0 <= j < n ==> Bit(x, n - 1 - j) == High(pins(SampleOp(j)))
    ensures |trace| < |trace'| <= SampleOp(n + 1) && trace' == ReadSequence()[..|trace'|]
    ensures failed.None? ==> |trace'| == SampleOp(n + 1) && OkUpTo(pins, |trace'|)
    ensures failed.None? ==> forall j :: 0 <= j <= n ==> Bit(y, n - j) == High(pins(SampleOp(j)))
    ensures failed.Some? ==> !OkUpTo(pins, ReadLength)
    ensures failed.Some? ==> OkUpTo(pins, |trace'| - 1) && pins(|trace'| - 1) == Fail(failed.value)
  {
    var k := |trace|;
    SampleStep(n);
    y := x;
    PrefixGrows(k);
    trace' := trace + [Sample];
    if pins(k).Fail? {
      FailEnds(pins, trace', k);
      return y, trace', Some(pins(k).error);
    }
    OkUpToGrows(pins, k);
    ShiftInSample(x, n, pins);
    y := (x << 1) | (if High(pins(k)) then 1 else 0);
    PrefixGrows(k + 1);
    trace' := trace' + [ClockLow];
    if pins(k + 1).Fail? {
      FailEnds(pins, trace', k + 1);
      return y, trace', Some(pins(k + 1).error);
    }
    OkUpToGrows(pins, k + 1);
    PrefixGrows(k + 2);
    trace' := trace' + [ClockHigh];
    if pins(k + 2).Fail? {
      FailEnds(pins, trace', k + 2);
      return y, trace', Some(pins(k + 2).error);
    }
    OkUpToGrows(pins, k + 2);
    failed := None;
  }

  /** `read_register`: pulse the latch, then shift in 8 bits, most
      significant first. The first failing pin operation ends the read with
      its error; `trace` is what was done, the failing operation included.
      On success bit `7 - i` of the result is the i-th sample. */
  method ReadRegister(pins: Pins) returns (r: Result<bv8, GpioError>, trace: seq<PinOp>)
    ensures |trace| <= ReadLength && trace == ReadSequence()[..|trace|]
    ensures r.Ok? <==> OkUpTo(pins, ReadLength)
    ensures r.Ok? ==> |trace| == ReadLength
    ensures r.Ok? ==> forall i :: 0 <= i < 8 ==> Bit(r.value, 7 - i) == High(pins(SampleOp(i)))
    ensures r.Err? ==> |trace| > 0 && OkUpTo(pins, |trace| - 1) && pins(|trace| - 1) == Fail(r.error)
  {
    trace := [LatchLow];
    assert trace == ReadSequence()[..1];
    if pins(0).Fail? {
      FailEnds(pins, trace, 0);
      return Err(pins(0).error), trace;
    }
    OkUpToGrows(pins, 0);
    trace := trace + [LatchHigh];
    assert trace == ReadSequence()[..2];
    if pins(1).Fail? {
      FailEnds(pins, trace, 1);
      return Err(pins(1).error), trace;
    }
    OkUpToGrows(pins, 1);
    var result: bv8 := 0;
    var n: nat := 0;
    while n < 8
      invariant n <= 8
      invariant |trace| == SampleOp(n) && trace == ReadSequence()[..|trace|]
      invariant OkUpTo(pins, |trace|)
      invariant forall j :: 0 <= j < n ==> Bit(result, n - 1 - j) == High(pins(SampleOp(j)))
    {
      var failed;
      result, trace, failed := ClockIn(pins, n, result, trace);
      if failed.Some? {
        return Err(failed.value), trace;
      }
      n := n + 1;
    }
    return Ok(result), trace;
  }

  /** `read_register_bit`: the register masked to one bit, so 0 or
      `1 << index`; it is set exactly when sample `7 - index` was high. The
      source's `1u8 << bit_index` overflows for an index of 8 or more. */
  method ReadRegisterBit(pins: Pins, index: nat) returns (r: Result<bv8, GpioError>, trace: seq<PinOp>)
    requires index < 8
    ensures |trace| <= ReadLength && trace == ReadSequence()[..|trace|]
    ensures r.Ok? <==> OkUpTo(pins, ReadLength)
    ensures r.Ok? ==> r.value == 0 || r.value == (1 as bv8) << index
    ensures r.Ok? ==> (r.value != 0 <==> High(pins(SampleOp(7 - index))))
    ensures r.Err? ==> |trace| > 0 && OkUpTo(pins, |trace| - 1) && pins(|trace| - 1) == Fail(r.error)
  {
    var reg;
    reg, trace := ReadRegister(pins);
    match reg
    case Err(e) =>
      r := Err(e);
    case Ok(v) =>
      MaskBit(v, index);
      r := Ok(v & ((1 as bv8) << index));
  }

  /** Masking with `1 << j` keeps bit `j` alone. */
  lemma MaskBit(v: bv8, j: nat)
    requires j < 8
    ensures v & ((1 as bv8) << j) == 0 || v & ((1 as bv8) << j) == (1 as bv8) << j
    ensures v & ((1 as bv8) << j) != 0 <==> Bit(v, j)
  {
    assert j == 0 || j == 1 || j == 2 || j == 3 || j == 4 || j == 5 || j == 6 || j == 7;
  }

  /** `is_busy`: busy when the read succeeds and the busy bit (bit 7, the
      first sample) is low; a failed read counts as not busy. */
  method IsBusy(pins: Pins) returns (busy: bool, trace: seq<PinOp>)
    ensures |trace| <= ReadLength && trace == ReadSequence()[..|trace|]
    ensures busy <==> OkUpTo(pins, ReadLength) && !High(pins(SampleOp(0)))
  {
    var r;
    r, trace := ReadRegisterBit(pins, BusyFlag);
    match r
    case Ok(v) => busy := v == 0;
    case Err(_) => busy := false;
  }
}
