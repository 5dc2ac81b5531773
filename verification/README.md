# UC8159 Inky Frame driver — a Dafny model

This project models the core of a `no_std` Rust driver for the Pimoroni Inky
Frame 5.7", a 600×448 seven-colour e-paper panel driven by a UC8159
controller. Five parts are modelled. Each is written as immutable datatypes
and pure functions, plus four methods for the pin-level register read
(`ClockIn`, `ReadRegister`, `ReadRegisterBit` and `IsBusy`).

- `color.dfy` (module `Colors`) models the `OctColor` palette:
  - the 3-bit colour codes and their nibble encoding and decoding;
  - two pixels packed per byte;
  - the 8-bit RGB triple of each colour;
  - nearest-palette quantisation of an RGB triple by squared distance.
- `display.dfy` (module `Framebuffer`) models `Display5in65f`:
  - a `width * height / 2` byte buffer and a rotation;
  - clipping and the rotation map to native panel coordinates;
  - the byte index and nibble that store a pixel;
  - the masked nibble write, `draw_iter`, `clear_buffer` and `set_rotation`.
- `command.dfy` (module `Commands`) models the controller's command set and
  its opcode bytes.
- `wire.dfy` (module `Wire`) models what the driver puts on the wire:
  - DC pin low or high, SPI byte writes, and reset, delay and busy-wait steps;
  - the helpers `command`, `send_data`, `data_x_times` and `cmd_with_data`;
  - how the controller reads the wire back as commands with their parameter
    bytes;
  - the early abort at the first failing SPI write.
- `driver.dfy` (module `Driver`) models each `InkyFrame5_7` operation as a
  plan of frames. A frame is a command with its data, or a non-SPI step. The
  operations are `new`, `init`, `wake_up`, `reset`, `update_vcom`,
  `send_resolution`, `update_frame`, `display_frame`,
  `update_and_display_frame`, `clear_frame`, `power_off`, `sleep` and
  `set_background_color`. Most operations are proved at one or both of two
  levels: the exact event trace on the wire, or the decoded steps the
  controller receives (each command with its parameter bytes).
  - Exact event traces: `send_resolution`, `display_frame`, `power_off`,
    `sleep`, `update_frame` (as its helpers' traces in source order) and the
    upload part of `clear_frame`.
  - Decoded controller steps: `init`, `wake_up`, `reset` (together with the
    extra busy wait `init` adds), `update_frame` and `clear_frame`.
  - `update_vcom` is proved through its byte (`VcomByte`, `VcomDecodes`) and
    its place in the steps of `update_frame` and `clear_frame`, its only
    callers. `init` does not call it: it sends the fixed byte 0x37 twice,
    which `InitVcomIsDefault` shows is the VCOM byte of the default White
    background.
  - `new` is proved by its outcome, which depends on how `init` runs on the
    bus. `update_and_display_frame` is proved as `update_frame` followed by
    `display_frame` on the same bus.
  - `set_background_color` has no trace; it only changes the stored colour.
- `shift_register.dfy` (module `ShiftRegister`) models the 8-bit
  parallel-in/serial-out register read behind `is_busy`. The pins are a
  function from the index of each pin operation to its reply.
- `wrappers.dfy` (module `Wrappers`) holds `Option` and `Result`.

The SPI bus is a parameter `Bus`: it is either reliable, or it fails at the
n-th byte write with a given error. `Wire.Execute` runs an event trace on a
bus. It stops at the first failing write and reports that write's error,
which is what every `?` in the source does.

## Model

| member | source | states |
|---|---|---|
| Colors.Nibble | src/display/color.rs:174-176 | a colour's code is below 8 |
| Colors.NibbleInjective | src/display/color.rs:18-35 | two colours share a code exactly when they are the same colour |
| Colors.FromNibble | src/display/color.rs:183-195 | only the low nibble is looked at; it fails exactly when that nibble is 8 or more, reporting the masked value; a success decodes to the colour whose code is the masked nibble |
| Colors.FromNibbleRoundTrip | src/display/color.rs:174-195 | decoding a colour's code gives that colour back |
| Colors.FromNibbleMasks | src/display/color.rs:184 | the high nibble of the argument never affects the result |
| Colors.FromRawU4 | src/display/color.rs:161-165 | a 4-bit raw value below 8 converts to the colour whose code it is, the same one `from_nibble` returns |
| Colors.ColorsByte | src/display/color.rs:178-180 | the first colour's code is the high nibble and the second's the low nibble |
| Colors.SplitByte | src/display/color.rs:197-201 | it succeeds exactly when both nibbles are below 8; a bad low nibble is reported before a bad high one; a success re-packs to the same byte |
| Colors.SplitByteRoundTrip | src/display/color.rs:178-201 | splitting a packed pair gives the pair back |
| Colors.ToRgbInjective | src/display/color.rs:203-214 | the eight RGB triples are pairwise distinct |
| Colors.ToRgb | src/display/color.rs:203-214 | no contract of its own; `ToRgbInjective` shows the triples are distinct, and `QuantizeRoundTrip` shows each triple converts back to its colour |
| Colors.FromBinary | src/display/color.rs:43-50 | `On` is Black and `Off` is White |
| Colors.FromUnit | src/display/color.rs:37-41 | `()` converts to the colour with code 1, White |
| Colors.PaletteIsNibbleOrder | src/display/color.rs:130-139 | the search order of the conversion is code order 0 to 7 |
| Colors.Distance | src/display/color.rs:150-152 | the squared distance is zero exactly when the triple is the colour's own |
| Colors.DistanceFitsI32 | src/display/color.rs:150-152 | the squared distance never overflows the source's `i32` |
| Colors.FindExact | src/display/color.rs:141-143 | an exact-match search result has the wanted triple, and no match means no palette entry has it |
| Colors.FirstMin | src/display/color.rs:155-156 | `min_by_key` over a non-empty list picks an index whose key is minimal, and no earlier key is as small |
| Colors.Quantize | src/display/color.rs:127-159 | the result is nearest to the triple among all eight colours; every colour with a smaller code is strictly farther, so ties go to the earliest colour |
| Colors.FirstNearestInPalette | src/display/color.rs:146-157 | a first minimum over the palette list is a nearest colour of all colours, earliest on ties |
| Colors.QuantizeFallbackUnreachable | src/display/color.rs:157 | the minimum always exists, so the `unwrap_or(White)` fallback is never taken |
| Colors.QuantizeExact | src/display/color.rs:52-57 | every other colour is strictly farther from a colour's own triple |
| Colors.QuantizeRoundTrip | src/display/color.rs:52-57 | converting a colour to RGB and back gives the same colour |
| Colors.QuantizeUniqueNearest | src/display/color.rs:127-159 | a strictly nearest colour is the result |
| Colors.QuantizeExamples | src/display/color.rs:127-159 | pure black and a dark grey convert to Black, and (255,128,0) converts to Orange |
| Colors.NarrowWhiteBecomesBlack | src/display/color.rs:59-91 | full-scale white in `Rgb565` or `Rgb555` converts to Black, as the code is written |
| Colors.FromNarrowRoundTrip | src/display/color.rs:93-125 | once channels are widened to 8 bits first, each palette colour truncated to `Rgb565` or `Rgb555` converts back to itself |
| Colors.FromNarrowAsWritten | src/display/color.rs:59-125 | no contract of its own; `NarrowWhiteBecomesBlack` shows that full-scale white comes out Black |
| Colors.FromNarrow | src/display/color.rs:59-125 | no contract of its own; the corrected conversion, which `FromNarrowRoundTrip` and `QuantizeNear` characterise |
| Colors.WidenedIsNear | src/display/color.rs:59-125 | truncating to 5 or 6 bits and widening again moves each channel by less than 8 |
| Colors.PaletteSeparated | src/display/color.rs:203-214 | any two palette triples differ by at least 127 in some channel |
| Colors.QuantizeNear | src/display/color.rs:127-159 | any triple within 7 per channel of a palette colour converts to that colour |
| Commands.FromAddress | src/display/command.rs:4-105 | a byte decodes to a command only when that command's opcode is the byte |
| Commands.AddressRoundTrip | src/display/command.rs:107-111 | every command's opcode decodes back to the command |
| Commands.Address | src/display/command.rs:107-111 | no contract of its own; `AddressRoundTrip`, `AddressInjective` and `FromAddressComplete` state the opcode table's meaning |
| Commands.FromAddressComplete | src/display/command.rs:4-105 | decoding fails exactly for bytes that are no command's opcode |
| Commands.AddressInjective | src/display/command.rs:4-105 | no two commands share an opcode |
| Framebuffer.OutsideDisplay | src/display/display.rs:144-162 | any negative coordinate is outside, and an inside point has non-negative coordinates |
| Framebuffer.ClipMatchesPanel | src/display/display.rs:144-203 | a point is inside exactly when its coordinates are non-negative and its rotated coordinates fall within the native width and height |
| Framebuffer.RotationRoundTrip | src/display/display.rs:181-203 | the rotation map and its inverse undo each other |
| Framebuffer.FindRotation | src/display/display.rs:181-203 | no contract of its own; `RotationRoundTrip`, `FindRotationInjective`, `Rotate180Involution` and `ClipMatchesPanel` state its meaning |
| Framebuffer.FindRotationInjective | src/display/display.rs:185-200 | no two points map to the same native coordinates under one rotation |
| Framebuffer.Rotate180Involution | src/display/display.rs:193-196 | a 180° rotation applied twice is the identity |
| Framebuffer.FindOctPosition | src/display/display.rs:165-179 | the nibble is the upper one exactly when native x is even; for an even width, byte and nibble together are the row-major pixel index, and the byte index is within the buffer |
| Framebuffer.OctPositionInjective | src/display/display.rs:165-179 | for an even width, two inside points share a byte and nibble only when they are the same point |
| Framebuffer.WriteNibble | src/display/display.rs:89-99 | the selected nibble becomes the colour's code and the other nibble is kept |
| Framebuffer.NibbleAt | src/display/display.rs:165-179 | a point has a stored nibble exactly when it is inside, and the nibble is below 16 |
| Framebuffer.DrawHelper | src/display/display.rs:74-101 | a point outside changes nothing; otherwise only the target byte changes, with its selected nibble set to the colour and its other nibble kept; length and rotation are kept |
| Framebuffer.DrawThenRead | src/display/display.rs:74-101 | after a draw, the drawn point reads back the colour's code and every other point reads as before |
| Framebuffer.DrawIter | src/display/display.rs:28-36 | drawing pixels keeps the buffer length and the rotation |
| Framebuffer.LastColorAt | src/display/display.rs:28-36 | a point has a last colour exactly when some pixel targets it, and that colour comes from a pixel at that point |
| Framebuffer.DrawIterLastWins | src/display/display.rs:28-36 | after `draw_iter` an inside point holds the code of the last pixel drawn there, or its old nibble if no pixel was drawn there |
| Framebuffer.ClearBuffer | src/display/display.rs:47-51 | every byte becomes the background colour packed twice; length and rotation are kept |
| Framebuffer.ClearThenRead | src/display/display.rs:47-51 | after clearing, every inside point reads the background colour's code |
| Framebuffer.Default | src/display/display.rs:14-21 | the buffer has 134400 bytes, all 0x11 (White twice), and the rotation is `Rotate0` |
| Framebuffer.DefaultIsCleared | src/display/display.rs:117-121 | the default display is a buffer cleared to the default background |
| Framebuffer.SetRotation | src/display/display.rs:64-66 | only the rotation changes |
| Wire.Writes | src/display/mod.rs:199-202 | one write event per byte |
| Wire.CommandDecodes | src/display/mod.rs:185-191 | the controller reads the events of `command` as that command opening, with no parameters yet |
| Wire.CommandEvents | src/display/mod.rs:185-191 | no contract of its own; `CommandDecodes` states what the controller receives |
| Wire.SendData | src/display/mod.rs:195-205 | data is DC high followed by one write per byte, in order |
| Wire.DataXTimes | src/display/mod.rs:210-218 | DC high is followed by exactly `n` writes of the same byte |
| Wire.CmdWithDataDecodes | src/display/mod.rs:221-224 | the controller reads the events of `cmd_with_data` as that command with exactly those parameter bytes, in order |
| Wire.CmdWithData | src/display/mod.rs:221-224 | no contract of its own; `CmdWithDataDecodes` states what the controller receives |
| Wire.RenderAppend | src/display/mod.rs:185-224 | the trace of two plans run one after the other is the two traces concatenated |
| Wire.FlattenAppend | src/display/mod.rs:185-224 | the controller-level steps of two plans concatenate |
| Wire.RenderRoundTrip | src/display/mod.rs:185-224 | reading any rendered plan back gives each command with all of its parameter bytes, whatever the split into `send_data` calls, with the other steps in order |
| Wire.WriteCountWrites | src/display/mod.rs:199-202 | writing `n` bytes is `n` SPI writes |
| Wire.Execute | src/display/mod.rs:242-246 | a run emits no more than its trace |
| Wire.ExecuteOutcome | src/display/mod.rs:199-202 | a run with no error emitted everything and crossed no failing write; a run with an error stopped right after the failing write and returns that write's error |
| Wire.ExecutePrefix | src/display/mod.rs:199-202 | what a run emits is always a prefix of its trace |
| Wire.ExecuteStopsAtFailure | src/display/mod.rs:199-202 | a failed run ends with the failing write, and nothing follows it |
| Wire.ExecuteFailsWithin | src/display/mod.rs:221-224 | a bus failing at a write inside the trace makes the run fail with that error, after exactly the writes up to and including it |
| Wire.ReliableRunsAll | src/display/mod.rs:242-246 | on a reliable bus the whole trace is emitted without error |
| Wire.ExecuteAppend | src/display/mod.rs:221-224 | running two traces one after the other is the first run, then (only if it succeeded) the second run continuing the write count |
| Driver.VcomByte | src/display/mod.rs:166-170 | the colour's code sits in bits 7..5 above the fixed bits 0x17 |
| Driver.Vcom | src/display/mod.rs:166-170 | no contract of its own; its byte is stated by `VcomByte` and `VcomDecodes`, and its place in its two callers by `UpdateFrameSteps` and `ClearUploadSteps`; `init` sends the fixed 0x37 instead, whatever the background |
| Driver.VcomDecodes | src/display/mod.rs:166-170 | the VCOM byte's top three bits decode back to the background colour |
| Driver.InitVcomIsDefault | src/display/mod.rs:30 | the 0x37 that `init` sends, both times, is the VCOM byte of the default White background |
| Driver.InitVcomIgnoresBackground | src/display/mod.rs:89-94 | the fixed VCOM byte `init` sends matches `update_vcom`'s byte for White and for no other background, so `init` and `wake_up` ignore the stored colour |
| Driver.ResolutionBytes | src/display/mod.rs:226-235 | the resolution bytes are 0x02 0x58 0x01 0xC0, the big-endian halves of 600 and 448 |
| Driver.Resolution | src/display/mod.rs:226-235 | no contract of its own; `ResolutionBytes` and `ResolutionTrace` state its bytes and events |
| Driver.ResolutionTrace | src/display/mod.rs:226-235 | the exact events of `send_resolution`: `TconResolution` (0x61), then four separate one-byte data sends |
| Driver.InitSteps | src/display/mod.rs:80-95 | `init` reaches the controller as: the reset pulse with its 10 ms delays, two busy waits, the eight configuration commands with their bytes, the resolution, `FlashMode`, a 10 ms delay, and VCOM again |
| Driver.Init | src/display/mod.rs:80-95 | no contract of its own; its decoded steps are stated by `InitSteps` and its outcome by `New` and `NewOnReliableBus` |
| Driver.Reset | src/display/mod.rs:173-179 | no contract of its own; `ResetSteps` states what the controller receives |
| Driver.ResetSteps | src/display/mod.rs:80-82 | the reset and the extra busy wait of `init` are: reset low, 10 ms, reset high, 10 ms, then two busy waits (one from `reset`, one from `init`) |
| Driver.WakeUp | src/display/mod.rs:101-103 | no contract of its own; `WakeUpSteps` states what the controller receives |
| Driver.WakeUpSteps | src/display/mod.rs:101-103 | `wake_up` sends the controller the whole initialisation again: the same steps as `init` |
| Driver.PowerOffAndSleepTraces | src/display/mod.rs:97-107 | `power_off` is opcode 0x02 with no data; `sleep` is opcode 0x07 with the single check byte 0xA5 |
| Driver.PowerOffOp | src/display/mod.rs:97-99 | no contract of its own; `PowerOffAndSleepTraces` states its events |
| Driver.Sleep | src/display/mod.rs:105-107 | no contract of its own; `PowerOffAndSleepTraces` states its events |
| Driver.DisplayFrameTrace | src/display/mod.rs:121-130 | the exact events of `display_frame`: wait, 0x04, wait, 0x12, wait, 0x02, wait |
| Driver.DisplayFrame | src/display/mod.rs:121-130 | no contract of its own; `DisplayFrameTrace` states its events |
| Driver.UpdateFrameSteps | src/display/mod.rs:109-119 | `update_frame` reaches the controller as: wait, VCOM with the background's byte, the resolution, `DataStartTransmission1` with the buffer verbatim, then `DataStop` with no data |
| Driver.UpdateFrame | src/display/mod.rs:109-119 | no contract of its own; `UpdateFrameSteps` and `UpdateFrameTrace` state its steps and events |
| Driver.UpdateFrameTrace | src/display/mod.rs:109-119 | the event trace of `update_frame` is built from its helpers' traces, in source order |
| Driver.ClearLenIsBufferLen | src/display/mod.rs:148 | `clear_frame` sends exactly as many bytes as the framebuffer holds |
| Driver.ClearUploadTrace | src/display/mod.rs:142-148 | the upload part of `clear_frame` is wait, VCOM, the resolution, then the bare `DataStartTransmission1` command and `data_x_times` of the background pair |
| Driver.ClearUpload | src/display/mod.rs:142-148 | no contract of its own; `ClearUploadTrace` and `ClearUploadSteps` state its events and steps |
| Driver.ClearUploadSteps | src/display/mod.rs:142-148 | on the controller side, the upload is `DataStartTransmission1` with the background pair repeated `WIDTH / 2 * HEIGHT` times |
| Driver.ClearFrameSteps | src/display/mod.rs:142-151 | `clear_frame` reaches the controller as the upload followed by the whole of `display_frame` |
| Driver.ClearFrame | src/display/mod.rs:142-151 | no contract of its own; `ClearFrameSteps`, `ClearFrameIsUpdateOfClearedBuffer` and `NoDataStop` state its meaning |
| Driver.ClearFrameIsUpdateOfClearedBuffer | src/display/mod.rs:142-151 | `clear_frame` equals an `update_frame` of a buffer cleared to the background, without its `DataStop`, followed by `display_frame` |
| Driver.NoDataStop | src/display/mod.rs:142-151 | no `DataStop` is sent anywhere in `clear_frame` |
| Driver.SetBackgroundColor | src/display/mod.rs:153-155 | the stored colour becomes the new one |
| Driver.New | src/display/mod.rs:59-78 | `new` returns a panel exactly when `init` succeeded; the panel's colour is White, and on failure the error is `init`'s |
| Driver.NewOnReliableBus | src/display/mod.rs:59-95 | on a reliable bus `init` emits its whole trace and `new` returns a White panel |
| Driver.RunAborts | src/display/mod.rs:199-202 | for any operation, a failure at its k-th write returns that error after exactly k + 1 writes; the emitted events are a prefix of the trace and end with that write |
| Driver.UpdateAndDisplayIsSequence | src/display/mod.rs:132-140 | `update_and_display_frame` runs `update_frame`, stops if it failed, and otherwise runs `display_frame` on the same bus |
| Driver.UpdateAndDisplayFrame | src/display/mod.rs:132-140 | no contract of its own; `UpdateAndDisplayIsSequence` states how it runs on a bus |
| ShiftRegister.ReadSequenceShape | src/shift_register.rs:24-43 | a read is 26 pin operations: latch low, latch high, then for each of 8 bits a sample followed by clock low and clock high; those are the only samples |
| ShiftRegister.ShiftInSample | src/shift_register.rs:30-36 | shifting in a sample keeps the earlier samples, each one bit higher |
| ShiftRegister.ClockIn | src/shift_register.rs:30-40 | one loop turn shifts the sample in and pulses the clock; the first failing pin operation ends it with that operation's error |
| ShiftRegister.ReadRegister | src/shift_register.rs:24-43 | the operations done are a prefix of the fixed sequence; the read succeeds exactly when all 26 pin operations succeed, and then bit 7 - i is the i-th sample, MSB first; otherwise the error is the first failing operation's, and it is the last operation done |
| ShiftRegister.MaskBit | src/shift_register.rs:45-47 | masking with `1 << i` gives 0 or `1 << i`, and is non-zero exactly when bit i is set |
| ShiftRegister.ReadRegisterBit | src/shift_register.rs:45-47 | the result is 0 or `1 << i`, and non-zero exactly when sample 7 - i was high; errors pass through unchanged |
| ShiftRegister.IsBusy | src/shift_register.rs:55-61 | busy exactly when the read succeeds and the first sample (bit 7) is low; a failed read counts as not busy |

## Left out

- `src/display/interface.rs` is not part of this model. The module tree does not declare it, and its DC/SPI helpers repeat the ones in `src/display/mod.rs`.
- `src/lib.rs` only declares modules, so nothing in it is modelled.
- `busy_wait` loops while `IsBusy::is_busy()` returns true (`src/display/mod.rs:237-239`), and it may never terminate. The `IsBusy` implementation can be a plain busy pin or the shift register (`src/display/mod.rs:249-253`); the register read is modelled separately in `ShiftRegister`. Each call is one `WaitIdle` step; delays are `DelayMs` steps with no timing.
- The `embedded-hal` and `embedded-graphics` trait machinery is not modelled: `SpiDevice`, `OutputPin`, `DelayNs`, `DrawTarget`, `OriginDimensions` and `Pixel`. It becomes event traces, integer points and RGB triples.
- The results of the reset and DC pins are discarded by the source (`let _ =`). The model has no failure for them.
- The SPI bus is modelled only through the first write that fails, `Bus.FailsAt`. No later write can matter, because every operation stops there.
- The `Display` formatting of `OutOfColorRangeParseError`, the `defmt` derives and the `InkyFrameDisplay` re-export are left out; none of them carries behaviour.
- The driver's `width()` and `height()` return the constants `WIDTH` and `HEIGHT` (`src/display/mod.rs:157-163`), which are `Width` and `Height` here. The display's `size()` (`src/display/display.rs:39-43`) returns the same constants. `buffer`, `get_mut_buffer` and `rotation` are plain field reads.
- `From<Rgb565>` and `From<Rgb555>` are modelled together over `NarrowRgb`, a triple of raw channels with a flag for the green width. The library's accessor types are not modelled.
- `DrawIterLastWins` reads back only points inside the panel, since an outside point stores no nibble. The pixels drawn may lie anywhere: those outside are dropped, as `DrawHelper` states.
- Colors.FromRawU4: the source's `unwrap` panics on codes 8 to 15. The model excludes those codes by its precondition instead of modelling the panic.
- ShiftRegister.ReadRegisterBit: the source's `1u8 << bit_index` overflows for an index of 8 or more. The precondition `index < 8` rules this out, as the driver's only call (with bit 7) does.
- Wire.DataXTimes: `repetitions` is a `u32` in the source. The model takes any natural number, and the one call site passes 134400.
- Wire.Execute: its own contract only bounds the length of what it emits. The full outcome is stated by `Wire.ExecuteOutcome`, `Wire.ExecutePrefix` and `Wire.ExecuteStopsAtFailure`.
- The check code 0xA5 of `DeepSleep` is a controller rule (`src/display/command.rs:31-36`). The model shows that `sleep` sends it and does not model the controller.

## Findings

| source | as written | input that shows it | evidently intended | confidence | as-written member | corrected member |
|---|---|---|---|---|---|---|
| src/display/color.rs:59-91, 93-125 | `From<Rgb565>` and `From<Rgb555>` compare the raw channels (red and blue 0–31, green 0–63 or 0–31) directly with the 8-bit palette triples | full-scale white, `Rgb565` (31, 63, 31) or `Rgb555` (31, 31, 31), is closest to (0,0,0) and comes out Black | widen each channel to 8 bits before the exact-match search and the nearest-colour search, so that white stays White | not executed | Colors.NarrowWhiteBecomesBlack | Colors.FromNarrowRoundTrip |
