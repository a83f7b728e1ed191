# WS2812 LED strip driver over SPI and uDMA — a Dafny model

This project models the core of a small TM4C driver for WS2812 addressable LEDs. The driver has three parts:

- **The WS2812 encoder** (`lib/WS2812_drv.c`, `lib/WS2812_drv.h`). It turns each colour byte into eight SPI bytes, most significant bit first. A 1 bit becomes `WS2812_SPI_HIGH` (0xE) and a 0 bit becomes `WS2812_SPI_LOW` (0x8). Each LED's 24 bytes sit in green, red, blue order. Module `Ws2812`, file `ws2812.dfy`.
- **The SPI/uDMA streaming engine** (`lib/SPI_uDMA_drv.c`). The SSI1 interrupt handler keeps the uDMA channel busy. It alternates between the frame buffer and a two-byte reset gap read from a static zero byte. It sets the caller's done variable to 1 each time the frame is re-armed. `InitSPITransfer` registers the buffer and the done variable, blanks the buffer and arms the first frame. Module `SpiUdma`, file `spi_udma.dfy`.
- **The colour-wheel patterns** of the example application (`example/samplePatterns.c`). `rainbowShift` steps a (G, R, B) triple one step around a six-segment colour wheel. `rainbowInit` fills an n×3 array with wheel colours, n/6 rows per segment. Module `SamplePatterns`, file `sample_patterns.dfy`.

## How the code maps to Dafny

- **Buffers.** The code writes caller buffers in place, so the model keeps `array<bv8>` and `array2<Byte>`. A C pointer `base + off` is an array plus an offset.
- **Encoder specs.** Each encoder method is specified by the whole new buffer contents: `buf[..] == Splice(old(buf[..]), off, Waveform(c))`. `Splice` replaces one region and leaves every other byte as it was.
- **Receiver.** `Decode` models the LED's view of the line and is the inverse of the encoder. The lemmas prove that it decodes a byte's waveform back to that byte, and nothing else.
- **Engine state.** The driver is the class `SpiUdmaDriver`. Its fields are the file-scope statics, the handler's static `ucPing` and the hardware state that the ROM calls change. Each method's effect is tied to a pure transition function on the value `Engine`, for example `State() == Handle(old(State()))`. Lemmas about whole runs (`Run`, `RaiseCount`) are proved on that transition system.
- **Integer widths.** Bytes in the encoder are `bv8`, so the bit test is the code's own `c & (0x80 >> i)`. The patterns compute in C `int` and store into `uint8_t`; `U8` makes that truncation explicit. `uint16_t` is the subset type `Uint16`.

## When the done flag is raised

The header comment (lib/SPI_uDMA_drv.h:32-35) says the flag is set to 1 each time the whole buffer has been sent. The code sets it one step later. It raises the flag in the handler call that follows the completed reset gap, the same call that re-arms the frame (lib/SPI_uDMA_drv.c:78-91). So the flag goes up just as the next transmission of the buffer begins, not while the gap is being sent. The model follows the code. `HandleDoneWrite` states this timing, and the model claims no window in which the buffer is safe to rewrite.

## Spacing of rainbowInit's colours

The comment above `rainbowInit` (example/samplePatterns.c:88-92) says the LEDs are spaced evenly around the colour wheel. Let L = n/6. Inside a section, consecutive rows are 0xFF/L wheel steps apart. From the last row of one section to the first row of the next, the gap is 0xFF/L + (0xFF mod L). So the spacing is exactly even only when L divides 255, that is for n = 6, 18, 30, 90 and 102. For n = 24, rows 2, 3 and 4 sit at wheel positions 126, 189 and 255. `RainbowRowSpacing` states both gaps.

## Model

| member | source | states |
|---|---|---|
| Ws2812.ProtocolConstants | lib/WS2812_drv.h:17-27 | HIGH is 0xE and LOW is 0x8, and they differ; 8 SPI bytes per colour, 3 colours, 24 bytes per LED under both stride formulas |
| Ws2812.ChannelRegionsTile | lib/WS2812_drv.h:17-19 | the three channel offsets are distinct, and every byte of an LED's 24 lies in exactly one channel region |
| Ws2812.Splice | lib/WS2812_drv.c:24-34 | a write of `w` at `off` keeps the length; the bytes from `off` for the length of `w` come from `w`, all others are unchanged |
| Ws2812.Symbol | lib/WS2812_drv.c:26-33 | the per-bit rule of WStoSPI: every bit position becomes one of the two patterns, HIGH or LOW (which one is given by WaveformMsbFirst) |
| Ws2812.Waveform | lib/WS2812_drv.c:24-34 | a colour's encoding is 8 bytes, each HIGH or LOW |
| Ws2812.WaveformMsbFirst | lib/WS2812_drv.c:26-33 | byte i is HIGH iff bit 7-i of the colour is set, and LOW iff it is clear (most significant bit first) |
| Ws2812.WaveformAllOnes | lib/WS2812_drv.c:24-34 | 0xFF encodes as eight HIGH bytes |
| Ws2812.WaveformAllZeros | lib/WS2812_drv.c:24-34 | 0x00 encodes as eight LOW bytes |
| Ws2812.WaveformBit | lib/WS2812_drv.c:26 | byte k of a waveform is read back as bit 7-k of the colour |
| Ws2812.ShiftInBit | lib/WS2812_drv.c:24-34 | shifting the next bit in below the top k bits gives the top k+1 bits |
| Ws2812.DecodeSuffix | lib/WS2812_drv.c:24-34 | after the top k bits have been read, the rest of the waveform decodes to the whole colour |
| Ws2812.DecodeWaveform | lib/WS2812_drv.c:24-34 | round trip: decoding the waveform of c gives c |
| Ws2812.DecodeOnlyPatterns | lib/WS2812_drv.c:28-32 | a byte sequence decodes only if every one of its bytes is HIGH or LOW |
| Ws2812.PatternsAreWaveform | lib/WS2812_drv.c:24-34 | any 8 bytes that are each HIGH or LOW are the waveform of some colour |
| Ws2812.DecodeIffWaveform | lib/WS2812_drv.c:24-34 | 8 bytes decode to c if and only if they are c's waveform (the encoding is injective and decoding is exact) |
| Ws2812.LedWaveform | lib/WS2812_drv.c:67-74 | one LED's encoding is 24 bytes |
| Ws2812.LedWaveformChannels | lib/WS2812_drv.c:71-73 | inside an LED's 24 bytes, the green, red and blue regions at their offsets hold those channels' waveforms |
| Ws2812.DecodeLedWaveform | lib/WS2812_drv.c:67-74 | round trip for one LED: its 24 bytes decode to (green, red, blue) |
| Ws2812.SpliceCommute | lib/WS2812_drv.c:71-73 | writes to disjoint regions commute |
| Ws2812.SpliceAdjacent | lib/WS2812_drv.c:71-73 | writing two adjacent regions is the same as writing their concatenation |
| Ws2812.ChannelWritesCommute | lib/WS2812_drv.h:130-182 | writes to two different channels of one LED commute |
| Ws2812.ChannelWritesMakeLed | lib/WS2812_drv.c:71-73 | the green, red and blue writes at one base together write the LED's 24-byte encoding |
| Ws2812.HeaderSettersMakeLed | lib/WS2812_drv.h:199-248 | WSSetLEDGreen, WSSetLEDRed and WSSetLEDBlue on LED `led`, at the header stride 3·8·led, together write the same 24 bytes as WSSetLEDColors on that LED |
| Ws2812.LedWritesCommute | lib/WS2812_drv.c:80-85 | whole-LED writes of two different LED indices touch disjoint bytes and commute |
| Ws2812.AllOffIdempotent | lib/SPI_uDMA_drv.c:158-161 | blanking the same prefix twice is blanking it once, so the repeated calls in InitSPITransfer change nothing further |
| Ws2812.AllOffContents | lib/WS2812_drv.c:93-100 | with length 0 the buffer is unchanged; otherwise exactly the first len bytes are LOW and the rest keep their values |
| Ws2812.AllOffIsBlack | lib/WS2812_drv.c:98-100 | in an all-LOW buffer every LED decodes to (0, 0, 0) |
| Ws2812.ToSpi | lib/WS2812_drv.c:16-34 | WStoSPI: bytes `[off, off+8)` become the colour's waveform and every other byte is unchanged |
| Ws2812.GrbToSpi | lib/WS2812_drv.c:67-74 | WSGRBtoSPI: bytes `[off, off+24)` become the LED's encoding in G, R, B order; the rest is unchanged |
| Ws2812.GToSpi | lib/WS2812_drv.h:130-134 | WSGtoSPI: only the green region at off + 8·0 is rewritten |
| Ws2812.RToSpi | lib/WS2812_drv.h:154-158 | WSRtoSPI: only the red region at off + 8·1 is rewritten |
| Ws2812.BToSpi | lib/WS2812_drv.h:178-182 | WSBtoSPI: only the blue region at off + 8·2 is rewritten |
| Ws2812.SetLedColors | lib/WS2812_drv.c:76-86 | WSSetLEDColors: LED number `led` (bytes from 24·led) gets its 24-byte encoding; nothing else changes |
| Ws2812.SetLedGreen | lib/WS2812_drv.h:199-204 | WSSetLEDGreen: only the green region of LED `led` (stride 3·8) is rewritten |
| Ws2812.SetLedRed | lib/WS2812_drv.h:221-226 | WSSetLEDRed: only the red region of LED `led` is rewritten |
| Ws2812.SetLedBlue | lib/WS2812_drv.h:243-248 | WSSetLEDBlue: only the blue region of LED `led` is rewritten |
| Ws2812.ArrayInit | lib/WS2812_drv.c:88-106 | WSArrayInit: the first len bytes become LOW and the rest are unchanged; len == 0 changes nothing |
| SpiUdma.Transmitted | lib/SPI_uDMA_drv.c:80-105 | an armed descriptor sends exactly `length` bytes |
| SpiUdma.Start | lib/SPI_uDMA_drv.c:151-270 | InitSPITransfer on the engine: ucPing and both status words survive; the done variable becomes 0, the registered size is `size`, and the channel is enabled with the whole frame armed, incrementing source |
| SpiUdma.Handle | lib/SPI_uDMA_drv.c:57-111 | SSI1IntHandler on the engine: the SSI status is cleared and the channel is enabled afterwards; the size, the uDMA error status and whether a done pointer is registered do not change; on an idle channel ucPing toggles between 0 and nonzero |
| SpiUdma.HandleError | lib/SPI_uDMA_drv.c:130-141 | uDMAErrorHandler on the engine: the uDMA error status becomes 0 and every other part of the state is unchanged |
| SpiUdma.HandleDoneWrite | lib/SPI_uDMA_drv.c:72-111 | after the handler the channel is enabled and the status is cleared; the done variable becomes 1 exactly when the channel was idle, ucPing was set and a done pointer is registered (otherwise it is untouched); in that case the frame is what gets armed |
| SpiUdma.HandleWhileEnabled | lib/SPI_uDMA_drv.c:72 | while the channel is still busy the handler only clears the interrupt status |
| SpiUdma.StrictAlternation | lib/SPI_uDMA_drv.c:78-107 | from any state, of two consecutive completions one arms the gap and the other arms the frame, and, when a done variable is registered, exactly one of them raises it |
| SpiUdma.RunFromPingZero | lib/SPI_uDMA_drv.c:51-111 | starting from ucPing == 0, the k-th completion arms the gap if k is odd and the frame if k is even; when a done variable is registered, the flag has been raised floor(k/2) times after k completions |
| SpiUdma.StreamFromReset | lib/SPI_uDMA_drv.c:33-111 | after reset and InitSPITransfer, k completions raise the flag k/2 times, and gaps and frames alternate starting with the gap |
| SpiUdma.RestartAfterGapSkipsGap | lib/SPI_uDMA_drv.c:78-91 | ucPing survives InitSPITransfer: re-initialising while ucPing is 1 makes the next completion re-arm the frame with no reset gap, and raise the flag |
| SpiUdma.ErrorHandlerTransparent | lib/SPI_uDMA_drv.c:122-142 | clearing a uDMA error changes nothing about the later stream: same states apart from the error status, same number of flag raises |
| SpiUdma.RunDescriptors | lib/SPI_uDMA_drv.c:78-107 | every descriptor ever armed is either the two-byte gap or the frame of the registered size |
| SpiUdma.GapSendsZeros | lib/SPI_uDMA_drv.c:99-105 | the gap descriptor sends the static zero byte twice, with a fixed source address |
| SpiUdma.DarkStream | lib/SPI_uDMA_drv.c:158-161 | once the frame buffer is all LOW, as InitSPITransfer leaves it, every transfer sends either [0, 0] or an all-LOW frame |
| SpiUdma.SpiUdmaDriver.constructor | lib/SPI_uDMA_drv.c:33-52 | reset state: null done pointer, no frame buffer, ucPing 0, channel idle |
| SpiUdma.SpiUdmaDriver.Ssi1IntHandler | lib/SPI_uDMA_drv.c:47-113 | SSI1IntHandler: the new state is Handle(old state), plus the per-branch facts (busy: only the status is cleared; ucPing 0: gap armed and ucPing := 1; ucPing set: frame armed, ucPing := 0, done := 1 if registered); the statics and the frame buffer are not written |
| SpiUdma.SpiUdmaDriver.UdmaErrorHandler | lib/SPI_uDMA_drv.c:122-142 | uDMAErrorHandler: the error status becomes 0 and nothing else changes |
| SpiUdma.SpiUdmaDriver.InitSpiTransfer | lib/SPI_uDMA_drv.c:145-271 | InitSPITransfer: registers buffer, size and done variable; the first `size` bytes become LOW (the rest are untouched); done := 0; frame descriptor armed and channel enabled; ucPing unchanged; new state == Start(old state, size) |
| SamplePatterns.U8 | example/samplePatterns.c:45-81 | storing an int into a uint8_t keeps every value in [0, 256) |
| SamplePatterns.WheelAt | example/samplePatterns.c:13-38 | every point of the six-segment wheel has some channel at 0xFF and some channel at 0 |
| SamplePatterns.WheelPos | example/samplePatterns.c:13-38 | every wheel colour has a position in [0, 1530) |
| SamplePatterns.WheelPosAt | example/samplePatterns.c:13-38 | WheelPos inverts WheelAt |
| SamplePatterns.WheelAtPos | example/samplePatterns.c:13-38 | WheelAt inverts WheelPos: the wheel colours are exactly the 1530 documented points |
| SamplePatterns.ShiftRule | example/samplePatterns.c:47-78 | the branch rule of rainbowShift as a relation between the old and the new colour; its contract-free definition is characterised by ShiftRuleMovesOneChannel and ShiftRuleAdvances, and RainbowShift is proved to follow it |
| SamplePatterns.ShiftRuleMovesOneChannel | example/samplePatterns.c:45-81 | the branch rule changes exactly one channel by exactly one, so no uint8_t ever wraps |
| SamplePatterns.ShiftRuleAdvances | example/samplePatterns.c:13-38 | from a wheel colour the branch rule gives a wheel colour one position further on, modulo 1530 |
| SamplePatterns.RainbowShift | example/samplePatterns.c:45-81 | rainbowShift follows the branch rule of the code; exactly one channel moves by one; the wheel invariant is kept and the position advances by 1 modulo 1530 |
| SamplePatterns.RainbowShiftFromRed | example/samplePatterns.c:47-56 | (G, R, B) = (0, 0xFF, 0) becomes (1, 0xFF, 0), position 1 in segment ONE |
| SamplePatterns.SectionColourOnWheel | example/samplePatterns.c:119-205 | for a step in [0, 255), section s's formula is the wheel point 255·s + step |
| SamplePatterns.StepBound | example/samplePatterns.c:129 | `(0xFF/ledPerSect)*j` lies in [0, 255) for every row j of a section |
| SamplePatterns.SectionColour | example/samplePatterns.c:129-203 | the six stored formulas: in every section, whatever the step, one channel is held at 0xFF and another at 0x00 |
| SamplePatterns.SectionRowOnWheel | example/samplePatterns.c:119-205 | row j of section s is the wheel point 255·s + (0xFF/L)·j: every stored value fits a byte and every row is a wheel colour |
| SamplePatterns.RowInSection | example/samplePatterns.c:114-119 | every row below n falls in one of the six sections of n/6 rows |
| SamplePatterns.RainbowRowOnWheel | example/samplePatterns.c:102-206 | every row of rainbowInit's result is a wheel colour, at position 255·(row / L) + (0xFF/L)·(row mod L), where L = n/6 |
| SamplePatterns.RainbowRowAt | example/samplePatterns.c:114-206 | row s·(n/6) + j of the result is row j of section s: each section has n/6 rows (section ONE's row j is ((0xFF/(n/6))·j, 0xFF, 0)) |
| SamplePatterns.RowPosition | example/samplePatterns.c:119-205 | row j of section s is at wheel position 255·s + (0xFF/L)·j |
| SamplePatterns.StepGaps | example/samplePatterns.c:129 | consecutive steps differ by 0xFF/L, and the last step of a section lies 0xFF/L + 0xFF mod L below 255 |
| SamplePatterns.RainbowRowSpacing | example/samplePatterns.c:88-92 | the wheel distance between consecutive rows is 0xFF/L inside a section, and 0xFF/L + 0xFF mod L across a section boundary |
| SamplePatterns.BranchGuards | example/samplePatterns.c:119-192 | at the start of block s, the guard `i < (n/6)*k` holds exactly for k > s, so the chain picks section s, and the block ends inside the strip |
| SamplePatterns.FillSection | example/samplePatterns.c:127-132 | one inner loop: rows i..i+L-1 get section s's rows 0..L-1; no other row changes |
| SamplePatterns.InitPass | example/samplePatterns.c:119-205 | one pass of the outer loop at the start of block s: ledPerSect becomes n/6 (no `++` fires), section s is written, and nothing else changes |
| SamplePatterns.RainbowInit | example/samplePatterns.c:102-206 | for every n ≤ 255 that is a multiple of 6 (n = 0 included, where the loop never runs), every row below n is set to its section formula and no row at or after n is touched |

## Left out

- The vendor ROM and driverlib calls. This covers clock set-up, GPIO pin muxing, SSI configuration, interrupt and uDMA enabling and the control-table base (lib/SPI_uDMA_drv.c:163-245, 269). They appear only through their effect on the channel-enable bit, the armed descriptor and the two status words.
- The 1024-byte-aligned uDMA control table. It is a hardware layout requirement.
- Timing. The model does not show that 0xE and 0x8 at 2.5 MHz meet WS2812 pulse timing, or that two zero bytes are a long enough reset.
- Concurrency between the interrupt handler and foreground code, and `volatile` on the done variable. Each handler call is one atomic step, and the hardware finishing a transfer is the separate step `Complete`.
- Aliasing. The done variable and the frame buffer are separate objects in the model, so a done pointer that points into the frame buffer is not modelled. The three `rainbowShift` pointers are treated as distinct bytes, and their new values are returned.
- SpiUdma.SpiUdmaDriver.InitSpiTransfer: requires a non-null done variable. The code writes `*pui8DoneVar = 0` without checking for null (lib/SPI_uDMA_drv.c:262), so a null argument is undefined behaviour there.
- SamplePatterns.RainbowInit: only covers n a multiple of 6, where every section has n/6 rows. For other n the `++` adjustments give each section n/6 or n/6 + 1 rows; the model does not cover those lengths. For most such n every row below n is still written. The exceptions are 1 ≤ n ≤ 5, where no guard holds and `i += ledPerSect` reads `ledPerSect` uninitialised, and n = 8, 9, 10, 11, 14, 15, 16, 17, 21, 22, 23, 29 and 35, where the extra rows carry `i` past a section's guard or up to 6·(n/6) before row n. A pass then matches no branch, and some rows are never written; for n = 8 these are rows 6 and 7. The model's `ledPerSect` starts at 0 rather than an indeterminate value; under the precondition that value is never used.
- Commented-out 4-bit encoder variants and the `#if 0` declarations block. They are dead code.
- `example/uDMA_example.c`, `example/samplePatterns.h` and `lib/SPI_uDMA_drv.h`. They are an application main loop, prototypes, and enums that are never used. The unused macro `WS2812_SPI_BYTE_PER_LED` is left out too.
- The SSI interrupt status word is kept only as a number that the handler clears. The individual status bits are not modelled.
- The error counter. The comment above uDMAErrorHandler (lib/SPI_uDMA_drv.c:117-119) says it increments a counter, but no such counter exists: the code only reads and clears the uDMA error status (lib/SPI_uDMA_drv.c:130-141). The model follows the code.
