# ICP protocol engine — a Dafny model

This project models the In-Circuit Programming (ICP) engine of the NuMaker
UART-to-ICP bridge (`ICPLib.c`). The engine reprograms the flash of a target
microcontroller by bit-banging a three-wire link: RESET, CLOCK and DATA. It
models the engine at four levels:

- **Wire** (`wire.dfy`). In the link operations (command frames, data
  transfers, mode entry and mode exit) every pin write, DATA direction
  switch, DATA sample and busy-wait becomes an `Event`, and an operation is
  modelled by the trace of events it emits. Four observers read a trace back:
  - `Driven`: the DATA levels the host drove;
  - `Sampled`: the DATA levels it sampled;
  - `Elapsed`: the total busy-wait time;
  - `Pulses`: the number of rising CLOCK edges.

  `Keeps(t, dir)` says that a trace drives DATA only while it is an output,
  samples it only while it is an input, and leaves its direction as it
  found it.
- **Bit transport and frames** (`transport.dfy`, `codec.dfy`). These model
  `ICP_WriteBits`, `ICP_ReadBits`, the command frame `(addr << 8) | cmd`,
  `ICP_ReadData` and `ICP_WriteData`, including the delay loop that waits
  in 80000 µs pieces.
- **Pins and session** (`pins.dfy`, `session.dfy`). These cover:
  - `ICP_SetGPIOMode` on a MODE register;
  - the reset polarity of `ICP_SetReset`;
  - `ICP_Init` and `ICP_UnInit`, which save and restore modes, levels and
    multi-function routing;
  - the mode entry handshake and the mode exit.
- **Flash commands and the CRC** (`flash.dfy`, `crc.dfy`, `lanes.dfy`).
  These cover the timing record and its setters, the ID reads, the six
  erases, program, program-and-verify, read, and the CRC-protected config
  block. The CRC is the table-driven CRC-8 (polynomial 0x07), applied per
  byte lane. A flash command is a *script* of framed transfers (`Transfer`):
  `Command`, `Write` and `Read`. `Render` turns a script into wire events.

Machine words are `u32` (0 ≤ x < 2^32), with `uint32_t` wrap-around written
out as `Wrap`. Shifts are multiplication and division by powers of two. A
GPIO register is a `Word`, the set of positions of its 1 bits. On a `Word`:

- `w & ~m` is `w - m`;
- `|` is `+`;
- `&` is `*`;
- `mode << (pin << 1)` is `Shifted(mode, 2 * pin)`, which drops bits at
  position 32 and above.

The following are inputs of the model rather than effects:

- what the target shifts out on DATA during a read (`word`, `replies`,
  `readback`);
- the saved register contents (`Registers`);
- the command codes and `FMC_CONFIG_BASE`, which the device headers define
  (`Codes`);
- the register masks and GPIO selectors of the five pins (`Board`).

Behaviour of the code worth knowing:

- **Read-bit order.** A read bit waits, samples DATA, raises CLOCK, waits
  and lowers CLOCK. The sample is taken before the rising edge, and nothing
  waits after the falling edge.
- **Read turnaround.** `ICP_ReadData` switches DATA to an input before its
  leading clock cycle, and back to an output before the trailing one
  (`Codec.ReadObserved`).
- **Write tail.** `ICP_WriteData` waits the whole programming delay, in
  chunks, before it drives the continue flag, and waits the hold time after
  it (`Codec.WriteTail`).
- **Continue flag.** The flag that ends a data word is 1 on the last word
  of a stream and 0 on every other word.
- **Verify result.** Addresses are `uint32_t` sums. The verify result
  `start + size` can therefore wrap, and a failing address need not be
  numerically below it. It is never equal to it, though (`VerifyResult`).
- **Unused read times.** `readDelay` and `readHold` of the timing record
  are never used. A data read always waits a fixed 5 µs after its flag.
- **Other reset levels.** `ICP_SetReset` computes `(level ^ active) ? 0 : 1`.
  With an active level other than 0 or 1, RESET is driven low both when
  asserting and when releasing.
- **Unmasked mode.** `ICP_SetGPIOMode` does not mask the mode it writes. A
  mode above 3 spills into the neighbouring pin's field
  (`SetGpioModeSpills`). The library only passes masked modes.

## Model

Paths are relative to the repository root; `ICPLib.c` stands for
`ISP_UART_ICP_Bridge/SampleCode/ISP/ISP_UART_ICP_Bridge/ICPLib.c`.

| member | source | states |
|---|---|---|
| Wire.SlotObservations | ISP_UART_ICP_Bridge/SampleCode/ISP/ISP_UART_ICP_Bridge/ICPLib.c:20-44 | a written bit drives exactly its level and a read bit samples exactly the target's level; each takes two 1 µs waits and one clock pulse, and a bare clock cycle drives and samples nothing |
| Wire.Observe | ISP_UART_ICP_Bridge/SampleCode/ISP/ISP_UART_ICP_Bridge/ICPLib.c:20-44 | what is driven, sampled, waited and clocked during two consecutive pieces of activity is the sum of the two |
| Wire.Directions | ISP_UART_ICP_Bridge/SampleCode/ISP/ISP_UART_ICP_Bridge/ICPLib.c:170-177 | whether DATA is only driven while an output and only sampled while an input, and where its direction ends, splits over consecutive pieces of activity |
| Transport.WriteBits | ISP_UART_ICP_Bridge/SampleCode/ISP/ISP_UART_ICP_Bridge/ICPLib.c:135-145 | `ICP_WriteBits(v, n)` drives bit n-1 of v first and bit 0 last, samples nothing, waits 2n µs and pulses the clock n times; DATA must be an output throughout |
| Transport.WriteBitsSlots | ISP_UART_ICP_Bridge/SampleCode/ISP/ISP_UART_ICP_Bridge/ICPLib.c:139-144 | loop iteration j of `ICP_WriteBits` is exactly the write-bit step for bit n-1-j |
| Transport.ReadBits | ISP_UART_ICP_Bridge/SampleCode/ISP/ISP_UART_ICP_Bridge/ICPLib.c:147-159 | `ICP_ReadBits(n)` samples the n levels the target presents, in order, drives nothing, waits 2n µs and pulses n times; the value has n bits; DATA must be an input throughout |
| Transport.ReadBitsSlots | ISP_UART_ICP_Bridge/SampleCode/ISP/ISP_UART_ICP_Bridge/ICPLib.c:151-156 | loop iteration j of `ICP_ReadBits` is exactly the read-bit step sampling level j |
| Transport.BitsOfReadBits | ISP_UART_ICP_Bridge/SampleCode/ISP/ISP_UART_ICP_Bridge/ICPLib.c:147-159 | the accumulated value has the sampled levels as its n bits, most significant first: reading loses nothing |
| Transport.ReadBitsOfBits | ISP_UART_ICP_Bridge/SampleCode/ISP/ISP_UART_ICP_Bridge/ICPLib.c:147-159 | reading the n bits of v gives back v modulo 2^n |
| Transport.Loopback | ISP_UART_ICP_Bridge/SampleCode/ISP/ISP_UART_ICP_Bridge/ICPLib.c:135-159 | round trip: reading back what `ICP_WriteBits(v, n)` drove gives v modulo 2^n |
| Transport.LoopbackWord | ISP_UART_ICP_Bridge/SampleCode/ISP/ISP_UART_ICP_Bridge/ICPLib.c:135-159 | a 32-bit word survives the write/read round trip unchanged |
| Codec.FrameWord | ISP_UART_ICP_Bridge/SampleCode/ISP/ISP_UART_ICP_Bridge/ICPLib.c:161-164 | the frame's low byte is the command and its upper 24 bits are the low 24 bits of the address; the top address byte is shifted out |
| Codec.FrameRoundTrip | ISP_UART_ICP_Bridge/SampleCode/ISP/ISP_UART_ICP_Bridge/ICPLib.c:161-164 | decoding a frame gives back the command and the address modulo 2^24, and every 32-bit word is the frame of its decoding |
| Codec.SendCommand | ISP_UART_ICP_Bridge/SampleCode/ISP/ISP_UART_ICP_Bridge/ICPLib.c:161-164 | `ICP_SendCommand` drives the 32 frame bits and samples nothing, in 32 pulses and 64 µs; a target clocking in the levels decodes the command and the low 24 address bits |
| Codec.DelayChunksShape | ISP_UART_ICP_Bridge/SampleCode/ISP/ISP_UART_ICP_Bridge/ICPLib.c:201-211 | a delay is waited as ceil(d / 80000) busy-waits, each nonzero and at most 80000 µs, all but the last exactly 80000 |
| Codec.SpinDelay | ISP_UART_ICP_Bridge/SampleCode/ISP/ISP_UART_ICP_Bridge/ICPLib.c:201-211 | the `while` loop issues exactly those busy-waits, totalling d µs, and none at all for a zero delay |
| Codec.HandoffObserved | ISP_UART_ICP_Bridge/SampleCode/ISP/ISP_UART_ICP_Bridge/ICPLib.c:182-184 | the end of a transfer drives exactly the continue flag, pulses once and waits 2 µs plus the trailing time |
| Codec.ReadData | ISP_UART_ICP_Bridge/SampleCode/ISP/ISP_UART_ICP_Bridge/ICPLib.c:166-187 | `ICP_ReadData` returns the word the target shifted out; the trace is the input switch, the leading clock cycle and 1 µs, then exactly the 32 read slots, then the turnaround; it samples exactly that word's 32 bits, drives only the continue flag, takes 35 pulses and 76 µs, and every sample happens while DATA is an input and the flag is driven while it is an output |
| Codec.WriteData | ISP_UART_ICP_Bridge/SampleCode/ISP/ISP_UART_ICP_Bridge/ICPLib.c:189-216 | a data write starts with the leading clock cycle and 1 µs, then exactly the 32 write slots of the word, most significant first, then the write tail; it drives the word's bits and the continue flag and samples nothing, in 35 pulses and 71 µs plus its delay and hold; the flag is driven only after the whole programming delay (69 µs plus the delay into the write) and the write ends with the hold wait; DATA stays an output |
| Codec.WriteTail | ISP_UART_ICP_Bridge/SampleCode/ISP/ISP_UART_ICP_Bridge/ICPLib.c:199-215 | after the data bits: one clock cycle, then exactly the delay chunks, then the flag as one written bit, then the hold wait; 2 µs plus the delay pass before the flag |
| Crc.Crc8 | ISP_UART_ICP_Bridge/SampleCode/ISP/ISP_UART_ICP_Bridge/ICPLib.c:86-100 | the two-nibble table lookup equals the bitwise CRC-8 with polynomial 0x07 (eight shift-and-xor steps of crc ^ data), for every byte and register |
| Crc.TableEntries | ISP_UART_ICP_Bridge/SampleCode/ISP/ISP_UART_ICP_Bridge/ICPLib.c:88-94 | each of the 16 table entries is four CRC steps of its index in the high nibble |
| Crc.Crc8Injective | ISP_UART_ICP_Bridge/SampleCode/ISP/ISP_UART_ICP_Bridge/ICPLib.c:86-100 | for a fixed register, distinct data bytes give distinct CRCs; for a fixed byte, distinct registers give distinct CRCs |
| Crc.GetCrcValue | ISP_UART_ICP_Bridge/SampleCode/ISP/ISP_UART_ICP_Bridge/ICPLib.c:102-119 | the four-register loop computes the packed lane CRCs of the first `count` words |
| Crc.CrcWordLane | ISP_UART_ICP_Bridge/SampleCode/ISP/ISP_UART_ICP_Bridge/ICPLib.c:102-119 | byte k of the result is CRC-8 seeded 0xFF folded over byte k of each word in order |
| Crc.LaneCrcDependsOnLane | ISP_UART_ICP_Bridge/SampleCode/ISP/ISP_UART_ICP_Bridge/ICPLib.c:108-116 | lane k's CRC depends only on byte k of the words |
| Crc.LaneCrcDetectsByte | ISP_UART_ICP_Bridge/SampleCode/ISP/ISP_UART_ICP_Bridge/ICPLib.c:108-116 | changing byte k of a single word changes lane k's CRC |
| Crc.SingleByteChangeWord | ISP_UART_ICP_Bridge/SampleCode/ISP/ISP_UART_ICP_Bridge/ICPLib.c:102-119 | a single-byte change in the buffer changes the same byte of the CRC word and no other |
| Lanes.UnpackLanes | ISP_UART_ICP_Bridge/SampleCode/ISP/ISP_UART_ICP_Bridge/ICPLib.c:118 | packing four bytes as `b3 << 24 \| b2 << 16 \| b1 << 8 \| b0` gives a word whose byte k is bk |
| Lanes.ToBv8 | ISP_UART_ICP_Bridge/SampleCode/ISP/ISP_UART_ICP_Bridge/ICPLib.c:110-116 | the byte `pu8Buf[i * 4 + k]` handed to `CRC8` keeps its value as an eight-bit vector |
| Pins.SetGpioMode | ISP_UART_ICP_Bridge/SampleCode/ISP/ISP_UART_ICP_Bridge/ICPLib.c:121-124 | with a mode of at most 3, the pin's two-bit field then holds the mode, every bit outside the field is unchanged, and so is every other pin's field |
| Pins.SetGpioModeCopies | ISP_UART_ICP_Bridge/SampleCode/ISP/ISP_UART_ICP_Bridge/ICPLib.c:121-124 | writing back a field read from another register copies exactly that field |
| Pins.SetGpioModeSpills | ISP_UART_ICP_Bridge/SampleCode/ISP/ISP_UART_ICP_Bridge/ICPLib.c:121-124 | the mode is not masked: mode 4 sets a bit of the next pin's field |
| Pins.SetReset | ISP_UART_ICP_Bridge/SampleCode/ISP/ISP_UART_ICP_Bridge/ICPLib.c:126-133 | one RESET write, high when asserting an active-high reset or releasing an active-low one |
| Pins.ResetPolarity | ISP_UART_ICP_Bridge/SampleCode/ISP/ISP_UART_ICP_Bridge/ICPLib.c:126-133 | asserting and releasing drive different levels exactly when the active level is 0 or 1; any other level drives low both ways |
| Pins.InitReleasesReset | ISP_UART_ICP_Bridge/SampleCode/ISP/ISP_UART_ICP_Bridge/ICPLib.c:259 | the RESET level `ICP_Init` drives is the released level |
| Pins.PaModesSet | ISP_UART_ICP_Bridge/SampleCode/ISP/ISP_UART_ICP_Bridge/ICPLib.c:267-271 | the four port-A mode writes set the CLK, DAT, LV0 and LV1 fields and nothing else |
| Pins.PaModesRestore | ISP_UART_ICP_Bridge/SampleCode/ISP/ISP_UART_ICP_Bridge/ICPLib.c:277-281 | writing back the saved port-A fields restores the saved register when it agrees outside those fields |
| Pins.Init | ISP_UART_ICP_Bridge/SampleCode/ISP/ISP_UART_ICP_Bridge/ICPLib.c:229-272 | `ICP_Init` records the active level and the prior pin levels, and drives RESET released, CLK and DAT low, LV0 high, LV1 low |
| Pins.InitConfigures | ISP_UART_ICP_Bridge/SampleCode/ISP/ISP_UART_ICP_Bridge/ICPLib.c:229-272 | after `ICP_Init` the five pins are outputs routed to GPIO, and every other register bit is as before |
| Pins.UnInit | ISP_UART_ICP_Bridge/SampleCode/ISP/ISP_UART_ICP_Bridge/ICPLib.c:274-294 | `ICP_UnInit` drives the five pins to their saved levels |
| Pins.UnInitRestores | ISP_UART_ICP_Bridge/SampleCode/ISP/ISP_UART_ICP_Bridge/ICPLib.c:274-294 | `ICP_UnInit` with the snapshot `ICP_Init` took restores the original registers, whatever the session changed inside the five pins' fields |
| Pins.InitUnInit | ISP_UART_ICP_Bridge/SampleCode/ISP/ISP_UART_ICP_Bridge/ICPLib.c:229-294 | round trip: `ICP_UnInit` right after `ICP_Init` gives back the original registers |
| Flash.SetMassEraseTime | ISP_UART_ICP_Bridge/SampleCode/ISP/ISP_UART_ICP_Bridge/ICPLib.c:297-301 | sets the mass-erase delay and hold and leaves the other six times unchanged |
| Flash.SetPageEraseTime | ISP_UART_ICP_Bridge/SampleCode/ISP/ISP_UART_ICP_Bridge/ICPLib.c:303-307 | sets the page-erase delay and hold and nothing else |
| Flash.SetProgramTime | ISP_UART_ICP_Bridge/SampleCode/ISP/ISP_UART_ICP_Bridge/ICPLib.c:309-313 | sets the program delay and hold and nothing else |
| Flash.SettersCommute | ISP_UART_ICP_Bridge/SampleCode/ISP/ISP_UART_ICP_Bridge/ICPLib.c:297-313 | different setters commute, and the last call of a setter wins |
| Flash.RenderPulses | ISP_UART_ICP_Bridge/SampleCode/ISP/ISP_UART_ICP_Bridge/ICPLib.c:161-216 | a script pulses the clock 32 times per command frame and 35 times per data word |
| Flash.RenderKeeps | ISP_UART_ICP_Bridge/SampleCode/ISP/ISP_UART_ICP_Bridge/ICPLib.c:161-216 | every script of frames, writes and reads drives DATA only while it is an output and samples it only while it is an input, and leaves it an output |
| Flash.ReadsSampled | ISP_UART_ICP_Bridge/SampleCode/ISP/ISP_UART_ICP_Bridge/ICPLib.c:558-572 | a read stream samples exactly the bits of the words the target sends, word after word |
| Flash.WritesDriven | ISP_UART_ICP_Bridge/SampleCode/ISP/ISP_UART_ICP_Bridge/ICPLib.c:456-470 | a write stream drives each word's 32 bits and its continue flag, and samples nothing |
| Flash.WordFramesAt | ISP_UART_ICP_Bridge/SampleCode/ISP/ISP_UART_ICP_Bridge/ICPLib.c:458-470 | word j of a write stream is driven at levels 33j to 33j+32, its flag set only for the last word |
| Flash.ReadCid | ISP_UART_ICP_Bridge/SampleCode/ISP/ISP_UART_ICP_Bridge/ICPLib.c:316-325 | READ_CID at address 0 and one final read; the host drives the frame and the flag, samples exactly the bits of the word it returns, which decode back to it, in 67 pulses and 140 µs |
| Flash.IdReadObserved | ISP_UART_ICP_Bridge/SampleCode/ISP/ISP_UART_ICP_Bridge/ICPLib.c:316-375 | a command frame followed by one final read drives the frame word and the flag, samples the 32 bits of the answer, which read back as the answer, and takes 67 pulses and 140 µs; the target decodes the command and the low 24 address bits |
| Flash.ReadDid | ISP_UART_ICP_Bridge/SampleCode/ISP/ISP_UART_ICP_Bridge/ICPLib.c:327-336 | READ_DID at address 0 and one final read, with the same wire behaviour as the CID read |
| Flash.ReadPid | ISP_UART_ICP_Bridge/SampleCode/ISP/ISP_UART_ICP_Bridge/ICPLib.c:338-347 | READ_DID at address 4 and one final read; the target decodes address 4, and the sampled bits are the returned word |
| Flash.ReadUid | ISP_UART_ICP_Bridge/SampleCode/ISP/ISP_UART_ICP_Bridge/ICPLib.c:349-361 | the link is used exactly when index < 3, with the read frame at address 4·index and the returned word being what was sampled; otherwise the result is 0xFFFFFFFF |
| Flash.ReadUcid | ISP_UART_ICP_Bridge/SampleCode/ISP/ISP_UART_ICP_Bridge/ICPLib.c:363-375 | the link is used exactly when index < 4, at address 4·index + 0x10, returning what was sampled; otherwise 0xFFFFFFFF |
| Flash.OneShotObserved | ISP_UART_ICP_Bridge/SampleCode/ISP/ISP_UART_ICP_Bridge/ICPLib.c:410-444 | a command frame followed by one final data write drives the frame word, the data word and the flag, samples nothing, pulses 67 times and takes 135 µs plus the write's delay and hold; the target decodes the command, the low 24 address bits and the data word |
| Flash.PageErase | ISP_UART_ICP_Bridge/SampleCode/ISP/ISP_UART_ICP_Bridge/ICPLib.c:410-414 | PAGE_ERASE at the address, then 0xFFFFFFFF with the final flag; on the wire the target receives exactly these, and the erase takes 135 µs plus the page-erase delay and hold |
| Flash.SpromErase | ISP_UART_ICP_Bridge/SampleCode/ISP/ISP_UART_ICP_Bridge/ICPLib.c:416-420 | PAGE_ERASE at the address; the target receives the key 0x0055AA03 with the final flag, and the erase takes 135 µs plus the page-erase delay and hold |
| Flash.XomErase | ISP_UART_ICP_Bridge/SampleCode/ISP/ISP_UART_ICP_Bridge/ICPLib.c:422-426 | PAGE_ERASE with the key; the erase waits 135 µs plus the page delay times the page count modulo 2^32, plus the page-erase hold |
| Flash.MassErase | ISP_UART_ICP_Bridge/SampleCode/ISP/ISP_UART_ICP_Bridge/ICPLib.c:428-432 | the target receives command 0x26, address 0 and data word 0; the erase takes 135 µs plus the mass-erase delay and hold |
| Flash.BankErase | ISP_UART_ICP_Bridge/SampleCode/ISP/ISP_UART_ICP_Bridge/ICPLib.c:434-438 | the target receives BANK_ERASE, the address and 0xFFFFFFFF; the erase takes 135 µs plus the mass-erase delay and hold |
| Flash.BlockErase | ISP_UART_ICP_Bridge/SampleCode/ISP/ISP_UART_ICP_Bridge/ICPLib.c:440-444 | the target receives BLOCK_ERASE, the address and 0xFFFFFFFF; the erase takes 135 µs plus four page-erase delays and four holds, each product modulo 2^32 |
| Flash.XomEraseScales | ISP_UART_ICP_Bridge/SampleCode/ISP/ISP_UART_ICP_Bridge/ICPLib.c:416-444 | a one-page XOM erase is exactly a SPROM erase; a four-page one waits as long as a block erase |
| Flash.BlockEraseTime | ISP_UART_ICP_Bridge/SampleCode/ISP/ISP_UART_ICP_Bridge/ICPLib.c:410-444 | unless the quadrupled page-erase times wrap, a block erase takes exactly three frame-and-word clockings (3 × 135 µs) less than four page erases in a row |
| Flash.Writes | ISP_UART_ICP_Bridge/SampleCode/ISP/ISP_UART_ICP_Bridge/ICPLib.c:458-470 | word j of a program stream is written with the continue flag set exactly when j is the last index |
| Flash.Reads | ISP_UART_ICP_Bridge/SampleCode/ISP/ISP_UART_ICP_Bridge/ICPLib.c:560-572 | read j of a stream carries the continue flag exactly when j is the last index |
| Flash.StreamFlags | ISP_UART_ICP_Bridge/SampleCode/ISP/ISP_UART_ICP_Bridge/ICPLib.c:458-470 | a complete write or read stream has exactly one final-word flag, on its last transfer |
| Flash.FirstMismatch | ISP_UART_ICP_Bridge/SampleCode/ISP/ISP_UART_ICP_Bridge/ICPLib.c:501-512 | the index returned is n when the first n words agree, and otherwise the first index where they differ |
| Flash.SendWords | ISP_UART_ICP_Bridge/SampleCode/ISP/ISP_UART_ICP_Bridge/ICPLib.c:458-470 | the `size > 4` loop plus final write, and the single-word branch, both emit the program stream |
| Flash.ReceiveWords | ISP_UART_ICP_Bridge/SampleCode/ISP/ISP_UART_ICP_Bridge/ICPLib.c:560-572 | the read loop and final read, and the single-word branch, store the target's words in order and emit the read stream |
| Flash.CompareWords | ISP_UART_ICP_Bridge/SampleCode/ISP/ISP_UART_ICP_Bridge/ICPLib.c:501-525 | the read-back loop stops right after the first differing word and reports its index, or reports n when all agree |
| Flash.ProgramFlash | ISP_UART_ICP_Bridge/SampleCode/ISP/ISP_UART_ICP_Bridge/ICPLib.c:446-473 | returns 0xFFFFFFFF exactly when the alignment guard fails, without touching the link; otherwise sends PROGRAM at start and the size/4 words as one stream and returns size |
| Flash.ReadFlash | ISP_UART_ICP_Bridge/SampleCode/ISP/ISP_UART_ICP_Bridge/ICPLib.c:551-575 | returns 0xFFFFFFFF exactly when the guard fails, leaving the buffer alone; otherwise sends READ at start, fills the first size/4 entries with the target's words in order, keeps the rest, and returns size |
| Flash.ProgramVerifyFlash | ISP_UART_ICP_Bridge/SampleCode/ISP/ISP_UART_ICP_Bridge/ICPLib.c:475-529 | 0xFFFFFFFF exactly on a guard failure; otherwise programs, reads back up to and including the first mismatch, and returns that word's address start+4k, or start+size when all agree (modulo 2^32) |
| Flash.VerifyResult | ISP_UART_ICP_Bridge/SampleCode/ISP/ISP_UART_ICP_Bridge/ICPLib.c:475-529 | the verify returns start+size exactly when every word read back equals the word programmed; on a mismatch the words before it all agree |
| Flash.VerifyStreamClosed | ISP_UART_ICP_Bridge/SampleCode/ISP/ISP_UART_ICP_Bridge/ICPLib.c:501-512 | a mismatch before the last word ends the verify with no read carrying the final-word flag; otherwise the last read carries it |
| Flash.ConfigWords | ISP_UART_ICP_Bridge/SampleCode/ISP/ISP_UART_ICP_Bridge/ICPLib.c:536-539 | the block is CONFIG0, CONFIG1, 0xFFFFFFFF, then the CRC word of those three |
| Flash.ProgramEach | ISP_UART_ICP_Bridge/SampleCode/ISP/ISP_UART_ICP_Bridge/ICPLib.c:544-548 | the loop emits one PROGRAM frame and one final write per word |
| Flash.ProgramConfigWithCrc | ISP_UART_ICP_Bridge/SampleCode/ISP/ISP_UART_ICP_Bridge/ICPLib.c:531-549 | the config script is built from the block whose fourth word `GetCRCValue` computed |
| Flash.ConfigScript | ISP_UART_ICP_Bridge/SampleCode/ISP/ISP_UART_ICP_Bridge/ICPLib.c:531-549 | eight transfers: word i of the block is programmed alone, at config base + 4i, with the program timing |
| Flash.ConfigCrcLanes | ISP_UART_ICP_Bridge/SampleCode/ISP/ISP_UART_ICP_Bridge/ICPLib.c:531-549 | byte k of the CRC word is CRC-8 seeded 0xFF over byte k of CONFIG0, CONFIG1 and 0xFF |
| Flash.ConfigCrcDetects | ISP_UART_ICP_Bridge/SampleCode/ISP/ISP_UART_ICP_Bridge/ICPLib.c:531-549 | changing one byte of CONFIG0 or CONFIG1 changes the same byte of the CRC word and no other |
| Session.ClockCyclesObserved | ISP_UART_ICP_Bridge/SampleCode/ISP/ISP_UART_ICP_Bridge/ICPLib.c:387-390 | n clock cycles give n pulses and 2n µs, and touch DATA not at all |
| Session.WakeUpObserved | ISP_UART_ICP_Bridge/SampleCode/ISP/ISP_UART_ICP_Bridge/ICPLib.c:381-390 | the wake-up drives DATA high once and pulses 50 times |
| Session.EntryCodeReceived | ISP_UART_ICP_Bridge/SampleCode/ISP/ISP_UART_ICP_Bridge/ICPLib.c:392 | the 24 levels of the entry code read back as 0x55AA03 |
| Session.EntrySequence | ISP_UART_ICP_Bridge/SampleCode/ISP/ISP_UART_ICP_Bridge/ICPLib.c:377-401 | the mode entry drives high, the entry code, then the CID and DID read frames with their flags; a target reading levels 1 to 24 gets 0x55AA03; it samples the two IDs and pulses 50 + 24 + 134 times |
| Session.ModeEntry | ISP_UART_ICP_Bridge/SampleCode/ISP/ISP_UART_ICP_Bridge/ICPLib.c:377-401 | the mode entry starts by asserting RESET |
| Session.ModeExit | ISP_UART_ICP_Bridge/SampleCode/ISP/ISP_UART_ICP_Bridge/ICPLib.c:403-408 | the mode exit waits, then releases RESET |
| Session.SessionBracket | ISP_UART_ICP_Bridge/SampleCode/ISP/ISP_UART_ICP_Bridge/ICPLib.c:377-408 | the exit leaves RESET at the level `ICP_Init` set; for active levels 0 and 1 entry and exit drive opposite levels; the exit waits 110 µs and does not clock |

## Left out

- Pin I/O and the busy-wait primitive of the link operations are events in a trace, not hardware effects.
- `ICP_Init` and `ICP_UnInit` are modelled as functions on register contents (`Registers`: pin levels, mode registers and multi-function routing), not as traces. The order of their register writes is not modelled, only the state they leave. The read-back wait `while (ICP_PIN_RST != level)` in `ICP_SetReset` is not modelled: it assumes the pin reads back what was written.
- `ICP_GetVersion` only returns the constant 0x0010. The model records that constant as `LibVersion` and has no member for the call itself.
- The command codes other than MASS_ERASE (0x26) and `FMC_CONFIG_BASE` come from device headers that are not part of this model. They are parameters (`Codes`).
- The register masks, GPIO selectors and `GPIO_MODE_OUTPUT` come from the same headers and are parameters too (`Board`).
- `ICP_ModeEntry` discards the CID and DID it reads. The model takes the target's answers as parameters and reads nothing from them.
- The buffer address in the alignment guard is taken as a number (`bufAddr`). C pointer alignment is not modelled further.
- `ICP_RESET_ACTIVE_LOW` is defined in a header that is not part of this model. The model takes it as 0 (`ResetActiveLow`), following the comment `0: Low, 1: High` on `g_u32ResetActiveLevel`.
- Pins.SetReset: its ensures states the polarity only for active levels 0 and 1. `Pins.ResetPolarity` covers every other level.
- Session.ModeEntry: its ensures states only the first event. The rest is stated by `Session.EntrySequence`.
- Concurrency, interrupts and the real duration of non-delay instructions are left out. The code is single-threaded and time is only what the busy-waits add up to.
