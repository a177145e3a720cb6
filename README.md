# CHIP-8 interpreter core in Dafny

This project models the core of the `chip8sys` CHIP-8 interpreter and the
framebuffer unpacker of its web front end, and proves properties of the model.

The machine state `Chip8Sys` holds:

- 4 KiB of memory, sixteen 8-bit registers and the index register I;
- the program counter, and a 16-slot call stack with its stack pointer;
- the delay timer with its sub-cycle counter, and the sound timer with its sound flag;
- sixteen keys, an optional key-wait register, and a 256-byte packed framebuffer;
- the timer mode and four quirk switches.

It is the class `Chip8.Chip8Sys`. Its fields are arrays and scalars that the
methods update in place. `Abs()` reads the whole machine as a value of
`MachineSpec.State`.

Every operation is a method proved against a function on `State`:

- construction with the font at 0x050;
- quirk get and set, and `reset`;
- `tick_timers` and `load_rom_bytes`;
- the key mask in both directions, and the key wait;
- one cycle `run`, through fetch, dispatch and each opcode class, with the DXYN sprite blit;
- the multi-cycle `tick`.

Where the method has a loop, the loop carries the invariants that tie it to
that function:

- the font copy;
- the key mask packing and unpacking;
- the ROM copy;
- FX55/FX65;
- the rows of DXYN;
- `tick`.

Properties that relate several operations are lemmas about those functions
(modules `DrawProperties` and `Properties`):

- DXYN toggles exactly the covered pixels.
- The collision flag means exactly that a lit pixel was covered.
- Drawing twice restores the screen.
- The delay timer counts down every sixth cycle.
- The program counter is given in closed form for every instruction.
- Call then return, and FX55/FX65 round trips.
- Key-mask round trips.
- Every error, and that errors roll nothing back.
- `tick` and `tick_timers` compose.

Modules:

- `Chip8Types`: constants, the font, quirks, timer mode, the error enum (as `Chip8Error`) and the cycle result.
- `Bits`: numbers read bit by bit, with AND, OR, XOR, NOT and the shifts defined per bit.
- `Alu`: byte operators, nibble decoding, and the arithmetic, shift, BCD and sprite-split helpers.
- `MachineSpec`: the state value and one function per operation.
- `Chip8`: the class and the `chip8.rs` operations.
- `Decode`: `run` and every opcode class.
- `DrawProperties`, `Properties`: lemmas.
- `Wasm`: `unpack_framebuffer`.

Behaviour kept as the code has it, where it differs from common CHIP-8 descriptions:

- 7XNN writes the carry into VF.
- The 8XYE flag is bit 3 of the source.
- FX29 uses the nibble X, not VX.
- DXYN never clears VF.
- `check_waiting` never clears the wait register.
- `run` never looks at the timer mode.
- `reset` wipes the loaded program.
- Class 0x0 decides on the low byte only.
- 5XYN and 9XYN ignore N.

## Model

| member | source | states |
|---|---|---|
| Chip8Types.DefaultQuirks | chip8sys/src/chip8.rs:47-58 | the default quirks are increment-I on, reset-VF on, wrap off, shift-VX off |
| Chip8.LoadFont | chip8sys/src/chip8.rs:138-141 | the loop puts FONT at 0x050..0x0A0 and leaves every other byte as it was |
| Chip8.ZeroWithFont | chip8sys/src/chip8.rs:118-141 | zeroed memory with the font copied in is exactly the initial memory image |
| Chip8.FontOverZeroIsInitial | chip8sys/src/chip8.rs:138-141 | memory holding the font in 0x050..0x0A0 and zeros elsewhere is the initial image |
| Chip8.Fill | chip8sys/src/chip8.rs:118-130 | every element is set to the given value, as the `[0; N]` initialisers do |
| Chip8.Chip8Sys.ClearBuffers | chip8sys/src/chip8.rs:215-221 | memory back to the initial image, and registers, stack, framebuffer and keys cleared |
| Chip8.Chip8Sys.NewSetQuirks | chip8sys/src/chip8.rs:112-143 | a new machine is NewState(q): memory zero except the font, PC 0x200, everything else zero/false/None, timer mode Cycle |
| Chip8.Chip8Sys.NewChip8 | chip8sys/src/chip8.rs:145-171 | a new machine with the default quirks |
| Chip8.Chip8Sys.NewWithQuirks | chip8sys/src/chip8.rs:179-186 | a new machine whose quirks() are the given quirks |
| Chip8.Chip8Sys.CurrentQuirks | chip8sys/src/chip8.rs:191-198 | quirks() returns the four quirk fields |
| Chip8.Chip8Sys.SetQuirks | chip8sys/src/chip8.rs:204-210 | after set_quirks(q), quirks() is q and only the four quirk fields changed |
| Chip8.Chip8Sys.SetTimerMode | chip8sys/src/chip8.rs:234-237 | only the timer mode changes |
| Chip8.Chip8Sys.Reset | chip8sys/src/chip8.rs:215-221 | the new state is a fresh machine with the old quirks and timer mode |
| Properties.ResetProperties | chip8sys/src/chip8.rs:215-221 | reset keeps quirks and timer mode, zeroes the program area, and is idempotent |
| Chip8.Chip8Sys.TickTimers | chip8sys/src/chip8.rs:243-256 | the loop leaves delay and sound lowered by the tick count, stopped at 0, and the sound flag cleared exactly when sound ran out; nothing else changes |
| Properties.TickTimersCompose | chip8sys/src/chip8.rs:243-256 | tick_timers(a) then tick_timers(b) equals tick_timers(a + b) |
| Chip8.Chip8Sys.LoadRomBytes | chip8sys/src/chip8.rs:262-292 | memory from 0x200 holds the ROM, truncated or zero-padded to 3584 bytes; nothing else changes |
| Properties.LoadRomContents | chip8sys/src/chip8.rs:262-292 | byte 0x200+i is rom[i] or 0, memory below 0x200 and all other fields unchanged |
| Properties.LoadRomTruncatesAndReplaces | chip8sys/src/chip8.rs:262-292 | bytes beyond 3584 are ignored, and a second load replaces the first |
| Chip8.UnpackKeys | chip8sys/src/chip8.rs:298-304 | the loop sets key i to whether bit i of the mask is set |
| Chip8.Chip8Sys.SetKeysMask | chip8sys/src/chip8.rs:298-304 | only the keys change, to MaskToKeys(mask) |
| Chip8.PackKeys | chip8sys/src/chip8.rs:309-317 | the loop accumulates the mask of the pressed keys |
| Chip8.Chip8Sys.KeysMask | chip8sys/src/chip8.rs:309-317 | keys_mask() is KeysToMask of the keys and changes nothing |
| Properties.KeysToMaskBits | chip8sys/src/chip8.rs:309-317 | bit i of the packed mask is set exactly when key i is pressed |
| Properties.MaskHasKeyBit | chip8sys/src/chip8.rs:301 | `mask & (1 << i) != 0` is bit i of the mask |
| Properties.MaskRoundTrip | chip8sys/src/chip8.rs:298-317 | keys_mask() after set_keys_mask(m) returns m for every 16-bit m |
| Properties.KeysRoundTrip | chip8sys/src/chip8.rs:298-317 | set_keys_mask(keys_mask()) leaves the keys unchanged |
| Chip8.Chip8Sys.SetKeys | chip8sys/src/chip8.rs:323-326 | only the keys change |
| Chip8.Chip8Sys.CheckWaiting | chip8sys/src/chip8.rs:367-388 | the scan finds the lowest pressed key, stores it in the wait register, and reports a stall when none is pressed |
| Properties.CheckWaitingSpec | chip8sys/src/chip8.rs:367-388 | no wait: no change; wait and no key: stall, no change; a key: lowest pressed index in the register, wait kept, no stall |
| Chip8.Chip8Sys.Wait | chip8sys/src/chip8.rs:389-395 | register > 0xF gives InvalidWaitRegister and no change; otherwise the wait register is set |
| Decode.Tick | chip8sys/src/chip8.rs:339-344 | the loop runs one cycle per entry and stops at the first error, as TickState |
| Properties.TickCompose | chip8sys/src/chip8.rs:339-344 | tick over e1 then e2 is tick over e1 followed, unless it failed, by tick over e2 |
| Decode.Run | chip8sys/src/decode.rs:7-340 | one cycle: a stalled key wait returns Ok unchanged; otherwise as Step |
| Decode.Cycle | chip8sys/src/decode.rs:12-340 | timers, then fetch, then execute the fetched instruction |
| Decode.CycleTimers | chip8sys/src/decode.rs:12-26 | the state after the timer update is UpdateTimers |
| Decode.DelayTick | chip8sys/src/decode.rs:13-20 | a running delay timer drops when the cycle count is a multiple of 6, and the count advances |
| Decode.SoundTick | chip8sys/src/decode.rs:21-26 | a running sound timer drops by one, and the sound flag clears when it reaches 0 |
| Properties.TimersAfterCycles | chip8sys/src/decode.rs:12-26 | after n cycles the delay timer dropped once per multiple of 6 among the counts while it ran; sound dropped by n, stopped at 0, flag cleared when it reached 0 |
| Properties.SixthCyclesStep | chip8sys/src/decode.rs:16 | one more cycle adds a delay decrement exactly when its count is a multiple of 6 |
| Properties.UpdateTimersFrame | chip8sys/src/decode.rs:12-26 | the timer update changes only the timers, the cycle count and the sound flag, and does not depend on the timer mode |
| Decode.FetchInstruction | chip8sys/src/decode.rs:28-38 | the four nibbles of memory[pc], memory[pc+1], and pc advanced by 2 |
| Alu.NibblesReassemble | chip8sys/src/decode.rs:30-36 | nibble splitting and `nn` are inverse |
| Alu.FetchNibbles | chip8sys/src/decode.rs:30-36 | the high nibble `byte / 16` is `(0xF0 & byte) >> 4` and the low nibble `byte % 16` is `0x0F & byte`, as 8-bit operations |
| Alu.OperandAssembly | chip8sys/src/decode.rs:425-432 | NN is the bitwise OR of `c << 4` and d in 8 bits, and NNN the OR of `(b as u16) << 8` and NN in 16 bits |
| Alu.Nnn | chip8sys/src/decode.rs:425-429 | nnn(b, c, d) is below 0x1000 |
| Decode.Dispatch | chip8sys/src/decode.rs:48-340 | the state and result are Execute of the fetched nibbles |
| Properties.ExecutePc | chip8sys/src/decode.rs:48-340 | every instruction leaves pc where NextPc says: jump targets, +2 for taken skips, old+2 otherwise |
| Decode.System | chip8sys/src/decode.rs:48-64 | low byte E0 clears the screen, EE returns, anything else does nothing |
| Decode.Jump | chip8sys/src/decode.rs:65-68 | pc becomes nnn |
| Decode.Call | chip8sys/src/decode.rs:69-74 | sp pre-incremented, advanced pc pushed, pc becomes nnn |
| Properties.CallThenReturn | chip8sys/src/decode.rs:55-74 | call then return restores pc and sp and clears the used slot |
| Decode.SkipWhen | chip8sys/src/decode.rs:75-92 | pc advances by 2 exactly when the condition holds |
| Decode.WriteRegister | chip8sys/src/decode.rs:93-97 | only VX changes |
| Decode.AddImmediate | chip8sys/src/decode.rs:98-105 | VX gets the sum mod 256, then VF the carry |
| Alu.AddWithCarry | chip8sys/src/decode.rs:98-105 | the sum mod 256, and the flag 1 exactly when the sum exceeds 255 |
| Alu.SubWithBorrow | chip8sys/src/decode.rs:146-163 | the difference mod 256, and the flag 1 exactly when minuend >= subtrahend |
| Alu.ShiftRight | chip8sys/src/decode.rs:164-176 | src >> 1, and the flag is bit 0 of the source |
| Alu.ShiftLeft | chip8sys/src/decode.rs:195-207 | (2 src) mod 256, and the flag is bit 3 of the source |
| Alu.And8 | chip8sys/src/decode.rs:119-126 | each bit is the AND of the operands' bits |
| Alu.Or8 | chip8sys/src/decode.rs:111-118 | each bit is the OR of the operands' bits |
| Alu.Xor8 | chip8sys/src/decode.rs:127-134 | each bit is the XOR of the operands' bits |
| Decode.Arithmetic | chip8sys/src/decode.rs:106-208 | class 8 as ExecAlu: result to VX then flag to VF, logic clears VF under the quirk, unknown N gives Invalid0x8XYN |
| Decode.WriteWithFlag | chip8sys/src/decode.rs:135-207 | VX gets the result, then VF the flag |
| Decode.SetIndex | chip8sys/src/decode.rs:217-221 | I becomes nnn |
| Decode.JumpOffset | chip8sys/src/decode.rs:222-225 | pc becomes V0 + nnn |
| Decode.Random | chip8sys/src/decode.rs:226-233 | VX gets the low byte of the random word AND NN, or the generator's error |
| Decode.KeySkip | chip8sys/src/decode.rs:238-266 | EX9E/EXA1 skip on the key state, VX > 16 gives InvalidRegisterX, other ops Invalid0xENNN |
| Decode.Misc | chip8sys/src/decode.rs:270-335 | class F as ExecMisc for every listed op, Invalid0xFNNN otherwise |
| Alu.Bcd | chip8sys/src/decode.rs:302-313 | three decimal digits that spell the value |
| Decode.StoreDigits | chip8sys/src/decode.rs:302-313 | the digits go to I, I+1 and I+2 |
| Decode.RegDump | chip8sys/src/decode.rs:314-323 | the loop copies V0..VX to memory[I..I+X]; I advances by X+1 under the quirk |
| Decode.RegLoad | chip8sys/src/decode.rs:324-333 | the loop copies memory[I..I+X] to V0..VX; I advances by X+1 under the quirk |
| Properties.TransferRoundTrip | chip8sys/src/decode.rs:314-333 | with the increment quirk off, FX65 right after FX55 changes nothing, and FX55 right after FX65 changes nothing |
| Properties.TransferRoundTripAnyQuirk | chip8sys/src/decode.rs:314-333 | with either quirk setting, FX55/FX65 leave I at I+X+1 with the quirk and at I without; FX65 from the base of an FX55 restores all registers, and FX55 from the base of an FX65 restores memory |
| Properties.ExecuteErrors | chip8sys/src/decode.rs:106-337 | an instruction fails exactly on the listed errors, and a failure leaves the state as the fetch left it |
| Properties.NoInvalidFirstByte | chip8sys/src/decode.rs:337 | a cycle never reports InvalidFirstByte |
| Properties.StepErrorState | chip8sys/src/decode.rs:12-38 | a failing cycle has updated the timers and advanced pc, with nothing rolled back |
| Properties.StalledStep | chip8sys/src/decode.rs:9-11 | a stalled cycle returns Ok and changes nothing |
| Decode.DrawSprite | chip8sys/src/decode.rs:234-237 | DXYN as ExecDraw |
| Decode.DrawRows | chip8sys/src/decode.rs:342-416 | the row loop gives the frame and collision of SpriteDrawing of the rows drawn |
| Decode.DrawOneRow | chip8sys/src/decode.rs:359-401 | one sprite byte XORed into its byte and, unless clipped at the edge, the next; collision as the `!(new & old) & old` test |
| Decode.ScreenRow | chip8sys/src/decode.rs:403-411 | the next screen row is (y0 + row) mod 32 |
| Alu.SplitSprite | chip8sys/src/decode.rs:375-389 | the two parts are the sprite shifted right by the offset, and left by 8 - offset truncated to a byte |
| Alu.Cleared | chip8sys/src/decode.rs:377-380 | the mask of pixels lit before and dark after |
| Alu.ClearedByXor | chip8sys/src/decode.rs:375-380 | after an XOR, the cleared mask is old AND sprite |
| DrawProperties.DrawRowPixel | chip8sys/src/decode.rs:359-392 | one row toggles exactly the pixels of its screen row that the sprite byte covers |
| DrawProperties.RowCollidesIff | chip8sys/src/decode.rs:376-401 | a row collides exactly when it covers a lit pixel |
| DrawProperties.DrawRowTwice | chip8sys/src/decode.rs:375-392 | drawing one row twice restores the framebuffer |
| DrawProperties.SpriteDrawingPixel | chip8sys/src/decode.rs:357-415 | a sprite of up to 32 rows toggles exactly the pixels it covers |
| DrawProperties.SpriteDrawingCollision | chip8sys/src/decode.rs:357-415 | the collision flag is set exactly when a row covers a pixel lit in the original frame |
| DrawProperties.SpriteDrawingTwice | chip8sys/src/decode.rs:357-415 | drawing the same sprite twice restores the framebuffer |
| DrawProperties.ExecDrawEffect | chip8sys/src/decode.rs:234-237 | DXYN toggles the covered pixels, sets VF to 1 on a collision and otherwise keeps it, changes nothing else |
| DrawProperties.ExecDrawTwice | chip8sys/src/decode.rs:234-237 | the same DXYN twice, X and Y not F, restores the framebuffer |
| Wasm.UnpackFramebuffer | chip8wasm/src/lib.rs:144-161 | the nested loops give 2048 entries, entry 8i+b is bit 7-b of byte i, 0 past the input |
| Wasm.MaskTest | chip8wasm/src/lib.rs:156-157 | `byte & mask == mask` is the mask's bit of the byte |
| Wasm.UnpackedIsPixel | chip8wasm/src/lib.rs:144-161 | entry row*64+col is the framebuffer pixel (col, row) |
| Wasm.UnpackedIgnoresExtra | chip8wasm/src/lib.rs:144-161 | entries are 0 or 1, input beyond 256 bytes is ignored, pixels past a short input stay 0 |

## Left out

- chip8eframe (the desktop front end) and the wasm-bindgen wrappers and `to_js_error`: drawing, audio, input polling and JavaScript glue, with no interpreter logic.
- `load_rom` and the ROM-file tests: file I/O; `load_rom_bytes` is modelled instead.
- The random source of CXNN is a parameter (`RandomSource`), one per cycle for `tick`. The generator's error is kept as an opaque code.
- The `f32` floors in DXYN and FX33 are exact for byte operands and are modelled as integer division.
- The u128 overflow of `dt_cycle_ct` is not modelled; it is a `nat`.
- Panic paths are preconditions (`RunSafe`, `FetchSafe`, `ExecSafe`, `DrawSafe`, `MiscSafe`, `TickSafe`):
  - fetch past memory;
  - return with sp 0, or call with a full stack;
  - I overflow in FX1E;
  - FX33/FX55/FX65/DXYN reading or writing past memory;
  - VX = 16 in EX9E/EXA1 (the range check uses `>`);
  - wait register F in `check_waiting`.
- Decode.DrawSprite: VF is written once after the row loop instead of inside it; the loop never reads VF, so the end state is the same.
- The trivial getters (`timer_mode`, `framebuffer_packed`, the timers, the sound flag, the quirk flags) are not separate members; `Abs()` exposes the fields.
- The DXYN unit test for digit 0 at (15, 8) is not restated as a concrete lemma; DrawProperties.SpriteDrawingPixel gives the pixels of every such draw.
- The sprite-level DXYN lemmas assume at most 32 rows; DXYN draws at most 15.
- Debug printing is left out.
- Properties.UpdateTimersFrame: that the timer mode does not matter is proved for the timer update only. A whole-cycle lemma (`Step` commuting with setting the timer mode) is not stated; `Step` reads the timer mode nowhere, which its definition shows.
