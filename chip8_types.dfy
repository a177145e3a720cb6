/** Shared types and constants of the CHIP-8 machine: the quirk settings,
    the timer mode, the built-in font, the error kinds that a cycle can
    return, and the source of randomness used by opcode CXNN. */
module Chip8Types {

  /** The source's unsigned integer widths. */
  type u8 = x: int | 0 <= x < 0x100
  type u16 = x: int | 0 <= x < 0x1_0000
  type u32 = x: int | 0 <= x < 0x1_0000_0000
  /** One hexadecimal digit of an instruction; also a register number
      V0..VF. */
  type Nibble = x: int | 0 <= x < 0x10

  const MEMORY_SIZE: nat := 4096
  const REGISTER_COUNT: nat := 16
  const STACK_SIZE: nat := 16
  const KEY_COUNT: nat := 16
  /** Address at which programs are loaded and execution starts. */
  const PROGRAM_START: nat := 0x200
  /** Number of bytes a program may occupy: 4096 - 0x200. */
  const PROGRAM_LEN: nat := 3584

  const DISPLAY_WIDTH: nat := 64
  const DISPLAY_HEIGHT: nat := 32
  const DISPLAY_PIXELS: nat := 2048
  /** 2048 pixels at 8 pixels per byte. */
  const FRAMEBUFFER_PACKED_LEN: nat := 256

  /** The font occupies memory[FONT_RANGE_MIN..FONT_RANGE_MAX). */
  const FONT_RANGE_MIN: nat := 0x050
  const FONT_RANGE_MAX: nat := 0x0A0

  /** Sixteen 5-byte glyphs for the hexadecimal digits 0..F. */
  const FONT: seq<u8> := [
    0xF0, 0x90, 0x90, 0x90, 0xF0, // 0
    0x20, 0x60, 0x20, 0x20, 0x70, // 1
    0xF0, 0x10, 0xF0, 0x80, 0xF0, // 2
    0xF0, 0x10, 0xF0, 0x10, 0xF0, // 3
    0x90, 0x90, 0xF0, 0x10, 0x10, // 4
    0xF0, 0x80, 0xF0, 0x10, 0xF0, // 5
    0xF0, 0x80, 0xF0, 0x90, 0xF0, // 6
    0xF0, 0x10, 0x20, 0x40, 0x40, // 7
    0xF0, 0x90, 0xF0, 0x90, 0xF0, // 8
    0xF0, 0x90, 0xF0, 0x10, 0xF0, // 9
    0xF0, 0x90, 0xF0, 0x90, 0x90, // A
    0xE0, 0x90, 0xE0, 0x90, 0xE0, // B
    0xF0, 0x80, 0x80, 0x80, 0xF0, // C
    0xE0, 0x90, 0x90, 0x90, 0xE0, // D
    0xF0, 0x80, 0xF0, 0x80, 0xF0, // E
    0xF0, 0x80, 0xF0, 0x80, 0x80  // F
  ]

  /** How the delay and sound timers are driven. The interpreter's cycle
      never looks at this value; it is bookkeeping for the host. */
  datatype TimerMode = Cycle | External

  /** The four compatibility switches of the interpreter. */
  datatype Quirks = Quirks(
    incrementIOnStore: bool,  // FX55 and FX65 advance I by X+1
    resetVfOnLogic: bool,     // 8XY1, 8XY2 and 8XY3 clear VF
    wrapDraw: bool,           // sprites wrap at the screen edges instead of clipping
    shiftUsesVx: bool)        // 8XY6 and 8XYE shift VX in place and ignore VY

  /** The quirk settings of a machine built without explicit quirks. */
  function DefaultQuirks(): (q: Quirks)
    ensures q.incrementIOnStore && q.resetVfOnLogic && !q.wrapDraw && !q.shiftUsesVx
  {
    Quirks(true, true, false, false)
  }

  /** What the operating system's random source returns: a 32-bit value,
      or an error whose code the model keeps opaque. */
  datatype RandomSource = RandomOk(value: u32) | RandomErr(code: nat)

  /** The error kinds of one cycle. Nibble payloads are the decoded
      nibbles of the failing instruction. */
  datatype Chip8Error =
    | InvalidFirstByte(a: u8)
    | InvalidRegisterX(x: u8)
    | Invalid0x8XYN(n: u8)
    | Invalid0xENNN(y: u8, n: u8)
    | Invalid0xFNNN(y: u8, n: u8)
    | InvalidWaitRegister(r: u8)
    | IssueGeneratingRandomNum(code: nat)

  /** The outcome of one cycle or of several. */
  datatype Result = Ok | Err(error: Chip8Error)

  datatype Option<T> = None | Some(value: T)
}
