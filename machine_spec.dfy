/** The machine state as a value, and the pure specification of every
    state change of the interpreter: construction, reset, timers, ROM
    loading, the keypad, the key wait, one fetch/decode/execute cycle
    (with the sprite blit in closed form) and a run of several cycles.
    The imperative class in module Chip8 and the methods in module Decode
    are proved to produce exactly these states. */
module MachineSpec {
  import opened Chip8Types
  import opened Bits
  import opened Alu

  /** A snapshot of every field of the interpreter. Quirk booleans are
      grouped in `quirks`. */
  datatype State = State(
    memory: seq<u8>,
    register: seq<u8>,
    registerI: u16,
    delayTimer: u8,
    dtCycleCt: nat,
    soundTimer: u8,
    programCounter: u16,
    stackPointer: u8,
    stack: seq<u16>,
    frameBuffer: seq<u8>,
    keys: seq<bool>,
    waitForKeyPress: Option<Nibble>,
    isPlayingSound: bool,
    timerMode: TimerMode,
    quirks: Quirks)

  /** The fixed-size arrays have their sizes. */
  predicate WellFormed(s: State) {
    && |s.memory| == MEMORY_SIZE
    && |s.register| == REGISTER_COUNT
    && |s.stack| == STACK_SIZE
    && |s.frameBuffer| == FRAMEBUFFER_PACKED_LEN
    && |s.keys| == KEY_COUNT
  }

  // ---------------------------------------------------------------------
  // Lifecycle

  /** n copies of v. */
  function Filled<T>(n: nat, v: T): (r: seq<T>)
    ensures |r| == n && forall i :: 0 <= i < n ==> r[i] == v
  {
    seq(n, _ => v)
  }

  /** Memory of a fresh machine: the font at 0x050, zero elsewhere. */
  function InitialMemory(): (m: seq<u8>)
    ensures |m| == MEMORY_SIZE
    ensures forall i :: FONT_RANGE_MIN <= i < FONT_RANGE_MAX ==> m[i] == FONT[i - FONT_RANGE_MIN]
    ensures forall i :: 0 <= i < MEMORY_SIZE && !(FONT_RANGE_MIN <= i < FONT_RANGE_MAX) ==> m[i] == 0
  {
    seq(MEMORY_SIZE, i requires 0 <= i < MEMORY_SIZE =>
      if FONT_RANGE_MIN <= i < FONT_RANGE_MAX then FONT[i - FONT_RANGE_MIN] else 0)
  }

  /** A freshly constructed machine with the given quirks. */
  function NewState(q: Quirks): (s: State)
    ensures WellFormed(s)
  {
    State(InitialMemory(), Filled(REGISTER_COUNT, 0), 0, 0, 0, 0, PROGRAM_START, 0,
          Filled(STACK_SIZE, 0), Filled(FRAMEBUFFER_PACKED_LEN, 0), Filled(KEY_COUNT, false),
          None, false, Cycle, q)
  }

  /** `reset`: a fresh machine that keeps the quirks and the timer mode. */
  function ResetState(s: State): (t: State)
    ensures WellFormed(t)
  {
    NewState(s.quirks).(timerMode := s.timerMode)
  }

  /** `tick_timers(ticks)` in closed form: each timer counts down by one
      per tick and stops at zero; the sound flag drops when the sound
      timer reaches zero during these ticks. */
  function TickTimersState(s: State, ticks: nat): (t: State)
  {
    s.(delayTimer := if s.delayTimer > ticks then s.delayTimer - ticks else 0,
       soundTimer := if s.soundTimer > ticks then s.soundTimer - ticks else 0,
       isPlayingSound := if 0 < s.soundTimer <= ticks then false else s.isPlayingSound)
  }

  /** `load_rom_bytes`: the program area holds the ROM, zero-padded or
      truncated to PROGRAM_LEN bytes. */
  function LoadRomState(s: State, rom: seq<u8>): (t: State)
    requires WellFormed(s)
    ensures WellFormed(t)
  {
    s.(memory := s.memory[..PROGRAM_START]
                 + seq(PROGRAM_LEN, i requires 0 <= i < PROGRAM_LEN => if i < |rom| then rom[i] else 0))
  }

  // ---------------------------------------------------------------------
  // Keypad

  /** 2^16, evaluated once. */
  lemma Pow2Word()
    ensures Pow2(16) == 0x1_0000
  {
    Pow2Byte();
    assert Pow2(10) == 1024;
    assert Pow2(12) == 4096;
    assert Pow2(14) == 16384;
  }

  /** The mask bit of key i, `1u16 << i`. */
  function KeyBit(i: nat): (m: u16)
    requires i < KEY_COUNT
    ensures forall j: nat :: Bit(m, j) == (j == i)
  {
    Pow2Word();
    forall j: nat
      ensures Bit(1, j) == (j == 0)
    {
      if j > 0 {
        ZeroHasNoBits(j - 1);
      }
    }
    Shl(1, i, 16)
  }

  /** Whether the mask has the bit of key i set, `mask & (1 << i) != 0`. */
  predicate MaskHasKey(mask: u16, i: nat)
    requires i < KEY_COUNT
  {
    Pow2Word();
    And(mask, KeyBit(i), 16) != 0
  }

  /** `set_keys_mask`: key i is pressed iff bit i of the mask is set. */
  function MaskToKeys(mask: u16): (keys: seq<bool>)
    ensures |keys| == KEY_COUNT
    ensures forall i :: 0 <= i < KEY_COUNT ==> keys[i] == MaskHasKey(mask, i)
  {
    seq(KEY_COUNT, i requires 0 <= i < KEY_COUNT => MaskHasKey(mask, i))
  }

  /** `keys_mask` over the first n keys: bit i is set for every pressed
      key i < n, accumulated in index order. */
  function KeysToMask(keys: seq<bool>, n: nat): u16
    requires n <= |keys| && n <= KEY_COUNT
  {
    Pow2Word();
    if n == 0 then 0
    else if keys[n - 1] then Or(KeysToMask(keys, n - 1), KeyBit(n - 1), 16)
    else KeysToMask(keys, n - 1)
  }

  /** The lowest pressed key at index `from` or above, or |keys| if none. */
  function FirstPressed(keys: seq<bool>, from: nat): (k: nat)
    requires from <= |keys|
    ensures from <= k <= |keys|
    ensures k < |keys| ==> keys[k]
    ensures forall j :: from <= j < k ==> !keys[j]
    decreases |keys| - from
  {
    if from == |keys| then from
    else if keys[from] then from
    else FirstPressed(keys, from + 1)
  }

  /** `check_waiting`: whether the cycle stalls, and the state after the
      check. A pressed key is stored in the waited-on register; the wait
      itself is never cleared. */
  function CheckWaitingState(s: State): (bool, State)
    requires WellFormed(s)
    requires s.waitForKeyPress.Some? ==> s.waitForKeyPress.value < 0xF
  {
    match s.waitForKeyPress
    case None => (false, s)
    case Some(r) =>
      var k := FirstPressed(s.keys, 0);
      if k < |s.keys| then (false, s.(register := s.register[r := k]))
      else (true, s)
  }

  /** `wait`: remember the register to store the next key press in. */
  function WaitState(s: State, register: u8): (r: (State, Result))
    requires WellFormed(s)
    ensures WellFormed(r.0)
  {
    if register > 0xF then (s, Err(InvalidWaitRegister(register)))
    else (s.(waitForKeyPress := Some(register)), Ok)
  }

  // ---------------------------------------------------------------------
  // One cycle

  /** The delay-timer part of the update at the start of a cycle: a
      running delay timer drops on every sixth cycle it has run. */
  function DelayCycle(s: State): State {
    if s.delayTimer > 0 then
      s.(delayTimer := if s.dtCycleCt % 6 == 0 then s.delayTimer - 1 else s.delayTimer,
         dtCycleCt := s.dtCycleCt + 1)
    else s
  }

  /** The sound-timer part: a running sound timer drops every cycle, and
      the sound stops when it reaches zero. */
  function SoundCycle(s: State): State {
    if s.soundTimer > 0 then
      s.(soundTimer := s.soundTimer - 1,
         isPlayingSound := if s.soundTimer == 1 then false else s.isPlayingSound)
    else s
  }

  /** The timer update at the start of every cycle that is not stalled,
      delay timer first. The timer mode is not consulted. */
  function UpdateTimers(s: State): State {
    SoundCycle(DelayCycle(s))
  }

  /** The state after the timer update and the fetch's PC advance. */
  function BeginCycle(s: State): State
    requires s.programCounter + 1 < MEMORY_SIZE
  {
    var t := UpdateTimers(s);
    t.(programCounter := t.programCounter + 2)
  }

  function SetRegister(s: State, x: Nibble, v: u8): (t: State)
    requires WellFormed(s)
    ensures WellFormed(t)
  {
    s.(register := s.register[x := v])
  }

  /** A result written to VX, then its flag to VF (so VF holds the flag
      when X is F). */
  function WithFlag(s: State, x: Nibble, r: (u8, u8)): (t: State)
    requires WellFormed(s)
    ensures WellFormed(t)
  {
    s.(register := s.register[x := r.0][0xF := r.1])
  }

  function SkipIf(s: State, cond: bool): State
    requires s.programCounter <= MEMORY_SIZE
  {
    if cond then s.(programCounter := s.programCounter + 2) else s
  }

  /** Class 0x0, decided by the low byte of the instruction alone: 00E0
      clears the screen, 00EE returns, anything else does nothing. */
  function ExecSystem(s: State, low: u8): (t: State)
    requires WellFormed(s)
    requires low == 0xEE ==> 1 <= s.stackPointer < STACK_SIZE
    ensures WellFormed(t)
  {
    if low == 0xE0 then s.(frameBuffer := Filled(FRAMEBUFFER_PACKED_LEN, 0))
    else if low == 0xEE then
      s.(programCounter := s.stack[s.stackPointer],
         stack := s.stack[s.stackPointer := 0],
         stackPointer := s.stackPointer - 1)
    else s
  }

  /** 1NNN: jump to NNN. */
  function ExecJump(s: State, b: Nibble, c: Nibble, d: Nibble): (t: State)
    requires WellFormed(s)
    ensures WellFormed(t)
  {
    s.(programCounter := Nnn(b, c, d))
  }

  /** 2NNN: push the (already advanced) PC and jump to NNN. */
  function ExecCall(s: State, b: Nibble, c: Nibble, d: Nibble): (t: State)
    requires WellFormed(s) && s.stackPointer + 1 < STACK_SIZE
    ensures WellFormed(t)
  {
    var sp := s.stackPointer + 1;
    s.(stackPointer := sp, stack := s.stack[sp := s.programCounter], programCounter := Nnn(b, c, d))
  }

  /** ANNN: I := NNN. */
  function ExecSetIndex(s: State, b: Nibble, c: Nibble, d: Nibble): (t: State)
    requires WellFormed(s)
    ensures WellFormed(t)
  {
    s.(registerI := Nnn(b, c, d))
  }

  /** BNNN: jump to V0 + NNN. */
  function ExecJumpOffset(s: State, b: Nibble, c: Nibble, d: Nibble): (t: State)
    requires WellFormed(s)
    ensures WellFormed(t)
  {
    s.(programCounter := s.register[0] + Nnn(b, c, d))
  }

  function ShiftSource(s: State, x: Nibble, y: Nibble): u8
    requires WellFormed(s)
  {
    if s.quirks.shiftUsesVx then s.register[x] else s.register[y]
  }

  /** 8XY1, 8XY2, 8XY3: the value to VX, then VF cleared under the quirk. */
  function LogicResult(s: State, x: Nibble, v: u8): (t: State)
    requires WellFormed(s)
    ensures WellFormed(t)
  {
    var s1 := SetRegister(s, x, v);
    if s.quirks.resetVfOnLogic then SetRegister(s1, 0xF, 0) else s1
  }

  /** Class 0x8: register-to-register arithmetic and logic. */
  function ExecAlu(s: State, x: Nibble, y: Nibble, n: Nibble): (r: (State, Result))
    requires WellFormed(s)
    ensures WellFormed(r.0)
  {
    var vx, vy := s.register[x], s.register[y];
    if n == 0x0 then (SetRegister(s, x, vy), Ok)
    else if n == 0x1 then (LogicResult(s, x, Or8(vx, vy)), Ok)
    else if n == 0x2 then (LogicResult(s, x, And8(vx, vy)), Ok)
    else if n == 0x3 then (LogicResult(s, x, Xor8(vx, vy)), Ok)
    else if n == 0x4 then (WithFlag(s, x, AddWithCarry(vx, vy)), Ok)
    else if n == 0x5 then (WithFlag(s, x, SubWithBorrow(vx, vy)), Ok)
    else if n == 0x6 then (WithFlag(s, x, ShiftRight(ShiftSource(s, x, y))), Ok)
    else if n == 0x7 then (WithFlag(s, x, SubWithBorrow(vy, vx)), Ok)
    else if n == 0xE then (WithFlag(s, x, ShiftLeft(ShiftSource(s, x, y))), Ok)
    else (s, Err(Invalid0x8XYN(n)))
  }

  /** CXNN: the low byte of the random word AND NN, or the generator's
      error. */
  function ExecRandom(s: State, x: Nibble, nn: u8, rng: RandomSource): (r: (State, Result))
    requires WellFormed(s)
    ensures WellFormed(r.0)
  {
    match rng
    case RandomOk(v) => (SetRegister(s, x, And8(v % 256, nn)), Ok)
    case RandomErr(code) => (s, Err(IssueGeneratingRandomNum(code)))
  }

  /** Class 0xE: skip on key state. The range check lets VX = 16 through
      (it tests VX > 16), and indexing key 16 would abort, so callers
      rule that value out. */
  function ExecKey(s: State, x: Nibble, c: Nibble, d: Nibble): (r: (State, Result))
    requires WellFormed(s)
    requires s.programCounter <= MEMORY_SIZE
    requires Nn(c, d) == 0x9E || Nn(c, d) == 0xA1 ==> s.register[x] != KEY_COUNT
    ensures WellFormed(r.0)
  {
    var op := Nn(c, d);
    if op == 0x9E || op == 0xA1 then
      var vx := s.register[x];
      if vx > KEY_COUNT then (s, Err(InvalidRegisterX(x)))
      else if op == 0x9E then (SkipIf(s, s.keys[vx]), Ok)
      else (SkipIf(s, !s.keys[vx]), Ok)
    else (s, Err(Invalid0xENNN(c, d)))
  }

  /** FX33: the decimal digits of the value at I, I+1 and I+2. */
  function StoreBcd(s: State, v: u8): (t: State)
    requires WellFormed(s) && s.registerI + 2 < MEMORY_SIZE
    ensures WellFormed(t)
  {
    var digits := Bcd(v);
    s.(memory := s.memory[s.registerI := digits.0][s.registerI + 1 := digits.1][s.registerI + 2 := digits.2])
  }

  /** The I advance of FX55 and FX65 under the increment quirk. */
  function IndexAfterTransfer(s: State, x: Nibble): u16
    requires s.registerI + x < MEMORY_SIZE
  {
    if s.quirks.incrementIOnStore then s.registerI + x + 1 else s.registerI
  }

  /** FX55: V0..VX to memory[I..I+X]. */
  function StoreRegisters(s: State, x: Nibble): (t: State)
    requires WellFormed(s) && s.registerI + x < MEMORY_SIZE
    ensures WellFormed(t)
  {
    s.(memory := seq(MEMORY_SIZE, i requires 0 <= i < MEMORY_SIZE =>
         if s.registerI <= i <= s.registerI + x then s.register[i - s.registerI] else s.memory[i]),
       registerI := IndexAfterTransfer(s, x))
  }

  /** FX65: memory[I..I+X] to V0..VX. */
  function LoadRegisters(s: State, x: Nibble): (t: State)
    requires WellFormed(s) && s.registerI + x < MEMORY_SIZE
    ensures WellFormed(t)
  {
    s.(register := seq(REGISTER_COUNT, i requires 0 <= i < REGISTER_COUNT =>
         if i <= x then s.memory[s.registerI + i] else s.register[i]),
       registerI := IndexAfterTransfer(s, x))
  }

  /** Class 0xF: timers, I arithmetic, BCD, register transfer, key wait. */
  function ExecMisc(s: State, x: Nibble, c: Nibble, d: Nibble): (r: (State, Result))
    requires WellFormed(s)
    requires MiscSafe(s, x, Nn(c, d))
    ensures WellFormed(r.0)
  {
    var op := Nn(c, d);
    var vx := s.register[x];
    if op == 0x07 then (SetRegister(s, x, s.delayTimer), Ok)
    else if op == 0x0A then WaitState(s, x)
    else if op == 0x15 then (s.(delayTimer := vx, dtCycleCt := 0), Ok)
    else if op == 0x18 then (s.(soundTimer := vx, isPlayingSound := true), Ok)
    else if op == 0x1E then (s.(registerI := s.registerI + vx), Ok)
    else if op == 0x29 then (s.(registerI := FONT_RANGE_MIN + 5 * x), Ok)
    else if op == 0x33 then (StoreBcd(s, vx), Ok)
    else if op == 0x55 then (StoreRegisters(s, x), Ok)
    else if op == 0x65 then (LoadRegisters(s, x), Ok)
    else (s, Err(Invalid0xFNNN(c, d)))
  }

  /** What class 0xF needs to run without aborting: no 16-bit overflow of
      I in FX1E and no memory access past the end in FX33/FX55/FX65. */
  predicate MiscSafe(s: State, x: Nibble, op: u8)
    requires WellFormed(s)
  {
    && (op == 0x1E ==> s.registerI + s.register[x] <= 0xFFFF)
    && (op == 0x33 ==> s.registerI + 2 < MEMORY_SIZE)
    && (op == 0x55 || op == 0x65 ==> s.registerI + x < MEMORY_SIZE)
  }

  // ---------------------------------------------------------------------
  // The sprite blit DXYN

  /** Number of sprite rows drawn from origin row y0: all n when wrapping,
      otherwise only those above the bottom edge. */
  function RowsDrawn(y0: int, n: int, wrap: bool): int {
    if wrap || y0 + n <= DISPLAY_HEIGHT then n else DISPLAY_HEIGHT - y0
  }

  /** The `rows` sprite bytes read from memory at I. */
  function SpriteBytes(memory: seq<u8>, at: nat, rows: nat): (sprite: seq<u8>)
    requires rows == 0 || at + rows <= |memory|
    ensures |sprite| == rows
    ensures forall k :: 0 <= k < rows ==> sprite[k] == memory[at + k]
  {
    if rows == 0 then [] else memory[at..at + rows]
  }

  /** The framebuffer byte holding pixel (x0, y): eight bytes per row. */
  function ChunkIndex(x0: int, y: int): (i: nat)
    requires 0 <= x0 < DISPLAY_WIDTH && 0 <= y < DISPLAY_HEIGHT
    ensures i < FRAMEBUFFER_PACKED_LEN
  {
    y * 8 + x0 / 8
  }

  /** The byte that a sprite starting at (x0, y) spills into: the next
      byte of the row, or the first byte of the same row when x0 lies in
      the last one. */
  function NextChunkIndex(x0: int, y: int): (i: nat)
    requires 0 <= x0 < DISPLAY_WIDTH && 0 <= y < DISPLAY_HEIGHT
    ensures i < FRAMEBUFFER_PACKED_LEN && i != ChunkIndex(x0, y)
  {
    if x0 / 8 == 7 then ChunkIndex(x0, y) - 7 else ChunkIndex(x0, y) + 1
  }

  /** Whether the spill is drawn: always when wrapping, otherwise unless
      the sprite starts in the last column. */
  predicate SpillDrawn(x0: int, wrap: bool)
    requires 0 <= x0 < DISPLAY_WIDTH
  {
    wrap || x0 / 8 != 7
  }

  /** One sprite byte XOR-ed into screen row y at pixel column x0. */
  function DrawRow(fb: seq<u8>, spriteByte: u8, x0: int, y: int, wrap: bool): (r: seq<u8>)
    requires |fb| == FRAMEBUFFER_PACKED_LEN && 0 <= x0 < DISPLAY_WIDTH && 0 <= y < DISPLAY_HEIGHT
    ensures |r| == FRAMEBUFFER_PACKED_LEN
  {
    var idx, nxt := ChunkIndex(x0, y), NextChunkIndex(x0, y);
    var parts := SplitSprite(spriteByte, x0 % 8);
    var fb1 := fb[idx := Xor8(fb[idx], parts.0)];
    if SpillDrawn(x0, wrap) then fb1[nxt := Xor8(fb1[nxt], parts.1)] else fb1
  }

  /** Whether drawing one sprite byte in screen row y turns off a lit
      pixel of `fb`. */
  predicate RowCollides(fb: seq<u8>, spriteByte: u8, x0: int, y: int, wrap: bool)
    requires |fb| == FRAMEBUFFER_PACKED_LEN && 0 <= x0 < DISPLAY_WIDTH && 0 <= y < DISPLAY_HEIGHT
  {
    var idx, nxt := ChunkIndex(x0, y), NextChunkIndex(x0, y);
    var parts := SplitSprite(spriteByte, x0 % 8);
    || Cleared(fb[idx], Xor8(fb[idx], parts.0)) != 0
    || (SpillDrawn(x0, wrap) && Cleared(fb[nxt], Xor8(fb[nxt], parts.1)) != 0)
  }

  /** A framebuffer after drawing some sprite rows, and whether any of
      them turned off a lit pixel. */
  datatype Drawing = Drawing(frame: seq<u8>, collided: bool)

  /** The first `count` sprite rows drawn in order, row k in screen row
      (y0 + k) mod 32, each row tested for a collision against the
      framebuffer the rows before it left. */
  function SpriteDrawing(fb: seq<u8>, sprite: seq<u8>, x0: int, y0: int, wrap: bool, count: nat): (d: Drawing)
    requires |fb| == FRAMEBUFFER_PACKED_LEN && 0 <= x0 < DISPLAY_WIDTH && 0 <= y0 < DISPLAY_HEIGHT
    requires count <= |sprite|
    ensures |d.frame| == FRAMEBUFFER_PACKED_LEN
    decreases count, 0
  {
    if count == 0 then Drawing(fb, false) else DrawingAfterRow(fb, sprite, x0, y0, wrap, count - 1)
  }

  /** The drawing once sprite row k has been drawn over the rows before
      it. */
  function DrawingAfterRow(fb: seq<u8>, sprite: seq<u8>, x0: int, y0: int, wrap: bool, k: nat): (d: Drawing)
    requires |fb| == FRAMEBUFFER_PACKED_LEN && 0 <= x0 < DISPLAY_WIDTH && 0 <= y0 < DISPLAY_HEIGHT
    requires k < |sprite|
    ensures |d.frame| == FRAMEBUFFER_PACKED_LEN
    decreases k, 1
  {
    var before := SpriteDrawing(fb, sprite, x0, y0, wrap, k);
    var y := (y0 + k) % DISPLAY_HEIGHT;
    Drawing(DrawRow(before.frame, sprite[k], x0, y, wrap),
            before.collided || RowCollides(before.frame, sprite[k], x0, y, wrap))
  }

  /** Whether `d` is the drawing after the first `count` sprite rows.
      Callers state it as `DrawnRows(...) == true`, which keeps the
      recursive definition folded where only the step below is needed. */
  ghost predicate DrawnRows(fb: seq<u8>, sprite: seq<u8>, x0: int, y0: int, wrap: bool, count: nat, d: Drawing) {
    && |fb| == FRAMEBUFFER_PACKED_LEN && 0 <= x0 < DISPLAY_WIDTH && 0 <= y0 < DISPLAY_HEIGHT
    && count <= |sprite|
    && d == SpriteDrawing(fb, sprite, x0, y0, wrap, count)
  }

  /** Drawing one more sprite row over the drawing of the rows before
      it gives the drawing of one more row. */
  lemma DrawnRowsStep(fb: seq<u8>, sprite: seq<u8>, x0: int, y0: int, wrap: bool, row: nat, d: Drawing)
    requires DrawnRows(fb, sprite, x0, y0, wrap, row, d) == true && row < |sprite|
    ensures |d.frame| == FRAMEBUFFER_PACKED_LEN
    ensures var y := (y0 + row) % DISPLAY_HEIGHT;
            DrawnRows(fb, sprite, x0, y0, wrap, row + 1,
                      Drawing(DrawRow(d.frame, sprite[row], x0, y, wrap),
                              d.collided || RowCollides(d.frame, sprite[row], x0, y, wrap))) == true
  {
    assert SpriteDrawing(fb, sprite, x0, y0, wrap, row + 1) == DrawingAfterRow(fb, sprite, x0, y0, wrap, row);
  }

  /** Whether pixel (px, py) is lit: the framebuffer packs each screen
      row into eight bytes, leftmost pixel in the most significant bit. */
  predicate Pixel(fb: seq<u8>, px: int, py: int)
    requires |fb| == FRAMEBUFFER_PACKED_LEN && 0 <= px < DISPLAY_WIDTH && 0 <= py < DISPLAY_HEIGHT
  {
    Bit(fb[py * 8 + px / 8], 7 - px % 8)
  }

  /** Whether a sprite byte drawn at column x0 covers screen column px
      with a set bit: sprite column q is pixel x0 + q, wrapped round the
      screen width when wrapping and dropped past the edge otherwise. */
  predicate SpriteCovers(spriteByte: u8, x0: int, px: int, wrap: bool) {
    var q := CoverColumn(x0, px, wrap);
    0 <= q < 8 && Bit(spriteByte, 7 - q)
  }

  /** The sprite column that would land on screen column px for a sprite
      drawn at column x0. */
  function CoverColumn(x0: int, px: int, wrap: bool): int {
    if wrap then (px - x0) % DISPLAY_WIDTH else px - x0
  }

  /** What DXYN needs to run without aborting: every sprite byte it reads
      lies in memory. */
  predicate DrawSafe(s: State, x: Nibble, y: Nibble, n: Nibble)
    requires WellFormed(s)
  {
    var rows := RowsDrawn(s.register[y] % DISPLAY_HEIGHT, n, s.quirks.wrapDraw);
    rows == 0 || s.registerI + rows <= MEMORY_SIZE
  }

  /** DXYN: XOR the sprite at I into the framebuffer at (VX mod 64,
      VY mod 32); VF becomes 1 on a collision and is otherwise left as
      it was. */
  function ExecDraw(s: State, x: Nibble, y: Nibble, n: Nibble): (t: State)
    requires WellFormed(s) && DrawSafe(s, x, y, n)
    ensures WellFormed(t)
  {
    var x0, y0 := s.register[x] % DISPLAY_WIDTH, s.register[y] % DISPLAY_HEIGHT;
    var wrap := s.quirks.wrapDraw;
    var sprite := SpriteBytes(s.memory, s.registerI, RowsDrawn(y0, n, wrap));
    var d := SpriteDrawing(s.frameBuffer, sprite, x0, y0, wrap, |sprite|);
    s.(frameBuffer := d.frame, register := if d.collided then s.register[0xF := 1] else s.register)
  }

  // ---------------------------------------------------------------------
  // Dispatch

  /** What the instruction with nibbles a, b, c, d needs to run without
      aborting, in the state reached after the fetch. */
  predicate ExecSafe(s: State, a: u8, b: Nibble, c: Nibble, d: Nibble)
    requires WellFormed(s)
  {
    if a == 0x0 then Nn(c, d) == 0xEE ==> 1 <= s.stackPointer < STACK_SIZE
    else if a == 0x2 then s.stackPointer + 1 < STACK_SIZE
    else if a == 0xD then DrawSafe(s, b, c, d)
    else if a == 0xE then Nn(c, d) == 0x9E || Nn(c, d) == 0xA1 ==> s.register[b] != KEY_COUNT
    else if a == 0xF then MiscSafe(s, b, Nn(c, d))
    else true
  }

  /** Execute the instruction with nibbles a, b, c, d in the state reached
      after the fetch (PC already advanced, so at most 4096). */
  function Execute(s: State, a: u8, b: Nibble, c: Nibble, d: Nibble, rng: RandomSource): (r: (State, Result))
    requires WellFormed(s)
    requires s.programCounter <= MEMORY_SIZE && ExecSafe(s, a, b, c, d)
    ensures WellFormed(r.0)
  {
    if a == 0x0 then (ExecSystem(s, Nn(c, d)), Ok)
    else if a == 0x1 then (ExecJump(s, b, c, d), Ok)
    else if a == 0x2 then (ExecCall(s, b, c, d), Ok)
    else if a == 0x3 then (SkipIf(s, s.register[b] == Nn(c, d)), Ok)
    else if a == 0x4 then (SkipIf(s, s.register[b] != Nn(c, d)), Ok)
    else if a == 0x5 then (SkipIf(s, s.register[b] == s.register[c]), Ok)
    else if a == 0x6 then (SetRegister(s, b, Nn(c, d)), Ok)
    else if a == 0x7 then (WithFlag(s, b, AddWithCarry(s.register[b], Nn(c, d))), Ok)
    else if a == 0x8 then ExecAlu(s, b, c, d)
    else if a == 0x9 then (SkipIf(s, s.register[b] != s.register[c]), Ok)
    else if a == 0xA then (ExecSetIndex(s, b, c, d), Ok)
    else if a == 0xB then (ExecJumpOffset(s, b, c, d), Ok)
    else if a == 0xC then ExecRandom(s, b, Nn(c, d), rng)
    else if a == 0xD then (ExecDraw(s, b, c, d), Ok)
    else if a == 0xE then ExecKey(s, b, c, d)
    else if a == 0xF then ExecMisc(s, b, c, d)
    else (s, Err(InvalidFirstByte(a)))
  }

  /** The four nibbles of the instruction at the program counter. */
  function Fetch(s: State): (n: (u8, Nibble, Nibble, Nibble))
    requires WellFormed(s) && s.programCounter + 1 < MEMORY_SIZE
  {
    var hi, lo := s.memory[s.programCounter], s.memory[s.programCounter + 1];
    (HighNibble(hi), LowNibble(hi), HighNibble(lo), LowNibble(lo))
  }

  /** Whether a cycle that does not stall can fetch and execute without
      aborting. */
  predicate FetchSafe(s: State)
    requires WellFormed(s)
  {
    && s.programCounter + 1 < MEMORY_SIZE
    && var n := Fetch(s);
       ExecSafe(BeginCycle(s), n.0, n.1, n.2, n.3)
  }

  /** Whether one cycle runs without aborting. */
  predicate RunSafe(s: State)
    requires WellFormed(s)
  {
    && (s.waitForKeyPress.Some? ==> s.waitForKeyPress.value != 0xF)
    && var w := CheckWaitingState(s);
       w.0 || FetchSafe(w.1)
  }

  /** `run`: one cycle. A stalled key wait returns at once; otherwise the
      timers are updated, the instruction fetched, PC advanced and the
      instruction executed. */
  function Step(s: State, rng: RandomSource): (r: (State, Result))
    requires WellFormed(s) && RunSafe(s)
    ensures WellFormed(r.0)
  {
    var w := CheckWaitingState(s);
    if w.0 then (w.1, Ok)
    else
      var n := Fetch(w.1);
      Execute(BeginCycle(w.1), n.0, n.1, n.2, n.3, rng)
  }

  /** Whether running one cycle per entry of `entropy`, stopping at the
      first error, runs without aborting. */
  predicate TickSafe(s: State, entropy: seq<RandomSource>)
    requires WellFormed(s)
    decreases |entropy|
  {
    |entropy| == 0
    || (RunSafe(s)
        && var r := Step(s, entropy[0]);
           r.1.Err? || TickSafe(r.0, entropy[1..]))
  }

  /** `tick`: one cycle per entry of `entropy` (the random word each cycle
      would draw), stopping at and returning the first error. */
  function TickState(s: State, entropy: seq<RandomSource>): (r: (State, Result))
    requires WellFormed(s) && TickSafe(s, entropy)
    decreases |entropy|
    ensures WellFormed(r.0)
  {
    if |entropy| == 0 then (s, Ok)
    else
      var r := Step(s, entropy[0]);
      if r.1.Err? then r else TickState(r.0, entropy[1..])
  }
}
