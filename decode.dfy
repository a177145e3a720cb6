/** One interpreter cycle on the machine object: the key-wait check, the
    timer update, the fetch and the execution of the instruction, each
    opcode class by a method that rewrites the machine's fields and
    buffers in place. Every method is proved to leave the machine in the
    state the corresponding MachineSpec function describes. */
module Decode {
  import opened Chip8Types
  import opened Bits
  import opened Alu
  import opened MachineSpec
  import opened Chip8

  /** The timer update at the start of a cycle that is not stalled. */
  method CycleTimers(sys: Chip8Sys)
    requires sys.Valid()
    modifies sys
    ensures sys.Abs() == UpdateTimers(old(sys.Abs()))
  {
    DelayTick(sys);
    SoundTick(sys);
  }

  /** The delay timer, when running, drops on every sixth cycle. */
  method DelayTick(sys: Chip8Sys)
    requires sys.Valid()
    modifies sys
    ensures sys.Abs() == DelayCycle(old(sys.Abs()))
  {
    if sys.delayTimer > 0 {
      if sys.dtCycleCt % 6 == 0 {
        sys.delayTimer := sys.delayTimer - 1;
      }
      sys.dtCycleCt := sys.dtCycleCt + 1;
    }
  }

  /** The sound timer, when running, drops every cycle; the sound stops
      when it reaches zero. */
  method SoundTick(sys: Chip8Sys)
    requires sys.Valid()
    modifies sys
    ensures sys.Abs() == SoundCycle(old(sys.Abs()))
  {
    if sys.soundTimer > 0 {
      sys.soundTimer := sys.soundTimer - 1;
      if sys.soundTimer == 0 {
        sys.isPlayingSound := false;
      }
    }
  }

  /** `run`: one cycle. */
  method Run(sys: Chip8Sys, rng: RandomSource) returns (r: Result)
    requires sys.Valid() && RunSafe(sys.Abs())
    modifies sys, sys.memory, sys.register, sys.stack, sys.frameBuffer
    ensures (sys.Abs(), r) == Step(old(sys.Abs()), rng)
  {
    var stalled := sys.CheckWaiting();
    if stalled {
      return Ok;
    }
    r := Cycle(sys, rng);
  }

  /** A cycle past the key-wait check: the timer update, the fetch and
      the execution. */
  method Cycle(sys: Chip8Sys, rng: RandomSource) returns (r: Result)
    requires sys.Valid() && FetchSafe(sys.Abs())
    modifies sys, sys.memory, sys.register, sys.stack, sys.frameBuffer
    ensures var n := Fetch(old(sys.Abs()));
            (sys.Abs(), r) == Execute(BeginCycle(old(sys.Abs())), n.0, n.1, n.2, n.3, rng)
  {
    ghost var s0 := sys.Abs();
    ghost var n := Fetch(s0);
    CycleTimers(sys);
    var a, b, c, d, low := FetchInstruction(sys);
    assert sys.Abs() == BeginCycle(s0) && (a, b, c, d) == n;
    r := Dispatch(sys, a, b, c, d, low, rng);
  }

  /** The fetch: the two instruction bytes at PC split into nibbles (the
      second byte also kept whole), then PC advanced past them. */
  method FetchInstruction(sys: Chip8Sys) returns (a: u8, b: Nibble, c: Nibble, d: Nibble, low: u8)
    requires sys.Valid() && sys.programCounter + 1 < MEMORY_SIZE
    modifies sys
    ensures (a, b, c, d) == Fetch(old(sys.Abs())) && low == Nn(c, d)
    ensures sys.Abs() == old(sys.Abs()).(programCounter := old(sys.programCounter) + 2)
  {
    var instruction := sys.memory[sys.programCounter];
    a, b := HighNibble(instruction), LowNibble(instruction);
    instruction := sys.memory[sys.programCounter + 1];
    c, d := HighNibble(instruction), LowNibble(instruction);
    low := instruction;
    NibblesReassemble(instruction, c, d);
    sys.programCounter := sys.programCounter + 2;
  }

  /** The match on the first nibble. `low` is the instruction's second
      byte, on which class 0x0 decides. */
  method Dispatch(sys: Chip8Sys, a: u8, b: Nibble, c: Nibble, d: Nibble, low: u8, rng: RandomSource)
    returns (r: Result)
    requires sys.Valid() && low == Nn(c, d)
    requires sys.programCounter <= MEMORY_SIZE && ExecSafe(sys.Abs(), a, b, c, d)
    modifies sys, sys.memory, sys.register, sys.stack, sys.frameBuffer
    ensures (sys.Abs(), r) == Execute(old(sys.Abs()), a, b, c, d, rng)
  {
    r := Ok;
    if a == 0x0 {
      System(sys, low);
    } else if a == 0x1 {
      Jump(sys, b, c, d);
    } else if a == 0x2 {
      Call(sys, b, c, d);
    } else if a == 0x3 {
      SkipWhen(sys, sys.register[b] == Nn(c, d));
    } else if a == 0x4 {
      SkipWhen(sys, sys.register[b] != Nn(c, d));
    } else if a == 0x5 {
      SkipWhen(sys, sys.register[b] == sys.register[c]);
    } else if a == 0x6 {
      WriteRegister(sys, b, Nn(c, d));
    } else if a == 0x7 {
      AddImmediate(sys, b, Nn(c, d));
    } else if a == 0x8 {
      r := Arithmetic(sys, b, c, d);
    } else if a == 0x9 {
      SkipWhen(sys, sys.register[b] != sys.register[c]);
    } else if a == 0xA {
      SetIndex(sys, b, c, d);
    } else if a == 0xB {
      JumpOffset(sys, b, c, d);
    } else if a == 0xC {
      r := Random(sys, b, Nn(c, d), rng);
    } else if a == 0xD {
      DrawSprite(sys, b, c, d);
    } else if a == 0xE {
      r := KeySkip(sys, b, c, d);
    } else if a == 0xF {
      r := Misc(sys, b, c, d);
    } else {
      r := Err(InvalidFirstByte(a));
    }
  }

  /** Class 0x0 on the instruction's low byte: 00E0 clears the screen,
      00EE returns from a subroutine, anything else is ignored. */
  method System(sys: Chip8Sys, low: u8)
    requires sys.Valid()
    requires low == 0xEE ==> 1 <= sys.stackPointer < STACK_SIZE
    modifies sys, sys.stack, sys.frameBuffer
    ensures sys.Abs() == ExecSystem(old(sys.Abs()), low)
  {
    if low == 0xE0 {
      Fill(sys.frameBuffer, 0);
    } else if low == 0xEE {
      sys.programCounter := sys.stack[sys.stackPointer];
      sys.stack[sys.stackPointer] := 0;
      sys.stackPointer := sys.stackPointer - 1;
    }
  }

  /** 1NNN: jump to NNN. */
  method Jump(sys: Chip8Sys, b: Nibble, c: Nibble, d: Nibble)
    requires sys.Valid()
    modifies sys
    ensures sys.Abs() == ExecJump(old(sys.Abs()), b, c, d)
  {
    sys.programCounter := Nnn(b, c, d);
  }

  /** ANNN: I := NNN. */
  method SetIndex(sys: Chip8Sys, b: Nibble, c: Nibble, d: Nibble)
    requires sys.Valid()
    modifies sys
    ensures sys.Abs() == ExecSetIndex(old(sys.Abs()), b, c, d)
  {
    sys.registerI := Nnn(b, c, d);
  }

  /** BNNN: jump to V0 + NNN. */
  method JumpOffset(sys: Chip8Sys, b: Nibble, c: Nibble, d: Nibble)
    requires sys.Valid()
    modifies sys
    ensures sys.Abs() == ExecJumpOffset(old(sys.Abs()), b, c, d)
  {
    sys.programCounter := sys.register[0] + Nnn(b, c, d);
  }

  /** 2NNN: push the PC and jump. */
  method Call(sys: Chip8Sys, b: Nibble, c: Nibble, d: Nibble)
    requires sys.Valid() && sys.stackPointer + 1 < STACK_SIZE
    modifies sys, sys.stack
    ensures sys.Abs() == ExecCall(old(sys.Abs()), b, c, d)
  {
    sys.stackPointer := sys.stackPointer + 1;
    sys.stack[sys.stackPointer] := sys.programCounter;
    sys.programCounter := Nnn(b, c, d);
  }

  /** 3XNN, 4XNN, 5XY0, 9XY0: skip the next instruction when `cond`. */
  method SkipWhen(sys: Chip8Sys, cond: bool)
    requires sys.Valid() && sys.programCounter <= MEMORY_SIZE
    modifies sys
    ensures sys.Abs() == SkipIf(old(sys.Abs()), cond)
  {
    if cond {
      sys.programCounter := sys.programCounter + 2;
    }
  }

  /** 7XNN: the 16-bit sum's low byte to VX and its carry bit to VF. */
  method AddImmediate(sys: Chip8Sys, x: Nibble, nn: u8)
    requires sys.Valid()
    modifies sys.register
    ensures sys.Abs() == WithFlag(old(sys.Abs()), x, AddWithCarry(old(sys.register[x]), nn))
  {
    WriteWithFlag(sys, x, AddWithCarry(sys.register[x], nn));
  }

  /** A result to VX, then its flag to VF. */
  method WriteWithFlag(sys: Chip8Sys, x: Nibble, r: (u8, u8))
    requires sys.Valid()
    modifies sys.register
    ensures sys.Abs() == WithFlag(old(sys.Abs()), x, r)
  {
    sys.register[x] := r.0;
    sys.register[0xF] := r.1;
    sys.RegistersWritten();
    WithFlagWrites(old(sys.Abs()), x, r);
  }

  /** WithFlag is the two register writes, VX first. */
  lemma WithFlagWrites(s: State, x: Nibble, r: (u8, u8))
    requires WellFormed(s)
    ensures WithFlag(s, x, r) == s.(register := s.register[x := r.0][0xF := r.1])
  {
  }

  /** A value to VX. */
  method WriteRegister(sys: Chip8Sys, x: Nibble, v: u8)
    requires sys.Valid()
    modifies sys.register
    ensures sys.Abs() == SetRegister(old(sys.Abs()), x, v)
  {
    sys.register[x] := v;
    sys.RegistersWritten();
  }

  /** Class 0x8, matched on the last nibble. The logic operations clear
      VF afterwards under the quirk; the shifts read VX or VY under the
      quirk. */
  method Arithmetic(sys: Chip8Sys, x: Nibble, y: Nibble, n: Nibble) returns (r: Result)
    requires sys.Valid()
    modifies sys.register
    ensures (sys.Abs(), r) == ExecAlu(old(sys.Abs()), x, y, n)
  {
    r := Ok;
    var vx, vy := sys.register[x], sys.register[y];
    if n == 0x0 {
      WriteRegister(sys, x, vy);
    } else if n == 0x1 || n == 0x2 || n == 0x3 {
      WriteRegister(sys, x, if n == 0x1 then Or8(vx, vy) else if n == 0x2 then And8(vx, vy) else Xor8(vx, vy));
      if sys.isRegisterFReset {
        WriteRegister(sys, 0xF, 0);
      }
    } else if n == 0x4 {
      WriteWithFlag(sys, x, AddWithCarry(vx, vy));
    } else if n == 0x5 {
      WriteWithFlag(sys, x, SubWithBorrow(vx, vy));
    } else if n == 0x7 {
      WriteWithFlag(sys, x, SubWithBorrow(vy, vx));
    } else if n == 0x6 || n == 0xE {
      var src := if sys.isModVxInPlace then vx else vy;
      WriteWithFlag(sys, x, if n == 0x6 then ShiftRight(src) else ShiftLeft(src));
    } else {
      r := Err(Invalid0x8XYN(n));
    }
  }

  /** CXNN: a random byte AND NN to VX, or the generator's error. */
  method Random(sys: Chip8Sys, x: Nibble, nn: u8, rng: RandomSource) returns (r: Result)
    requires sys.Valid()
    modifies sys.register
    ensures (sys.Abs(), r) == ExecRandom(old(sys.Abs()), x, nn, rng)
  {
    match rng
    case RandomErr(code) =>
      return Err(IssueGeneratingRandomNum(code));
    case RandomOk(v) =>
      sys.register[x] := And8(v % 256, nn);
      sys.RegistersWritten();
      RandomWrites(old(sys.Abs()), x, nn, v);
      return Ok;
  }

  /** A random word writes its low byte AND NN to VX. */
  lemma RandomWrites(s: State, x: Nibble, nn: u8, v: u32)
    requires WellFormed(s)
    ensures ExecRandom(s, x, nn, RandomOk(v)) == (s.(register := s.register[x := And8(v % 256, nn)]), Ok)
  {
  }

  /** Class 0xE: EX9E skips when key VX is pressed, EXA1 when it is not. */
  method KeySkip(sys: Chip8Sys, x: Nibble, c: Nibble, d: Nibble) returns (r: Result)
    requires sys.Valid() && sys.programCounter <= MEMORY_SIZE
    requires Nn(c, d) == 0x9E || Nn(c, d) == 0xA1 ==> sys.register[x] != KEY_COUNT
    modifies sys
    ensures (sys.Abs(), r) == ExecKey(old(sys.Abs()), x, c, d)
  {
    var op := Nn(c, d);
    if op == 0x9E || op == 0xA1 {
      if sys.register[x] > KEY_COUNT {
        return Err(InvalidRegisterX(x));
      }
      var pressed := sys.keys[sys.register[x]];
      SkipWhen(sys, if op == 0x9E then pressed else !pressed);
      return Ok;
    }
    return Err(Invalid0xENNN(c, d));
  }

  /** Class 0xF, matched on the last two nibbles. */
  method Misc(sys: Chip8Sys, x: Nibble, c: Nibble, d: Nibble) returns (r: Result)
    requires sys.Valid() && MiscSafe(sys.Abs(), x, Nn(c, d))
    modifies sys, sys.memory, sys.register
    ensures (sys.Abs(), r) == ExecMisc(old(sys.Abs()), x, c, d)
  {
    r := Ok;
    var op := Nn(c, d);
    if op == 0x07 {
      sys.register[x] := sys.delayTimer;
    } else if op == 0x0A {
      r := sys.Wait(x);
    } else if op == 0x15 {
      sys.delayTimer := sys.register[x];
      sys.dtCycleCt := 0;
    } else if op == 0x18 {
      sys.soundTimer := sys.register[x];
      sys.isPlayingSound := true;
    } else if op == 0x1E {
      sys.registerI := sys.registerI + sys.register[x];
    } else if op == 0x29 {
      sys.registerI := FONT_RANGE_MIN + x * 5;
    } else if op == 0x33 {
      StoreDigits(sys, sys.register[x]);
    } else if op == 0x55 {
      RegDump(sys, x);
    } else if op == 0x65 {
      RegLoad(sys, x);
    } else {
      r := Err(Invalid0xFNNN(c, d));
    }
  }

  /** FX33: the floored quotients by 100, 10 and 1, and the digits taken
      from their differences, at I, I+1 and I+2. */
  method StoreDigits(sys: Chip8Sys, value: u8)
    requires sys.Valid() && sys.registerI + 2 < MEMORY_SIZE
    modifies sys.memory
    ensures sys.Abs() == StoreBcd(old(sys.Abs()), value)
  {
    var places := (value / 100, value / 10, value / 1);
    sys.memory[sys.registerI] := places.0;
    sys.memory[sys.registerI + 1] := places.1 - places.0 * 10;
    sys.memory[sys.registerI + 2] := places.2 - places.1 * 10;
  }

  /** FX55: V0..VX to memory from I, then I advanced under the quirk. */
  method RegDump(sys: Chip8Sys, x: Nibble)
    requires sys.Valid() && sys.registerI + x < MEMORY_SIZE
    modifies sys, sys.memory
    ensures sys.Abs() == StoreRegisters(old(sys.Abs()), x)
  {
    ghost var s0 := sys.Abs();
    for count := 0 to x + 1
      modifies sys.memory
      invariant forall i :: 0 <= i < MEMORY_SIZE ==>
                  sys.memory[i] == if s0.registerI <= i < s0.registerI + count then s0.register[i - s0.registerI]
                                   else s0.memory[i]
    {
      sys.memory[sys.registerI + count] := sys.register[count];
    }
    if sys.isIncIndex {
      sys.registerI := sys.registerI + x + 1;
    }
    sys.MemoryWritten();
    assert sys.memory[..] == StoreRegisters(s0, x).memory;
  }

  /** FX65: memory from I to V0..VX, then I advanced under the quirk. */
  method RegLoad(sys: Chip8Sys, x: Nibble)
    requires sys.Valid() && sys.registerI + x < MEMORY_SIZE
    modifies sys, sys.register
    ensures sys.Abs() == LoadRegisters(old(sys.Abs()), x)
  {
    ghost var s0 := sys.Abs();
    for count := 0 to x + 1
      modifies sys.register
      invariant forall i :: 0 <= i < REGISTER_COUNT ==>
                  sys.register[i] == if i < count then s0.memory[s0.registerI + i] else s0.register[i]
    {
      sys.register[count] := sys.memory[sys.registerI + count];
    }
    if sys.isIncIndex {
      sys.registerI := sys.registerI + x + 1;
    }
    assert sys.register[..] == LoadRegisters(s0, x).register;
    assert sys.Abs() == s0.(register := sys.register[..], registerI := sys.registerI);
  }

  /** DXYN: the sprite rows at I XOR-ed into the framebuffer from
      (VX mod 64, VY mod 32) downwards. Under clipping the loop stops
      after the bottom row of the screen; under wrapping it continues at
      the top. VF is set when a row turns a lit pixel off. */
  method DrawSprite(sys: Chip8Sys, x: Nibble, y: Nibble, n: Nibble)
    requires sys.Valid() && DrawSafe(sys.Abs(), x, y, n)
    modifies sys.frameBuffer, sys.register
    ensures sys.Abs() == ExecDraw(old(sys.Abs()), x, y, n)
  {
    var xLoc := sys.register[x] % DISPLAY_WIDTH;
    var yLoc := sys.register[y] % DISPLAY_HEIGHT;
    var collision := DrawRows(sys.memory[..], sys.frameBuffer, sys.registerI, sys.isWrapDraw, xLoc, yLoc, n);
    if collision {
      sys.register[0xF] := 1;
    }
    sys.ScreenWritten();
  }

  /** The loop of DXYN from screen position (xLoc, y0): row k of the
      sprite at I drawn in screen row y0 + k, wrapping to the top or
      stopping at the bottom. Reports whether any row collided. */
  method DrawRows(memory: seq<u8>, frameBuffer: array<u8>, registerI: u16, wrap: bool,
                  xLoc: int, y0: int, n: Nibble) returns (collision: bool)
    requires |memory| == MEMORY_SIZE && frameBuffer.Length == FRAMEBUFFER_PACKED_LEN
    requires 0 <= xLoc < DISPLAY_WIDTH && 0 <= y0 < DISPLAY_HEIGHT
    requires var rows := RowsDrawn(y0, n, wrap); rows == 0 || registerI + rows <= MEMORY_SIZE
    modifies frameBuffer
    ensures var rows := RowsDrawn(y0, n, wrap);
            var sprite := SpriteBytes(memory, registerI, rows);
            Drawing(frameBuffer[..], collision) == SpriteDrawing(old(frameBuffer[..]), sprite, xLoc, y0, wrap, rows)
  {
    ghost var fb0 := frameBuffer[..];
    ghost var rows := RowsDrawn(y0, n, wrap);
    ghost var sprite := SpriteBytes(memory, registerI, rows);
    var yLoc := y0;
    var spriteLocation := registerI as int;
    var row := 0;
    var stop := false;
    collision := false;
    while row < n && !stop
      invariant row <= rows <= n && (stop ==> row == rows)
      invariant !stop ==> (row < n ==> row < rows) && yLoc == ScreenRow(y0, row) && (!wrap ==> yLoc == y0 + row)
      invariant spriteLocation == registerI + row
      invariant DrawnRows(fb0, sprite, xLoc, y0, wrap, row, Drawing(frameBuffer[..], collision)) == true
    {
      collision, yLoc, stop := DrawRowStep(memory, frameBuffer, wrap, spriteLocation, xLoc, yLoc,
                                           fb0, sprite, y0, row, collision);
      spriteLocation := spriteLocation + 1;
      row := row + 1;
    }
  }

  /** One pass of the DXYN loop: sprite row `row` drawn at screen row
      yLoc, then the next screen row, wrapping to the top, or a stop at
      the bottom edge under clipping. */
  method DrawRowStep(memory: seq<u8>, frameBuffer: array<u8>, wrap: bool, spriteLocation: int, xLoc: int,
                     yLoc: int, ghost fb0: seq<u8>, ghost sprite: seq<u8>, ghost y0: int, ghost row: nat,
                     hit: bool)
    returns (hitAfter: bool, nextY: int, stop: bool)
    requires |memory| == MEMORY_SIZE && frameBuffer.Length == FRAMEBUFFER_PACKED_LEN
    requires 0 <= xLoc < DISPLAY_WIDTH && 0 <= y0 < DISPLAY_HEIGHT && |fb0| == FRAMEBUFFER_PACKED_LEN
    requires row < |sprite| && row < DISPLAY_HEIGHT - 1 && yLoc == ScreenRow(y0, row)
    requires !wrap ==> yLoc == y0 + row
    requires 0 <= spriteLocation < MEMORY_SIZE && memory[spriteLocation] == sprite[row]
    requires DrawnRows(fb0, sprite, xLoc, y0, wrap, row, Drawing(frameBuffer[..], hit)) == true
    modifies frameBuffer
    ensures DrawnRows(fb0, sprite, xLoc, y0, wrap, row + 1, Drawing(frameBuffer[..], hitAfter)) == true
    ensures stop == (!wrap && y0 + row + 1 == DISPLAY_HEIGHT)
    ensures !stop ==> nextY == ScreenRow(y0, row + 1) && (!wrap ==> nextY == y0 + row + 1)
  {
    ghost var before := Drawing(frameBuffer[..], hit);
    var spritePxs := memory[spriteLocation];
    var collided := DrawOneRow(frameBuffer, wrap, spritePxs, xLoc, yLoc);
    hitAfter := hit || collided;
    DrawnRowsStep(fb0, sprite, xLoc, y0, wrap, row, before);
    nextY := yLoc + 1;
    stop := false;
    if nextY == DISPLAY_HEIGHT {
      if !wrap {
        stop := true;
      } else {
        nextY := 0;
      }
    }
  }

  /** Screen row y0 + row, wrapped to the top once past the bottom (the
      sprite has fewer rows than the screen). */
  function ScreenRow(y0: int, row: nat): (y: int)
    requires 0 <= y0 < DISPLAY_HEIGHT && row < DISPLAY_HEIGHT
    ensures y == (y0 + row) % DISPLAY_HEIGHT
  {
    if y0 + row < DISPLAY_HEIGHT then y0 + row else y0 + row - DISPLAY_HEIGHT
  }

  /** One iteration of the DXYN loop: the sprite byte split over the
      byte column of xLoc and the next one (wrapping to column 0 of the
      row at the right edge), the spill skipped at the edge under
      clipping. Reports whether either byte lost a lit pixel. */
  method DrawOneRow(frameBuffer: array<u8>, wrap: bool, spritePxs: u8, xLoc: int, yLoc: int) returns (collided: bool)
    requires frameBuffer.Length == FRAMEBUFFER_PACKED_LEN
    requires 0 <= xLoc < DISPLAY_WIDTH && 0 <= yLoc < DISPLAY_HEIGHT
    modifies frameBuffer
    ensures frameBuffer[..] == DrawRow(old(frameBuffer[..]), spritePxs, xLoc, yLoc, wrap)
    ensures collided == RowCollides(old(frameBuffer[..]), spritePxs, xLoc, yLoc, wrap)
  {
    var fbChunkIndex := ChunkIndex(xLoc, yLoc);
    var isEdgeX := xLoc / 8 == 7;
    var fbChunkIndexNext := NextChunkIndex(xLoc, yLoc);
    var offset := xLoc % 8;
    var original := frameBuffer[fbChunkIndex];
    var nextOriginal := frameBuffer[fbChunkIndexNext];
    var parts := SplitSprite(spritePxs, offset);
    frameBuffer[fbChunkIndex] := Xor8(frameBuffer[fbChunkIndex], parts.0);
    var flagForIndex := Cleared(original, frameBuffer[fbChunkIndex]);
    var flagForNext := 0;
    if wrap || (!wrap && !isEdgeX) {
      frameBuffer[fbChunkIndexNext] := Xor8(frameBuffer[fbChunkIndexNext], parts.1);
      flagForNext := Cleared(nextOriginal, frameBuffer[fbChunkIndexNext]);
    }
    collided := flagForIndex != 0 || flagForNext != 0;
  }

  /** `tick`: up to `|entropy|` cycles, stopping at the first error; one
      random word per cycle. */
  method Tick(sys: Chip8Sys, entropy: seq<RandomSource>) returns (r: Result)
    requires sys.Valid() && TickSafe(sys.Abs(), entropy)
    modifies sys, sys.memory, sys.register, sys.stack, sys.frameBuffer
    ensures (sys.Abs(), r) == TickState(old(sys.Abs()), entropy)
  {
    ghost var s0 := sys.Abs();
    for cycle := 0 to |entropy|
      invariant TickSafe(sys.Abs(), entropy[cycle..])
      invariant TickState(s0, entropy) == TickState(sys.Abs(), entropy[cycle..])
    {
      assert entropy[cycle..][0] == entropy[cycle] && entropy[cycle..][1..] == entropy[cycle + 1..];
      var res := Run(sys, entropy[cycle]);
      if res.Err? {
        return res;
      }
    }
    return Ok;
  }
}
