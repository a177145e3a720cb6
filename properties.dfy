/** Properties of the interpreter that relate several operations or many
    cycles: timer cadence, the program counter after each instruction,
    call and return, register transfer round trips, the keypad mask,
    errors, and the composition of `tick` and `tick_timers`. */
module Properties {
  import opened Chip8Types
  import opened Bits
  import opened Alu
  import opened MachineSpec

  // ---------------------------------------------------------------------
  // Timers

  /** The timer updates of n cycles that do not stall. */
  function Cycles(s: State, n: nat): State {
    if n == 0 then s else UpdateTimers(Cycles(s, n - 1))
  }

  /** How many of the cycle counts c, c + 1, ..., c + n - 1 are multiples
      of six: the delay-timer decrements of n running cycles that start
      with cycle count c. */
  function SixthCycles(c: nat, n: nat): nat {
    (c + n + 5) / 6 - (c + 5) / 6
  }

  /** One more cycle adds a decrement exactly when its count is a
      multiple of six. */
  lemma SixthCyclesStep(c: nat, n: nat)
    ensures SixthCycles(c, n + 1) == SixthCycles(c, n) + (if (c + n) % 6 == 0 then 1 else 0)
  {
    var m := c + n;
    assert (m + 6) / 6 == (m + 5) / 6 + (if m % 6 == 0 then 1 else 0);
  }

  /** After n cycles the delay timer has dropped once for every cycle
      count that was a multiple of six while it ran, and stopped at
      zero; the cycle count advanced once per cycle while it ran. The
      sound timer dropped once per cycle, stopped at zero, and the sound
      flag dropped when it reached zero. */
  lemma {:induction false} TimersAfterCycles(s: State, n: nat)
    ensures var t := Cycles(s, n);
            && t.delayTimer == (if s.delayTimer > SixthCycles(s.dtCycleCt, n) then s.delayTimer - SixthCycles(s.dtCycleCt, n) else 0)
            && (t.delayTimer > 0 ==> t.dtCycleCt == s.dtCycleCt + n)
            && t.soundTimer == (if s.soundTimer > n then s.soundTimer - n else 0)
            && t.isPlayingSound == (if 0 < s.soundTimer <= n then false else s.isPlayingSound)
  {
    if n > 0 {
      TimersAfterCycles(s, n - 1);
      SixthCyclesStep(s.dtCycleCt, n - 1);
    }
  }

  /** The timer update consults neither the timer mode nor anything but
      the two timers, the cycle count and the sound flag. */
  lemma UpdateTimersFrame(s: State)
    ensures var t := UpdateTimers(s);
            t == s.(delayTimer := t.delayTimer, dtCycleCt := t.dtCycleCt,
                    soundTimer := t.soundTimer, isPlayingSound := t.isPlayingSound)
    ensures forall m: TimerMode :: UpdateTimers(s.(timerMode := m)) == UpdateTimers(s).(timerMode := m)
  {
  }

  /** `tick_timers(a)` then `tick_timers(b)` is `tick_timers(a + b)`. */
  lemma TickTimersCompose(s: State, a: nat, b: nat)
    ensures TickTimersState(TickTimersState(s, a), b) == TickTimersState(s, a + b)
  {
  }

  // ---------------------------------------------------------------------
  // The program counter

  /** Where each instruction leaves the program counter, given the state
      after the fetch (PC already advanced past the instruction): jumps
      and calls go to NNN, BNNN to V0 + NNN, 00EE to the saved address,
      a skip whose condition holds two bytes further, and everything
      else, errors included, stays. */
  function NextPc(s: State, a: u8, b: Nibble, c: Nibble, d: Nibble): int
    requires WellFormed(s)
  {
    var op := Nn(c, d);
    var vx, vy := s.register[b], s.register[c];
    if a == 0x1 || a == 0x2 then Nnn(b, c, d)
    else if a == 0xB then s.register[0] + Nnn(b, c, d)
    else if a == 0x0 && op == 0xEE && s.stackPointer < STACK_SIZE then s.stack[s.stackPointer]
    else if (a == 0x3 && vx == op) || (a == 0x4 && vx != op)
         || (a == 0x5 && vx == vy) || (a == 0x9 && vx != vy)
         || (a == 0xE && vx < KEY_COUNT && ((op == 0x9E && s.keys[vx]) || (op == 0xA1 && !s.keys[vx])))
    then s.programCounter + 2
    else s.programCounter
  }

  /** Every instruction leaves the program counter where NextPc says. */
  lemma ExecutePc(s: State, a: u8, b: Nibble, c: Nibble, d: Nibble, rng: RandomSource)
    requires WellFormed(s) && s.programCounter <= MEMORY_SIZE && ExecSafe(s, a, b, c, d)
    ensures Execute(s, a, b, c, d, rng).0.programCounter == NextPc(s, a, b, c, d)
  {
    if a == 0x8 {
      assert ExecAlu(s, b, c, d).0.programCounter == s.programCounter;
    } else if a == 0xF {
      assert ExecMisc(s, b, c, d).0.programCounter == s.programCounter;
    }
  }

  // ---------------------------------------------------------------------
  // Call and return

  /** 2NNN followed by 00EE resumes after the call with the stack pointer
      restored and the used stack slot cleared; nothing else changes. */
  lemma CallThenReturn(s: State, b: Nibble, c: Nibble, d: Nibble)
    requires WellFormed(s) && s.stackPointer + 1 < STACK_SIZE
    ensures var t := ExecSystem(ExecCall(s, b, c, d), 0xEE);
            t == s.(stack := s.stack[s.stackPointer + 1 := 0])
  {
  }

  // ---------------------------------------------------------------------
  // Register transfer

  /** Without the increment quirk, FX65 after FX55 with the same X reads
      back what was stored, so the registers are unchanged; and FX55
      after FX65 writes back what was loaded, so memory is unchanged. */
  lemma TransferRoundTrip(s: State, x: Nibble)
    requires WellFormed(s) && s.registerI + x < MEMORY_SIZE && !s.quirks.incrementIOnStore
    ensures LoadRegisters(StoreRegisters(s, x), x) == StoreRegisters(s, x)
    ensures StoreRegisters(LoadRegisters(s, x), x) == LoadRegisters(s, x)
  {
    var st := StoreRegisters(s, x);
    assert LoadRegisters(st, x).register == st.register;
    var ld := LoadRegisters(s, x);
    assert StoreRegisters(ld, x).memory == ld.memory;
  }

  /** Under either setting of the increment quirk: FX55 leaves I at
      I + X + 1 with the quirk and at I without it; with I set back to
      where FX55 started, FX65 restores V0..VX and leaves the other
      registers alone, so the registers are as before FX55. The same
      holds for FX55 after FX65 with memory in place of the registers. */
  lemma TransferRoundTripAnyQuirk(s: State, x: Nibble)
    requires WellFormed(s) && s.registerI + x < MEMORY_SIZE
    ensures StoreRegisters(s, x).registerI
              == if s.quirks.incrementIOnStore then s.registerI + x + 1 else s.registerI
    ensures LoadRegisters(s, x).registerI == StoreRegisters(s, x).registerI
    ensures LoadRegisters(StoreRegisters(s, x).(registerI := s.registerI), x).register == s.register
    ensures StoreRegisters(LoadRegisters(s, x).(registerI := s.registerI), x).memory == s.memory
  {
    var st := StoreRegisters(s, x).(registerI := s.registerI);
    assert LoadRegisters(st, x).register == s.register;
    var ld := LoadRegisters(s, x).(registerI := s.registerI);
    assert StoreRegisters(ld, x).memory == s.memory;
  }

  // ---------------------------------------------------------------------
  // Keypad mask

  /** Bit i of the mask packed from the first n keys is set exactly when
      key i is one of them and pressed. */
  lemma {:induction false} KeysToMaskBits(keys: seq<bool>, n: nat)
    requires n <= |keys| && n <= KEY_COUNT
    ensures forall i: nat :: Bit(KeysToMask(keys, n), i) == (i < n && keys[i])
  {
    Pow2Word();
    if n == 0 {
      forall i: nat
        ensures !Bit(0, i)
      {
        ZeroHasNoBits(i);
      }
    } else {
      KeysToMaskBits(keys, n - 1);
    }
  }

  /** The test `mask & (1 << i) != 0` reads bit i of the mask. */
  lemma MaskHasKeyBit(mask: u16, i: nat)
    requires i < KEY_COUNT
    ensures MaskHasKey(mask, i) == Bit(mask, i)
  {
    Pow2Word();
    var both := And(mask, KeyBit(i), 16);
    if Bit(mask, i) {
      if both == 0 {
        ZeroHasNoBits(i);
      }
    } else {
      NoBitsIsZero(both, 16);
    }
  }

  /** `keys_mask` after `set_keys_mask(m)` gives m back. */
  lemma MaskRoundTrip(mask: u16)
    ensures KeysToMask(MaskToKeys(mask), KEY_COUNT) == mask
  {
    Pow2Word();
    var keys := MaskToKeys(mask);
    KeysToMaskBits(keys, KEY_COUNT);
    forall i | 0 <= i < 16
      ensures Bit(KeysToMask(keys, KEY_COUNT), i) == Bit(mask, i)
    {
      MaskHasKeyBit(mask, i);
    }
    BitsDetermine(KeysToMask(keys, KEY_COUNT), mask, 16);
  }

  /** `set_keys_mask(keys_mask())` leaves the keys as they were. */
  lemma KeysRoundTrip(keys: seq<bool>)
    requires |keys| == KEY_COUNT
    ensures MaskToKeys(KeysToMask(keys, KEY_COUNT)) == keys
  {
    var mask := KeysToMask(keys, KEY_COUNT);
    KeysToMaskBits(keys, KEY_COUNT);
    forall i | 0 <= i < KEY_COUNT
      ensures MaskToKeys(mask)[i] == keys[i]
    {
      MaskHasKeyBit(mask, i);
    }
  }

  // ---------------------------------------------------------------------
  // Errors

  /** The error an instruction reports, if any, given the state after the
      fetch: an unknown 8XYN, CXNN when the generator fails, an unknown
      EX__ or FX__, and EX9E/EXA1 with VX above 16. */
  function ExpectedError(s: State, a: u8, b: Nibble, c: Nibble, d: Nibble, rng: RandomSource): Option<Chip8Error>
    requires WellFormed(s)
  {
    var op := Nn(c, d);
    if a == 0x8 && !(d <= 0x7 || d == 0xE) then Some(Invalid0x8XYN(d))
    else if a == 0xC && rng.RandomErr? then Some(IssueGeneratingRandomNum(rng.code))
    else if a == 0xE && op != 0x9E && op != 0xA1 then Some(Invalid0xENNN(c, d))
    else if a == 0xE && s.register[b] > KEY_COUNT then Some(InvalidRegisterX(b))
    else if a == 0xF && op !in {0x07, 0x0A, 0x15, 0x18, 0x1E, 0x29, 0x33, 0x55, 0x65} then Some(Invalid0xFNNN(c, d))
    else if a > 0xF then Some(InvalidFirstByte(a))
    else None
  }

  /** An instruction fails exactly as ExpectedError says, and a failing
      instruction changes nothing: the state stays as the fetch and the
      timer update left it. */
  lemma ExecuteErrors(s: State, a: u8, b: Nibble, c: Nibble, d: Nibble, rng: RandomSource)
    requires WellFormed(s) && s.programCounter <= MEMORY_SIZE && ExecSafe(s, a, b, c, d)
    ensures var r := Execute(s, a, b, c, d, rng);
            var e := ExpectedError(s, a, b, c, d, rng);
            && (r.1.Err? <==> e.Some?)
            && (e.Some? ==> r.1.error == e.value && r.0 == s)
  {
    if a == 0x8 {
      assert ExecAlu(s, b, c, d).1.Err? <==> !(d <= 0x7 || d == 0xE);
    } else if a == 0xF {
      var op := Nn(c, d);
      assert ExecMisc(s, b, c, d).1.Err? <==> op !in {0x07, 0x0A, 0x15, 0x18, 0x1E, 0x29, 0x33, 0x55, 0x65};
    }
  }

  /** A cycle never reports InvalidFirstByte: the fetched high nibble is
      below 16 and every such value has a case. */
  lemma NoInvalidFirstByte(s: State, rng: RandomSource)
    requires WellFormed(s) && RunSafe(s)
    ensures forall a: u8 :: Step(s, rng).1 != Err(InvalidFirstByte(a))
  {
    var w := CheckWaitingState(s);
    if !w.0 {
      var n := Fetch(w.1);
      assert n.0 < 16;
      ExecuteErrors(BeginCycle(w.1), n.0, n.1, n.2, n.3, rng);
    }
  }

  /** A cycle that fails has still updated the timers and advanced PC
      past the instruction, and rolled nothing back. */
  lemma StepErrorState(s: State, rng: RandomSource)
    requires WellFormed(s) && RunSafe(s)
    ensures Step(s, rng).1.Err? ==>
              var w := CheckWaitingState(s);
              !w.0 && Step(s, rng).0 == BeginCycle(w.1)
  {
    var w := CheckWaitingState(s);
    if !w.0 {
      var n := Fetch(w.1);
      ExecuteErrors(BeginCycle(w.1), n.0, n.1, n.2, n.3, rng);
    }
  }

  // ---------------------------------------------------------------------
  // Key wait

  /** `check_waiting`: with no wait register nothing happens; with one and
      no key pressed the cycle stalls and nothing changes; with a key
      pressed the lowest pressed key goes to the wait register, the wait
      stays set and the cycle goes on. */
  lemma CheckWaitingSpec(s: State)
    requires WellFormed(s)
    requires s.waitForKeyPress.Some? ==> s.waitForKeyPress.value < 0xF
    ensures var (stalled, t) := CheckWaitingState(s);
            && stalled == (s.waitForKeyPress.Some? && forall i :: 0 <= i < KEY_COUNT ==> !s.keys[i])
            && (stalled || s.waitForKeyPress.None? ==> t == s)
            && t.waitForKeyPress == s.waitForKeyPress
            && (s.waitForKeyPress.Some? && !stalled ==>
                  var k := t.register[s.waitForKeyPress.value];
                  && k < KEY_COUNT && s.keys[k]
                  && (forall j :: 0 <= j < k ==> !s.keys[j])
                  && t == s.(register := s.register[s.waitForKeyPress.value := k]))
  {
    if s.waitForKeyPress.Some? {
      var k := FirstPressed(s.keys, 0);
      if k == KEY_COUNT {
        assert forall i :: 0 <= i < KEY_COUNT ==> !s.keys[i];
      }
    }
  }

  /** A stalled cycle returns Ok and changes nothing. */
  lemma StalledStep(s: State, rng: RandomSource)
    requires WellFormed(s) && RunSafe(s) && CheckWaitingState(s).0
    ensures Step(s, rng) == (s, Ok)
  {
  }

  // ---------------------------------------------------------------------
  // Lifecycle

  /** `reset` keeps the quirks and the timer mode, wipes the program area,
      and resetting twice is resetting once. */
  lemma ResetProperties(s: State)
    ensures ResetState(s).quirks == s.quirks && ResetState(s).timerMode == s.timerMode
    ensures forall i :: PROGRAM_START <= i < MEMORY_SIZE ==> ResetState(s).memory[i] == 0
    ensures ResetState(ResetState(s)) == ResetState(s)
  {
  }

  /** `load_rom_bytes` puts the first PROGRAM_LEN ROM bytes at 0x200, zero
      after a short ROM, and changes nothing else. */
  lemma LoadRomContents(s: State, rom: seq<u8>)
    requires WellFormed(s)
    ensures var t := LoadRomState(s, rom);
            && (forall i :: 0 <= i < PROGRAM_LEN ==> t.memory[PROGRAM_START + i] == (if i < |rom| then rom[i] else 0))
            && t.memory[..PROGRAM_START] == s.memory[..PROGRAM_START]
            && t == s.(memory := t.memory)
  {
  }

  /** ROM bytes past PROGRAM_LEN are ignored, and loading a ROM replaces
      whatever ROM was loaded before. */
  lemma LoadRomTruncatesAndReplaces(s: State, rom: seq<u8>, oldRom: seq<u8>)
    requires WellFormed(s)
    ensures |rom| > PROGRAM_LEN ==> LoadRomState(s, rom) == LoadRomState(s, rom[..PROGRAM_LEN])
    ensures LoadRomState(LoadRomState(s, oldRom), rom) == LoadRomState(s, rom)
  {
    if |rom| > PROGRAM_LEN {
      assert LoadRomState(s, rom).memory == LoadRomState(s, rom[..PROGRAM_LEN]).memory;
    }
    assert LoadRomState(LoadRomState(s, oldRom), rom).memory == LoadRomState(s, rom).memory;
  }

  // ---------------------------------------------------------------------
  // tick

  /** `tick` over two runs of cycles is `tick` over the first and then,
      unless it failed, over the second. */
  lemma {:induction false} TickCompose(s: State, e1: seq<RandomSource>, e2: seq<RandomSource>)
    requires WellFormed(s) && TickSafe(s, e1 + e2)
    ensures TickSafe(s, e1)
    ensures var r1 := TickState(s, e1);
            && (r1.1.Err? ==> TickState(s, e1 + e2) == r1)
            && (r1.1.Ok? ==> TickSafe(r1.0, e2) && TickState(s, e1 + e2) == TickState(r1.0, e2))
    decreases |e1|
  {
    if |e1| == 0 {
      assert e1 + e2 == e2;
    } else {
      assert (e1 + e2)[0] == e1[0] && (e1 + e2)[1..] == e1[1..] + e2;
      var r := Step(s, e1[0]);
      if r.1.Ok? {
        TickCompose(r.0, e1[1..], e2);
      }
    }
  }
}
