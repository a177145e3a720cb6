/** The interpreter's state container and its lifecycle operations:
    construction, quirk settings, reset, external timer ticks, ROM loading,
    the keypad and the key wait. The fixed-size buffers are arrays
    rewritten in place; `Abs()` reads the whole object as a MachineSpec
    state, and every operation is proved to produce the state its
    specification function describes. */
module Chip8 {
  import opened Chip8Types
  import opened Bits
  import opened Alu
  import opened MachineSpec

  /** Writes the font into memory[FONT_RANGE_MIN..FONT_RANGE_MAX). */
  method LoadFont(memory: array<u8>)
    requires memory.Length == MEMORY_SIZE
    modifies memory
    ensures forall i :: FONT_RANGE_MIN <= i < FONT_RANGE_MAX ==> memory[i] == FONT[i - FONT_RANGE_MIN]
    ensures forall i :: 0 <= i < MEMORY_SIZE && !(FONT_RANGE_MIN <= i < FONT_RANGE_MAX) ==>
              memory[i] == old(memory[i])
  {
    for i := FONT_RANGE_MIN to FONT_RANGE_MAX
      invariant forall j :: FONT_RANGE_MIN <= j < i ==> memory[j] == FONT[j - FONT_RANGE_MIN]
      invariant forall j :: 0 <= j < MEMORY_SIZE && !(FONT_RANGE_MIN <= j < i) ==> memory[j] == old(memory[j])
    {
      memory[i] := FONT[i - FONT_RANGE_MIN];
    }
  }

  /** A zeroed memory with the font loaded is the initial memory. */
  lemma FontOverZeroIsInitial(m: seq<u8>)
    requires |m| == MEMORY_SIZE
    requires forall i :: FONT_RANGE_MIN <= i < FONT_RANGE_MAX ==> m[i] == FONT[i - FONT_RANGE_MIN]
    requires forall i :: 0 <= i < MEMORY_SIZE && !(FONT_RANGE_MIN <= i < FONT_RANGE_MAX) ==> m[i] == 0
    ensures m == InitialMemory()
  {
  }

  /** Every cell of `a` set to `v`. */
  method Fill<T>(a: array<T>, v: T)
    modifies a
    ensures a[..] == Filled(a.Length, v)
  {
    forall i | 0 <= i < a.Length {
      a[i] := v;
    }
  }

  /** Memory cleared and the font loaded: the memory of a fresh machine. */
  method ZeroWithFont(memory: array<u8>)
    requires memory.Length == MEMORY_SIZE
    modifies memory
    ensures memory[..] == InitialMemory()
  {
    Fill(memory, 0);
    LoadFont(memory);
    FontOverZeroIsInitial(memory[..]);
  }

  /** The loop of `set_keys_mask`: key i is set to whether bit i of the
      mask is set. */
  method UnpackKeys(keys: array<bool>, mask: u16)
    requires keys.Length == KEY_COUNT
    modifies keys
    ensures keys[..] == MaskToKeys(mask)
  {
    ghost var target := MaskToKeys(mask);
    Pow2Word();
    var index := 0;
    while index < keys.Length
      invariant 0 <= index <= keys.Length
      invariant keys[..index] == target[..index]
    {
      var bit := KeyBit(index);
      keys[index] := And(mask, bit, 16) != 0;
      assert keys[..index + 1] == target[..index + 1];
      index := index + 1;
    }
    assert keys[..] == keys[..KEY_COUNT];
  }

  /** The loop of `keys_mask`: ORs in bit i for each pressed key i, in
      index order. */
  method PackKeys(keys: array<bool>) returns (mask: u16)
    requires keys.Length == KEY_COUNT
    ensures mask == KeysToMask(keys[..], KEY_COUNT)
  {
    Pow2Word();
    mask := 0;
    var index := 0;
    while index < KEY_COUNT
      invariant 0 <= index <= KEY_COUNT
      invariant mask == KeysToMask(keys[..], index)
    {
      if keys[index] {
        mask := Or(mask, KeyBit(index), 16);
      }
      index := index + 1;
    }
  }

  /** The machine's buffers: each of its fixed size, no two the same. */
  ghost predicate Buffers(memory: array<u8>, register: array<u8>, stack: array<u16>,
                          frameBuffer: array<u8>, keys: array<bool>)
  {
    && memory.Length == MEMORY_SIZE
    && register.Length == REGISTER_COUNT
    && stack.Length == STACK_SIZE
    && frameBuffer.Length == FRAMEBUFFER_PACKED_LEN
    && keys.Length == KEY_COUNT
    && memory != register && memory != frameBuffer && register != frameBuffer
    && memory as object != stack && memory as object != keys
    && register as object != stack && register as object != keys
    && frameBuffer as object != stack && frameBuffer as object != keys
    && stack as object != keys
  }

  class Chip8Sys {
    const memory: array<u8>
    const register: array<u8>
    var registerI: u16
    var delayTimer: u8
    var dtCycleCt: nat
    var soundTimer: u8
    var programCounter: u16
    var stackPointer: u8
    const stack: array<u16>
    const frameBuffer: array<u8>
    const keys: array<bool>
    var waitForKeyPress: Option<Nibble>
    var isPlayingSound: bool
    var timerMode: TimerMode
    var isIncIndex: bool
    var isRegisterFReset: bool
    var isWrapDraw: bool
    var isModVxInPlace: bool

    /** The buffers have their fixed sizes and are distinct. */
    ghost predicate Valid() {
      Buffers(memory, register, stack, frameBuffer, keys)
    }

    /** The whole machine as a value. */
    ghost function Abs(): (s: State)
      reads this, memory, register, stack, frameBuffer, keys
      requires Valid()
      ensures WellFormed(s)
    {
      State(memory[..], register[..], registerI, delayTimer, dtCycleCt, soundTimer, programCounter,
            stackPointer, stack[..], frameBuffer[..], keys[..], waitForKeyPress, isPlayingSound,
            timerMode, Quirks(isIncIndex, isRegisterFReset, isWrapDraw, isModVxInPlace))
    }

    /** A step that writes only the registers changes only the register
        file of the abstract state. */
    twostate lemma RegistersWritten()
      requires Valid()
      requires unchanged(this, memory, stack, frameBuffer, keys)
      ensures Abs() == old(Abs()).(register := register[..])
    {
    }

    /** A step that writes only the framebuffer and the registers changes
        only those two of the abstract state. */
    twostate lemma ScreenWritten()
      requires Valid()
      requires unchanged(this, memory, stack, keys)
      ensures Abs() == old(Abs()).(frameBuffer := frameBuffer[..], register := register[..])
    {
    }

    /** A step that writes only memory and scalar fields changes nothing
        else of the abstract state. */
    twostate lemma MemoryWritten()
      requires Valid()
      requires unchanged(register, stack, frameBuffer, keys)
      ensures Abs() == old(Abs()).(memory := memory[..], registerI := registerI, delayTimer := delayTimer,
                                   dtCycleCt := dtCycleCt, soundTimer := soundTimer,
                                   programCounter := programCounter, stackPointer := stackPointer,
                                   waitForKeyPress := waitForKeyPress, isPlayingSound := isPlayingSound,
                                   timerMode := timerMode, quirks := CurrentQuirks())
    {
    }

    /** A step that writes only scalar fields leaves every buffer of the
        abstract state as it was. */
    twostate lemma ScalarsWritten()
      requires Valid()
      requires unchanged(memory, register, stack, frameBuffer, keys)
      ensures Abs() == old(Abs()).(registerI := registerI, delayTimer := delayTimer, dtCycleCt := dtCycleCt,
                                   soundTimer := soundTimer, programCounter := programCounter,
                                   stackPointer := stackPointer, waitForKeyPress := waitForKeyPress,
                                   isPlayingSound := isPlayingSound, timerMode := timerMode,
                                   quirks := CurrentQuirks())
    {
    }

    /** `new_set_quirks`: a fresh machine with the given quirk switches. */
    constructor NewSetQuirks(isIncIndex: bool, isRegisterFReset: bool, isWrapDraw: bool, isModVxInPlace: bool)
      ensures Valid()
      ensures Abs() == NewState(Quirks(isIncIndex, isRegisterFReset, isWrapDraw, isModVxInPlace))
    {
      var m := new u8[MEMORY_SIZE](_ => 0);
      LoadFont(m);
      FontOverZeroIsInitial(m[..]);
      memory := m;
      register := new u8[REGISTER_COUNT](_ => 0);
      registerI := 0;
      delayTimer := 0;
      dtCycleCt := 0;
      soundTimer := 0;
      programCounter := PROGRAM_START;
      stackPointer := 0;
      stack := new u16[STACK_SIZE](_ => 0);
      frameBuffer := new u8[FRAMEBUFFER_PACKED_LEN](_ => 0);
      keys := new bool[KEY_COUNT](_ => false);
      waitForKeyPress := None;
      isPlayingSound := false;
      timerMode := Cycle;
      this.isIncIndex := isIncIndex;
      this.isRegisterFReset := isRegisterFReset;
      this.isWrapDraw := isWrapDraw;
      this.isModVxInPlace := isModVxInPlace;
    }

    /** `new_chip_8`: a fresh machine with the default quirks. */
    constructor NewChip8()
      ensures Valid()
      ensures Abs() == NewState(DefaultQuirks())
    {
      var m := new u8[MEMORY_SIZE](_ => 0);
      LoadFont(m);
      FontOverZeroIsInitial(m[..]);
      memory := m;
      register := new u8[REGISTER_COUNT](_ => 0);
      registerI := 0;
      delayTimer := 0;
      dtCycleCt := 0;
      soundTimer := 0;
      programCounter := PROGRAM_START;
      stackPointer := 0;
      stack := new u16[STACK_SIZE](_ => 0);
      frameBuffer := new u8[FRAMEBUFFER_PACKED_LEN](_ => 0);
      keys := new bool[KEY_COUNT](_ => false);
      waitForKeyPress := None;
      isPlayingSound := false;
      timerMode := Cycle;
      isIncIndex := true;
      isRegisterFReset := true;
      isWrapDraw := false;
      isModVxInPlace := false;
    }

    /** `new_with_quirks`: a fresh machine with a quirk configuration. */
    constructor NewWithQuirks(q: Quirks)
      ensures Valid()
      ensures Abs() == NewState(q)
      ensures CurrentQuirks() == q
    {
      var m := new u8[MEMORY_SIZE](_ => 0);
      LoadFont(m);
      FontOverZeroIsInitial(m[..]);
      memory := m;
      register := new u8[REGISTER_COUNT](_ => 0);
      registerI := 0;
      delayTimer := 0;
      dtCycleCt := 0;
      soundTimer := 0;
      programCounter := PROGRAM_START;
      stackPointer := 0;
      stack := new u16[STACK_SIZE](_ => 0);
      frameBuffer := new u8[FRAMEBUFFER_PACKED_LEN](_ => 0);
      keys := new bool[KEY_COUNT](_ => false);
      waitForKeyPress := None;
      isPlayingSound := false;
      timerMode := Cycle;
      isIncIndex := q.incrementIOnStore;
      isRegisterFReset := q.resetVfOnLogic;
      isWrapDraw := q.wrapDraw;
      isModVxInPlace := q.shiftUsesVx;
    }

    /** `quirks()`: the active quirk configuration, one switch per field. */
    function CurrentQuirks(): (q: Quirks)
      reads this
      ensures q.incrementIOnStore == isIncIndex && q.resetVfOnLogic == isRegisterFReset
      ensures q.wrapDraw == isWrapDraw && q.shiftUsesVx == isModVxInPlace
    {
      Quirks(isIncIndex, isRegisterFReset, isWrapDraw, isModVxInPlace)
    }

    /** `set_quirks`: replaces the four switches and nothing else. */
    method SetQuirks(q: Quirks)
      requires Valid()
      modifies this
      ensures CurrentQuirks() == q
      ensures Abs() == old(Abs()).(quirks := q)
    {
      isIncIndex := q.incrementIOnStore;
      isRegisterFReset := q.resetVfOnLogic;
      isWrapDraw := q.wrapDraw;
      isModVxInPlace := q.shiftUsesVx;
    }

    /** `set_timer_mode`. */
    method SetTimerMode(mode: TimerMode)
      requires Valid()
      modifies this
      ensures Abs() == old(Abs()).(timerMode := mode)
    {
      timerMode := mode;
    }

    /** The buffers of a fresh machine: memory holding only the font, all
        else zero and no key pressed. */
    method ClearBuffers()
      requires Valid()
      modifies memory, register, stack, frameBuffer, keys
      ensures memory[..] == InitialMemory() && register[..] == Filled(REGISTER_COUNT, 0)
      ensures stack[..] == Filled(STACK_SIZE, 0) && frameBuffer[..] == Filled(FRAMEBUFFER_PACKED_LEN, 0)
      ensures keys[..] == Filled(KEY_COUNT, false)
    {
      ZeroWithFont(memory);
      Fill(register, 0);
      Fill(stack, 0);
      Fill(frameBuffer, 0);
      Fill(keys, false);
    }

    /** `reset`: every field as in a fresh machine built with the current
        quirks, except that the timer mode is kept. */
    method Reset()
      requires Valid()
      modifies this, memory, register, stack, frameBuffer, keys
      ensures Abs() == ResetState(old(Abs()))
    {
      ghost var q, mode := CurrentQuirks(), timerMode;
      registerI := 0;
      delayTimer := 0;
      dtCycleCt := 0;
      soundTimer := 0;
      programCounter := PROGRAM_START;
      stackPointer := 0;
      waitForKeyPress := None;
      isPlayingSound := false;
      ClearBuffers();
      assert Abs() == NewState(q).(timerMode := mode);
    }

    /** `tick_timers`: `ticks` countdown steps of both timers. */
    method TickTimers(ticks: u32)
      requires Valid()
      modifies this
      ensures Abs() == TickTimersState(old(Abs()), ticks)
    {
      for t := 0 to ticks
        invariant Abs() == TickTimersState(old(Abs()), t)
      {
        if delayTimer > 0 {
          delayTimer := delayTimer - 1;
        }
        if soundTimer > 0 {
          soundTimer := soundTimer - 1;
          if soundTimer == 0 {
            isPlayingSound := false;
          }
        }
      }
    }

    /** `load_rom_bytes`: every byte of the program area is rewritten with
        the ROM byte at that offset, or 0 past the ROM's end. */
    method LoadRomBytes(rom: seq<u8>)
      requires Valid()
      modifies memory
      ensures Abs() == LoadRomState(old(Abs()), rom)
    {
      for index := 0 to PROGRAM_LEN
        invariant forall j :: 0 <= j < PROGRAM_START ==> memory[j] == old(memory[j])
        invariant forall p :: PROGRAM_START <= p < PROGRAM_START + index ==>
                    memory[p] == (if p - PROGRAM_START < |rom| then rom[p - PROGRAM_START] else 0)
      {
        var value := if index < |rom| then rom[index] else 0;
        memory[PROGRAM_START + index] := value;
      }
      assert memory[..] == LoadRomState(old(Abs()), rom).memory;
    }

    /** `set_keys_mask`: key i pressed iff bit i of the mask is set. */
    method SetKeysMask(mask: u16)
      requires Valid()
      modifies keys
      ensures Abs() == old(Abs()).(keys := MaskToKeys(mask))
    {
      UnpackKeys(keys, mask);
    }

    /** `keys_mask`: the mask with bit i set for each pressed key i. */
    method KeysMask() returns (mask: u16)
      requires Valid()
      ensures mask == KeysToMask(keys[..], KEY_COUNT)
    {
      mask := PackKeys(keys);
    }

    /** `set_keys`: the whole keypad replaced at once. */
    method SetKeys(newKeys: seq<bool>)
      requires Valid() && |newKeys| == KEY_COUNT
      modifies keys
      ensures Abs() == old(Abs()).(keys := newKeys)
    {
      forall i | 0 <= i < KEY_COUNT {
        keys[i] := newKeys[i];
      }
      assert keys[..] == newKeys;
    }

    /** `check_waiting`: with a wait register r (which must not be 0xF,
        where the source aborts), scans the keys in index order; the first
        pressed one is stored in Vr and the cycle may proceed, otherwise
        the cycle stalls. Without a wait register the cycle proceeds. */
    method CheckWaiting() returns (stalled: bool)
      requires Valid()
      requires waitForKeyPress.Some? ==> waitForKeyPress.value < 0xF
      modifies register
      ensures (stalled, Abs()) == CheckWaitingState(old(Abs()))
    {
      match waitForKeyPress
      case None =>
        return false;
      case Some(r) =>
        for n := 0 to KEY_COUNT
          invariant forall j :: 0 <= j < n ==> !keys[j]
          invariant register[..] == old(register[..])
        {
          if keys[n] {
            assert FirstPressed(keys[..], 0) == n;
            register[r] := n;
            assert register[..] == old(register[..])[r := n];
            return false;
          }
        }
        assert FirstPressed(keys[..], 0) == KEY_COUNT;
        return true;
    }

    /** `wait`: arms the key wait on a register, rejecting non-registers. */
    method Wait(reg: u8) returns (r: Result)
      requires Valid()
      modifies this
      ensures (Abs(), r) == WaitState(old(Abs()), reg)
    {
      if reg > 0xF {
        return Err(InvalidWaitRegister(reg));
      }
      waitForKeyPress := Some(reg);
      return Ok;
    }
  }
}
