/** The CHIP-8 machine state as a value and the state transitions of the
    interpreter as functions over it: power-on, reset, ROM placement and one
    fetch/decode/execute cycle followed by the timer decay.

    The C++ code reads memory, the register file and the stack without bounds
    checks; every such access is a precondition here (`CanCycle`), never an
    error status, because the code reports none. */
module MachineSpec {
  import opened Words
  import opened Display

  const MemorySize: nat := 4096
  const RegisterCount: nat := 16
  const StackDepth: nat := 16
  /** Where ROMs are placed and where execution starts. */
  const ProgramStart: nat := 0x200
  /** Where the hexadecimal font sprites are placed. */
  const FontStart: nat := 0x50
  /** Index of the flag register VF. */
  const VF: nat := 0xF

  /** Everything `Cycle` and `Initialize` read or write. */
  datatype Machine = Machine(
    memory: seq<byte>,
    V: seq<byte>,
    I: u16,
    pc: u16,
    stack: seq<u16>,
    stackptr: u16,
    delayTimer: byte,
    soundTimer: byte,
    gfx: seq<byte>,
    drawFlag: bool,
    opcode: u16)

  /** The fixed sizes of the state's arrays. */
  predicate WellFormed(m: Machine)
  {
    |m.memory| == MemorySize && |m.V| == RegisterCount && |m.stack| == StackDepth && |m.gfx| == Cells
  }

  /** The 80-byte font: five rows per hexadecimal digit 0..F. The glyph for
      0 is the C++ code's own: its last row is 0x90, so it has no bottom bar. */
  const Fontset: seq<byte> := [
    0xF0, 0x90, 0x90, 0x90, 0x90, // 0
    0x20, 0x60, 0x20, 0x20, 0x70, // 1
    0xF0, 0x10, 0xF0, 0x80, 0xF0, // 2
    0xF0, 0x10, 0xF0, 0x10, 0xF0, // 3
    0x90, 0x90, 0xF0, 0x10, 0x10, // 4
    0xF0, 0x80, 0xF0, 0x10, 0xF0, // 5
    0xF0, 0x80, 0xF0, 0x90, 0xF0, // 6
    0xF0, 0x10, 0x20, 0x40, 0x40, // 7
    0xF0, 0x90, 0xF0, 0x90, 0xF0, // 8
    0xF0, 0x90, 0xF0, 0x10, 0xF0, // 9
    0xF0, 0x90, 0xF0, 0x90, 0x90, // A
    0xE0, 0x90, 0xE0, 0x90, 0xE0, // B
    0xF0, 0x80, 0x80, 0x80, 0xF0, // C
    0xE0, 0x90, 0x90, 0x90, 0xE0, // D
    0xF0, 0x80, 0xF0, 0x80, 0xF0, // E
    0xF0, 0x80, 0xF0, 0x80, 0x80  // F
  ]

  function Zeros(n: nat): (s: seq<byte>)
    ensures |s| == n && forall k :: 0 <= k < n ==> s[k] == 0
  {
    seq(n, _ => 0)
  }

  /** Memory after reset: the font at 0x50..0x9F, zero everywhere else. */
  function InitialMemory(): (mem: seq<byte>)
    ensures |mem| == MemorySize
    ensures mem[FontStart..FontStart + |Fontset|] == Fontset
    ensures forall a :: 0 <= a < MemorySize && !(FontStart <= a < FontStart + |Fontset|) ==> mem[a] == 0
  {
    Zeros(FontStart) + Fontset + Zeros(MemorySize - FontStart - |Fontset|)
  }

  /** `Initialize`: every field reset except `drawFlag`, which it leaves alone. */
  function Reset(m: Machine): (r: Machine)
    ensures WellFormed(r)
  {
    Machine(InitialMemory(), Zeros(RegisterCount), 0, ProgramStart, seq(StackDepth, _ => 0), 0, 0, 0,
            Blank(), m.drawFlag, 0)
  }

  /** The state of a freshly constructed machine: `drawFlag` starts false
      (its member initializer), then the constructor runs `Initialize`. */
  function PowerOn(): (r: Machine)
    ensures WellFormed(r) && !r.drawFlag && r.pc == ProgramStart
    ensures r == Reset(r)
  {
    Reset(Machine([], [], 0, 0, [], 0, 0, 0, [], false, 0))
  }

  /** The ROM bytes placed verbatim at 0x200; the rest of memory untouched. */
  function Load(m: Machine, rom: seq<byte>): (r: Machine)
    requires WellFormed(m) && |rom| <= MemorySize - ProgramStart
    ensures WellFormed(r)
    ensures forall k :: 0 <= k < |rom| ==> r.memory[ProgramStart + k] == rom[k]
    ensures forall a :: 0 <= a < MemorySize && !(ProgramStart <= a < ProgramStart + |rom|) ==> r.memory[a] == m.memory[a]
    ensures r.(memory := m.memory) == m
  {
    m.(memory := m.memory[..ProgramStart] + rom + m.memory[ProgramStart + |rom|..])
  }

  /** The instruction word at `pc`, fetched big-endian. */
  function Fetch(m: Machine): (op: u16)
    requires WellFormed(m) && m.pc + 1 < MemorySize
    ensures op / 0x100 == m.memory[m.pc] && op % 0x100 == m.memory[m.pc + 1]
  {
    Word(m.memory[m.pc], m.memory[m.pc + 1])
  }

  /** The unchecked accesses of executing `op` stay in bounds:
      00EE (any 0?EE) pops, so `stackptr` must be 1..16 (the unsigned
      `--stackptr` would wrap at 0); 2NNN pushes, so `stackptr < 16`;
      DXYN reads `memory[I + row]` for row < N. */
  predicate CanExecute(m: Machine, op: u16)
  {
    (Family(op) == 0x0 && NN(op) == 0xEE ==> 1 <= m.stackptr <= StackDepth) &&
    (Family(op) == 0x2 ==> m.stackptr < StackDepth) &&
    (Family(op) == 0xD && N(op) > 0 ==> m.I + N(op) <= MemorySize)
  }

  /** One `Cycle` can run without an out-of-bounds access: the fetch of
      `memory[pc + 1]` and everything `CanExecute` names. */
  predicate CanCycle(m: Machine)
  {
    WellFormed(m) && m.pc + 1 < MemorySize && CanExecute(m, Fetch(m))
  }

  /** The `height` sprite rows starting at memory[I]. */
  function Sprite(memory: seq<byte>, i: u16, height: nat): (s: seq<byte>)
    requires height > 0 ==> i + height <= |memory|
    ensures |s| == height
    ensures forall row :: 0 <= row < height ==> s[row] == memory[i + row]
  {
    if height == 0 then [] else memory[i..i + height]
  }

  /** `pc += delta` on a `uint16_t`. */
  function Advance(m: Machine, delta: nat): (r: Machine)
    ensures r.(pc := m.pc) == m
    ensures m.pc + delta < 0x1_0000 ==> r.pc == m.pc + delta
  {
    m.(pc := Wrap16(m.pc + delta))
  }

  /** The opcode handlers: the switch on `opcode & 0xf000`. Every family
      without a handler (4, 5, 8, 9, B, C, E, F) takes the default branch,
      which only advances `pc`; this includes FX07, whose `case 0xf007`
      label can never equal a value whose low 12 bits are masked off. */
  function Execute(m: Machine, op: u16): (r: Machine)
    requires WellFormed(m) && CanExecute(m, op)
    ensures WellFormed(r)
  {
    match Family(op)
    case 0x0 =>
      // the inner switch keys on the low byte only
      if NN(op) == 0xE0 then
        Advance(m.(gfx := Blank()), 2)
      else if NN(op) == 0xEE then
        var sp := m.stackptr - 1;
        Advance(m.(stackptr := sp, pc := m.stack[sp]), 2)
      else
        Advance(m, 2)
    case 0x1 => m.(pc := NNN(op))
    case 0x2 =>
      m.(stack := m.stack[m.stackptr := m.pc], stackptr := m.stackptr + 1, pc := NNN(op))
    case 0x3 => Advance(m, if m.V[X(op)] == NN(op) then 4 else 2)
    case 0x6 => Advance(m.(V := m.V[X(op) := NN(op)]), 2)
    case 0x7 => Advance(m.(V := m.V[X(op) := Wrap8(m.V[X(op)] + NN(op))]), 2)
    case 0xA => Advance(m.(I := NNN(op)), 2)
    case 0xD =>
      // V[X] and V[Y] are read before VF is cleared
      var x, y := m.V[X(op)], m.V[Y(op)];
      var sprite := Sprite(m.memory, m.I, N(op));
      var flag := if Collision(m.gfx, x, y, sprite) then 1 else 0;
      Advance(m.(gfx := Draw(m.gfx, x, y, sprite), V := m.V[VF := flag], drawFlag := true), 2)
    case _ => Advance(m, 2)
  }

  /** `if (t > 0) --t;` */
  function Decay(t: byte): (r: byte)
    ensures t > 0 ==> r == t - 1
    ensures t == 0 ==> r == 0
  {
    if t > 0 then t - 1 else 0
  }

  /** Both timers decay once; nothing else changes. */
  function DecayTimers(m: Machine): (r: Machine)
    ensures r.(delayTimer := m.delayTimer, soundTimer := m.soundTimer) == m
    ensures r.delayTimer == Decay(m.delayTimer) && r.soundTimer == Decay(m.soundTimer)
  {
    m.(delayTimer := Decay(m.delayTimer), soundTimer := Decay(m.soundTimer))
  }

  /** `Cycle`: fetch into `opcode`, execute, then decay both timers. */
  function Step(m: Machine): (r: Machine)
    requires CanCycle(m)
    ensures WellFormed(r)
  {
    var op := Fetch(m);
    DecayTimers(Execute(m.(opcode := op), op))
  }

  datatype Option<T> = None | Some(value: T)

  /** The embedder's loop: `k` calls of `Cycle`. `None` when some cycle
      would access out of bounds (behaviour the C++ code leaves undefined). */
  function Run(m: Machine, k: nat): (r: Option<Machine>)
    ensures k == 0 ==> r == Some(m)
    ensures k > 0 && r.Some? ==> CanCycle(m) && WellFormed(r.value)
    decreases k
  {
    if k == 0 then Some(m)
    else if !CanCycle(m) then None
    else Run(Step(m), k - 1)
  }
}
