/** The `Chip8` virtual machine: its state held in arrays and fields that
    `Initialize`, `LoadRom` and `Cycle` update in place. Each method is
    proved to leave the machine in the state the corresponding function of
    `MachineSpec` computes from the old state. */
module Chip8Vm {
  import opened Words
  import opened Display
  import opened MachineSpec

  /** `std::array::fill` / `memset`: every element of `a` becomes `v`. */
  method Fill<T>(a: array<T>, v: T)
    modifies a
    ensures forall k :: 0 <= k < a.Length ==> a[k] == v
  {
    for k := 0 to a.Length
      invariant forall j :: 0 <= j < k ==> a[j] == v
    {
      a[k] := v;
    }
  }

  class Chip8 {
    const memory: array<byte>
    const V: array<byte>
    var I: u16
    var pc: u16
    const stack: array<u16>
    var stackptr: u16
    var delayTimer: byte
    var soundTimer: byte
    const gfx: array<byte>
    var drawFlag: bool
    var opcode: u16

    /** The arrays have their declared sizes and are distinct objects. */
    ghost predicate Valid()
    {
      memory.Length == MemorySize && V.Length == RegisterCount &&
      stack.Length == StackDepth && gfx.Length == Cells &&
      memory != V && memory != gfx && V != gfx
    }

    /** The machine's state as a value. */
    ghost function State(): (m: Machine)
      reads this, memory, V, stack, gfx
      requires Valid()
      ensures WellFormed(m)
    {
      Machine(memory[..], V[..], I, pc, stack[..], stackptr, delayTimer, soundTimer, gfx[..], drawFlag, opcode)
    }

    /** `Chip8()`: `drawFlag` is initialised to false, then `Initialize` runs. */
    constructor ()
      ensures Valid() && State() == PowerOn()
      ensures fresh(memory) && fresh(V) && fresh(stack) && fresh(gfx)
    {
      memory := new byte[MemorySize](_ => 0);
      V := new byte[RegisterCount](_ => 0);
      stack := new u16[StackDepth](_ => 0);
      gfx := new byte[Cells](_ => 0);
      drawFlag := false;
      new;
      Initialize();
    }

    /** Reset every register, array and timer and copy the font to 0x50. */
    method Initialize()
      requires Valid()
      modifies this, memory, V, stack, gfx
      ensures Valid() && State() == Reset(old(State()))
    {
      pc := ProgramStart;
      opcode := 0;
      I := 0;
      stackptr := 0;

      Fill(memory, 0);
      Fill(V, 0);
      Fill(stack, 0);
      Fill(gfx, 0);

      delayTimer := 0;
      soundTimer := 0;

      for i := 0 to |Fontset|
        modifies memory
        invariant forall a :: 0 <= a < MemorySize ==>
          memory[a] == if FontStart <= a < FontStart + i then Fontset[a - FontStart] else 0
      {
        memory[FontStart + i] := Fontset[i];
      }

      ghost var mem := InitialMemory();
      assert forall a :: FontStart <= a < FontStart + |Fontset| ==>
        mem[a] == mem[FontStart..FontStart + |Fontset|][a - FontStart];
      assert memory[..] == mem;
      assert V[..] == Zeros(RegisterCount);
      assert stack[..] == seq(StackDepth, _ => 0);
      assert gfx[..] == Blank();
    }

    /** The byte-copy part of `LoadROM`: the ROM lands verbatim at 0x200.
        The C++ code copies without a size check, so the size is a precondition. */
    method LoadRom(rom: seq<byte>)
      requires Valid() && |rom| <= MemorySize - ProgramStart
      modifies memory
      ensures Valid() && State() == Load(old(State()), rom)
    {
      for k := 0 to |rom|
        modifies memory
        invariant forall a :: 0 <= a < MemorySize ==>
          memory[a] == if ProgramStart <= a < ProgramStart + k then rom[a - ProgramStart] else old(memory[a])
      {
        memory[ProgramStart + k] := rom[k];
      }
      assert memory[..] == Load(old(State()), rom).memory;
    }

    /** DXYN after the coordinates are read: clear VF, then XOR `height`
        sprite rows from memory[I] onto the framebuffer, row by row, setting
        VF when a set cell is hit. */
    method DrawSprite(x: byte, y: byte, height: nat)
      requires Valid() && height < 16 && (height > 0 ==> I + height <= MemorySize)
      modifies V, gfx
      ensures gfx[..] == Draw(old(gfx[..]), x, y, Sprite(memory[..], I, height))
      ensures V[..] == old(V[..])[VF := if Collision(old(gfx[..]), x, y, Sprite(memory[..], I, height)) then 1 else 0]
    {
      ghost var g0 := gfx[..];
      ghost var sprite := Sprite(memory[..], I, height);
      V[VF] := 0;
      var row := 0;
      while row < height
        invariant 0 <= row <= height
        invariant forall i :: 0 <= i < Cells ==>
          gfx[i] == if Drawn(x, y, sprite, i, row, 0) then Toggle(g0[i]) else g0[i]
        invariant V[VF] == if CollidedBefore(g0, x, y, sprite, row, 0) then 1 else 0
        invariant forall k :: 0 <= k < RegisterCount && k != VF ==> V[k] == old(V[k])
      {
        var spriteByte := memory[I + row];
        DrawSpriteRow(x, y, row, spriteByte, g0, sprite);
        forall i | 0 <= i < Cells
          ensures Drawn(x, y, sprite, i, row, 8) <==> Drawn(x, y, sprite, i, row + 1, 0)
        {
          DrawRowDone(x, y, sprite, row, i);
        }
        CollidedRowDone(g0, x, y, sprite, row);
        row := row + 1;
      }
      forall i | 0 <= i < Cells
        ensures Drawn(x, y, sprite, i, height, 0) <==> Hit(x, y, sprite, i)
      {
        DrawRowDone(x, y, sprite, row, i);
      }
      CollidedRowDone(g0, x, y, sprite, row);
      assert gfx[..] == Draw(g0, x, y, sprite);
    }

    /** The inner loop of DXYN: the eight pixels of sprite row `row`, left to
        right. `g0` is the framebuffer before the draw and `sprite` the rows. */
    method DrawSpriteRow(x: byte, y: byte, row: nat, spriteByte: byte, ghost g0: seq<byte>, ghost sprite: seq<byte>)
      requires Valid() && |g0| == Cells && row < |sprite| <= Height && sprite[row] == spriteByte
      requires forall i :: 0 <= i < Cells ==>
        gfx[i] == if Drawn(x, y, sprite, i, row, 0) then Toggle(g0[i]) else g0[i]
      requires V[VF] == if CollidedBefore(g0, x, y, sprite, row, 0) then 1 else 0
      modifies V, gfx
      ensures forall i :: 0 <= i < Cells ==>
        gfx[i] == if Drawn(x, y, sprite, i, row, 8) then Toggle(g0[i]) else g0[i]
      ensures V[VF] == if CollidedBefore(g0, x, y, sprite, row, 8) then 1 else 0
      ensures forall k :: 0 <= k < RegisterCount && k != VF ==> V[k] == old(V[k])
    {
      var col := 0;
      while col < 8
        invariant 0 <= col <= 8
        invariant forall i :: 0 <= i < Cells ==>
          gfx[i] == if Drawn(x, y, sprite, i, row, col) then Toggle(g0[i]) else g0[i]
        invariant V[VF] == if CollidedBefore(g0, x, y, sprite, row, col) then 1 else 0
        invariant forall k :: 0 <= k < RegisterCount && k != VF ==> V[k] == old(V[k])
      {
        forall i | 0 <= i < Cells
          ensures Drawn(x, y, sprite, i, row, col + 1) <==>
            Drawn(x, y, sprite, i, row, col) || (i == CellIndex(x, y, row, col) && SpriteBit(spriteByte, col))
          ensures i == CellIndex(x, y, row, col) ==> !Drawn(x, y, sprite, i, row, col)
        {
          DrawStep(x, y, sprite, row, col, i);
        }
        CollidedStep(g0, x, y, sprite, row, col);
        if SpriteBit(spriteByte, col) {
          var xCoord := (x + col) % Width;
          var yCoord := (y + row) % Height;
          var index := xCoord + yCoord * Width;
          assert index == CellIndex(x, y, row, col);
          if gfx[index] == 1 {
            V[VF] := 1;
          }
          gfx[index] := Toggle(gfx[index]);
        }
        col := col + 1;
      }
    }

    /** One fetch/decode/execute step followed by the timer decay. */
    method Cycle()
      requires Valid() && CanCycle(State())
      modifies this, V, stack, gfx
      ensures Valid() && State() == Step(old(State()))
    {
      opcode := Word(memory[pc], memory[pc + 1]);
      ExecuteOpcode();
      if delayTimer > 0 {
        delayTimer := delayTimer - 1;
      }
      if soundTimer > 0 {
        soundTimer := soundTimer - 1;
      }
    }

    /** The switch on `opcode & 0xf000` for the word just fetched. */
    method ExecuteOpcode()
      requires Valid() && CanExecute(State(), opcode)
      modifies this, V, stack, gfx
      ensures Valid() && State() == Execute(old(State()), old(opcode))
    {
      match Family(opcode) {
        case 0x0 =>
          var low := NN(opcode);
          if low == 0xE0 {
            Fill(gfx, 0);
            assert gfx[..] == Blank();
            pc := Wrap16(pc + 2);
          } else if low == 0xEE {
            stackptr := stackptr - 1;
            pc := stack[stackptr];
            pc := Wrap16(pc + 2);
          } else {
            pc := Wrap16(pc + 2);
          }
        case 0x1 =>
          pc := NNN(opcode);
        case 0x2 =>
          stack[stackptr] := pc;
          stackptr := stackptr + 1;
          pc := NNN(opcode);
        case 0x3 =>
          if V[X(opcode)] == NN(opcode) {
            pc := Wrap16(pc + 4);
          } else {
            pc := Wrap16(pc + 2);
          }
        case 0x6 =>
          V[X(opcode)] := NN(opcode);
          pc := Wrap16(pc + 2);
        case 0x7 =>
          V[X(opcode)] := Wrap8(V[X(opcode)] + NN(opcode));
          pc := Wrap16(pc + 2);
        case 0xA =>
          I := NNN(opcode);
          pc := Wrap16(pc + 2);
        case 0xD =>
          var x := V[X(opcode)];
          var y := V[Y(opcode)];
          var height := N(opcode);
          DrawSprite(x, y, height);
          drawFlag := true;
          pc := Wrap16(pc + 2);
        case _ =>
          pc := Wrap16(pc + 2);
      }
    }
  }
}
