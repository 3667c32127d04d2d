/** What one interpreter cycle does, opcode family by opcode family, and what
    holds over many cycles: the call/return pair, the stack bound, the draw
    and its collision flag, the timers, the `drawFlag`, and reset. */
module MachineProperties {
  import opened Words
  import opened Display
  import opened MachineSpec

  // ---- Reset ----

  /** After `Initialize`: pc at 0x200, I, stackptr, registers, stack, display
      and timers zero, the font at 0x50..0x9F and zero elsewhere in memory;
      only `drawFlag` survives. */
  lemma {:induction false} ResetState(m: Machine)
    ensures var r := Reset(m);
      r.pc == ProgramStart && r.I == 0 && r.stackptr == 0 && r.opcode == 0 &&
      r.delayTimer == 0 && r.soundTimer == 0 && r.drawFlag == m.drawFlag &&
      (forall k :: 0 <= k < RegisterCount ==> r.V[k] == 0) &&
      (forall k :: 0 <= k < StackDepth ==> r.stack[k] == 0) &&
      (forall k :: 0 <= k < Cells ==> r.gfx[k] == 0) &&
      (forall k :: 0 <= k < |Fontset| ==> r.memory[FontStart + k] == Fontset[k]) &&
      (forall a :: 0 <= a < MemorySize && !(FontStart <= a < FontStart + |Fontset|) ==> r.memory[a] == 0)
  {
    var mem := InitialMemory();
    forall k | 0 <= k < |Fontset| ensures mem[FontStart + k] == Fontset[k] {
      assert mem[FontStart..FontStart + |Fontset|][k] == Fontset[k];
    }
  }

  /** Resetting twice is resetting once. */
  lemma {:induction false} ResetIdempotent(m: Machine)
    ensures Reset(Reset(m)) == Reset(m)
  {
  }

  /** Reset gives the freshly constructed state exactly when `drawFlag` is
      clear: `Initialize` never clears it. */
  lemma {:induction false} ResetIsPowerOnUnlessDrawFlag(m: Machine)
    ensures Reset(m) == PowerOn() <==> !m.drawFlag
    ensures !PowerOn().drawFlag
  {
  }

  // ---- One cycle, by opcode family ----

  /** 1NNN: `pc` becomes the 12-bit target; nothing else but the timers changes. */
  lemma {:induction false} JumpSetsPc(m: Machine)
    requires CanCycle(m) && Family(Fetch(m)) == 0x1
    ensures Step(m).pc == NNN(Fetch(m)) && Step(m).pc <= 0xFFF
    ensures Step(m) == DecayTimers(m.(opcode := Fetch(m), pc := NNN(Fetch(m))))
  {
  }

  /** 2NNN: the address of the call itself is pushed at `stackptr`, the pointer
      grows by one and `pc` becomes the 12-bit target. */
  lemma {:induction false} CallPushesPc(m: Machine)
    requires CanCycle(m) && Family(Fetch(m)) == 0x2
    ensures Step(m).stack == m.stack[m.stackptr := m.pc]
    ensures Step(m).stackptr == m.stackptr + 1 <= StackDepth
    ensures Step(m).pc == NNN(Fetch(m)) && Step(m).pc <= 0xFFF
    ensures Step(m).V == m.V && Step(m).I == m.I && Step(m).memory == m.memory && Step(m).gfx == m.gfx
  {
  }

  /** A 2NNN followed by a 0?EE at its target returns to the instruction after
      the call with the stack pointer restored; registers, memory and display
      are as before the call. */
  lemma {:induction false} CallThenReturn(m: Machine)
    requires CanCycle(m) && Family(Fetch(m)) == 0x2
    requires NNN(Fetch(m)) + 1 < MemorySize
    requires Family(Word(m.memory[NNN(Fetch(m))], m.memory[NNN(Fetch(m)) + 1])) == 0x0
    requires NN(Word(m.memory[NNN(Fetch(m))], m.memory[NNN(Fetch(m)) + 1])) == 0xEE
    ensures CanCycle(Step(m))
    ensures Step(Step(m)).pc == m.pc + 2
    ensures Step(Step(m)).stackptr == m.stackptr
    ensures Step(Step(m)).V == m.V && Step(Step(m)).I == m.I
    ensures Step(Step(m)).memory == m.memory && Step(Step(m)).gfx == m.gfx
  {
    var m1 := Step(m);
    assert m1.memory == m.memory && m1.pc == NNN(Fetch(m));
    assert Fetch(m1) == Word(m.memory[NNN(Fetch(m))], m.memory[NNN(Fetch(m)) + 1]);
  }

  /** 0?EE: the pointer drops by one and `pc` is the popped address plus 2
      (as a `uint16_t`). */
  lemma {:induction false} ReturnPopsPc(m: Machine)
    requires CanCycle(m) && Family(Fetch(m)) == 0x0 && NN(Fetch(m)) == 0xEE
    ensures Step(m).stackptr == m.stackptr - 1
    ensures Step(m).pc == (m.stack[m.stackptr - 1] as int + 2) % 0x1_0000
    ensures Step(m).stack == m.stack && Step(m).V == m.V && Step(m).gfx == m.gfx
  {
    var op := Fetch(m);
    ExecuteReturn(m.(opcode := op), op);
  }

  /** The 0?EE handler on its own: only `stackptr` and `pc` change. */
  lemma {:induction false} ExecuteReturn(m: Machine, op: u16)
    requires WellFormed(m) && CanExecute(m, op) && Family(op) == 0x0 && NN(op) == 0xEE
    ensures Execute(m, op) == m.(stackptr := m.stackptr - 1, pc := Wrap16(m.stack[m.stackptr - 1] as int + 2))
  {
  }

  /** The stack pointer stays within 0..16 across any cycle that runs. */
  lemma {:induction false} StackBoundPreserved(m: Machine)
    requires CanCycle(m) && m.stackptr <= StackDepth
    ensures Step(m).stackptr <= StackDepth
    ensures Step(m).stackptr == (
      if Family(Fetch(m)) == 0x2 then m.stackptr + 1
      else if Family(Fetch(m)) == 0x0 && NN(Fetch(m)) == 0xEE then m.stackptr - 1
      else m.stackptr)
  {
  }

  /** 3XNN: skip the next instruction exactly when V[X] == NN; nothing else
      but the timers changes. */
  lemma {:induction false} SkipIfEqual(m: Machine)
    requires CanCycle(m) && Family(Fetch(m)) == 0x3
    ensures Step(m).pc == m.pc + (if m.V[X(Fetch(m))] == NN(Fetch(m)) then 4 else 2)
    ensures Step(m) == DecayTimers(m.(opcode := Fetch(m), pc := Step(m).pc))
  {
  }

  /** 6XNN: V[X] := NN, `pc` advances by 2, no other register changes. */
  lemma {:induction false} LoadRegister(m: Machine)
    requires CanCycle(m) && Family(Fetch(m)) == 0x6
    ensures Step(m).V[X(Fetch(m))] == NN(Fetch(m))
    ensures forall k :: 0 <= k < RegisterCount && k != X(Fetch(m)) ==> Step(m).V[k] == m.V[k]
    ensures Step(m) == DecayTimers(m.(opcode := Fetch(m), pc := m.pc + 2, V := Step(m).V))
  {
  }

  /** 7XNN: V[X] := (V[X] + NN) mod 256, with no carry into VF: every other
      register, VF included when X is not F, keeps its value. */
  lemma {:induction false} AddImmediateWraps(m: Machine)
    requires CanCycle(m) && Family(Fetch(m)) == 0x7
    ensures Step(m).V[X(Fetch(m))] == (m.V[X(Fetch(m))] + NN(Fetch(m))) % 0x100
    ensures m.V[X(Fetch(m))] + NN(Fetch(m)) >= 0x100 ==>
      Step(m).V[X(Fetch(m))] == m.V[X(Fetch(m))] + NN(Fetch(m)) - 0x100
    ensures forall k :: 0 <= k < RegisterCount && k != X(Fetch(m)) ==> Step(m).V[k] == m.V[k]
    ensures Step(m) == DecayTimers(m.(opcode := Fetch(m), pc := m.pc + 2, V := Step(m).V))
  {
  }

  /** ANNN: I := NNN, so I is at most 0xFFF; `pc` advances by 2 and no register changes. */
  lemma {:induction false} LoadIndex(m: Machine)
    requires CanCycle(m) && Family(Fetch(m)) == 0xA
    ensures Step(m).I == NNN(Fetch(m)) && Step(m).I <= 0xFFF
    ensures Step(m) == DecayTimers(m.(opcode := Fetch(m), pc := m.pc + 2, I := NNN(Fetch(m))))
  {
  }

  /** The words without a handler: families 4, 5, 8, 9, B, C, E and F
      (FX07 among them) and the 0-family words other than 0?E0 and 0?EE. */
  predicate Unimplemented(op: u16)
  {
    Family(op) in {0x4, 0x5, 0x8, 0x9, 0xB, 0xC, 0xE, 0xF} ||
    (Family(op) == 0x0 && NN(op) != 0xE0 && NN(op) != 0xEE)
  }

  /** A word without a handler only advances `pc` by 2 (and the timers decay). */
  lemma {:induction false} UnimplementedOnlyAdvances(m: Machine)
    requires CanCycle(m) && Unimplemented(Fetch(m))
    ensures Step(m) == DecayTimers(m.(opcode := Fetch(m), pc := m.pc + 2))
  {
  }

  /** FX07 in particular does not copy the delay timer into V[X]: the register
      file is untouched by any F-family word. */
  lemma {:induction false} LoadDelayTimerIsDead(m: Machine)
    requires CanCycle(m) && Family(Fetch(m)) == 0xF && NN(Fetch(m)) == 0x07
    ensures Step(m).V == m.V
    ensures Step(m).pc == m.pc + 2
  {
    UnimplementedOnlyAdvances(m);
  }

  /** 0?E0: every display cell becomes 0, `pc` advances by 2, and `drawFlag`
      is NOT set. */
  lemma {:induction false} ClearScreen(m: Machine)
    requires CanCycle(m) && Family(Fetch(m)) == 0x0 && NN(Fetch(m)) == 0xE0
    ensures forall i :: 0 <= i < Cells ==> Step(m).gfx[i] == 0
    ensures Step(m) == DecayTimers(m.(opcode := Fetch(m), pc := m.pc + 2, gfx := Step(m).gfx))
  {
  }

  /** DXYN, on the display: each set sprite bit at (row, col) toggles the
      cell it wraps onto, cells no set bit lands on stay as they were, and a
      0/1 display stays 0/1. The coordinates are V[X] and V[Y] as they were
      before VF is cleared. */
  lemma {:induction false} DrawSpriteCells(m: Machine)
    requires CanCycle(m) && Family(Fetch(m)) == 0xD
    ensures var op := Fetch(m);
      var x, y := m.V[X(op)], m.V[Y(op)];
      var sprite := Sprite(m.memory, m.I, N(op));
      var r := Step(m);
      (forall row, col :: 0 <= row < N(op) && 0 <= col < 8 && SpriteBit(sprite[row], col) ==>
        r.gfx[CellIndex(x, y, row, col)] == Toggle(m.gfx[CellIndex(x, y, row, col)])) &&
      (forall i :: 0 <= i < Cells && (forall row, col :: 0 <= row < N(op) && 0 <= col < 8 && SpriteBit(sprite[row], col) ==> CellIndex(x, y, row, col) != i) ==>
        r.gfx[i] == m.gfx[i]) &&
      ((forall i :: 0 <= i < Cells ==> m.gfx[i] <= 1) ==> (forall i :: 0 <= i < Cells ==> r.gfx[i] <= 1))
  {
    var op := Fetch(m);
    var x, y := m.V[X(op)], m.V[Y(op)];
    var sprite := Sprite(m.memory, m.I, N(op));
    var r := Step(m);
    assert r.gfx == Draw(m.gfx, x, y, sprite);
    forall row, col | 0 <= row < N(op) && 0 <= col < 8 && SpriteBit(sprite[row], col)
      ensures r.gfx[CellIndex(x, y, row, col)] == Toggle(m.gfx[CellIndex(x, y, row, col)])
    {
      DrawTogglesSpriteBits(m.gfx, x, y, sprite, row, col);
    }
    forall i | 0 <= i < Cells && (forall row, col :: 0 <= row < N(op) && 0 <= col < 8 && SpriteBit(sprite[row], col) ==> CellIndex(x, y, row, col) != i)
      ensures r.gfx[i] == m.gfx[i]
    {
      DrawLeavesUnhitCells(m.gfx, x, y, sprite, i);
    }
    if forall i :: 0 <= i < Cells ==> m.gfx[i] <= 1 {
      DrawKeepsBinary(m.gfx, x, y, sprite);
    }
  }

  /** DXYN, on the registers: VF is 1 exactly when some set sprite bit lands
      on a cell that was 1, and 0 otherwise; every other register keeps its
      value. */
  lemma {:induction false} DrawSpriteFlag(m: Machine)
    requires CanCycle(m) && Family(Fetch(m)) == 0xD
    ensures var op := Fetch(m);
      var x, y := m.V[X(op)], m.V[Y(op)];
      var sprite := Sprite(m.memory, m.I, N(op));
      (Step(m).V[VF] == 1 <==>
        exists row, col :: 0 <= row < N(op) && 0 <= col < 8 && SpriteBit(sprite[row], col) && m.gfx[CellIndex(x, y, row, col)] == 1) &&
      Step(m).V[VF] <= 1 &&
      (forall k :: 0 <= k < VF ==> Step(m).V[k] == m.V[k])
  {
    var op := Fetch(m);
    CollisionIff(m.gfx, m.V[X(op)], m.V[Y(op)], Sprite(m.memory, m.I, N(op)));
  }

  /** DXYN, on the rest of the state: `drawFlag` becomes true, `pc` advances
      by 2, memory, I and the stack are unchanged. */
  lemma {:induction false} DrawSpriteRest(m: Machine)
    requires CanCycle(m) && Family(Fetch(m)) == 0xD
    ensures Step(m).drawFlag && Step(m).pc == m.pc + 2
    ensures Step(m).memory == m.memory && Step(m).I == m.I && Step(m).stack == m.stack && Step(m).stackptr == m.stackptr
  {
  }

  /** Drawing onto a clear display leaves VF at 0. */
  lemma {:induction false} DrawOnBlankNoCollision(m: Machine)
    requires CanCycle(m) && Family(Fetch(m)) == 0xD && m.gfx == Blank()
    ensures Step(m).V[VF] == 0
  {
    var op := Fetch(m);
    NoCollisionOnBlank(m.V[X(op)], m.V[Y(op)], Sprite(m.memory, m.I, N(op)));
  }

  /** The timers decay once per cycle, whatever the opcode, saturating at 0. */
  lemma {:induction false} StepDecaysTimers(m: Machine)
    requires CanCycle(m)
    ensures Step(m).delayTimer == if m.delayTimer == 0 then 0 else m.delayTimer - 1
    ensures Step(m).soundTimer == if m.soundTimer == 0 then 0 else m.soundTimer - 1
  {
  }

  /** `drawFlag` is set by DXYN and by nothing else; no opcode clears it. */
  lemma {:induction false} DrawFlagOnlyByDraw(m: Machine)
    requires CanCycle(m)
    ensures Step(m).drawFlag == (m.drawFlag || Family(Fetch(m)) == 0xD)
  {
  }

  // ---- Many cycles ----

  function Max(a: int, b: int): int { if a < b then b else a }

  /** After `k` cycles the timers have decayed by `k`, stopping at 0. */
  lemma {:induction false} RunDecaysTimers(m: Machine, k: nat)
    requires Run(m, k).Some?
    ensures Run(m, k).value.delayTimer == Max(m.delayTimer - k, 0)
    ensures Run(m, k).value.soundTimer == Max(m.soundTimer - k, 0)
    decreases k
  {
    if k > 0 {
      StepDecaysTimers(m);
      RunDecaysTimers(Step(m), k - 1);
    }
  }

  /** Over any number of cycles `drawFlag` only ever goes from false to true,
      and the stack pointer stays within 0..16. */
  lemma {:induction false} RunKeepsStackBound(m: Machine, k: nat)
    requires Run(m, k).Some? && m.stackptr <= StackDepth
    ensures Run(m, k).value.stackptr <= StackDepth
    ensures m.drawFlag ==> Run(m, k).value.drawFlag
    decreases k
  {
    if k > 0 {
      StackBoundPreserved(m);
      DrawFlagOnlyByDraw(m);
      RunKeepsStackBound(Step(m), k - 1);
    }
  }

  /** The ROM `00 E0 12 00`: clear the screen, then jump back to 0x200. */
  const ClearLoopRom: seq<byte> := [0x00, 0xE0, 0x12, 0x00]

  /** The states the clear-loop ROM passes through: its code in memory, pc on
      one of its two instructions, a clear display and a clear `drawFlag`. */
  predicate InClearLoop(m: Machine)
  {
    WellFormed(m) &&
    m.memory[ProgramStart] == 0x00 && m.memory[ProgramStart + 1] == 0xE0 &&
    m.memory[ProgramStart + 2] == 0x12 && m.memory[ProgramStart + 3] == 0x00 &&
    (m.pc == ProgramStart || m.pc == ProgramStart + 2) &&
    m.gfx == Blank() && !m.drawFlag
  }

  lemma {:induction false} ClearLoopStep(m: Machine)
    requires InClearLoop(m)
    ensures CanCycle(m) && InClearLoop(Step(m))
    ensures Step(m).pc == if m.pc == ProgramStart then ProgramStart + 2 else ProgramStart
  {
    if m.pc == ProgramStart {
      assert Fetch(m) == 0x00E0;
    } else {
      assert Fetch(m) == 0x1200;
    }
  }

  /** The clear-loop ROM loaded into a fresh machine runs for ever: every
      number of cycles can be executed, the display stays clear and
      `drawFlag` is never raised (0?E0 does not set it). */
  lemma {:induction false} ClearLoopRunsForever(k: nat)
    ensures Run(Load(PowerOn(), ClearLoopRom), k).Some?
    ensures var r := Run(Load(PowerOn(), ClearLoopRom), k).value;
      r.gfx == Blank() && !r.drawFlag && (r.pc == ProgramStart || r.pc == ProgramStart + 2)
  {
    var m := Load(PowerOn(), ClearLoopRom);
    assert InClearLoop(m);
    ClearLoopRuns(m, k);
  }

  lemma {:induction false} ClearLoopRuns(m: Machine, k: nat)
    requires InClearLoop(m)
    ensures Run(m, k).Some? && InClearLoop(Run(m, k).value)
    decreases k
  {
    if k > 0 {
      ClearLoopStep(m);
      ClearLoopRuns(Step(m), k - 1);
    }
  }
}
