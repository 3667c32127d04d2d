# CHIP-8 interpreter core

A Dafny model of the `Chip8` virtual machine of a small C++ CHIP-8 emulator.
It covers the machine state (4096 bytes of memory, sixteen 8-bit registers
V0..VF, the 16-bit index register `I` and program counter `pc`, a 16-entry
return stack with its pointer, the delay and sound timers, the 64x32
framebuffer `gfx` and `drawFlag`), the reset done by `Initialize`, and one
`Cycle`. A cycle fetches a big-endian word at `pc`, dispatches on its top
nibble, runs one of the implemented handlers (00E0, 00EE, 1NNN, 2NNN, 3XNN,
6XNN, 7XNN, ANNN and DXYN; every other word only advances `pc`), and then
decrements both timers, stopping at zero.

The model has two layers:

- `MachineSpec` gives the state as a value (`Machine`) and each transition
  as a function: `Reset`, `PowerOn`, `Load`, `Execute` and `Step`.
  `Run` is `k` cycles in a row. `Display` specifies the sprite draw one
  cell at a time, with wrap-around on both axes, XOR, and the collision
  flag. `Words` decodes the 16-bit word and gives the `uint8_t` and
  `uint16_t` wrap-around.
- `Chip8Vm.Chip8` is the class. Its memory, registers, stack and framebuffer
  are arrays, changed in place by `Initialize`, `LoadRom` and `Cycle`. Each
  method is proved to leave `State()` equal to the matching spec function
  applied to the old state. DXYN keeps the C++ code's nested row/column
  loop, with loop invariants.
- `MachineProperties` proves what the handlers promise, using the spec
  functions.

The C++ code does not check any array access, and reports no error statuses.
So each access it leaves unchecked is a precondition here (`CanCycle`,
`CanExecute`, the size bound of `LoadRom`):

- the fetch needs `pc + 1 < 4096`;
- 2NNN needs `stackptr < 16`;
- 0?EE needs `1 <= stackptr <= 16`;
- DXYN needs `I + N <= 4096` when N > 0.

Where this code differs from the usual CHIP-8 behaviour, the model follows
the code:

- 00E0 does not set `drawFlag`.
- FX07 is dead code: its `case 0xf007` label can never match the value
  `opcode & 0xf000`, so every F-family word only advances `pc`.
- The 0-family switch looks only at the low byte, so any 0?E0 clears the
  screen and any 0?EE returns.
- 2NNN pushes the address of the call itself; 0?EE adds 2 after the pop.
- The timers decay once per executed instruction, not at 60 Hz.
- `Initialize` does not reset `drawFlag`.
- The font glyph for 0 ends in the row 0x90, not 0xF0, so the digit has no
  bottom bar. The model's `Fontset` keeps the code's 80 bytes.
- Stack overflow and underflow, a fetch past the end of memory, and a
  ROM that is too large are preconditions, not error results.

## Model

| member | source | states |
|---|---|---|
| `Words.Word` | chip8/chip8.cpp:63 | the fetched word is `memory[pc]` shifted left by 8 OR `memory[pc+1]`: its high byte is the first byte and its low byte the second |
| `Words.Wrap16` | chip8/chip8.h:18-19 | assignment to a `uint16_t` (`I`, `pc`, `stackptr`) reduces modulo 2^16 and is the identity on values in range |
| `Words.Wrap8` | chip8/chip8.cpp:116 | `V[X] += NN` on a `uint8_t` reduces modulo 256 and is the identity on values in range |
| `Words.Family` | chip8/chip8.cpp:66 | the dispatch nibble `(opcode & 0xf000) >> 12` is below 16, and the word lies in that family's 4096-value block |
| `Words.FamilyMaskNeverF007` | chip8/chip8.cpp:120 | the dispatch value `opcode & 0xf000` has its low 12 bits clear, so it never equals the label 0xf007 |
| `Words.NN` | chip8/chip8.cpp:96 | the operand `opcode & 0x00ff` is the low byte: the word is its high byte times 256 plus NN |
| `Words.X` | chip8/chip8.cpp:95 | the X operand `(opcode & 0x0f00) >> 8` is a register index 0..15, so `V[X]` is always in bounds |
| `Words.Y` | chip8/chip8.cpp:136 | the Y operand `(opcode & 0x00f0) >> 4` is a register index 0..15 |
| `Words.N` | chip8/chip8.cpp:137 | the sprite height `opcode & 0x000f` is below 16 |
| `Words.NNN` | chip8/chip8.cpp:86 | jump, call and index targets `opcode & 0x0fff` are at most 0xFFF |
| `Words.DecodeRecomposes` | chip8/chip8.cpp:94-96 | family, X, Y and N add back up to the word; NN and NNN are its low byte and its low 12 bits |
| `Words.WordFields` | chip8/chip8.cpp:63-66 | decoding a word built big-endian from a family, an X and a byte gives back those fields |
| `Display.SpriteBit` | chip8/chip8.cpp:144 | the pixel test `spriteByte & (0x80 >> col) != 0`, on `bv8`; `SpriteBitIsPixel` gives it an integer meaning |
| `Display.SpriteBitIsPixel` | chip8/chip8.cpp:144 | the mask test holds exactly when bit 7 - col of the sprite row is 1, with column 0 the leftmost pixel |
| `Display.Toggle` | chip8/chip8.cpp:152 | `gfx[index] ^= 1`: bit 0 of the cell flips and the higher bits stay as they were |
| `Display.CellIndex` | chip8/chip8.cpp:145-147 | the row-major draw index `(x+col)%64 + 64*((y+row)%32)` is always below 2048 |
| `Display.CellCoordinates` | chip8/chip8.cpp:145-147 | undoing the wrap of a drawn cell gives back the sprite row and column, so no two pixels of one sprite land on the same cell |
| `Display.CellFromCoordinates` | chip8/chip8.cpp:145-147 | every cell is the image of the sprite coordinates found by undoing the wrap |
| `Display.Hit` | chip8/chip8.cpp:143-147 | a cell is hit when the sprite pixel that wraps onto it exists (column below 8, row below N) and is set; `HitIff` proves this equals "some set pixel lands here" |
| `Display.Draw` | chip8/chip8.cpp:140-155 | the framebuffer after the draw has 2048 cells, each hit cell toggled and every other cell kept; `DrawSprite` proves the nested loop computes it |
| `Display.Collision` | chip8/chip8.cpp:149-151 | some hit cell was 1 before the draw; `CollisionIff` and `DrawSprite` tie it to the loop's VF |
| `Display.DrawTogglesSpriteBits` | chip8/chip8.cpp:143-153 | every set sprite bit at (row, col) XORs 1 into the cell it wraps onto |
| `Display.DrawLeavesUnhitCells` | chip8/chip8.cpp:140-155 | a cell that no set sprite bit wraps onto keeps its value |
| `Display.HitIff` | chip8/chip8.cpp:143-147 | a cell is changed by the draw exactly when some set sprite bit wraps onto it (both directions) |
| `Display.CollisionIff` | chip8/chip8.cpp:149-151 | the collision holds exactly when some set sprite bit lands on a cell that was 1 (both directions) |
| `Display.DrawKeepsBinary` | chip8/chip8.cpp:152 | a display of 0/1 cells stays 0/1; each hit cell becomes 1 minus its old value |
| `Display.DrawTwiceRestores` | chip8/chip8.cpp:140-155 | drawing the same sprite twice at the same place restores the display |
| `Display.NoCollisionOnBlank` | chip8/chip8.cpp:149-151 | drawing on an all-clear display never collides |
| `Display.RedrawOnBlank` | chip8/chip8.cpp:138-155 | redrawing a sprite just drawn on a clear display collides exactly when the sprite has a set pixel, and clears the display again |
| `Display.WrapAtRightEdge` | chip8/chip8.cpp:145-147 | an 8-pixel row drawn at x = 60 sets columns 60..63 and, via wrap, columns 0..3 of the same row |
| `MachineSpec.PowerOn` | chip8/chip8.cpp:6-8 | a new machine is well formed, has `drawFlag` false (chip8.h:12), pc at 0x200, and is unchanged by a further reset |
| `MachineSpec.InitialMemory` | chip8/chip8.cpp:16-45 | memory after reset is 4096 bytes, holds the 80-byte font at 0x50..0x9F and is zero everywhere else |
| `MachineSpec.Reset` | chip8/chip8.cpp:10-46 | the state after `Initialize` has arrays of the declared sizes |
| `MachineSpec.Load` | chip8/chip8.cpp:57 | the ROM bytes are placed verbatim from 0x200; every other memory byte and every other field is unchanged |
| `MachineSpec.Fetch` | chip8/chip8.cpp:63 | the fetched word's high byte is `memory[pc]` and its low byte `memory[pc + 1]` |
| `MachineSpec.CanExecute` | chip8/chip8.cpp:73-141 | the unchecked accesses of the handlers stay in bounds: 0?EE needs 1 <= stackptr <= 16 (lines 74-75), 2NNN needs stackptr < 16 (line 90), DXYN needs I + N <= 4096 (line 141) |
| `MachineSpec.CanCycle` | chip8/chip8.cpp:63-141 | a cycle stays in bounds: the arrays have their sizes, the fetch of `memory[pc + 1]` is in range, and `CanExecute` holds for the fetched word |
| `MachineSpec.Advance` | chip8/chip8.cpp:98-101 | `pc += delta` changes only pc, and adds delta exactly when no 16-bit wrap happens |
| `MachineSpec.Sprite` | chip8/chip8.cpp:141 | sprite row `row` is `memory[I + row]` for each of the N rows |
| `MachineSpec.Execute` | chip8/chip8.cpp:66-165 | every handler keeps the array sizes (memory 4096, 16 registers, 16 stack slots, 2048 cells) |
| `MachineSpec.Decay` | chip8/chip8.cpp:167 | `if (t > 0) --t;`: a positive timer drops by one, and a zero timer stays zero |
| `MachineSpec.DecayTimers` | chip8/chip8.cpp:167-168 | both timers decay once, and every other field is unchanged |
| `MachineSpec.Step` | chip8/chip8.cpp:62-169 | a cycle that can run keeps the array sizes |
| `MachineSpec.Run` | chip8/chip8.cpp:62-169 | zero cycles give back the machine; a run of one or more cycles that completes started from a machine that could cycle, and ends well formed |
| `Chip8Vm.Fill` | chip8/chip8.cpp:16-19 | `fill` / `memset` sets every element of the array to the value |
| `Chip8Vm.Chip8.Valid` | chip8/chip8.h:11-23 | the four arrays have the declared sizes (4096, 16, 16 and 64*32) and are distinct objects |
| `Chip8Vm.Chip8.State` | chip8/chip8.h:11-23 | the fields of the class, read as one `Machine` value, which is well formed |
| `Chip8Vm.Chip8.constructor` | chip8/chip8.cpp:6-8 | a new machine is in the power-on state: `Initialize` applied with `drawFlag` false, which is its member initializer (chip8.h:12) |
| `Chip8Vm.Chip8.Initialize` | chip8/chip8.cpp:10-46 | the arrays and fields become exactly `Reset` of the old state: all reset, font copied by the loop, `drawFlag` kept |
| `Chip8Vm.Chip8.LoadRom` | chip8/chip8.cpp:57 | the copy loop leaves memory exactly as `Load` of the old state |
| `Chip8Vm.Chip8.DrawSprite` | chip8/chip8.cpp:138-155 | the nested row/column loop leaves `gfx` equal to the cell-by-cell `Draw`, and leaves the registers with only VF changed, to 1 or 0 as `Collision` says |
| `Chip8Vm.Chip8.DrawSpriteRow` | chip8/chip8.cpp:143-154 | the column loop over one sprite row XORs each set pixel's cell, so after it the cells and VF are those of a draw that has also processed this row |
| `Chip8Vm.Chip8.ExecuteOpcode` | chip8/chip8.cpp:66-165 | the in-place switch leaves the machine exactly in the state `Execute` gives for the fetched word |
| `Chip8Vm.Chip8.Cycle` | chip8/chip8.cpp:62-169 | one in-place cycle (fetch, execute, timer decay) leaves the machine exactly in `Step` of the old state |
| `MachineProperties.ResetState` | chip8/chip8.cpp:10-46 | after reset: pc = 0x200; I, stackptr, opcode, the timers, all registers, stack slots and cells are 0; the font is at 0x50..0x9F and every other byte is 0; `drawFlag` is unchanged |
| `MachineProperties.ResetIdempotent` | chip8/chip8.cpp:10-46 | resetting twice gives the same state as resetting once |
| `MachineProperties.ResetIsPowerOnUnlessDrawFlag` | chip8/chip8.cpp:6-46 | reset reproduces the freshly constructed state exactly when `drawFlag` is clear; a new machine has `drawFlag` false |
| `MachineProperties.JumpSetsPc` | chip8/chip8.cpp:85-87 | 1NNN sets pc to NNN (at most 0xFFF); apart from `opcode` and the timers, nothing else changes |
| `MachineProperties.CallPushesPc` | chip8/chip8.cpp:89-92 | 2NNN stores the call's own address at `stack[stackptr]`, increments stackptr (to at most 16) and jumps to NNN; registers, I, memory and display are unchanged |
| `MachineProperties.CallThenReturn` | chip8/chip8.cpp:73-92 | a 2NNN whose target holds a 0?EE returns to the call's address + 2 with stackptr restored; registers, I, memory and display are unchanged |
| `MachineProperties.ReturnPopsPc` | chip8/chip8.cpp:73-77 | 0?EE decrements stackptr and sets pc to the popped address + 2, mod 2^16 |
| `MachineProperties.ExecuteReturn` | chip8/chip8.cpp:73-77 | the 0?EE handler changes only stackptr (down by 1) and pc (the popped address + 2, mod 2^16) |
| `MachineProperties.StackBoundPreserved` | chip8/chip8.cpp:73-92 | 0 <= stackptr <= 16 is preserved by every cycle; only 2NNN (+1) and 0?EE (-1) change it |
| `MachineProperties.SkipIfEqual` | chip8/chip8.cpp:94-104 | 3XNN advances pc by 4 exactly when V[X] == NN and by 2 otherwise; nothing else but `opcode` and the timers changes |
| `MachineProperties.LoadRegister` | chip8/chip8.cpp:106-111 | 6XNN sets V[X] to NN and advances pc by 2; every other register and field is unchanged |
| `MachineProperties.AddImmediateWraps` | chip8/chip8.cpp:113-118 | 7XNN sets V[X] to (V[X] + NN) mod 256 (wrapping past 255), advances pc by 2, and leaves every other register unchanged, VF included when X is not F |
| `MachineProperties.LoadIndex` | chip8/chip8.cpp:127-130 | ANNN sets I to NNN (at most 0xFFF) and advances pc by 2; nothing else changes |
| `MachineProperties.UnimplementedOnlyAdvances` | chip8/chip8.cpp:161-164 | words of families 4, 5, 8, 9, B, C, E and F, and 0-family words other than 0?E0/0?EE, only advance pc by 2 |
| `MachineProperties.LoadDelayTimerIsDead` | chip8/chip8.cpp:120-125 | FX07 does not copy the delay timer into V[X]: the registers are unchanged and pc advances by 2 |
| `MachineProperties.ClearScreen` | chip8/chip8.cpp:68-72 | 0?E0 sets all 2048 cells to 0 and advances pc by 2, without touching `drawFlag` or anything else |
| `MachineProperties.DrawSpriteCells` | chip8/chip8.cpp:132-155 | DXYN at the old V[X], V[Y]: each set bit toggles the cell it wraps onto, unhit cells stay unchanged, and a 0/1 display stays 0/1 |
| `MachineProperties.DrawSpriteFlag` | chip8/chip8.cpp:135-151 | after DXYN, VF is 1 exactly when some set bit hit a cell that was 1, and 0 otherwise; V0..VE are unchanged |
| `MachineProperties.DrawSpriteRest` | chip8/chip8.cpp:156-157 | DXYN sets `drawFlag` and advances pc by 2; memory, I and the stack are unchanged |
| `MachineProperties.DrawOnBlankNoCollision` | chip8/chip8.cpp:138-151 | DXYN on an all-clear display leaves VF at 0 |
| `MachineProperties.StepDecaysTimers` | chip8/chip8.cpp:167-168 | after every cycle, whatever the opcode, each timer is max(t - 1, 0) |
| `MachineProperties.DrawFlagOnlyByDraw` | chip8/chip8.cpp:156 | after a cycle, `drawFlag` is its old value or true, and it becomes true exactly on DXYN |
| `MachineProperties.RunDecaysTimers` | chip8/chip8.cpp:167-168 | after k cycles each timer is max(t - k, 0) |
| `MachineProperties.RunKeepsStackBound` | chip8/chip8.cpp:73-92 | over any number of cycles stackptr stays within 0..16, and `drawFlag` is never cleared |
| `MachineProperties.ClearLoopStep` | chip8/chip8.cpp:68-87 | with the ROM `00 E0 12 00` in memory, each cycle can run, alternates pc between 0x200 and 0x202, and keeps the display clear and `drawFlag` false |
| `MachineProperties.ClearLoopRunsForever` | chip8/chip8.cpp:62-169 | the ROM `00 E0 12 00` loaded into a new machine runs any number of cycles without an out-of-bounds access; the display stays clear and `drawFlag` stays false |
| `MachineProperties.ClearLoopRuns` | chip8/chip8.cpp:62-169 | from any state of the clear loop, every number of cycles runs and stays in the loop |

## Left out

- The file-stream part of `LoadROM` (open, size query, read, error message) is I/O. Only the copy of the bytes to 0x200 is modelled, in `LoadRom` and `Load`.
- `Chip8Vm.Chip8.LoadRom`: the C++ code copies the file with no size check and can overflow memory. The model requires `|rom| <= 4096 - 0x200`, so it states nothing about an oversized ROM.
- All console logging inside `Cycle` is left out; it does not affect the machine state.
- The embedding program `main.cpp` is not part of this model: the SDL window, event polling, pixel blitting, the delay between cycles, and the clearing of `drawFlag` after rendering.
- The F-family handlers in the comment block after `Cycle` are not modelled. They are not compiled.
- Opcodes the C++ code does not implement (4XNN, 5XY0, 9XY0, the 8XY ALU family, BNNN, CXNN, EX9E/EXA1, the Fxxx family, key wait) are not modelled as the usual CHIP-8 instructions. Like the code, the model treats them as words that only advance `pc`.
- `MachineSpec.Run`: a cycle whose access would go out of bounds is undefined behaviour in C++, so `Run` returns `None` there. It does not model what the C++ program would actually do in that case.
- The sprite-bit test `spriteByte & (0x80 >> col)` is modelled on `bv8`. The other integer arithmetic is on unbounded integers, with the `uint8_t`/`uint16_t` wrap written out (`Wrap8`, `Wrap16`). The `uint8_t` sprite-height variable and the `int` index arithmetic cannot overflow for these ranges.
