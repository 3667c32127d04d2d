/** Machine words of the CHIP-8 interpreter and the decoding of a 16-bit
    instruction word into its family and operand fields. */
module Words {

  /** An unsigned 8-bit value (`uint8_t`). */
  type byte = x: int | 0 <= x < 0x100

  /** An unsigned 16-bit value (`uint16_t`). */
  type u16 = x: int | 0 <= x < 0x1_0000

  /** Assignment to a `uint16_t`: the value is reduced modulo 2^16. */
  function Wrap16(x: int): (r: u16)
    ensures 0 <= x < 0x1_0000 ==> r == x
    ensures 0x1_0000 <= x < 0x2_0000 ==> r == x - 0x1_0000
  {
    x % 0x1_0000
  }

  /** Assignment to a `uint8_t`: the value is reduced modulo 2^8. */
  function Wrap8(x: int): (r: byte)
    ensures 0 <= x < 0x100 ==> r == x
    ensures 0x100 <= x < 0x200 ==> r == x - 0x100
  {
    x % 0x100
  }

  /** `hi << 8 | lo`: two bytes combined big-endian into one instruction word. */
  function Word(hi: byte, lo: byte): (op: u16)
    ensures op / 0x100 == hi && op % 0x100 == lo
  {
    hi * 0x100 + lo
  }

  /** `(opcode & 0xf000) >> 12`: the family nibble that selects the handler. */
  function Family(op: u16): (f: nat)
    ensures f < 0x10 && f * 0x1000 <= op < (f + 1) * 0x1000
  {
    op / 0x1000
  }

  /** The dispatch value `opcode & 0xf000` has its low 12 bits clear, so it
      is never equal to the label 0xF007. */
  lemma {:induction false} FamilyMaskNeverF007(op: u16)
    ensures (Family(op) * 0x1000) % 0x1000 == 0
    ensures Family(op) * 0x1000 != 0xF007
  {
  }

  /** `(opcode & 0x0f00) >> 8`: the first register operand. */
  function X(op: u16): (x: nat)
    ensures x < 0x10
  {
    (op / 0x100) % 0x10
  }

  /** `(opcode & 0x00f0) >> 4`: the second register operand. */
  function Y(op: u16): (y: nat)
    ensures y < 0x10
  {
    (op / 0x10) % 0x10
  }

  /** `opcode & 0x000f`: the low nibble. */
  function N(op: u16): (n: nat)
    ensures n < 0x10
  {
    op % 0x10
  }

  /** `opcode & 0x00ff`: the low byte. */
  function NN(op: u16): (nn: byte)
    ensures op == (op / 0x100) * 0x100 + nn
  {
    op % 0x100
  }

  /** `opcode & 0x0fff`: the 12-bit address. */
  function NNN(op: u16): (nnn: nat)
    ensures nnn <= 0xFFF
  {
    op % 0x1000
  }

  /** The four nibbles and the byte and address fields are one consistent
      decomposition of the word: decoding loses nothing. */
  lemma {:induction false} DecodeRecomposes(op: u16)
    ensures op == Family(op) * 0x1000 + X(op) * 0x100 + Y(op) * 0x10 + N(op)
    ensures NN(op) == Y(op) * 0x10 + N(op)
    ensures NNN(op) == X(op) * 0x100 + NN(op)
  {
    var f, a, b, c := op / 0x1000, (op / 0x100) % 0x10, (op / 0x10) % 0x10, op % 0x10;
    assert op / 0x100 == f * 0x10 + a;
    assert op / 0x10 == (op / 0x100) * 0x10 + b;
    assert op == (op / 0x10) * 0x10 + c;
  }

  /** Building a word from the fields of an instruction and fetching it back
      yields those fields: the fetch is the inverse of the big-endian encoding. */
  lemma {:induction false} WordFields(f: nat, x: nat, nn: byte)
    requires f < 0x10 && x < 0x10
    ensures var op := Word(f * 0x10 + x, nn);
      Family(op) == f && X(op) == x && NN(op) == nn && NNN(op) == x * 0x100 + nn
  {
    var op := Word(f * 0x10 + x, nn);
    assert op == f * 0x1000 + x * 0x100 + nn;
    assert op / 0x100 == f * 0x10 + x;
  }
}
