/**
 * The assembler's 6502 instruction knowledge: the opcode classifier that
 * derives an instruction's length and operand properties from the bit
 * fields of its opcode, the table of mnemonics, and the way the parser
 * turns a mnemonic plus an addressing mode into an opcode.
 *
 * A 6502 opcode is `aaabbbcc`; the `b` field (bits 2..4, kept in place, so
 * always a multiple of 4) selects the addressing mode for most instructions.
 */
module Opcodes {
  import opened Base

  // b-values, kept shifted left by two as in the opcode itself
  const B_XPTR: bv8 := 0x00
  const B_ZP: bv8 := 0x04
  const B_IMM: bv8 := 0x08
  const B_ABS: bv8 := 0x0c
  const B_YPTR: bv8 := 0x10
  const B_XOFZ: bv8 := 0x14
  const B_YOFF: bv8 := 0x18
  const B_XOFF: bv8 := 0x1c
  /** Not a real b-value: the instruction has no operand. */
  const B_IMP: bv8 := 0x20
  /** Not a real b-value: a relative branch. */
  const B_REL: bv8 := 0x24

  // property bits; the top two bits hold the instruction length
  const BPROP_ZP: bv8 := 0x01
  const BPROP_ABS: bv8 := 0x02
  const BPROP_PTR: bv8 := 0x04
  const BPROP_SHR: bv8 := 0x08
  const BPROP_IMM: bv8 := 0x10
  const BPROP_RELATIVE: bv8 := 0x20
  const BPROP_SIZE_SHIFT: bv8 := 6

  /** The b-value of an opcode, special-casing the groups whose b field is not an addressing mode. */
  function GetB(opcode: bv8): (b: bv8)
    ensures b & 0x03 == 0 && b >> 2 < 10
    ensures b == B_REL <==> opcode & 0x1c == 0x10 && opcode & 0x03 in {0x00, 0x03}
  {
    if opcode & 0x03 == 0x01 then
      opcode & 0x1c                   // the normal ALU block
    else if opcode & 0x03 == 0x02 then
      if opcode & 0x04 != 0 then opcode & 0x1c
      else if opcode == 0xa2 then B_IMM   // ldx #
      else B_IMP
    else
      if opcode & 0x04 != 0 then opcode & 0x1c
      else if opcode & 0x1c == 0x10 then B_REL
      else if opcode == 0x20 then B_ABS   // jsr
      else if opcode & 0x9c == 0x80 then B_IMM   // ldy/cpx/cpy #
      else B_IMP
  }

  /** Properties of each b-value, indexed by `b >> 2`. */
  const BPropsTable: seq<bv8> := [
    (2 << BPROP_SIZE_SHIFT) | BPROP_ZP | BPROP_PTR,   // B_XPTR
    (2 << BPROP_SIZE_SHIFT) | BPROP_ZP,               // B_ZP
    (2 << BPROP_SIZE_SHIFT) | BPROP_IMM,              // B_IMM
    (3 << BPROP_SIZE_SHIFT) | BPROP_ABS | BPROP_SHR,  // B_ABS
    (2 << BPROP_SIZE_SHIFT) | BPROP_ZP | BPROP_PTR,   // B_YPTR
    (2 << BPROP_SIZE_SHIFT) | BPROP_ZP,               // B_XOFZ
    (3 << BPROP_SIZE_SHIFT) | BPROP_ABS,              // B_YOFF
    (3 << BPROP_SIZE_SHIFT) | BPROP_ABS | BPROP_SHR,  // B_XOFF
    (1 << BPROP_SIZE_SHIFT),                          // B_IMP
    (2 << BPROP_SIZE_SHIFT) | BPROP_RELATIVE          // B_REL
  ]

  /** The table lookup `flags[b >> 2]`; the table has ten entries. */
  function GetBProps(b: bv8): (props: bv8)
    requires b >> 2 < 10
    ensures 1 <= props >> BPROP_SIZE_SHIFT <= 3
    ensures props & BPROP_RELATIVE != 0 <==> b >> 2 == 9
  {
    BPropsTable[(b >> 2) as int]
  }

  /** Properties of an opcode; both forms of JMP are absolute three-byte instructions. */
  function GetInsnProps(opcode: bv8): (props: bv8)
    ensures 1 <= props >> BPROP_SIZE_SHIFT <= 3
    ensures props & BPROP_RELATIVE != 0 <==> opcode & 0x1c == 0x10 && opcode & 0x03 in {0x00, 0x03}
  {
    if opcode == 0x4c || opcode == 0x6c then
      (3 << BPROP_SIZE_SHIFT) | BPROP_ABS
    else
      GetBProps(GetB(opcode))
  }

  predicate IsRelative(opcode: bv8)
  {
    GetInsnProps(opcode) & BPROP_RELATIVE != 0
  }

  /** Instruction length in bytes: the top two bits of the properties. */
  function GetInsnLength(opcode: bv8): (len: nat)
    ensures 1 <= len <= 3
    ensures opcode == 0x4c || opcode == 0x6c ==> len == 3
    ensures opcode & 0x1f == 0x10 ==> len == 2
  {
    (GetInsnProps(opcode) >> BPROP_SIZE_SHIFT) as nat
  }

  // --- Addressing modes ---------------------------------------------------

  const AM_XPTR: bv16 := 0x0001   // (zp, x)
  const AM_ZP: bv16 := 0x0002     // zp
  const AM_IMM: bv16 := 0x0004    // #imm
  const AM_ABS: bv16 := 0x0008    // abs
  const AM_YPTR: bv16 := 0x0010   // (zp), y
  const AM_XOFZ: bv16 := 0x0020   // zp, x
  const AM_YOFF: bv16 := 0x0040   // abs, y
  const AM_XOFF: bv16 := 0x0080   // abs, x
  const AM_IMP: bv16 := 0x0100    // no operand
  const AM_A: bv16 := 0x0200      // A
  const AM_IMMS: bv16 := 0x0400   // #imm for the c=0 group
  const AM_WIND: bv16 := 0x0800   // (abs)
  const AM_YOFZ: bv16 := 0x1000   // zp, y

  const AM_ALU: bv16 := AM_XPTR | AM_ZP | AM_IMM | AM_ABS | AM_YPTR | AM_XOFZ | AM_XOFF | AM_YOFF

  /** The value added to a base opcode for each addressing mode, indexed by bit number. */
  const BOfAmTable: seq<bv8> := [
    B_XPTR,        // AM_XPTR
    B_ZP,          // AM_ZP
    B_IMM,         // AM_IMM
    B_ABS,         // AM_ABS
    B_YPTR,        // AM_YPTR
    B_XOFZ,        // AM_XOFZ
    B_YOFF,        // AM_YOFF
    B_XOFF,        // AM_XOFF
    0,             // AM_IMP
    2 << 2,        // AM_A
    0 << 2,        // AM_IMMS
    0x20 | B_ABS,  // AM_WIND: turns jmp 0x4c into 0x6c
    B_XOFZ         // AM_YOFZ
  ]

  /** The index of the lowest set bit of `am`, looking at no more than `fuel` bits. */
  function LowestSetBit(am: bv16, fuel: nat): (p: nat)
    ensures p <= fuel
  {
    if fuel == 0 || am & 1 == 1 then 0 else 1 + LowestSetBit(am >> 1, fuel - 1)
  }

  /**
   * The offset for addressing mode `am`: shift `am` right until its lowest
   * bit is set and index the table with the count. The source loops forever
   * on 0 and reads past its table for bits above 12; both are excluded.
   */
  method GetBofAM(am: bv16) returns (b: bv8)
    requires LowestSetBit(am, 16) < |BOfAmTable|
    ensures b == BOfAmTable[LowestSetBit(am, 16)]
  {
    var p: nat := 0;
    var a := am;
    while a & 1 == 0
      invariant p <= LowestSetBit(am, 16) == p + LowestSetBit(a, 16 - p)
      decreases LowestSetBit(am, 16) - p
    {
      p := p + 1;
      a := a >> 1;
    }
    b := BOfAmTable[p];
  }

  /** The single-mode flags, in bit order. */
  const ModeFlags: seq<bv16> := [
    AM_XPTR, AM_ZP, AM_IMM, AM_ABS, AM_YPTR, AM_XOFZ, AM_YOFF, AM_XOFF,
    AM_IMP, AM_A, AM_IMMS, AM_WIND, AM_YOFZ
  ]

  /** The bit number of a single-mode flag, written out case by case. */
  function ModeIndex(am: bv16): (k: nat)
    ensures am in ModeFlags ==> k < |ModeFlags| && ModeFlags[k] == am
  {
    if am == AM_XPTR then 0 else if am == AM_ZP then 1 else if am == AM_IMM then 2
    else if am == AM_ABS then 3 else if am == AM_YPTR then 4 else if am == AM_XOFZ then 5
    else if am == AM_YOFF then 6 else if am == AM_XOFF then 7 else if am == AM_IMP then 8
    else if am == AM_A then 9 else if am == AM_IMMS then 10 else if am == AM_WIND then 11
    else if am == AM_YOFZ then 12 else 13
  }

  /** For a single-mode flag the source's bit scan finds the flag's own bit number. */
  lemma {:induction false} BitScanFindsModeIndex(am: bv16)
    requires am in ModeFlags
    ensures LowestSetBit(am, 16) == ModeIndex(am) < |BOfAmTable|
  {
    if am == AM_XPTR || am == AM_ZP || am == AM_IMM || am == AM_ABS {
    } else if am == AM_YPTR || am == AM_XOFZ || am == AM_YOFF || am == AM_XOFF {
    } else if am == AM_IMP || am == AM_A || am == AM_IMMS {
    } else {
    }
  }

  // --- The instruction table -----------------------------------------------

  type Mnemonic = s: string | |s| == 3 witness "NOP"

  datatype Instruction = Instruction(name: Mnemonic, opcode: bv8, modes: bv16)

  const Instructions: seq<Instruction> := [
    Instruction("ADC", 0x61, AM_ALU),
    Instruction("AND", 0x21, AM_ALU),
    Instruction("ASL", 0x02, AM_ZP | AM_A | AM_ABS | AM_XOFZ | AM_XOFF),
    Instruction("BCC", 0x90, AM_ABS),
    Instruction("BCS", 0xb0, AM_ABS),
    Instruction("BEQ", 0xf0, AM_ABS),
    Instruction("BIT", 0x20, AM_ZP | AM_ABS),
    Instruction("BMI", 0x30, AM_ABS),
    Instruction("BNE", 0xd0, AM_ABS),
    Instruction("BPL", 0x10, AM_ABS),
    Instruction("BRK", 0x00, AM_IMP),
    Instruction("BVC", 0x50, AM_ABS),
    Instruction("BVS", 0x70, AM_ABS),
    Instruction("CLC", 0x18, AM_IMP),
    Instruction("CLD", 0xd8, AM_IMP),
    Instruction("CLI", 0x58, AM_IMP),
    Instruction("CLV", 0xb8, AM_IMP),
    Instruction("CMP", 0xc1, AM_ALU),
    Instruction("CPX", 0xe0, AM_IMMS | AM_ZP | AM_ABS),
    Instruction("CPY", 0xc0, AM_IMMS | AM_ZP | AM_ABS),
    Instruction("DEC", 0xc2, AM_ZP | AM_ABS | AM_XOFZ | AM_XOFF),
    Instruction("DEX", 0xca, AM_IMP),
    Instruction("DEY", 0x88, AM_IMP),
    Instruction("EOR", 0x41, AM_ALU),
    Instruction("INC", 0xe2, AM_ZP | AM_ABS | AM_XOFZ | AM_XOFF),
    Instruction("INX", 0xe8, AM_IMP),
    Instruction("INY", 0xc8, AM_IMP),
    Instruction("JMP", 0x40, AM_ABS | AM_WIND),
    Instruction("JSR", 0x20 - B_ABS, AM_ABS),
    Instruction("LDA", 0xa1, AM_ALU),
    Instruction("LDX", 0xa2, AM_IMMS | AM_ZP | AM_ABS | AM_YOFZ | AM_YOFF),
    Instruction("LDY", 0xa0, AM_IMMS | AM_ZP | AM_ABS | AM_XOFZ | AM_XOFF),
    Instruction("LSR", 0x42, AM_ZP | AM_A | AM_ABS | AM_XOFZ | AM_XOFF),
    Instruction("NOP", 0xea, AM_IMP),
    Instruction("ORA", 0x01, AM_ALU),
    Instruction("PHA", 0x48, AM_IMP),
    Instruction("PHP", 0x08, AM_IMP),
    Instruction("PLA", 0x68, AM_IMP),
    Instruction("PLP", 0x28, AM_IMP),
    Instruction("ROL", 0x22, AM_ZP | AM_A | AM_ABS | AM_XOFZ | AM_XOFF),
    Instruction("ROR", 0x62, AM_ZP | AM_A | AM_ABS | AM_XOFZ | AM_XOFF),
    Instruction("RTI", 0x40, AM_IMP),
    Instruction("RTS", 0x60, AM_IMP),
    Instruction("SBC", 0xe1, AM_ALU),
    Instruction("SEC", 0x38, AM_IMP),
    Instruction("SED", 0xf8, AM_IMP),
    Instruction("SEI", 0x78, AM_IMP),
    Instruction("STA", 0x81, AM_ALU & !AM_IMM),
    Instruction("STX", 0x82, AM_ZP | AM_ABS | AM_YOFZ),
    Instruction("STY", 0x80, AM_ZP | AM_ABS | AM_XOFZ),
    Instruction("TAX", 0xaa, AM_IMP),
    Instruction("TAY", 0xa8, AM_IMP),
    Instruction("TSX", 0xba, AM_IMP),
    Instruction("TXA", 0x8a, AM_IMP),
    Instruction("TXS", 0x9a, AM_IMP),
    Instruction("TYA", 0x98, AM_IMP)
  ]

  /** `toupper` on ASCII. */
  function ToUpper(c: char): char
  {
    if 'a' <= c <= 'z' then (c as int - 32) as char else c
  }

  function UpperWord(w: string): (u: string)
    ensures |u| == |w|
  {
    seq(|w|, i requires 0 <= i < |w| => ToUpper(w[i]))
  }

  /**
   * Looks up a three-letter mnemonic, case-insensitively, returning the index
   * of the first table entry with that name.
   */
  method FindInstruction(word: string) returns (r: Option<nat>)
    requires |word| == 3
    ensures r.Some? ==> r.value < |Instructions| && Instructions[r.value].name == UpperWord(word)
    ensures r.Some? ==> forall j :: 0 <= j < r.value ==> Instructions[j].name != UpperWord(word)
    ensures r.None? ==> forall j :: 0 <= j < |Instructions| ==> Instructions[j].name != UpperWord(word)
  {
    var opcode := UpperWord(word);
    var i := 0;
    while i < |Instructions|
      invariant 0 <= i <= |Instructions|
      invariant forall j :: 0 <= j < i ==> Instructions[j].name != opcode
    {
      var name := Instructions[i].name;
      if opcode[0] == name[0] && opcode[1] == name[1] && opcode[2] == name[2] {
        assert name == opcode;
        return Some(i);
      }
      i := i + 1;
    }
    return None;
  }

  // --- Opcode selection in the parser ---------------------------------------

  /** The addressing modes the operand parser can produce. */
  const ArgumentModes: set<bv16> := {AM_IMM, AM_WIND, AM_YPTR, AM_XPTR, AM_A, AM_XOFZ, AM_XOFF, AM_YOFZ, AM_YOFF, AM_ZP, AM_ABS}

  /**
   * The mode an operand is finally encoded with: `#` becomes the c=0 immediate
   * where the instruction has one, `zp,y` widens to `abs,y` and `zp` to `abs`
   * where the instruction lacks the short form, and `ldx abs,y` uses the
   * `abs,x` slot.
   */
  function AdjustedMode(insn: Instruction, am: bv16): (r: bv16)
    ensures am in ArgumentModes ==> r in ModeFlags && r != AM_IMP
  {
    var am1 := if insn.modes & AM_IMMS != 0 && am == AM_IMM then AM_IMMS else am;
    var am2 := if insn.modes & AM_YOFZ == 0 && am1 == AM_YOFZ then AM_YOFF else am1;
    if insn.modes & AM_ZP == 0 && am2 == AM_ZP then AM_ABS else am2
  }

  /** `ldx abs,y` is encoded in the `abs,x` slot. */
  function FinalMode(insn: Instruction, mode: bv16): (r: bv16)
    ensures mode in ModeFlags ==> r in ModeFlags
  {
    if insn.opcode == 0xa2 && mode == AM_YOFF then AM_XOFF else mode
  }

  /** The opcode the parser emits for a non-implied instruction, or None for "invalid addressing mode". */
  function AssembleOpcode(insn: Instruction, am: bv16): (r: Option<bv8>)
    requires am in ArgumentModes
    ensures r.Some? <==> insn.modes & AdjustedMode(insn, am) != 0
  {
    var mode := AdjustedMode(insn, am);
    if insn.modes & mode == 0 then None
    else
      var mode' := FinalMode(insn, mode);
      if IsRelative(insn.opcode) then Some(insn.opcode)
      else
        Some(insn.opcode + BOfAmTable[ModeIndex(mode')])
  }

  /** Operand bytes that follow the opcode in each addressing mode. */
  function OperandBytes(am: bv16): nat
  {
    if am == AM_IMP || am == AM_A then 0
    else if am == AM_ABS || am == AM_XOFF || am == AM_YOFF || am == AM_WIND then 2
    else 1
  }

  /** In the ALU block (c = 1, base b = 0) every accepted operand form encodes to one opcode byte plus its operand bytes. */
  lemma AluEncodingLength(insn: Instruction, am: bv16)
    requires insn.opcode & 0x1f == 0x01 && insn.modes & !AM_ALU == 0
    requires am in ArgumentModes && AssembleOpcode(insn, am).Some?
    ensures GetInsnLength(AssembleOpcode(insn, am).value) == 1 + OperandBytes(AdjustedMode(insn, am))
  {
  }

  /** The read-modify-write block (c = 2 with accumulator, zero-page and absolute forms) encodes the same way. */
  lemma ShiftEncodingLength(insn: Instruction, am: bv16)
    requires insn.opcode & 0x1f == 0x02 && insn.opcode != 0xa2
    requires insn.modes & !(AM_ZP | AM_A | AM_ABS | AM_XOFZ | AM_XOFF) == 0
    requires am in ArgumentModes && AssembleOpcode(insn, am).Some?
    ensures GetInsnLength(AssembleOpcode(insn, am).value) == 1 + OperandBytes(AdjustedMode(insn, am))
  {
  }

  /** Branches keep their opcode and are two bytes long whatever operand they were given. */
  lemma BranchEncodingLength(insn: Instruction, am: bv16)
    requires insn.opcode & 0x1f == 0x10
    requires am in ArgumentModes && AssembleOpcode(insn, am).Some?
    ensures AssembleOpcode(insn, am).value == insn.opcode
    ensures GetInsnLength(AssembleOpcode(insn, am).value) == 2
  {
  }

  /** Both forms of `jmp` are three bytes long. */
  lemma JumpEncodingLength(am: bv16)
    requires am in ArgumentModes && AssembleOpcode(Instruction("JMP", 0x40, AM_ABS | AM_WIND), am).Some?
    ensures GetInsnLength(AssembleOpcode(Instruction("JMP", 0x40, AM_ABS | AM_WIND), am).value) == 3
  {
  }
}
