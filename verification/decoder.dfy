/** The RV32I decoder: a first-match scan of an ordered table of opcode
    descriptors, then one field extractor per instruction format.

    The RISC-V Unprivileged ISA manual (20191213) lays the formats out in
    sections 2.2 and 2.3, FENCE in section 2.7, ECALL/EBREAK in section
    2.8 and the CSR instructions in the Zicsr chapter. This decoder follows
    those layouts only loosely; the contracts below state what it does. */
module Decoder {

  import opened Wrappers
  import opened Words
  import opened Registers
  import opened Instructions

  /** Instruction format tags; a tag picks a match rule and an extractor. */
  datatype OpType = R | I | S | Sb | U | Uj | Special

  /** One table entry: the selector values that identify `op`. */
  datatype Opcode = Opcode(funct7: nat, funct3: nat, opcode: nat, op: Op, opType: OpType)

  /** The operations `decode_special` knows; any other op reaching it is a
      corrupted table, not a bad word. */
  const SpecialOps: set<Op> := {Ecall, Ebreak, Csrrc, Csrrs, Csrrw, Csrrci, Csrrsi, Csrrwi}

  const FenceOps: set<Op> := {Op.Fence, FenceI}

  /** What the dispatch relies on of an op and its format tag: the Special
      tag goes with exactly the Special ops, and fence ops sit under the I
      tag. */
  predicate ValidChoice(op: Op, format: OpType)
  {
    && (format.Special? <==> op in SpecialOps)
    && (op.Fence? || op.FenceI? ==> format.I?)
  }

  /** The number of entries in the table. */
  const TableSize := 47

  /** Entry `k` of the table, in the source's order; earlier entries take
      priority. */
  function Entry(k: nat): (e: Opcode)
    requires k < TableSize
    ensures e.opcode < 0x80 && e.opcode % 4 == 3 && e.funct3 < 8 && e.funct7 < 0x80
  {
    match k
    //                funct7  funct3  opcode
    case 0  => Opcode(0,         0,      0x37, Lui,     U)
    case 1  => Opcode(0,         0,      0x17, Auipc,   U)
    case 2  => Opcode(0,         0,      0x6f, Jal,     Uj)
    case 3  => Opcode(0,         0,      0x67, Jalr,    S)
    case 4  => Opcode(0,         0,      0x63, Beq,     OpType.Sb)
    case 5  => Opcode(0,         1,      0x63, Bne,     OpType.Sb)
    case 6  => Opcode(0,         4,      0x63, Blt,     OpType.Sb)
    case 7  => Opcode(0,         5,      0x63, Bge,     OpType.Sb)
    case 8  => Opcode(0,         6,      0x63, Bltu,    OpType.Sb)
    case 9  => Opcode(0,         7,      0x63, Bgeu,    OpType.Sb)
    case 10 => Opcode(0,         0,      0x03, Lb,      I)
    case 11 => Opcode(0,         1,      0x03, Lh,      I)
    case 12 => Opcode(0,         2,      0x03, Lw,      I)
    case 13 => Opcode(0,         4,      0x03, Lbu,     I)
    case 14 => Opcode(0,         5,      0x03, Lhu,     I)
    case 15 => Opcode(0,         0,      0x23, Op.Sb,   OpType.Sb)
    case 16 => Opcode(0,         1,      0x23, Sh,      OpType.Sb)
    case 17 => Opcode(0,         2,      0x23, Sw,      OpType.Sb)
    case 18 => Opcode(0,         0,      0x13, Addi,    I)
    case 19 => Opcode(0,         2,      0x13, Slti,    I)
    case 20 => Opcode(0,         3,      0x13, Sltiu,   I)
    case 21 => Opcode(0,         4,      0x13, Xori,    I)
    case 22 => Opcode(0,         6,      0x13, Ori,     I)
    case 23 => Opcode(0,         7,      0x13, Andi,    I)
    case 24 => Opcode(0x00,      1,      0x13, Slli,    R)
    case 25 => Opcode(0x00,      5,      0x13, Srli,    R)
    case 26 => Opcode(0x20,      5,      0x13, Srai,    R)
    case 27 => Opcode(0x00,      0,      0x33, Add,     R)
    case 28 => Opcode(0x20,      0,      0x33, Sub,     R)
    case 29 => Opcode(0x00,      1,      0x33, Sll,     R)
    case 30 => Opcode(0x00,      2,      0x33, Slt,     R)
    case 31 => Opcode(0x00,      3,      0x33, Sltu,    R)
    case 32 => Opcode(0x00,      4,      0x33, Xor,     R)
    case 33 => Opcode(0x00,      5,      0x13, Srl,     R)
    case 34 => Opcode(0x20,      5,      0x13, Sra,     R)
    case 35 => Opcode(0x00,      6,      0x33, Or,      R)
    case 36 => Opcode(0x00,      7,      0x33, And,     R)
    case 37 => Opcode(0,         0,      0x0f, Op.Fence, I)
    case 38 => Opcode(0,         1,      0x0f, FenceI,  I)
    case 39 => Opcode(0,         0,      0x73, Ecall,   Special)
    case 40 => Opcode(0,         0,      0x73, Ebreak,  Special)
    case 41 => Opcode(0,         1,      0x73, Csrrw,   Special)
    case 42 => Opcode(0,         2,      0x73, Csrrs,   Special)
    case 43 => Opcode(0,         3,      0x73, Csrrc,   Special)
    case 44 => Opcode(0,         5,      0x73, Csrrwi,  Special)
    case 45 => Opcode(0,         6,      0x73, Csrrsi,  Special)
    case _  => Opcode(0,         7,      0x73, Csrrci,  Special)
  }

  /** Every entry's op goes with its format tag. */
  lemma EntryValid(k: nat)
    requires k < TableSize
    ensures ValidChoice(Entry(k).op, Entry(k).opType)
  {
    if k < 24 { EntryValidLow(k); } else { EntryValidHigh(k); }
  }

  // The table in two halves, split only to keep each proof obligation
  // small.

  lemma EntryValidLow(k: nat)
    requires k < 24
    ensures ValidChoice(Entry(k).op, Entry(k).opType)
  {
  }

  lemma EntryValidHigh(k: nat)
    requires 24 <= k < TableSize
    ensures ValidChoice(Entry(k).op, Entry(k).opType)
  {
  }

  // ---------------------------------------------------------------------
  // Format extractors. Each reads only the matched entry's op.
  // ---------------------------------------------------------------------

  /** The register named by word[11:7], `(word >> 7) & 0x1f`. */
  function RdOf(word: Word): (r: Register)
    ensures r == FromU32(Field(word, 11, 7)) && r != Invalid
  {
    FromU32(word / 0x80 % 0x20)
  }

  /** The register named by word[19:15], `(word >> 15) & 0x1f`. */
  function Rs1Of(word: Word): (r: Register)
    ensures r == FromU32(Field(word, 19, 15)) && r != Invalid
  {
    FromU32(word / 0x8000 % 0x20)
  }

  /** The register named by word[24:20], `(word >> 20) & 0x1f`. */
  function Rs2Of(word: Word): (r: Register)
    ensures r == FromU32(Field(word, 24, 20)) && r != Invalid
  {
    FromU32(word / 0x10_0000 % 0x20)
  }

  /** The 12-bit two's-complement reading of `imm`: the one value in
      [-2048, 2047] congruent to `imm` modulo 2^12, negative exactly when
      bit 11 of `imm` is set. */
  function SignExtend12(imm: nat): (v: int)
    requires imm < 0x1000
    ensures -2048 <= v <= 2047
    ensures v % 0x1000 == imm
    ensures v < 0 <==> imm >= 0x800
  {
    if imm / 0x800 % 2 == 1 then 0 - (0x1000 - imm) else imm
  }

  /** R format: three registers, no immediate. */
  function DecodeR(op: Op, word: Word): (ins: Instruction)
    ensures ins.op == op
    ensures ins.rd == FromU32(Field(word, 11, 7)) && ins.rd != Invalid
    ensures ins.rs1 == FromU32(Field(word, 19, 15)) && ins.rs1 != Invalid
    ensures ins.rs2 == FromU32(Field(word, 24, 20)) && ins.rs2 != Invalid
    ensures ins.immediate == 0 && ins.csr == 0 && ins.shamt == 0 && ins.fence == None
  {
    Instruction(Rs2Of(word), Rs1Of(word), RdOf(word), 0, op, 0, 0, None)
  }

  /** I format: rd, rs1 and word[31:20] sign-extended from its bit 11. The
      result is the one value in [-2048, 2047] congruent to the field
      modulo 2^12. */
  function DecodeI(op: Op, word: Word): (ins: Instruction)
    ensures ins.op == op
    ensures ins.rd == FromU32(Field(word, 11, 7)) && ins.rd != Invalid
    ensures ins.rs1 == FromU32(Field(word, 19, 15)) && ins.rs1 != Invalid
    ensures ins.rs2 == Invalid
    ensures -2048 <= ins.immediate <= 2047
    ensures ins.immediate % 0x1000 == Field(word, 31, 20)
    ensures ins.immediate < 0 <==> BitSet(word, 31)
    ensures ins.csr == 0 && ins.shamt == 0 && ins.fence == None
  {
    var imm := word / 0x10_0000 % 0x1000;
    assert imm == Field(word, 31, 20);
    assert imm >= 0x800 <==> BitSet(word, 31);
    Instruction(Invalid, Rs1Of(word), RdOf(word), 0, op, 0, SignExtend12(imm), None)
  }

  /** The 12-bit S-format field: word[31:25] (`(word >> 20) & 0xfe0`) above
      word[11:7] (`(word >> 7) & 0x1f`). */
  function SOffset(word: Word): (imm: nat)
    ensures imm < 0x1000
    ensures imm >= 0x800 <==> BitSet(word, 31)
  {
    SignOfHighField(word);
    Field(word, 31, 25) * 0x20 + Field(word, 11, 7)
  }

  /** word[31:25] is at or above 0x40 exactly when bit 31 is set. */
  lemma SignOfHighField(word: Word)
    ensures Field(word, 31, 25) < 0x80 && Field(word, 11, 7) < 0x20
    ensures Field(word, 31, 25) >= 0x40 <==> BitSet(word, 31)
  {
    DivDiv(word, 0x200_0000, 0x40);
  }

  /** S format: rs1, rs2, and the S-format field sign-extended from its bit
      11; no rd. */
  function DecodeS(op: Op, word: Word): (ins: Instruction)
    ensures ins.op == op
    ensures ins.rd == Invalid
    ensures ins.rs1 == FromU32(Field(word, 19, 15)) && ins.rs1 != Invalid
    ensures ins.rs2 == FromU32(Field(word, 24, 20)) && ins.rs2 != Invalid
    ensures -2048 <= ins.immediate <= 2047
    ensures ins.immediate % 0x1000 == SOffset(word)
    ensures ins.immediate < 0 <==> BitSet(word, 31)
    ensures ins.csr == 0 && ins.shamt == 0 && ins.fence == None
  {
    Instruction(Rs2Of(word), Rs1Of(word), Invalid, 0, op, 0, SignExtend12(SOffset(word)), None)
  }

  /** The unsigned offset the SB extractor assembles: word[7] at bit 11,
      word[11:8] at bits 4..1, word[29:25] at bits 9..5 and word[31] at bit
      12. The mask 0x1f on word >> 25 keeps five bits, so word[30] never
      reaches bit 10. */
  function SbOffset(word: Word): (imm: nat)
    ensures imm < 0x2000 && imm % 2 == 0
  {
    var b12, b11, b9to5, b4to1 := Field(word, 31, 31), Field(word, 7, 7), Field(word, 29, 25), Field(word, 11, 8);
    assert b12 < 2 && b11 < 2 && b9to5 < 0x20 && b4to1 < 0x10;
    var imm := (b12 * 0x800 + b11 * 0x400 + b9to5 * 0x10 + b4to1) * 2;
    assert imm < 0x2000;
    imm
  }

  /** Reading the SB offset bit by bit gives back the word bits it was
      assembled from, and bit 10 is always clear. */
  lemma {:induction false} SbOffsetBits(word: Word)
    ensures SbOffset(word) / 0x1000 % 2 == Field(word, 31, 31)
    ensures SbOffset(word) / 0x800 % 2 == Field(word, 7, 7)
    ensures SbOffset(word) / 0x400 % 2 == 0
    ensures SbOffset(word) / 0x20 % 0x20 == Field(word, 29, 25)
    ensures SbOffset(word) / 2 % 0x10 == Field(word, 11, 8)
  {
    var imm := SbOffset(word);
    var b11, b4to1, b9to5, b12 := Field(word, 7, 7), Field(word, 11, 8), Field(word, 29, 25), Field(word, 31, 31);
    Digit(imm, 2, 0, b4to1, b9to5 + 0x40 * b11 + 0x80 * b12, 0x10);
    Digit(imm, 0x20, b4to1 * 2, b9to5, 2 * b11 + 4 * b12, 0x20);
    Digit(imm, 0x400, b9to5 * 0x20 + b4to1 * 2, 0, b11 + 2 * b12, 2);
    Digit(imm, 0x800, b9to5 * 0x20 + b4to1 * 2, b11, b12, 2);
    Digit(imm, 0x1000, b11 * 0x800 + b9to5 * 0x20 + b4to1 * 2, b12, 0, 2);
  }

  /** The SB immediate: the assembled offset, less 0x1000 exactly when
      word[7] (the offset's bit 11) is set. */
  function SbImmediate(word: Word): (immediate: int)
    ensures immediate % 2 == 0
    ensures -2048 <= immediate < 0x1400
    ensures immediate == SbOffset(word) - (if BitSet(word, 7) then 0x1000 else 0)
    ensures immediate < 0 ==> BitSet(word, 7)
  {
    var imm := SbOffset(word);
    SbOffsetBits(word);
    if imm / 0x800 % 2 == 1 then 0 - (0x1000 - imm) else imm
  }

  /** SB format: rs1, rs2 and the SB immediate; no rd. */
  function DecodeSb(op: Op, word: Word): (ins: Instruction)
    ensures ins.op == op
    ensures ins.rd == Invalid
    ensures ins.rs1 == FromU32(Field(word, 19, 15)) && ins.rs1 != Invalid
    ensures ins.rs2 == FromU32(Field(word, 24, 20)) && ins.rs2 != Invalid
    ensures ins.immediate == SbImmediate(word)
    ensures ins.csr == 0 && ins.shamt == 0 && ins.fence == None
  {
    Instruction(Rs2Of(word), Rs1Of(word), Invalid, 0, op, 0, SbImmediate(word), None)
  }

  /** U format: rd and word[31:12], neither shifted back into place nor
      sign-extended. */
  function DecodeU(op: Op, word: Word): (ins: Instruction)
    ensures ins.op == op
    ensures ins.rd == FromU32(Field(word, 11, 7)) && ins.rd != Invalid
    ensures ins.rs1 == Invalid && ins.rs2 == Invalid
    ensures 0 <= ins.immediate < 0x10_0000
    ensures ins.immediate * 0x1000 <= word < ins.immediate * 0x1000 + 0x1000
    ensures ins.csr == 0 && ins.shamt == 0 && ins.fence == None
  {
    Instruction(Invalid, Invalid, RdOf(word), 0, op, 0, word / 0x1000, None)
  }

  /** The UJ jump offset: word[19:12] kept in place (`word & 0x000f_f000`),
      word[20] at bit 11, word[30:21] at bits 10..1 and word[31] at bit 20. */
  function UjOffset(word: Word): (imm: nat)
    ensures imm < 0x20_0000 && imm % 2 == 0
  {
    var b20, b19to12, b11, b10to1 := Field(word, 31, 31), Field(word, 19, 12), Field(word, 20, 20), Field(word, 30, 21);
    assert b20 < 2 && b19to12 < 0x100 && b11 < 2 && b10to1 < 0x400;
    var imm := (b20 * 0x8_0000 + b19to12 * 0x800 + b11 * 0x400 + b10to1) * 2;
    assert imm < 0x20_0000;
    imm
  }

  /** Reading the UJ offset field by field gives back the word bits it was
      assembled from. */
  lemma {:induction false} UjOffsetBits(word: Word)
    ensures UjOffset(word) / 0x10_0000 % 2 == Field(word, 31, 31)
    ensures UjOffset(word) / 0x1000 % 0x100 == Field(word, 19, 12)
    ensures UjOffset(word) / 0x800 % 2 == Field(word, 20, 20)
    ensures UjOffset(word) / 2 % 0x400 == Field(word, 30, 21)
  {
    var imm := UjOffset(word);
    var b20, b19to12, b11, b10to1 := Field(word, 31, 31), Field(word, 19, 12), Field(word, 20, 20), Field(word, 30, 21);
    Digit(imm, 2, 0, b10to1, b11 + 2 * b19to12 + 0x200 * b20, 0x400);
    Digit(imm, 0x800, b10to1 * 2, b11, b19to12 + 0x100 * b20, 2);
    Digit(imm, 0x1000, b10to1 * 2 + b11 * 0x800, b19to12, b20, 0x100);
    Digit(imm, 0x10_0000, b10to1 * 2 + b11 * 0x800 + b19to12 * 0x1000, b20, 0, 2);
  }

  /** UJ format: rd and the UJ offset, not sign-extended. */
  function DecodeUj(op: Op, word: Word): (ins: Instruction)
    ensures ins.op == op
    ensures ins.rd == FromU32(Field(word, 11, 7)) && ins.rd != Invalid
    ensures ins.rs1 == Invalid && ins.rs2 == Invalid
    ensures ins.immediate == UjOffset(word)
    ensures ins.csr == 0 && ins.shamt == 0 && ins.fence == None
  {
    Instruction(Invalid, Invalid, RdOf(word), 0, op, 0, UjOffset(word), None)
  }

  /** FENCE and FENCE.I: rd, rs1 and the eight ordering flags read from
      word[27:20]; the immediate stays 0. */
  function DecodeFence(op: Op, word: Word): (ins: Instruction)
    ensures ins.op == op
    ensures ins.rd == FromU32(Field(word, 11, 7)) && ins.rd != Invalid
    ensures ins.rs1 == FromU32(Field(word, 19, 15)) && ins.rs1 != Invalid
    ensures ins.rs2 == Invalid
    ensures ins.fence.Some?
    ensures ins.fence.value.pi == BitSet(word, 27) && ins.fence.value.po == BitSet(word, 26)
    ensures ins.fence.value.pr == BitSet(word, 25) && ins.fence.value.pw == BitSet(word, 24)
    ensures ins.fence.value.si == BitSet(word, 23) && ins.fence.value.so == BitSet(word, 22)
    ensures ins.fence.value.sr == BitSet(word, 21) && ins.fence.value.sw == BitSet(word, 20)
    ensures ins.immediate == 0 && ins.csr == 0 && ins.shamt == 0
  {
    var fence := Instructions.Fence.Fence(
      word / 0x800_0000 % 2 == 1,
      word / 0x400_0000 % 2 == 1,
      word / 0x200_0000 % 2 == 1,
      word / 0x100_0000 % 2 == 1,
      word / 0x80_0000 % 2 == 1,
      word / 0x40_0000 % 2 == 1,
      word / 0x20_0000 % 2 == 1,
      word / 0x10_0000 % 2 == 1);
    Instruction(Invalid, Rs1Of(word), RdOf(word), 0, op, 0, 0, Some(fence))
  }

  /** ECALL/EBREAK and the CSR instructions. The two environment calls share
      one selector pair and are told apart by word[31:20]: zero is ECALL,
      anything else EBREAK. CSR forms put word[31:20] in `csr`; the register
      forms read rs1, the immediate forms put word[19:15] in `immediate`. */
  function DecodeSpecial(op: Op, word: Word): (ins: Instruction)
    requires op in SpecialOps
    ensures op in {Ecall, Ebreak} ==> ins.op == (if Field(word, 31, 20) == 0 then Ecall else Ebreak)
    ensures op in {Ecall, Ebreak} ==>
      ins.rd == Invalid && ins.rs1 == Invalid && ins.csr == 0 && ins.immediate == 0
    ensures op !in {Ecall, Ebreak} ==>
      && ins.op == op
      && ins.rd == FromU32(Field(word, 11, 7)) && ins.rd != Invalid
      && ins.csr == Field(word, 31, 20) && ins.csr < 0x1000
    ensures op in {Csrrc, Csrrs, Csrrw} ==>
      ins.rs1 == FromU32(Field(word, 19, 15)) && ins.rs1 != Invalid && ins.immediate == 0
    ensures op in {Csrrci, Csrrsi, Csrrwi} ==>
      ins.rs1 == Invalid && ins.immediate == Field(word, 19, 15) && 0 <= ins.immediate < 32
    ensures ins.rs2 == Invalid && ins.shamt == 0 && ins.fence == None
  {
    match op
    case Ecall | Ebreak =>
      var op' := if word / 0x10_0000 % 0x1000 == 0 then Ecall else Ebreak;
      Instruction(Invalid, Invalid, Invalid, 0, op', 0, 0, None)
    case Csrrc | Csrrs | Csrrw =>
      var csr := word / 0x10_0000 % 0x1000;
      Instruction(Invalid, Rs1Of(word), RdOf(word), csr, op, 0, 0, None)
    case Csrrci | Csrrsi | Csrrwi =>
      var imm := word / 0x8000 % 0x20;
      var csr := word / 0x10_0000 % 0x1000;
      Instruction(Invalid, Invalid, RdOf(word), csr, op, 0, imm, None)
  }

  // ---------------------------------------------------------------------
  // Table lookup.
  // ---------------------------------------------------------------------

  /** The three selector fields `decode` compares against the table. */
  datatype Selectors = Selectors(opcode: nat, funct3: nat, funct7: nat)

  function SelectorsOf(word: Word): (sel: Selectors)
    ensures sel.opcode == Field(word, 6, 0)
    ensures sel.funct3 == Field(word, 14, 12)
    ensures sel.funct7 == Field(word, 31, 25)
  {
    Selectors(word % 0x80, word / 0x1000 % 0x8, word / 0x200_0000 % 0x80)
  }

  /** The per-format match rule: R compares all three selectors; I, S and
      Special compare opcode and funct3; Sb, U and Uj compare the opcode
      alone. */
  predicate Matches(o: Opcode, sel: Selectors)
  {
    match o.opType
    case R => sel.opcode == o.opcode && sel.funct3 == o.funct3 && sel.funct7 == o.funct7
    case I | S | Special => sel.opcode == o.opcode && sel.funct3 == o.funct3
    case Sb | U | Uj => sel.opcode == o.opcode
  }

  /** No entry in [i, k) matches the selectors. */
  predicate NoMatchBetween(sel: Selectors, i: nat, k: nat)
    requires k <= TableSize
    decreases k - i
  {
    i >= k || (!Matches(Entry(i), sel) && NoMatchBetween(sel, i + 1, k))
  }

  /** Entry `k` is the first entry of the table that the selectors match. */
  predicate IsFirstMatch(sel: Selectors, k: nat)
  {
    && k < TableSize
    && Matches(Entry(k), sel)
    && NoMatchBetween(sel, 0, k)
  }

  /** `NoMatchBetween` says what its name says, entry by entry. */
  lemma {:induction false} NoMatchBetweenMeans(sel: Selectors, i: nat, k: nat)
    requires k <= TableSize
    ensures NoMatchBetween(sel, i, k) <==> forall j | i <= j < k :: !Matches(Entry(j), sel)
    decreases k - i
  {
    if i < k {
      NoMatchBetweenMeans(sel, i + 1, k);
    }
  }

  /** At most one entry is the first match. */
  lemma FirstMatchUnique(sel: Selectors, k1: nat, k2: nat)
    requires IsFirstMatch(sel, k1) && IsFirstMatch(sel, k2)
    ensures k1 == k2
  {
    NoMatchBetweenMeans(sel, 0, k1);
    NoMatchBetweenMeans(sel, 0, k2);
  }

  /** The extractor a matched entry dispatches to; FENCE and FENCE.I are
      I-tagged but get the fence extractor. */
  function Extract(op: Op, format: OpType, word: Word): (ins: Instruction)
    requires ValidChoice(op, format)
    ensures ins.op == op || (op in {Ecall, Ebreak} && ins.op in {Ecall, Ebreak})
    ensures ins.shamt == 0
    ensures ins.fence.Some? <==> ins.op in FenceOps
  {
    match format
    case R => DecodeR(op, word)
    case I => if op == Op.Fence || op == FenceI then DecodeFence(op, word) else DecodeI(op, word)
    case S => DecodeS(op, word)
    case Sb => DecodeSb(op, word)
    case U => DecodeU(op, word)
    case Uj => DecodeUj(op, word)
    case Special => DecodeSpecial(op, word)
  }

  /** Under the I tag, an op that is neither a system op nor a fence is
      extracted with the I layout. */
  lemma ExtractI(op: Op, word: Word)
    requires op !in SpecialOps && op !in FenceOps
    ensures Extract(op, I, word) == DecodeI(op, word)
  {
  }

  /** Under the Special tag, an op is extracted with the system layout. */
  lemma ExtractSpecial(op: Op, word: Word)
    requires op in SpecialOps
    ensures Extract(op, Special, word) == DecodeSpecial(op, word)
  {
  }

  /** Every extractor leaves an immediate between -2048 (the S, I and SB
      minimum) and 2^21 - 2 (the largest UJ offset, which is not
      sign-extended). */
  lemma ExtractImmediateRange(op: Op, format: OpType, word: Word)
    requires ValidChoice(op, format)
    ensures -0x800 <= Extract(op, format, word).immediate < 0x20_0000
  {
  }

  /** The scan from entry `i` on: the index of the first entry the
      selectors match, or `None` when none from `i` on does. */
  function FirstMatch(sel: Selectors, i: nat): (r: Option<nat>)
    requires i <= TableSize
    ensures r.Some? ==> i <= r.value < TableSize && Matches(Entry(r.value), sel) && NoMatchBetween(sel, i, r.value)
    ensures r.None? ==> NoMatchBetween(sel, i, TableSize)
    decreases TableSize - i
  {
    if i == TableSize then None
    else if Matches(Entry(i), sel) then Some(i)
    else FirstMatch(sel, i + 1)
  }

  /** What entry `k`'s extractor builds from `word`. */
  function ExtractEntry(k: nat, word: Word): (ins: Instruction)
    requires k < TableSize
  {
    EntryValid(k);
    Extract(Entry(k).op, Entry(k).opType, word)
  }

  /** `decode`: the instruction the first matching entry extracts, or `None`
      when no entry matches. */
  function Decode(word: Word): (r: Option<Instruction>)
    ensures r.None? <==> NoMatchBetween(SelectorsOf(word), 0, TableSize)
    ensures r.Some? ==> r.value.shamt == 0
    ensures r.Some? ==> (r.value.fence.Some? <==> r.value.op in FenceOps)
  {
    var sel := SelectorsOf(word);
    match FirstMatch(sel, 0)
    case None => None
    case Some(k) => NoMatchBetweenMeans(sel, 0, TableSize); Some(ExtractEntry(k, word))
  }

  /** Whenever entry `k` is the first match, `decode` returns what its
      extractor builds. */
  lemma DecodeFirstMatch(word: Word, k: nat)
    requires IsFirstMatch(SelectorsOf(word), k)
    ensures Decode(word) == Some(ExtractEntry(k, word))
  {
    var sel := SelectorsOf(word);
    var m := FirstMatch(sel, 0);
    NoMatchBetweenMeans(sel, 0, TableSize);
    FirstMatchUnique(sel, m.value, k);
  }
}
