/** The decoded-instruction record: the operations the decoder can name,
    the eight ordering flags of a fence, and the record that carries an
    operation with its operands. */
module Instructions {

  import opened Wrappers
  import opened Registers

  /** Every operation the library names. RdCycle, RdCycleH, RdTime, RdTimeH,
      RdInstRet and RdInstRetH have no table entry, so the decoder never
      produces them. */
  datatype Op =
    | Add | Addi | And | Andi | Auipc
    | Beq | Bge | Bgeu | Blt | Bltu | Bne
    | Csrrc | Csrrci | Csrrs | Csrrsi | Csrrw | Csrrwi
    | Ebreak | Ecall | Fence | FenceI
    | Jal | Jalr
    | Lb | Lbu | Lh | Lhu | Lw | Lui
    | Or | Ori
    | RdCycle | RdCycleH | RdTime | RdTimeH | RdInstRet | RdInstRetH
    | Sb | Sh | Sw
    | Sll | Slli | Slt | Slti | Sltu | Sltiu | Sra | Srai | Srl | Srli
    | Sub | Xor | Xori

  /** The predecessor (p) and successor (s) sets of a FENCE: device input
      (i), device output (o), memory reads (r) and memory writes (w). */
  datatype Fence = Fence(
    pi: bool, po: bool, pr: bool, pw: bool,
    si: bool, so: bool, sr: bool, sw: bool)

  /** A decoded instruction. Slots the instruction's format does not use
      hold `Invalid`, 0 or `None`. */
  datatype Instruction = Instruction(
    rs2: Register,
    rs1: Register,
    rd: Register,
    csr: nat,
    op: Op,
    shamt: nat,
    immediate: int,
    fence: Option<Fence>)
}
