/** The assembly text of a decoded instruction, as its `Display`
    implementation writes it, and a reader that recovers what the text
    shows. Only eleven operations have a text form; the others reach
    `unimplemented!()`. */
module Display {

  import opened Wrappers
  import opened Registers
  import opened Instructions
  import opened Numerals
  import opened Text

  /** The operations `Display` writes; any other op panics. */
  const RenderedOps: set<Op> := {Add, Addi, And, Andi, Auipc, Beq, Bge, Bgeu, Blt, Bltu, Bne}

  /** One operand as it appears in the text: a register name, a decimal
      immediate (`{}`) or a hexadecimal immediate (`0x{:x}`). */
  datatype Operand = Reg(r: Register) | Dec(value: int) | Hex(value: int)

  /** What each operand slot of an operation's text holds. */
  datatype Slot = RegSlot | DecSlot | HexSlot

  /** The mnemonic of a rendered operation. */
  function Mnemonic(op: Op): (m: string)
    requires op in RenderedOps
    ensures 0 < |m| && Free(m, ' ') && Free(m, ',')
  {
    match op
    case Add => "add"
    case Addi => "addi"
    case And => "and"
    case Andi => "andi"
    case Auipc => "auipc"
    case Beq => "beq"
    case Bge => "bge"
    case Bgeu => "bgeu"
    case Blt => "blt"
    case Bltu => "bltu"
    case Bne => "bne"
  }

  /** The rendered operation a mnemonic names, if any. */
  function OpOfMnemonic(m: string): (op: Option<Op>)
    ensures op.Some? ==> op.value in RenderedOps && Mnemonic(op.value) == m
  {
    if m == "add" then Some(Add)
    else if m == "addi" then Some(Addi)
    else if m == "and" then Some(And)
    else if m == "andi" then Some(Andi)
    else if m == "auipc" then Some(Auipc)
    else if m == "beq" then Some(Beq)
    else if m == "bge" then Some(Bge)
    else if m == "bgeu" then Some(Bgeu)
    else if m == "blt" then Some(Blt)
    else if m == "bltu" then Some(Bltu)
    else if m == "bne" then Some(Bne)
    else None
  }

  /** Each mnemonic reads back as its operation, so no two rendered
      operations share one. */
  lemma MnemonicRoundTrip(op: Op)
    requires op in RenderedOps
    ensures OpOfMnemonic(Mnemonic(op)) == Some(op)
  {
    if op in {Add, Addi, And, Andi, Auipc} {
      ArithmeticMnemonics(op);
    } else {
      BranchMnemonics(op);
    }
  }

  // Split by mnemonic group only to keep each proof obligation small.

  lemma ArithmeticMnemonics(op: Op)
    requires op in {Add, Addi, And, Andi, Auipc}
    ensures OpOfMnemonic(Mnemonic(op)) == Some(op)
  {
  }

  lemma BranchMnemonics(op: Op)
    requires op in {Beq, Bge, Bgeu, Blt, Bltu, Bne}
    ensures OpOfMnemonic(Mnemonic(op)) == Some(op)
  {
  }

  /** The operand slots of an operation's text, in order. */
  function Slots(op: Op): (slots: seq<Slot>)
    requires op in RenderedOps
    ensures 2 <= |slots| <= 3 && slots[0] == RegSlot
  {
    match op
    case Add | And => [RegSlot, RegSlot, RegSlot]
    case Addi | Andi => [RegSlot, RegSlot, DecSlot]
    case Auipc => [RegSlot, HexSlot]
    case Beq | Bge | Bgeu | Blt | Bltu | Bne => [RegSlot, RegSlot, DecSlot]
  }

  /** The operand kind a slot holds. */
  predicate Fits(o: Operand, slot: Slot)
  {
    match slot
    case RegSlot => o.Reg?
    case DecSlot => o.Dec?
    case HexSlot => o.Hex?
  }

  /** The operands the text shows: rd, rs1, rs2 for the register-register
      ops; rd, rs1 and the immediate for ADDI and ANDI; rd and the
      immediate for AUIPC; rs1, rs2 and the offset for the branches, which
      leave rd out. */
  function Shown(ins: Instruction): (operands: seq<Operand>)
    requires ins.op in RenderedOps
    ensures |operands| == |Slots(ins.op)|
    ensures forall k | 0 <= k < |operands| :: Fits(operands[k], Slots(ins.op)[k])
  {
    match ins.op
    case Add | And => [Reg(ins.rd), Reg(ins.rs1), Reg(ins.rs2)]
    case Addi | Andi => [Reg(ins.rd), Reg(ins.rs1), Dec(ins.immediate)]
    case Auipc => [Reg(ins.rd), Hex(ins.immediate)]
    case Beq | Bge | Bgeu | Blt | Bltu | Bne => [Reg(ins.rs1), Reg(ins.rs2), Dec(ins.immediate)]
  }

  /** `isize` is taken as 64 bits wide: `{:x}` writes a negative value as
      its two's complement. */
  const IsizeModulus: nat := 0x1_0000_0000_0000_0000
  const IsizeLimit: nat := 0x8000_0000_0000_0000

  predicate InIsize(i: int)
  {
    -(IsizeLimit as int) <= i < IsizeLimit
  }

  /** The text of one operand. */
  function OperandText(o: Operand): (s: string)
    ensures 0 < |s| && Free(s, ',') && Free(s, ' ')
  {
    match o
    case Reg(r) => Name(r)
    case Dec(i) => Decimal(i)
    case Hex(i) => "0x" + LowerHex(i % IsizeModulus)
  }

  /** The text of each operand, in order. */
  function OperandTexts(operands: seq<Operand>): (texts: seq<string>)
    ensures |texts| == |operands|
    ensures forall k | 0 <= k < |texts| :: texts[k] == OperandText(operands[k])
  {
    if |operands| == 0 then [] else [OperandText(operands[0])] + OperandTexts(operands[1..])
  }

  /** `format!("{}", ins)`: the mnemonic, a space, and the operands
      separated by ", "; `None` where `Display` reaches
      `unimplemented!()`. */
  function Render(ins: Instruction): (text: Option<string>)
    ensures text.Some? <==> ins.op in RenderedOps
    ensures text.Some? ==>
      var m := Mnemonic(ins.op);
      && |m| < |text.value|
      && text.value[..|m|] == m
      && text.value[|m|] == ' '
  {
    if ins.op in RenderedOps then
      Some(Mnemonic(ins.op) + " " + CommaList(OperandTexts(Shown(ins))))
    else None
  }

  /** ADD and AND write the mnemonic, then rd, rs1 and rs2. */
  lemma RegisterFormText(ins: Instruction)
    requires ins.op in {Add, And}
    ensures Render(ins) == Some(Mnemonic(ins.op) + " " + (Name(ins.rd) + ", " + (Name(ins.rs1) + ", " + Name(ins.rs2))))
  {
    assert Shown(ins) == [Reg(ins.rd), Reg(ins.rs1), Reg(ins.rs2)];
    assert OperandTexts(Shown(ins)) == [Name(ins.rd), Name(ins.rs1), Name(ins.rs2)];
    CommaListOfThree(Name(ins.rd), Name(ins.rs1), Name(ins.rs2));
  }

  /** ADDI and ANDI write the mnemonic, then rd, rs1 and the immediate in
      decimal. */
  lemma ImmediateFormText(ins: Instruction)
    requires ins.op in {Addi, Andi}
    ensures Render(ins) == Some(Mnemonic(ins.op) + " " + (Name(ins.rd) + ", " + (Name(ins.rs1) + ", " + Decimal(ins.immediate))))
  {
    assert Shown(ins) == [Reg(ins.rd), Reg(ins.rs1), Dec(ins.immediate)];
    assert OperandTexts(Shown(ins)) == [Name(ins.rd), Name(ins.rs1), Decimal(ins.immediate)];
    CommaListOfThree(Name(ins.rd), Name(ins.rs1), Decimal(ins.immediate));
  }

  /** AUIPC writes the mnemonic, then rd and "0x" followed by the immediate
      in lower-case hexadecimal. */
  lemma UpperFormText(ins: Instruction)
    requires ins.op == Auipc
    ensures Render(ins) == Some("auipc " + (Name(ins.rd) + ", " + ("0x" + LowerHex(ins.immediate % IsizeModulus))))
  {
    assert OperandTexts(Shown(ins)) == [Name(ins.rd), "0x" + LowerHex(ins.immediate % IsizeModulus)];
    CommaListOfTwo(Name(ins.rd), "0x" + LowerHex(ins.immediate % IsizeModulus));
    assert Mnemonic(Auipc) + " " == "auipc ";
  }

  /** The branches write the mnemonic, then rs1, rs2 and the offset in
      decimal; rd is not mentioned. */
  lemma BranchFormText(ins: Instruction)
    requires ins.op in {Beq, Bge, Bgeu, Blt, Bltu, Bne}
    ensures Render(ins) == Some(Mnemonic(ins.op) + " " + (Name(ins.rs1) + ", " + (Name(ins.rs2) + ", " + Decimal(ins.immediate))))
  {
    assert Shown(ins) == [Reg(ins.rs1), Reg(ins.rs2), Dec(ins.immediate)];
    assert OperandTexts(Shown(ins)) == [Name(ins.rs1), Name(ins.rs2), Decimal(ins.immediate)];
    CommaListOfThree(Name(ins.rs1), Name(ins.rs2), Decimal(ins.immediate));
  }

  // ---------------------------------------------------------------------
  // Reading the text back.
  // ---------------------------------------------------------------------

  /** Reads one operand of the given slot. A hexadecimal operand is read
      back as a two's complement `isize`. */
  function ParseOperand(s: string, slot: Slot): (o: Option<Operand>)
    ensures o.Some? ==> Fits(o.value, slot)
  {
    match slot
    case RegSlot =>
      (match Registers.Parse(s)
       case Some(r) => Some(Reg(r))
       case None => None)
    case DecSlot =>
      (match ParseDecimal(s)
       case Some(i) => Some(Dec(i))
       case None => None)
    case HexSlot =>
      if 2 <= |s| && s[..2] == "0x" then
        match ParseDigits(s[2..], 16)
        case Some(n) =>
          if n >= IsizeModulus then None
          else if n >= IsizeLimit then Some(Hex(n - IsizeModulus))
          else Some(Hex(n))
        case None => None
      else None
  }

  /** Reads each operand text against its slot. */
  function ParseOperands(texts: seq<string>, slots: seq<Slot>): (operands: Option<seq<Operand>>)
    ensures operands.Some? ==> |operands.value| == |slots|
  {
    if |texts| != |slots| then None
    else if |texts| == 0 then Some([])
    else
      match (ParseOperand(texts[0], slots[0]), ParseOperands(texts[1..], slots[1..]))
      case (Some(first), Some(rest)) => Some([first] + rest)
      case _ => None
  }

  /** Reads an instruction's text: the operation it names and the operands
      it shows. */
  function ParseText(s: string): (r: Option<(Op, seq<Operand>)>)
    ensures r.Some? ==> r.value.0 in RenderedOps && |r.value.1| == |Slots(r.value.0)|
  {
    match IndexOf(s, ' ')
    case None => None
    case Some(i) =>
      match OpOfMnemonic(s[..i])
      case None => None
      case Some(op) =>
        match SplitCommaList(s[i + 1..])
        case None => None
        case Some(texts) =>
          match ParseOperands(texts, Slots(op))
          case None => None
          case Some(operands) => Some((op, operands))
  }

  /** Each operand text reads back as the operand, for immediates in the
      `isize` range. */
  lemma OperandRoundTrip(o: Operand, slot: Slot)
    requires Fits(o, slot)
    requires o.Hex? ==> InIsize(o.value)
    ensures ParseOperand(OperandText(o), slot) == Some(o)
  {
    match o
    case Reg(r) => NameRoundTrip(r);
    case Dec(i) => DecimalRoundTrip(i);
    case Hex(i) => HexRoundTrip(i);
  }

  /** The two's complement hexadecimal text of an `isize` reads back as the
      same value. */
  lemma HexRoundTrip(i: int)
    requires InIsize(i)
    ensures ParseOperand(OperandText(Hex(i)), HexSlot) == Some(Hex(i))
  {
    var n := i % IsizeModulus;
    var s := OperandText(Hex(i));
    assert s == "0x" + LowerHex(n);
    assert s[..2] == "0x";
    assert s[2..] == LowerHex(n);
    LowerHexRoundTrip(n);
    IsizeBits(i);
  }

  /** An `isize` and its 64-bit two's complement bit pattern: the pattern
      has the top bit set exactly for negative values. */
  lemma IsizeBits(i: int)
    requires InIsize(i)
    ensures i % IsizeModulus < IsizeModulus
    ensures i % IsizeModulus >= IsizeLimit <==> i < 0
    ensures i < 0 ==> i % IsizeModulus - IsizeModulus == i
    ensures i >= 0 ==> i % IsizeModulus == i
  {
    if i >= 0 {
      assert i % IsizeModulus == i;
    } else {
      assert i % IsizeModulus == i + IsizeModulus;
    }
  }

  lemma {:induction false} OperandsRoundTrip(operands: seq<Operand>, slots: seq<Slot>)
    requires |operands| == |slots|
    requires forall k | 0 <= k < |operands| :: Fits(operands[k], slots[k])
    requires forall k | 0 <= k < |operands| :: operands[k].Hex? ==> InIsize(operands[k].value)
    ensures ParseOperands(OperandTexts(operands), slots) == Some(operands)
  {
    if |operands| > 0 {
      OperandRoundTrip(operands[0], slots[0]);
      OperandsRoundTrip(operands[1..], slots[1..]);
      assert OperandTexts(operands)[1..] == OperandTexts(operands[1..]);
      assert [operands[0]] + operands[1..] == operands;
    }
  }

  /** A mnemonic, a space and a comma list read back as the mnemonic's
      operation and the list's operands. */
  lemma ParseTextOf(m: string, op: Op, body: string, texts: seq<string>, operands: seq<Operand>)
    requires Free(m, ' ') && OpOfMnemonic(m) == Some(op)
    requires SplitCommaList(body) == Some(texts)
    requires op in RenderedOps && ParseOperands(texts, Slots(op)) == Some(operands)
    ensures ParseText(m + " " + body) == Some((op, operands))
  {
    var s := m + [' '] + body;
    assert m + " " + body == s;
    IndexOfAfter(m, ' ', body);
    assert s[..|m|] == m && s[|m| + 1..] == body;
  }

  /** No operand text holds a comma. */
  lemma TextsCommaFree(operands: seq<Operand>)
    ensures forall k | 0 <= k < |OperandTexts(operands)| :: Free(OperandTexts(operands)[k], ',')
  {
  }

  /** A mnemonic followed by the texts of operands that fit its slots reads
      back as the operation and the operands. */
  lemma TextParses(op: Op, operands: seq<Operand>)
    requires op in RenderedOps
    requires |operands| == |Slots(op)|
    requires forall k | 0 <= k < |operands| :: Fits(operands[k], Slots(op)[k])
    requires forall k | 0 <= k < |operands| :: operands[k].Hex? ==> InIsize(operands[k].value)
    ensures ParseText(Mnemonic(op) + " " + CommaList(OperandTexts(operands))) == Some((op, operands))
  {
    var texts := OperandTexts(operands);
    MnemonicRoundTrip(op);
    TextsCommaFree(operands);
    CommaListRoundTrip(texts);
    OperandsRoundTrip(operands, Slots(op));
    ParseTextOf(Mnemonic(op), op, CommaList(texts), texts, operands);
  }

  /** Reading the text of an instruction gives back its operation and the
      operands the text shows, whenever the immediate fits an `isize`. */
  lemma RenderRoundTrip(ins: Instruction)
    requires ins.op in RenderedOps
    requires InIsize(ins.immediate)
    ensures ParseText(Render(ins).value) == Some((ins.op, Shown(ins)))
  {
    var operands := Shown(ins);
    assert forall k | 0 <= k < |operands| :: operands[k].Hex? ==> operands[k].value == ins.immediate;
    TextParses(ins.op, operands);
  }

  /** Two instructions with the same text have the same operation and show
      the same operands. */
  lemma RenderInjective(a: Instruction, b: Instruction)
    requires a.op in RenderedOps && b.op in RenderedOps
    requires InIsize(a.immediate) && InIsize(b.immediate)
    requires Render(a) == Render(b)
    ensures a.op == b.op && Shown(a) == Shown(b)
  {
    RenderRoundTrip(a);
    RenderRoundTrip(b);
  }
}
