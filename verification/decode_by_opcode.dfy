/** What the table-driven decoder does, restated opcode by opcode without
    the table, and the consequences of the table's order and match rules:
    which encodings are shadowed, which operations can never come out, and
    which bits a decoded branch ignores. */
module DecodeByOpcode {

  import opened Wrappers
  import opened Words
  import opened Registers
  import opened Instructions
  import opened Decoder

  // ---------------------------------------------------------------------
  // The reference decoder: one case per major opcode.
  // ---------------------------------------------------------------------

  /** Loads, by funct3. */
  function LoadOp(funct3: nat): (op: Option<Op>)
    ensures op.Some? <==> funct3 in {0, 1, 2, 4, 5}
    ensures op.Some? ==> op.value in {Lb, Lh, Lw, Lbu, Lhu}
    ensures op.Some? ==> ValidChoice(op.value, I) && op.value !in NeverDecoded
  {
    match funct3
    case 0 => Some(Lb)
    case 1 => Some(Lh)
    case 2 => Some(Lw)
    case 4 => Some(Lbu)
    case 5 => Some(Lhu)
    case _ => None
  }

  /** Register-immediate arithmetic other than the shifts, by funct3. */
  function ImmOp(funct3: nat): (op: Option<Op>)
    ensures op.Some? <==> funct3 in {0, 2, 3, 4, 6, 7}
    ensures op.Some? ==> op.value in {Addi, Slti, Sltiu, Xori, Ori, Andi}
    ensures op.Some? ==> ValidChoice(op.value, I) && op.value !in NeverDecoded
  {
    match funct3
    case 0 => Some(Addi)
    case 2 => Some(Slti)
    case 3 => Some(Sltiu)
    case 4 => Some(Xori)
    case 6 => Some(Ori)
    case 7 => Some(Andi)
    case _ => None
  }

  /** Immediate shifts (opcode 0x13, funct3 1 or 5), by funct3 and funct7. */
  function ImmShiftOp(funct3: nat, funct7: nat): (op: Option<Op>)
    ensures op.Some? ==> op.value in {Slli, Srli, Srai}
    ensures op.Some? ==> ValidChoice(op.value, R) && op.value !in NeverDecoded
  {
    if funct3 == 1 && funct7 == 0 then Some(Slli)
    else if funct3 == 5 && funct7 == 0 then Some(Srli)
    else if funct3 == 5 && funct7 == 0x20 then Some(Srai)
    else None
  }

  /** Register-register arithmetic (opcode 0x33), by funct3 and funct7. No
      pair selects SRL or SRA here: those table entries carry opcode 0x13. */
  function RegOp(funct3: nat, funct7: nat): (op: Option<Op>)
    ensures op.Some? ==> ValidChoice(op.value, R) && op.value !in NeverDecoded
  {
    if funct7 == 0 then
      match funct3
      case 0 => Some(Add)
      case 1 => Some(Sll)
      case 2 => Some(Slt)
      case 3 => Some(Sltu)
      case 4 => Some(Xor)
      case 6 => Some(Or)
      case 7 => Some(And)
      case _ => None
    else if funct7 == 0x20 && funct3 == 0 then Some(Sub)
    else None
  }

  /** The CSR instructions (opcode 0x73, funct3 other than 0), by funct3. */
  function CsrOp(funct3: nat): (op: Option<Op>)
    ensures op.Some? <==> funct3 in {1, 2, 3, 5, 6, 7}
    ensures op.Some? ==> op.value in SpecialOps - {Ecall, Ebreak}
    ensures op.Some? ==> ValidChoice(op.value, Special) && op.value !in NeverDecoded
  {
    match funct3
    case 1 => Some(Csrrw)
    case 2 => Some(Csrrs)
    case 3 => Some(Csrrc)
    case 5 => Some(Csrrwi)
    case 6 => Some(Csrrsi)
    case 7 => Some(Csrrci)
    case _ => None
  }

  /** The operations no word decodes to. Branches other than BEQ and
      stores other than SB lose to the first entry of their opcode, SRL
      and SRA lose to SRLI and SRAI, and the counter reads have no entry. */
  const NeverDecoded: set<Op> := {
    Bne, Blt, Bge, Bltu, Bgeu, Sh, Sw, Srl, Sra,
    RdCycle, RdCycleH, RdTime, RdTimeH, RdInstRet, RdInstRetH
  }

  /** An op together with the format tag it is extracted with. */
  function Tagged(op: Option<Op>, format: OpType): (c: Option<(Op, OpType)>)
    ensures c.Some? <==> op.Some?
    ensures c.Some? ==> c.value == (op.value, format)
  {
    match op
    case Some(o) => Some((o, format))
    case None => None
  }

  /** Every expected op goes with its format tag, and none of them is an
      op no word decodes to. */
  lemma ExpectedValid(sel: Selectors)
    ensures Expected(sel).Some? ==> ValidChoice(Expected(sel).value.0, Expected(sel).value.1)
    ensures Expected(sel).Some? ==> Expected(sel).value.0 !in NeverDecoded
  {
    ExpectedByOpcode(sel);
  }

  /** The op and format `decode` settles on, worked out opcode by opcode
      without the table. JALR is extracted with the S layout, branches and
      stores with the SB layout, and opcode 0x63 and 0x23 words always
      come out as BEQ and SB whatever their funct3. */
  function Expected(sel: Selectors): Option<(Op, OpType)>
  {
    var opcode, funct3, funct7 := sel.opcode, sel.funct3, sel.funct7;
    if opcode == 0x37 then Some((Lui, U))
    else if opcode == 0x17 then Some((Auipc, U))
    else if opcode == 0x6f then Some((Jal, Uj))
    else if opcode == 0x67 then (if funct3 == 0 then Some((Jalr, S)) else None)
    else if opcode == 0x63 then Some((Beq, OpType.Sb))
    else if opcode == 0x03 then Tagged(LoadOp(funct3), I)
    else if opcode == 0x23 then Some((Op.Sb, OpType.Sb))
    else if opcode == 0x13 then
      if funct3 == 1 || funct3 == 5 then Tagged(ImmShiftOp(funct3, funct7), R)
      else Tagged(ImmOp(funct3), I)
    else if opcode == 0x33 then Tagged(RegOp(funct3, funct7), R)
    else if opcode == 0x0f then
      if funct3 == 0 then Some((Op.Fence, I))
      else if funct3 == 1 then Some((FenceI, I))
      else None
    else if opcode == 0x73 then
      if funct3 == 0 then Some((Ecall, Special))
      else Tagged(CsrOp(funct3), Special)
    else None
  }

  /** The decoder written opcode by opcode: the expected op, extracted with
      the expected format. */
  function Reference(word: Word): (r: Option<Instruction>)
    ensures r.Some? ==> r.value.op !in NeverDecoded
  {
    ExpectedValid(SelectorsOf(word));
    match Expected(SelectorsOf(word))
    case None => None
    case Some((op, format)) => Some(Extract(op, format, word))
  }

  // ---------------------------------------------------------------------
  // The scan agrees with the expectation.
  // ---------------------------------------------------------------------

  /** The table is grouped by opcode, in runs, except SRL and SRA, which
      sit among the 0x33 entries with opcode 0x13. */
  lemma EntryOpcode(k: nat)
    requires k < TableSize
    ensures Entry(k).opcode ==
      if k == 0 then 0x37 else if k == 1 then 0x17 else if k == 2 then 0x6f
      else if k == 3 then 0x67 else if k < 10 then 0x63 else if k < 15 then 0x03
      else if k < 18 then 0x23 else if k < 27 then 0x13 else if k < 33 then 0x33
      else if k < 35 then 0x13 else if k < 37 then 0x33 else if k < 39 then 0x0f
      else 0x73
  {
  }

  /** The scan ends where the expectation says: on an entry carrying the
      expected op and format, or on no entry when nothing is expected. */
  predicate ScanAgrees(sel: Selectors)
  {
    match FirstMatch(sel, 0)
    case None => Expected(sel) == None
    case Some(k) => k < TableSize && Expected(sel) == Some((Entry(k).op, Entry(k).opType))
  }

  /** The scan's answer is `k` when entry `k` matches and no earlier one
      does. */
  lemma ScanFinds(sel: Selectors, k: nat)
    requires k < TableSize && Matches(Entry(k), sel)
    requires forall j | 0 <= j < k :: !Matches(Entry(j), sel)
    ensures FirstMatch(sel, 0) == Some(k)
  {
    NoMatchBetweenMeans(sel, 0, TableSize);
    NoMatchBetweenMeans(sel, 0, k);
    FirstMatchUnique(sel, FirstMatch(sel, 0).value, k);
  }

  /** The scan agrees with the expectation when it stops at entry `k`
      and `k` carries the expected op and format. */
  lemma AgreesAt(sel: Selectors, k: nat)
    requires k < TableSize && Matches(Entry(k), sel)
    requires forall j | 0 <= j < k :: !Matches(Entry(j), sel)
    requires Expected(sel) == Some((Entry(k).op, Entry(k).opType))
    ensures ScanAgrees(sel)
  {
    ScanFinds(sel, k);
  }

  /** The scan agrees with the expectation when no entry matches and
      nothing is expected. */
  lemma AgreesNowhere(sel: Selectors)
    requires forall j | 0 <= j < TableSize :: !Matches(Entry(j), sel)
    requires Expected(sel) == None
    ensures ScanAgrees(sel)
  {
    ScanFindsNothing(sel);
  }

  /** The scan finds nothing when no entry matches. */
  lemma ScanFindsNothing(sel: Selectors)
    requires forall j | 0 <= j < TableSize :: !Matches(Entry(j), sel)
    ensures FirstMatch(sel, 0) == None
  {
  }

  lemma ScanUpper(sel: Selectors)
    requires sel.opcode in {0x37, 0x17, 0x6f, 0x67, 0x63, 0x23}
    ensures ScanAgrees(sel)
  {
    ExpectedByOpcode(sel);
    forall j | 0 <= j < TableSize ensures Entry(j).opcode == sel.opcode ==> j < 10 || 15 <= j < 18 {
      EntryOpcode(j);
    }
    if sel.opcode == 0x37 {
      AgreesAt(sel, 0);
    } else if sel.opcode == 0x17 {
      AgreesAt(sel, 1);
    } else if sel.opcode == 0x6f {
      AgreesAt(sel, 2);
    } else if sel.opcode == 0x67 {
      if sel.funct3 == 0 { AgreesAt(sel, 3); } else { AgreesNowhere(sel); }
    } else if sel.opcode == 0x63 {
      AgreesAt(sel, 4);
    } else {
      AgreesAt(sel, 15);
    }
  }

  lemma ScanLoad(sel: Selectors)
    requires sel.opcode == 0x03
    ensures ScanAgrees(sel)
  {
    ExpectedByOpcode(sel);
    forall j | 0 <= j < TableSize ensures Entry(j).opcode == 0x03 ==> 10 <= j < 15 {
      EntryOpcode(j);
    }
    match sel.funct3
    case 0 => AgreesAt(sel, 10);
    case 1 => AgreesAt(sel, 11);
    case 2 => AgreesAt(sel, 12);
    case 4 => AgreesAt(sel, 13);
    case 5 => AgreesAt(sel, 14);
    case _ => AgreesNowhere(sel);
  }

  lemma ScanOpImmArith(sel: Selectors)
    requires sel.opcode == 0x13 && sel.funct3 in {0, 2, 3, 4, 6, 7}
    ensures ScanAgrees(sel)
  {
    ExpectedByOpcode(sel);
    forall j | 0 <= j < 18 ensures Entry(j).opcode != 0x13 {
      EntryOpcode(j);
    }
    match sel.funct3
    case 0 => AgreesAt(sel, 18);
    case 2 => AgreesAt(sel, 19);
    case 3 => AgreesAt(sel, 20);
    case 4 => AgreesAt(sel, 21);
    case 6 => AgreesAt(sel, 22);
    case 7 => AgreesAt(sel, 23);
  }

  lemma ScanOpImmShift(sel: Selectors)
    requires sel.opcode == 0x13 && sel.funct3 !in {0, 2, 3, 4, 6, 7}
    ensures ScanAgrees(sel)
  {
    ExpectedByOpcode(sel);
    forall j | 0 <= j < TableSize ensures Entry(j).opcode == 0x13 ==> 18 <= j < 27 || 33 <= j < 35 {
      EntryOpcode(j);
    }
    if sel.funct3 == 1 && sel.funct7 == 0 {
      AgreesAt(sel, 24);
    } else if sel.funct3 == 5 && sel.funct7 == 0 {
      AgreesAt(sel, 25);
    } else if sel.funct3 == 5 && sel.funct7 == 0x20 {
      AgreesAt(sel, 26);
    } else {
      AgreesNowhere(sel);
    }
  }

  lemma ScanOpLow(sel: Selectors)
    requires sel.opcode == 0x33 && sel.funct7 == 0 && sel.funct3 < 4
    ensures ScanAgrees(sel)
  {
    ExpectedByOpcode(sel);
    forall j | 0 <= j < 27 ensures Entry(j).opcode != 0x33 {
      EntryOpcode(j);
    }
    match sel.funct3
    case 0 => AgreesAt(sel, 27);
    case 1 => AgreesAt(sel, 29);
    case 2 => AgreesAt(sel, 30);
    case 3 => AgreesAt(sel, 31);
  }

  lemma ScanOpHigh(sel: Selectors)
    requires sel.opcode == 0x33 && sel.funct7 == 0 && sel.funct3 >= 4
    ensures ScanAgrees(sel)
  {
    ExpectedByOpcode(sel);
    forall j | 0 <= j < TableSize ensures Entry(j).opcode == 0x33 ==> 27 <= j < 33 || 35 <= j < 37 {
      EntryOpcode(j);
    }
    match sel.funct3
    case 4 => AgreesAt(sel, 32);
    case 6 => AgreesAt(sel, 35);
    case 7 => AgreesAt(sel, 36);
    case _ => AgreesNowhere(sel);
  }

  lemma ScanOpAlternate(sel: Selectors)
    requires sel.opcode == 0x33 && sel.funct7 != 0
    ensures ScanAgrees(sel)
  {
    ExpectedByOpcode(sel);
    forall j | 0 <= j < TableSize ensures Entry(j).opcode == 0x33 ==> 27 <= j < 33 || 35 <= j < 37 {
      EntryOpcode(j);
    }
    if sel.funct7 == 0x20 && sel.funct3 == 0 {
      AgreesAt(sel, 28);
    } else {
      AgreesNowhere(sel);
    }
  }

  lemma ScanMiscMem(sel: Selectors)
    requires sel.opcode == 0x0f
    ensures ScanAgrees(sel)
  {
    ExpectedByOpcode(sel);
    forall j | 0 <= j < TableSize ensures Entry(j).opcode == 0x0f ==> 37 <= j < 39 {
      EntryOpcode(j);
    }
    match sel.funct3
    case 0 => AgreesAt(sel, 37);
    case 1 => AgreesAt(sel, 38);
    case _ => AgreesNowhere(sel);
  }

  lemma ScanSystemLow(sel: Selectors)
    requires sel.opcode == 0x73 && sel.funct3 < 4
    ensures ScanAgrees(sel)
  {
    ExpectedByOpcode(sel);
    forall j | 0 <= j < 39 ensures Entry(j).opcode != 0x73 {
      EntryOpcode(j);
    }
    if sel.funct3 == 0 {
      AgreesAt(sel, 39);
    } else if sel.funct3 == 1 {
      AgreesAt(sel, 41);
    } else {
      ScanSystemCsr(sel);
    }
  }

  lemma ScanSystemCsr(sel: Selectors)
    requires sel.opcode == 0x73 && sel.funct3 in {2, 3}
    requires forall j | 0 <= j < 39 :: Entry(j).opcode != 0x73
    ensures ScanAgrees(sel)
  {
    ExpectedByOpcode(sel);
    if sel.funct3 == 2 { AgreesAt(sel, 42); } else { AgreesAt(sel, 43); }
  }

  lemma ScanSystemHigh(sel: Selectors)
    requires sel.opcode == 0x73 && sel.funct3 >= 4
    ensures ScanAgrees(sel)
  {
    forall j | 0 <= j < 39 ensures Entry(j).opcode != 0x73 {
      EntryOpcode(j);
    }
    if sel.funct3 in {5, 6} {
      ScanSystemCsrImmediate(sel);
    } else {
      ScanSystemRest(sel);
    }
  }

  lemma ScanSystemCsrImmediate(sel: Selectors)
    requires sel.opcode == 0x73 && sel.funct3 in {5, 6}
    requires forall j | 0 <= j < 39 :: Entry(j).opcode != 0x73
    ensures ScanAgrees(sel)
  {
    ExpectedByOpcode(sel);
    if sel.funct3 == 5 { AgreesAt(sel, 44); } else { AgreesAt(sel, 45); }
  }

  lemma ScanSystemRest(sel: Selectors)
    requires sel.opcode == 0x73 && sel.funct3 >= 4 && sel.funct3 !in {5, 6}
    requires forall j | 0 <= j < 39 :: Entry(j).opcode != 0x73
    ensures ScanAgrees(sel)
  {
    ExpectedByOpcode(sel);
    if sel.funct3 == 7 { AgreesAt(sel, 46); } else { AgreesNowhere(sel); }
  }

  /** The opcodes the table mentions. */
  const TableOpcodes: set<nat> := {0x37, 0x17, 0x6f, 0x67, 0x63, 0x03, 0x23, 0x13, 0x33, 0x0f, 0x73}

  /** The first-match scan agrees with the expectation for every
      combination of selectors. */
  lemma ScanIsExpected(sel: Selectors)
    ensures ScanAgrees(sel)
  {
    ExpectedByOpcode(sel);
    if sel.opcode in {0x37, 0x17, 0x6f, 0x67, 0x63, 0x23} {
      ScanUpper(sel);
    } else if sel.opcode == 0x03 {
      ScanLoad(sel);
    } else if sel.opcode == 0x13 {
      if sel.funct3 in {0, 2, 3, 4, 6, 7} { ScanOpImmArith(sel); } else { ScanOpImmShift(sel); }
    } else if sel.opcode == 0x33 {
      if sel.funct7 != 0 { ScanOpAlternate(sel); }
      else if sel.funct3 < 4 { ScanOpLow(sel); }
      else { ScanOpHigh(sel); }
    } else if sel.opcode == 0x0f {
      ScanMiscMem(sel);
    } else if sel.opcode == 0x73 {
      if sel.funct3 < 4 { ScanSystemLow(sel); } else { ScanSystemHigh(sel); }
    } else {
      forall j | 0 <= j < TableSize ensures Entry(j).opcode in TableOpcodes {
        EntryOpcode(j);
      }
      ScanFindsNothing(sel);
    }
  }

  /** `decode` is the opcode-by-opcode reference, on every word. */
  lemma DecodeIsReference(word: Word)
    ensures Decode(word) == Reference(word)
  {
    ScanIsExpected(SelectorsOf(word));
  }

  /** The expectation for each opcode, stated where no word arithmetic is
      in scope; whole-word lemmas call this rather than unfold `Expected`
      next to the extractors. */
  lemma ExpectedByOpcode(sel: Selectors)
    ensures sel.opcode == 0x37 ==> Expected(sel) == Some((Lui, U))
    ensures sel.opcode == 0x17 ==> Expected(sel) == Some((Auipc, U))
    ensures sel.opcode == 0x6f ==> Expected(sel) == Some((Jal, Uj))
    ensures sel.opcode == 0x67 ==> Expected(sel) == if sel.funct3 == 0 then Some((Jalr, S)) else None
    ensures sel.opcode == 0x63 ==> Expected(sel) == Some((Beq, OpType.Sb))
    ensures sel.opcode == 0x03 ==> Expected(sel) == Tagged(LoadOp(sel.funct3), I)
    ensures sel.opcode == 0x23 ==> Expected(sel) == Some((Op.Sb, OpType.Sb))
    ensures sel.opcode == 0x13 && sel.funct3 in {1, 5} ==>
      Expected(sel) == Tagged(ImmShiftOp(sel.funct3, sel.funct7), R)
    ensures sel.opcode == 0x13 && sel.funct3 !in {1, 5} ==> Expected(sel) == Tagged(ImmOp(sel.funct3), I)
    ensures sel.opcode == 0x33 ==> Expected(sel) == Tagged(RegOp(sel.funct3, sel.funct7), R)
    ensures sel.opcode == 0x0f ==>
      Expected(sel) == if sel.funct3 == 0 then Some((Op.Fence, I)) else if sel.funct3 == 1 then Some((FenceI, I)) else None
    ensures sel.opcode == 0x73 ==>
      Expected(sel) == if sel.funct3 == 0 then Some((Ecall, Special)) else Tagged(CsrOp(sel.funct3), Special)
    ensures sel.opcode !in TableOpcodes ==> Expected(sel) == None
  {
  }

  /** `decode` extracts with the expected op and format. */
  lemma DecodeExpected(word: Word, op: Op, format: OpType)
    requires Expected(SelectorsOf(word)) == Some((op, format))
    ensures ValidChoice(op, format)
    ensures Decode(word) == Some(Extract(op, format, word))
  {
    ExpectedValid(SelectorsOf(word));
    DecodeIsReference(word);
  }

  /** `decode` extracts an expected I-tagged op other than a fence with
      the I layout. */
  lemma DecodeExpectedI(word: Word, op: Op)
    requires Expected(SelectorsOf(word)) == Some((op, I)) && op !in FenceOps
    ensures Decode(word) == Some(DecodeI(op, word))
  {
    DecodeExpected(word, op, I);
    ExtractI(op, word);
  }

  /** `decode` extracts an expected U-tagged op with the U layout. */
  lemma DecodeExpectedU(word: Word, op: Op)
    requires Expected(SelectorsOf(word)) == Some((op, U))
    ensures Decode(word) == Some(DecodeU(op, word))
  {
    DecodeExpected(word, op, U);
  }

  /** `decode` extracts an expected Uj-tagged op with the UJ layout. */
  lemma DecodeExpectedUj(word: Word, op: Op)
    requires Expected(SelectorsOf(word)) == Some((op, Uj))
    ensures Decode(word) == Some(DecodeUj(op, word))
  {
    DecodeExpected(word, op, Uj);
  }

  /** `decode` extracts an expected Special-tagged op with the system
      layout. */
  lemma DecodeExpectedSpecial(word: Word, op: Op)
    requires Expected(SelectorsOf(word)) == Some((op, Special))
    ensures Decode(word) == Some(DecodeSpecial(op, word))
  {
    DecodeExpected(word, op, Special);
    ExtractSpecial(op, word);
  }

  /** `decode` answers nothing where nothing is expected. */
  lemma DecodeNothingExpected(word: Word)
    requires Expected(SelectorsOf(word)) == None
    ensures Decode(word) == None
  {
    DecodeIsReference(word);
  }
}
