/** Consequences of the table's order and match rules, stated per opcode
    on whole words, and which word bits a decoded branch or store never
    reads. */
module DecodeFacts {

  import opened Wrappers
  import opened Words
  import opened Registers
  import opened Instructions
  import opened Decoder
  import opened DecodeByOpcode

  /** `decode` answers exactly when some entry of the table matches the
      word under its format's rule. */
  lemma DecodeDefinedIff(word: Word)
    ensures Decode(word).Some? <==> exists k | 0 <= k < TableSize :: Matches(Entry(k), SelectorsOf(word))
  {
    NoMatchBetweenMeans(SelectorsOf(word), 0, TableSize);
  }

  /** Whatever `decode` answers comes from the first matching entry's
      extractor. */
  lemma DecodeFromFirstMatch(word: Word)
    requires Decode(word).Some?
    ensures exists k ::
      && IsFirstMatch(SelectorsOf(word), k)
      && Decode(word) == Some(ExtractEntry(k, word))
  {
    var sel := SelectorsOf(word);
    var k := FirstMatch(sel, 0).value;
    assert IsFirstMatch(sel, k);
    DecodeFirstMatch(word, k);
  }

  /** Every immediate `decode` produces lies between -2048 and 2^21 - 2. */
  lemma DecodeImmediateRange(word: Word)
    ensures Decode(word).Some? ==> -0x800 <= Decode(word).value.immediate < 0x20_0000
  {
    if Decode(word).Some? {
      var sel := SelectorsOf(word);
      var k := FirstMatch(sel, 0).value;
      assert IsFirstMatch(sel, k);
      DecodeFirstMatch(word, k);
      EntryValid(k);
      ExtractImmediateRange(Entry(k).op, Entry(k).opType, word);
    }
  }

  /** The upper bound is reached: a JAL word with every offset bit set
      decodes to the offset 2^21 - 2, not to -2. */
  lemma JalOffsetNotSignExtended(word: Word)
    requires word == 0xffff_ffef
    ensures Decode(word).Some? && Decode(word).value.op == Jal
    ensures Decode(word).value.immediate == 0x1f_fffe
  {
    assert Field(word, 6, 0) == 0x6f;
    assert Field(word, 31, 31) == 1 && Field(word, 19, 12) == 0xff;
    assert Field(word, 20, 20) == 1 && Field(word, 30, 21) == 0x3ff;
    UpperAndJump(word);
  }

  /** No word decodes to BNE, BLT, BGE, BLTU, BGEU, SH, SW, SRL, SRA or a
      counter read. */
  lemma NeverDecodedOps(word: Word)
    ensures Decode(word).Some? ==> Decode(word).value.op !in NeverDecoded
  {
    DecodeIsReference(word);
  }

  /** Every opcode-0x63 word is a BEQ with the SB layout, whatever its
      funct3. */
  lemma BranchesDecodeAsBeq(word: Word)
    requires Field(word, 6, 0) == 0x63
    ensures Decode(word) == Some(DecodeSb(Beq, word))
  {
    ExpectedByOpcode(SelectorsOf(word));
    DecodeExpected(word, Beq, OpType.Sb);
  }

  /** Every opcode-0x23 word is an SB (store byte) with the SB layout,
      whatever its funct3. */
  lemma StoresDecodeAsSb(word: Word)
    requires Field(word, 6, 0) == 0x23
    ensures Decode(word) == Some(DecodeSb(Op.Sb, word))
  {
    ExpectedByOpcode(SelectorsOf(word));
    DecodeExpected(word, Op.Sb, OpType.Sb);
  }

  /** JALR (opcode 0x67, funct3 0) takes the S layout, so it has no rd; any
      other funct3 decodes to nothing. */
  lemma JalrUsesSLayout(word: Word)
    requires Field(word, 6, 0) == 0x67
    ensures Decode(word) == if Field(word, 14, 12) == 0 then Some(DecodeS(Jalr, word)) else None
    ensures Decode(word).Some? ==> Decode(word).value.rd == Invalid
  {
    ExpectedByOpcode(SelectorsOf(word));
    if Field(word, 14, 12) == 0 {
      DecodeExpected(word, Jalr, S);
    } else {
      DecodeNothingExpected(word);
    }
  }

  /** LUI and AUIPC take the U layout and JAL the UJ layout. */
  lemma UpperAndJump(word: Word)
    requires Field(word, 6, 0) in {0x37, 0x17, 0x6f}
    ensures Field(word, 6, 0) == 0x37 ==> Decode(word) == Some(DecodeU(Lui, word))
    ensures Field(word, 6, 0) == 0x17 ==> Decode(word) == Some(DecodeU(Auipc, word))
    ensures Field(word, 6, 0) == 0x6f ==> Decode(word) == Some(DecodeUj(Jal, word))
  {
    ExpectedByOpcode(SelectorsOf(word));
    if Field(word, 6, 0) == 0x37 {
      DecodeExpectedU(word, Lui);
    } else if Field(word, 6, 0) == 0x17 {
      DecodeExpectedU(word, Auipc);
    } else {
      DecodeExpectedUj(word, Jal);
    }
  }

  /** Loads take the I layout; funct3 3, 6 and 7 select nothing. */
  lemma Loads(word: Word)
    requires Field(word, 6, 0) == 0x03
    ensures Decode(word).Some? <==> Field(word, 14, 12) in {0, 1, 2, 4, 5}
    ensures Decode(word).Some? ==> Decode(word) == Some(DecodeI(LoadOp(Field(word, 14, 12)).value, word))
  {
    ExpectedByOpcode(SelectorsOf(word));
    var funct3 := Field(word, 14, 12);
    if funct3 in {0, 1, 2, 4, 5} {
      DecodeExpectedI(word, LoadOp(funct3).value);
    } else {
      DecodeNothingExpected(word);
    }
  }

  /** Opcode 0x13 with funct3 other than 1 and 5: register-immediate
      arithmetic, I layout, every funct3 defined. */
  lemma ImmediateArithmetic(word: Word)
    requires Field(word, 6, 0) == 0x13 && Field(word, 14, 12) !in {1, 5}
    ensures Decode(word) == Some(DecodeI(ImmOp(Field(word, 14, 12)).value, word))
  {
    ExpectedByOpcode(SelectorsOf(word));
    DecodeExpectedI(word, ImmOp(Field(word, 14, 12)).value);
  }

  /** Opcode 0x13 with funct3 1 or 5: SLLI, SRLI and SRAI, R layout; the
      later SRL and SRA entries with the same selectors are never reached.
      Any other funct7 decodes to nothing. */
  lemma ImmediateShifts(word: Word)
    requires Field(word, 6, 0) == 0x13 && Field(word, 14, 12) in {1, 5}
    ensures Decode(word) ==
      if Field(word, 14, 12) == 1 && Field(word, 31, 25) == 0 then Some(DecodeR(Slli, word))
      else if Field(word, 14, 12) == 5 && Field(word, 31, 25) == 0 then Some(DecodeR(Srli, word))
      else if Field(word, 14, 12) == 5 && Field(word, 31, 25) == 0x20 then Some(DecodeR(Srai, word))
      else None
  {
    ExpectedByOpcode(SelectorsOf(word));
    var shift := ImmShiftOp(Field(word, 14, 12), Field(word, 31, 25));
    if shift.Some? {
      DecodeExpected(word, shift.value, R);
    } else {
      DecodeNothingExpected(word);
    }
  }

  /** Opcode 0x33: register-register arithmetic, R layout. funct3 5 (the
      right shifts) selects nothing, because SRL and SRA carry opcode 0x13
      in the table. */
  lemma RegisterArithmetic(word: Word)
    requires Field(word, 6, 0) == 0x33
    ensures Field(word, 14, 12) == 5 ==> Decode(word) == None
    ensures Decode(word).Some? <==> RegOp(Field(word, 14, 12), Field(word, 31, 25)).Some?
    ensures Decode(word).Some? ==>
      Decode(word) == Some(DecodeR(RegOp(Field(word, 14, 12), Field(word, 31, 25)).value, word))
  {
    ExpectedByOpcode(SelectorsOf(word));
    var arith := RegOp(Field(word, 14, 12), Field(word, 31, 25));
    if arith.Some? {
      DecodeExpected(word, arith.value, R);
    } else {
      DecodeNothingExpected(word);
    }
  }

  /** Opcode 0x0f: FENCE for funct3 0, FENCE.I for funct3 1, both with the
      fence extractor; nothing else. */
  lemma Fences(word: Word)
    requires Field(word, 6, 0) == 0x0f
    ensures Decode(word) ==
      if Field(word, 14, 12) == 0 then Some(DecodeFence(Op.Fence, word))
      else if Field(word, 14, 12) == 1 then Some(DecodeFence(FenceI, word))
      else None
  {
    ExpectedByOpcode(SelectorsOf(word));
    if Field(word, 14, 12) == 0 {
      DecodeExpected(word, Op.Fence, I);
    } else if Field(word, 14, 12) == 1 {
      DecodeExpected(word, FenceI, I);
    } else {
      DecodeNothingExpected(word);
    }
  }

  /** Opcode 0x73 with funct3 0 is ECALL when word[31:20] is zero and
      EBREAK otherwise, with every register slot `Invalid`. */
  lemma EnvironmentCalls(word: Word)
    requires Field(word, 6, 0) == 0x73 && Field(word, 14, 12) == 0
    ensures Decode(word).Some?
    ensures Decode(word).value.op == if Field(word, 31, 20) == 0 then Ecall else Ebreak
    ensures Decode(word).value.rd == Invalid && Decode(word).value.rs1 == Invalid
    ensures Decode(word).value.rs2 == Invalid
  {
    ExpectedByOpcode(SelectorsOf(word));
    DecodeExpectedSpecial(word, Ecall);
  }

  /** Opcode 0x73 with funct3 other than 0 and 4 is a CSR instruction
      whose `csr` is word[31:20]; funct3 4 selects nothing. */
  lemma CsrInstructions(word: Word)
    requires Field(word, 6, 0) == 0x73 && Field(word, 14, 12) != 0
    ensures Decode(word).Some? <==> Field(word, 14, 12) != 4
    ensures Decode(word).Some? ==>
      && Decode(word) == Some(DecodeSpecial(CsrOp(Field(word, 14, 12)).value, word))
      && Decode(word).value.csr == Field(word, 31, 20)
  {
    ExpectedByOpcode(SelectorsOf(word));
    if Field(word, 14, 12) != 4 {
      DecodeExpectedSpecial(word, CsrOp(Field(word, 14, 12)).value);
    } else {
      DecodeNothingExpected(word);
    }
  }

  /** Any opcode the table does not mention decodes to nothing. */
  lemma UnknownOpcodes(word: Word)
    requires Field(word, 6, 0) !in TableOpcodes
    ensures Decode(word) == None
  {
    ExpectedByOpcode(SelectorsOf(word));
    DecodeNothingExpected(word);
  }

  // ---------------------------------------------------------------------
  // Bits the SB extractor never reads.
  // ---------------------------------------------------------------------

  /** Setting a clear bit 30 keeps the word below 2^32 and leaves bit 31
      alone. */
  lemma SetBit30KeepsBit31(word: Word)
    requires !BitSet(word, 30)
    ensures word + 0x4000_0000 < 0x1_0000_0000
    ensures Field(word + 0x4000_0000, 31, 31) == Field(word, 31, 31)
  {
    var q := word / 0x4000_0000;
    var low := word % 0x4000_0000;
    assert q < 4 && q % 2 == 0;
    var b31 := q / 2;
    assert word == low + 0x8000_0000 * b31;
    Digit(word, 0x8000_0000, low, b31, 0, 2);
    Digit(word + 0x4000_0000, 0x8000_0000, low + 0x4000_0000, b31, 0, 2);
  }

  /** Setting a clear bit 30 changes neither word[31] nor any field the SB
      extractor or the selectors read. */
  lemma SetBit30(word: Word)
    requires !BitSet(word, 30)
    ensures word + 0x4000_0000 < 0x1_0000_0000
    ensures Field(word + 0x4000_0000, 31, 31) == Field(word, 31, 31)
    ensures Field(word + 0x4000_0000, 6, 0) == Field(word, 6, 0)
    ensures Field(word + 0x4000_0000, 7, 7) == Field(word, 7, 7)
    ensures Field(word + 0x4000_0000, 11, 8) == Field(word, 11, 8)
    ensures Field(word + 0x4000_0000, 19, 15) == Field(word, 19, 15)
    ensures Field(word + 0x4000_0000, 24, 20) == Field(word, 24, 20)
    ensures Field(word + 0x4000_0000, 29, 25) == Field(word, 29, 25)
  {
    SetBit30KeepsBit31(word);
    var w := word + 0x4000_0000;
    assert Field(w, 6, 0) == Field(word, 6, 0) by {
      DigitUnchanged(word, 1, 0x80, 0x80_0000, 0x4000_0000);
    }
    assert Field(w, 7, 7) == Field(word, 7, 7) by {
      DigitUnchanged(word, 0x80, 2, 0x40_0000, 0x4000_0000);
    }
    assert Field(w, 11, 8) == Field(word, 11, 8) by {
      DigitUnchanged(word, 0x100, 0x10, 0x4_0000, 0x4000_0000);
    }
    assert Field(w, 19, 15) == Field(word, 19, 15) by {
      DigitUnchanged(word, 0x8000, 0x20, 0x400, 0x4000_0000);
    }
    assert Field(w, 24, 20) == Field(word, 24, 20) by {
      DigitUnchanged(word, 0x10_0000, 0x20, 0x20, 0x4000_0000);
    }
    assert Field(w, 29, 25) == Field(word, 29, 25) by {
      DigitUnchanged(word, 0x200_0000, 0x20, 1, 0x4000_0000);
    }
  }

  /** The SB extractor reads the same instruction from a word with a
      clear bit 30 as from that word with bit 30 set. */
  lemma SbExtractIgnoresBit30(op: Op, word: Word)
    requires !BitSet(word, 30)
    ensures word + 0x4000_0000 < 0x1_0000_0000
    ensures DecodeSb(op, word + 0x4000_0000) == DecodeSb(op, word)
  {
    SetBit30(word);
    assert SbOffset(word + 0x4000_0000) == SbOffset(word);
  }

  /** A branch or store decodes the same with word[30] set or clear: the
      SB extractor never reads it. */
  lemma SbIgnoresBit30(word: Word)
    requires Field(word, 6, 0) in {0x63, 0x23}
    requires !BitSet(word, 30)
    ensures word + 0x4000_0000 < 0x1_0000_0000
    ensures Decode(word + 0x4000_0000) == Decode(word)
  {
    SetBit30(word);
    var op := if Field(word, 6, 0) == 0x63 then Beq else Op.Sb;
    ExpectedByOpcode(SelectorsOf(word));
    ExpectedByOpcode(SelectorsOf(word + 0x4000_0000));
    DecodeExpected(word, op, OpType.Sb);
    DecodeExpected(word + 0x4000_0000, op, OpType.Sb);
    SbExtractIgnoresBit30(op, word);
  }
}
