/** The library's own decoding examples, each stated as a lemma about one
    concrete word, together with the text `Display` writes for the
    instruction it decodes to. Each example's fields are read off in a
    lemma of their own; the decoding then follows from the per-opcode
    lemmas alone. */
module Vectors {

  import opened Wrappers
  import opened Words
  import opened Registers
  import opened Instructions
  import opened Numerals
  import opened Text
  import opened Decoder
  import opened DecodeFacts
  import opened Display

  // ---------------------------------------------------------------------
  // Field values of the example words.
  // ---------------------------------------------------------------------

  lemma AddFields(word: Word)
    requires word == 0x00c5_8533
    ensures Field(word, 6, 0) == 0x33 && Field(word, 14, 12) == 0 && Field(word, 31, 25) == 0
    ensures Field(word, 11, 7) == 10 && Field(word, 19, 15) == 11 && Field(word, 24, 20) == 12
  {
  }

  lemma AddiFields(word: Word)
    requires word == 0x1235_8513
    ensures Field(word, 6, 0) == 0x13 && Field(word, 14, 12) == 0
    ensures Field(word, 11, 7) == 10 && Field(word, 19, 15) == 11 && Field(word, 31, 20) == 0x123
  {
  }

  lemma AndFields(word: Word)
    requires word == 0x0023_72b3
    ensures Field(word, 6, 0) == 0x33 && Field(word, 14, 12) == 7 && Field(word, 31, 25) == 0
    ensures Field(word, 11, 7) == 5 && Field(word, 19, 15) == 6 && Field(word, 24, 20) == 2
  {
    assert Field(word, 6, 0) == 0x33;
    assert Field(word, 14, 12) == 7;
    assert Field(word, 31, 25) == 0;
    assert Field(word, 11, 7) == 5;
    assert Field(word, 19, 15) == 6;
  }

  lemma AndiFields(word: Word)
    requires word == 0xfff1_f493
    ensures Field(word, 6, 0) == 0x13 && Field(word, 14, 12) == 7
    ensures Field(word, 11, 7) == 9 && Field(word, 19, 15) == 3 && Field(word, 31, 20) == 0xfff
  {
  }

  lemma AuipcFields(word: Word)
    requires word == 0x1234_5517
    ensures Field(word, 6, 0) == 0x17 && Field(word, 11, 7) == 10
    ensures 0x12345 * 0x1000 <= word < 0x12345 * 0x1000 + 0x1000
  {
  }

  /** The branch examples: opcode 0x63, rs1 a0, rs2 a1, and an offset of
      `2 * low` with every other offset bit clear. */
  lemma BeqFields(word: Word)
    requires word == 0x00b5_0663
    ensures Field(word, 6, 0) == 0x63 && Field(word, 19, 15) == 10 && Field(word, 24, 20) == 11
    ensures Field(word, 31, 31) == 0 && Field(word, 7, 7) == 0 && !BitSet(word, 7)
    ensures Field(word, 29, 25) == 0 && Field(word, 11, 8) == 6
  {
  }

  lemma OtherBranchFields(word: Word)
    requires word in {0x00b5_5263, 0x00b5_7263, 0x00b5_4263, 0x00b5_6263, 0x00b5_1263}
    ensures Field(word, 6, 0) == 0x63 && Field(word, 19, 15) == 10 && Field(word, 24, 20) == 11
    ensures Field(word, 31, 31) == 0 && Field(word, 7, 7) == 0 && !BitSet(word, 7)
    ensures Field(word, 29, 25) == 0 && Field(word, 11, 8) == 2
  {
    if word in {0x00b5_5263, 0x00b5_7263} {
      BgeFields(word);
    } else if word in {0x00b5_4263, 0x00b5_6263} {
      BltFields(word);
    } else {
      BneFields(word);
    }
  }

  // Split by word only to keep each proof obligation small.

  lemma BgeFields(word: Word)
    requires word in {0x00b5_5263, 0x00b5_7263}
    ensures Field(word, 6, 0) == 0x63 && Field(word, 19, 15) == 10 && Field(word, 24, 20) == 11
    ensures Field(word, 31, 31) == 0 && Field(word, 7, 7) == 0 && !BitSet(word, 7)
    ensures Field(word, 29, 25) == 0 && Field(word, 11, 8) == 2
  {
  }

  lemma BltFields(word: Word)
    requires word in {0x00b5_4263, 0x00b5_6263}
    ensures Field(word, 6, 0) == 0x63 && Field(word, 19, 15) == 10 && Field(word, 24, 20) == 11
    ensures Field(word, 31, 31) == 0 && Field(word, 7, 7) == 0 && !BitSet(word, 7)
    ensures Field(word, 29, 25) == 0 && Field(word, 11, 8) == 2
  {
  }

  lemma BneFields(word: Word)
    requires word == 0x00b5_1263
    ensures Field(word, 6, 0) == 0x63 && Field(word, 19, 15) == 10 && Field(word, 24, 20) == 11
    ensures Field(word, 31, 31) == 0 && Field(word, 7, 7) == 0 && !BitSet(word, 7)
    ensures Field(word, 29, 25) == 0 && Field(word, 11, 8) == 2
  {
  }

  // ---------------------------------------------------------------------
  // Texts of the example instructions.
  // ---------------------------------------------------------------------

  lemma SmallDecimals()
    ensures Decimal(291) == "291" && Decimal(-1) == "-1"
    ensures Decimal(12) == "12" && Decimal(4) == "4"
  {
    assert Digits(2, 10) == "2";
    assert Digits(29, 10) == "29";
    assert Digits(291, 10) == "291";
    assert Digits(1, 10) == "1";
    assert Digits(12, 10) == "12";
  }

  lemma SmallHex()
    ensures LowerHex(0x12345) == "12345"
  {
    assert Digits(0x1, 16) == "1";
    DigitsStep(0x12, 16);
    DigitsStep(0x123, 16);
    DigitsStep(0x1234, 16);
    DigitsStep(0x12345, 16);
    assert DigitChar(2) == '2' && DigitChar(3) == '3' && DigitChar(4) == '4' && DigitChar(5) == '5';
    assert "1" + ['2'] + ['3'] + ['4'] + ['5'] == "12345";
  }

  lemma AddText(ins: Instruction)
    requires ins == Instruction(A2, A1, A0, 0, Add, 0, 0, None)
    ensures Render(ins) == Some("add a0, a1, a2")
  {
    RegisterFormText(ins);
    assert "add" + " " + ("a0" + ", " + ("a1" + ", " + "a2")) == "add a0, a1, a2";
  }

  lemma AddiText(ins: Instruction)
    requires ins == Instruction(Invalid, A1, A0, 0, Addi, 0, 291, None)
    ensures Render(ins) == Some("addi a0, a1, 291")
  {
    ImmediateFormText(ins);
    SmallDecimals();
    assert "addi" + " " + ("a0" + ", " + ("a1" + ", " + "291")) == "addi a0, a1, 291";
  }

  lemma AndText(ins: Instruction)
    requires ins == Instruction(Sp, T1, T0, 0, And, 0, 0, None)
    ensures Render(ins) == Some("and t0, t1, sp")
  {
    RegisterFormText(ins);
    assert "and" + " " + ("t0" + ", " + ("t1" + ", " + "sp")) == "and t0, t1, sp";
  }

  lemma AndiText(ins: Instruction)
    requires ins == Instruction(Invalid, Gp, S1, 0, Andi, 0, -1, None)
    ensures Render(ins) == Some("andi s1, gp, -1")
  {
    ImmediateFormText(ins);
    SmallDecimals();
    assert "andi" + " " + ("s1" + ", " + ("gp" + ", " + "-1")) == "andi s1, gp, -1";
  }

  lemma AuipcText(ins: Instruction)
    requires ins == Instruction(Invalid, Invalid, A0, 0, Auipc, 0, 0x12345, None)
    ensures Render(ins) == Some("auipc a0, 0x12345")
  {
    UpperFormText(ins);
    SmallHex();
    assert "auipc " + ("a0" + ", " + ("0x" + "12345")) == "auipc a0, 0x12345";
  }

  lemma BeqText(ins: Instruction)
    requires ins == Instruction(A1, A0, Invalid, 0, Beq, 0, 12, None)
    ensures Render(ins) == Some("beq a0, a1, 12")
  {
    BranchFormText(ins);
    SmallDecimals();
    assert "beq" + " " + ("a0" + ", " + ("a1" + ", " + "12")) == "beq a0, a1, 12";
  }

  lemma OtherBranchText(ins: Instruction)
    requires ins == Instruction(A1, A0, Invalid, 0, Beq, 0, 4, None)
    ensures Render(ins) == Some("beq a0, a1, 4")
  {
    BranchFormText(ins);
    SmallDecimals();
    assert "beq" + " " + ("a0" + ", " + ("a1" + ", " + "4")) == "beq a0, a1, 4";
  }

  // ---------------------------------------------------------------------
  // The examples.
  // ---------------------------------------------------------------------

  /** 0x00c58533 is `add a0, a1, a2`. */
  lemma AddVector(word: Word)
    requires word == 0x00c5_8533
    ensures Decode(word) == Some(Instruction(A2, A1, A0, 0, Add, 0, 0, None))
    ensures Render(Decode(word).value) == Some("add a0, a1, a2")
  {
    AddFields(word);
    RegisterArithmetic(word);
    AddText(Decode(word).value);
  }

  /** 0x12358513 is `addi a0, a1, 291`. */
  lemma AddiVector(word: Word)
    requires word == 0x1235_8513
    ensures Decode(word) == Some(Instruction(Invalid, A1, A0, 0, Addi, 0, 291, None))
    ensures Render(Decode(word).value) == Some("addi a0, a1, 291")
  {
    AddiFields(word);
    ImmediateArithmetic(word);
    AddiText(Decode(word).value);
  }

  /** 0x002372b3 is `and t0, t1, sp`. */
  lemma AndVector(word: Word)
    requires word == 0x0023_72b3
    ensures Decode(word) == Some(Instruction(Sp, T1, T0, 0, And, 0, 0, None))
    ensures Render(Decode(word).value) == Some("and t0, t1, sp")
  {
    AndFields(word);
    RegisterArithmetic(word);
    AndText(Decode(word).value);
  }

  /** 0xfff1f493 is `andi s1, gp, -1`: word[31:20] = 0xfff reads as -1. */
  lemma AndiVector(word: Word)
    requires word == 0xfff1_f493
    ensures Decode(word) == Some(Instruction(Invalid, Gp, S1, 0, Andi, 0, -1, None))
    ensures Render(Decode(word).value) == Some("andi s1, gp, -1")
  {
    AndiFields(word);
    ImmediateArithmetic(word);
    AndiText(Decode(word).value);
  }

  /** 0x12345517 is `auipc a0, 0x12345`. */
  lemma AuipcVector(word: Word)
    requires word == 0x1234_5517
    ensures Decode(word) == Some(Instruction(Invalid, Invalid, A0, 0, Auipc, 0, 0x12345, None))
    ensures Render(Decode(word).value) == Some("auipc a0, 0x12345")
  {
    AuipcFields(word);
    UpperAndJump(word);
    AuipcText(Decode(word).value);
  }

  /** 0x00b50663 is `beq a0, a1, 12`. */
  lemma BeqVector(word: Word)
    requires word == 0x00b5_0663
    ensures Decode(word) == Some(Instruction(A1, A0, Invalid, 0, Beq, 0, 12, None))
    ensures Render(Decode(word).value) == Some("beq a0, a1, 12")
  {
    BeqFields(word);
    BranchesDecodeAsBeq(word);
    assert SbOffset(word) == 12;
    BeqText(Decode(word).value);
  }

  /** The BNE, BLT, BGE, BLTU and BGEU words 0x00b51263, 0x00b54263,
      0x00b55263, 0x00b56263 and 0x00b57263 all come out as
      `beq a0, a1, 4`. */
  lemma OtherBranchVectors(word: Word)
    requires word in {0x00b5_5263, 0x00b5_7263, 0x00b5_4263, 0x00b5_6263, 0x00b5_1263}
    ensures Decode(word) == Some(Instruction(A1, A0, Invalid, 0, Beq, 0, 4, None))
    ensures Render(Decode(word).value) == Some("beq a0, a1, 4")
  {
    OtherBranchFields(word);
    BranchesDecodeAsBeq(word);
    assert SbOffset(word) == 4;
    OtherBranchText(Decode(word).value);
  }
}
