# RV32I instruction decoder, modelled in Dafny

This project models the decoder of a small RISC-V library. The library turns a 32-bit RV32I instruction word into a decoded `Instruction` record: an operation, its registers, an immediate, a CSR number and the flags of a fence. It also renders a handful of operations back to assembly text.

The model covers three parts:

- **The decoder.** This is an ordered table of 47 `Opcode` entries. Each entry carries a format tag (`R`, `I`, `S`, `Sb`, `U`, `Uj`, `Special`) that picks its match rule and its extractor. The exception is FENCE and FENCE.I: they carry the `I` tag and match by the I rule, but `decode` sends them to the fence extractor instead of the I extractor. The first entry whose selectors match the word wins. That makes the results below hold:
  - Every branch decodes as BEQ and every store as SB.
  - SRL and SRA are shadowed by SRLI and SRAI.
  - JALR takes the S layout.
  - The SB extractor drops word bit 30.
- **The register mapping.** `from_u32` maps a 5-bit field to a register, and `Display` gives each register a name.
- **The instruction renderer.** It is defined for eleven operations.

The model follows the code, including where the code departs from the RISC-V manual.

How the model is written:

- **Words and fields.** A word is a `nat` below 2^32. The source's `(word >> k) & m` becomes division by 2^k and then a remainder (`Words.Field`). An `|` of non-overlapping fields becomes a sum.
- **Integer widths.** Immediates are `int`. The `isize` that `{:x}` prints is taken as 64 bits wide, so a negative immediate prints as its 64-bit two's complement.
- **Panics.** The `unimplemented!()` of the renderer is the `None` of `Display.Render`. The panic arm of `decode_special` becomes a precondition, and the table satisfies it (`Decoder.EntryValid`).

The project is organised as follows:

- `words.dfy`: words, bit fields and the division facts they rest on.
- `registers.dfy`: registers, `from_u32`, names, and a name reader.
- `instructions.dfy`: `Op`, `Fence` and `Instruction`.
- `decoder.dfy`: the table, the extractors and first-match `decode`.
- `decode_by_opcode.dfy`: a table-free reference decoder, written opcode by opcode, and the proof that `decode` equals it on every word.
- `decode_facts.dfy`: per-opcode consequences for whole words.
- `numerals.dfy`, `text.dfy` and `display.dfy`: decimal and hexadecimal text, comma lists, and the renderer with a reader that inverts it.
- `vectors.dfy`: the library's own decoding examples as lemmas.

## Model

| member | source | states |
|---|---|---|
| Registers.FromU32 | lib/register.rs:43-79 | a field value gives `Invalid` exactly when it is 32 or more |
| Registers.FromU32Number | lib/register.rs:5-38 | a value N below 32 gives the register commented as xN |
| Registers.FromU32Injective | lib/register.rs:44-77 | distinct values below 32 give distinct registers |
| Registers.NumberRoundTrip | lib/register.rs:44-77 | every register other than `Invalid` is what `from_u32` gives for its own number |
| Registers.Name | lib/register.rs:83-121 | every displayed name is non-empty and made of lower-case letters and digits |
| Registers.NameRoundTrip | lib/register.rs:85-119 | the name reader gives back the register from its displayed name, for all 33 values |
| Registers.NamesDistinct | lib/register.rs:85-119 | no two of the 33 values share a displayed name |
| Registers.ReservedNames | lib/register.rs:86-118 | "0" names x0 and nothing else; "invalid" names the sentinel and nothing else |
| Decoder.Entry | lib/decoder.rs:31-79 | the 47 entries with their selectors, op and tag, in source order; every selector fits its word field (an opcode below 0x80 with its low two bits set, funct3 below 8, funct7 below 0x80), so each entry's selector triple is that of some word |
| Decoder.Matches | lib/decoder.rs:315-356 | the per-format match rule: R compares all three selectors; I, S and Special compare opcode and funct3; Sb, U and Uj compare the opcode alone |
| Decoder.EntryValid | lib/decoder.rs:31-79 | every table entry with the `Special` tag holds an op `decode_special` accepts, and only those entries do; fence ops are I-tagged |
| Decoder.SignExtend12 | lib/decoder.rs:104-108 | the 12-bit sign correction gives the one value in [-2048, 2047] congruent to the field modulo 2^12, and it is negative exactly when field bit 11 is set |
| Decoder.DecodeR | lib/decoder.rs:82-97 | rd, rs1 and rs2 come from word[11:7], word[19:15] and word[24:20]; immediate, csr and shamt are 0, and there is no fence |
| Decoder.DecodeI | lib/decoder.rs:100-120 | rd and rs1 come from the word and rs2 is `Invalid`; the immediate is in [-2048, 2047], congruent to word[31:20] modulo 2^12, and negative exactly when word bit 31 is set |
| Decoder.SOffset | lib/decoder.rs:127-128 | the S field is below 2^12, and its bit 11 is word bit 31 |
| Decoder.DecodeS | lib/decoder.rs:123-144 | rd is `Invalid`, and rs1 and rs2 come from the word; the immediate is the S field sign-extended from bit 11, in [-2048, 2047] and negative exactly when word bit 31 is set |
| Decoder.SbOffset | lib/decoder.rs:151-154 | the SB offset assembled from the four word fields is even and below 2^13 |
| Decoder.SbOffsetBits | lib/decoder.rs:151-154 | the SB offset holds word[31] at bit 12, word[7] at bit 11, word[29:25] at bits 9..5 and word[11:8] at bits 4..1; bit 10 is always clear |
| Decoder.SbImmediate | lib/decoder.rs:155-158 | the SB immediate is even, lies in [-2048, 0x1400), and is the offset less 0x1000 exactly when word bit 7 is set |
| Decoder.DecodeSb | lib/decoder.rs:147-169 | rd is `Invalid`, rs1 and rs2 come from the word, and the immediate is the SB immediate |
| Decoder.DecodeU | lib/decoder.rs:172-187 | the immediate is `word >> 12`: below 2^20, with the word in [imm·2^12, imm·2^12 + 2^12); rs1 and rs2 are `Invalid` |
| Decoder.UjOffset | lib/decoder.rs:193-196 | the UJ offset assembled from the four word fields is even and below 2^21 |
| Decoder.UjOffsetBits | lib/decoder.rs:193-196 | the UJ offset holds word[31] at bit 20, word[19:12] in place, word[20] at bit 11 and word[30:21] at bits 10..1 |
| Decoder.DecodeUj | lib/decoder.rs:190-210 | rd comes from the word, rs1 and rs2 are `Invalid`, and the immediate is the UJ offset: non-negative, even and below 2^21 |
| Decoder.DecodeFence | lib/decoder.rs:213-238 | flags pi..sw are word bits 27..20 in that order; a fence is present and the immediate is 0 |
| Decoder.DecodeSpecial | lib/decoder.rs:241-300 | ECALL/EBREAK give ECALL exactly when word[31:20] is 0, with every register `Invalid`; CSR forms put word[31:20] (< 4096) in `csr`; the register forms read rs1 and the immediate forms put word[19:15] in `immediate` |
| Decoder.SelectorsOf | lib/decoder.rs:304-306 | opcode, funct3 and funct7 are word[6:0], word[14:12] and word[31:25] |
| Decoder.NoMatchBetweenMeans | lib/decoder.rs:308-357 | the recursive no-match predicate holds exactly when no entry in the range matches |
| Decoder.FirstMatchUnique | lib/decoder.rs:308-357 | at most one entry is the first match |
| Decoder.Extract | lib/decoder.rs:315-356 | the dispatch keeps the entry's op (except ECALL/EBREAK, which stay among themselves), leaves shamt 0, and produces a fence exactly for FENCE and FENCE.I |
| Decoder.FirstMatch | lib/decoder.rs:308-357 | the scan returns an index whose entry matches with none earlier matching, or nothing when no entry from the start index matches |
| Decoder.Decode | lib/decoder.rs:303-360 | `None` exactly when no entry matches; any result has shamt 0 and a fence exactly when its op is FENCE or FENCE.I |
| Decoder.DecodeFirstMatch | lib/decoder.rs:308-357 | when entry k is the first match, `decode` returns what k's extractor builds |
| DecodeByOpcode.ExpectedValid | lib/decoder.rs:31-79 | every op the opcode-by-opcode reference expects goes with its format tag, and none of them is one that is never decoded |
| DecodeByOpcode.Reference | lib/decoder.rs:31-79 | the reference decoder never yields BNE, BLT, BGE, BLTU, BGEU, SH, SW, SRL, SRA or a counter read |
| DecodeByOpcode.ScanIsExpected | lib/decoder.rs:303-360 | for every combination of selectors, the first-match scan stops on the entry the opcode-by-opcode reference names, or finds nothing where the reference expects nothing |
| DecodeByOpcode.DecodeIsReference | lib/decoder.rs:303-360 | `decode` equals the opcode-by-opcode reference on every word |
| DecodeFacts.DecodeDefinedIff | lib/decoder.rs:315-359 | `decode` answers exactly when some entry matches under its format's rule (R: three selectors; I, S, Special: opcode and funct3; Sb, U, Uj: opcode) |
| DecodeFacts.DecodeFromFirstMatch | lib/decoder.rs:308-357 | any answer is what the first matching entry's extractor builds |
| DecodeFacts.DecodeImmediateRange | lib/decoder.rs:82-300 | every immediate `decode` produces lies between -2048 and 2^21 - 2 |
| DecodeFacts.JalOffsetNotSignExtended | lib/decoder.rs:190-210 | the JAL word 0xffffffef decodes to the offset 2^21 - 2, not -2: the UJ offset is not sign-extended |
| DecodeFacts.NeverDecodedOps | lib/decoder.rs:36-66 | no word decodes to BNE, BLT, BGE, BLTU, BGEU, SH, SW, SRL, SRA or a counter read |
| DecodeFacts.BranchesDecodeAsBeq | lib/decoder.rs:36-41 | every opcode-0x63 word decodes as BEQ through the SB extractor, whatever its funct3 |
| DecodeFacts.StoresDecodeAsSb | lib/decoder.rs:47-49 | every opcode-0x23 word decodes as SB through the SB extractor, whatever its funct3 |
| DecodeFacts.JalrUsesSLayout | lib/decoder.rs:35 | opcode 0x67 with funct3 0 decodes as JALR with the S layout (rd `Invalid`), and any other funct3 gives nothing |
| DecodeFacts.UpperAndJump | lib/decoder.rs:32-34 | LUI and AUIPC use the U extractor and JAL the UJ extractor |
| DecodeFacts.Loads | lib/decoder.rs:42-46 | opcode 0x03 decodes exactly for funct3 in {0, 1, 2, 4, 5}, as the load that funct3 selects, with the I extractor |
| DecodeFacts.ImmediateArithmetic | lib/decoder.rs:50-55 | opcode 0x13 with funct3 other than 1 and 5 decodes as the immediate operation for that funct3, with the I extractor |
| DecodeFacts.ImmediateShifts | lib/decoder.rs:56-58 | opcode 0x13 with funct3 1 or 5 gives SLLI, SRLI or SRAI by funct7, through the R extractor, or nothing for any other funct7 |
| DecodeFacts.RegisterArithmetic | lib/decoder.rs:59-68 | opcode 0x33 decodes exactly for the funct3/funct7 pairs of ADD, SUB, SLL, SLT, SLTU, XOR, OR and AND; funct3 5 gives nothing |
| DecodeFacts.Fences | lib/decoder.rs:69-70 | opcode 0x0f gives FENCE for funct3 0 and FENCE.I for funct3 1, both through the fence extractor, and nothing otherwise |
| DecodeFacts.EnvironmentCalls | lib/decoder.rs:71-72 | opcode 0x73 with funct3 0 always decodes, as ECALL exactly when word[31:20] is 0 and as EBREAK otherwise, with rd, rs1 and rs2 `Invalid` |
| DecodeFacts.CsrInstructions | lib/decoder.rs:73-78 | opcode 0x73 with funct3 other than 0 decodes exactly when funct3 is not 4, as the CSR op for that funct3, with `csr` equal to word[31:20] |
| DecodeFacts.UnknownOpcodes | lib/decoder.rs:303-359 | an opcode no entry mentions decodes to nothing |
| DecodeFacts.SbIgnoresBit30 | lib/decoder.rs:151-154 | for a branch or store word, setting bit 30 does not change the decoded instruction |
| Display.Mnemonic | lib/instruction.rs:115-137 | every mnemonic is non-empty, with no space or comma |
| Display.MnemonicRoundTrip | lib/instruction.rs:115-137 | every mnemonic reads back as its operation, so no two rendered operations share one |
| Display.Render | lib/instruction.rs:113-141 | text exists exactly for the eleven rendered operations, and it starts with the operation's mnemonic and a space |
| Display.RegisterFormText | lib/instruction.rs:116-117 | ADD and AND render as mnemonic, space, then rd, rs1 and rs2 separated by ", " |
| Display.ImmediateFormText | lib/instruction.rs:118-123 | ADDI and ANDI render rd, rs1 and the immediate in decimal |
| Display.UpperFormText | lib/instruction.rs:124-125 | AUIPC renders rd, then "0x" and the immediate's 64-bit two's-complement value in lower-case hexadecimal |
| Display.BranchFormText | lib/instruction.rs:126-137 | the six branches render rs1, rs2 and the offset in decimal, and never mention rd |
| Display.RenderRoundTrip | lib/instruction.rs:113-141 | reading a rendered text gives back the operation and the operands it shows |
| Display.RenderInjective | lib/instruction.rs:113-141 | two instructions with the same text have the same operation and show the same operands |
| Numerals.DecimalRoundTrip | lib/instruction.rs:119 | the decimal text of an integer reads back as that integer |
| Numerals.LowerHexRoundTrip | lib/instruction.rs:125 | the lower-case hexadecimal text of a natural number reads back as that number |
| Text.CommaListRoundTrip | lib/instruction.rs:117 | splitting a ", "-separated list of comma-free items gives back the items |
| Vectors.AddVector | lib/test.rs:12-22 | 0x00c58533 decodes to ADD a0, a1, a2 and renders as "add a0, a1, a2" |
| Vectors.AddiVector | lib/test.rs:25-35 | 0x12358513 decodes to ADDI a0, a1, 291 and renders as "addi a0, a1, 291" |
| Vectors.AndVector | lib/test.rs:38-48 | 0x002372b3 decodes to AND t0, t1, sp and renders as "and t0, t1, sp" |
| Vectors.AndiVector | lib/test.rs:51-61 | 0xfff1f493 decodes to ANDI s1, gp, -1 and renders as "andi s1, gp, -1" |
| Vectors.AuipcVector | lib/test.rs:64-73 | 0x12345517 decodes to AUIPC a0, 0x12345 and renders as "auipc a0, 0x12345" |
| Vectors.BeqVector | lib/test.rs:76-86 | 0x00b50663 decodes to BEQ a0, a1, 12 |
| Vectors.OtherBranchVectors | lib/test.rs:89-150 | the BGE, BGEU, BLT, BLTU and BNE words all decode to BEQ a0, a1, 4 |

## Left out

- Accessors (lib/instruction.rs:75-84 and 101-110): each is a datatype destructor of `Instructions.Fence` or `Instructions.Instruction`, which returns the stored field by construction.
- `fmt::Formatter` and `write!`: rendering is a pure function to `Option<string>`. The derived `Clone`, `Debug` and `PartialEq` are Dafny's built-in value equality.
- The commented-out debug print inside the `decode` loop (lib/decoder.rs:309-314).
- The `#[test]` harness (lib/test.rs): only its vectors are restated, as the lemmas in `vectors.dfy`.
- `isize` width: immediates are unbounded integers. Every immediate `decode` produces lies between -2048 and 2^21 - 2, the largest UJ offset, because JAL's offset is not sign-extended (`DecodeFacts.DecodeImmediateRange`, with the bound reached in `DecodeFacts.JalOffsetNotSignExtended`).
- Display.RenderRoundTrip: requires the immediate to fit a 64-bit `isize`, the only range in which `{:x}` is defined.
- Display.RenderInjective: requires the same, and is stated over the operands the text shows, because the text omits some fields (rd for branches, rs2 for ADDI and ANDI).
- Decoder.DecodeSpecial: the `panic!` arm becomes the precondition that the op is one of the eight system ops. `Decoder.EntryValid` shows that every `Special` table entry satisfies it.
- The RdCycle, RdCycleH, RdTime, RdTimeH, RdInstRet and RdInstRetH ops are in `Instructions.Op`, but they have no table entry and are never decoded.
