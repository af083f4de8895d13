/** Register names: the 32 integer registers of RV32I under their ABI
    names, plus the `Invalid` sentinel a decoded instruction holds in an
    operand slot its format does not have. */
module Registers {

  import opened Wrappers
  import opened Words

  datatype Register =
      Zero    // x0
    | Ra      // x1
    | Sp      // x2
    | Gp      // x3
    | Tp      // x4
    | T0      // x5
    | T1      // x6
    | T2      // x7
    | Fp      // x8
    | S1      // x9
    | A0      // x10
    | A1      // x11
    | A2      // x12
    | A3      // x13
    | A4      // x14
    | A5      // x15
    | A6      // x16
    | A7      // x17
    | S2      // x18
    | S3      // x19
    | S4      // x20
    | S5      // x21
    | S6      // x22
    | S7      // x23
    | S8      // x24
    | S9      // x25
    | S10     // x26
    | S11     // x27
    | T3      // x28
    | T4      // x29
    | T5      // x30
    | T6      // x31
    | Invalid

  /** The architectural number xN of a register, the number its name
      stands for. */
  function Number(r: Register): (n: nat)
    requires r != Invalid
    ensures n < 32
  {
    match r
    case Zero => 0
    case Ra => 1
    case Sp => 2
    case Gp => 3
    case Tp => 4
    case T0 => 5
    case T1 => 6
    case T2 => 7
    case Fp => 8
    case S1 => 9
    case A0 => 10
    case A1 => 11
    case A2 => 12
    case A3 => 13
    case A4 => 14
    case A5 => 15
    case A6 => 16
    case A7 => 17
    case S2 => 18
    case S3 => 19
    case S4 => 20
    case S5 => 21
    case S6 => 22
    case S7 => 23
    case S8 => 24
    case S9 => 25
    case S10 => 26
    case S11 => 27
    case T3 => 28
    case T4 => 29
    case T5 => 30
    case T6 => 31
  }

  /** The register a 5-bit operand field names; any value of 32 or more has
      no register and gives `Invalid`. */
  function FromU32(u: Word): (r: Register)
    ensures r == Invalid <==> u >= 32
  {
    match u
    case 0 => Zero
    case 1 => Ra
    case 2 => Sp
    case 3 => Gp
    case 4 => Tp
    case 5 => T0
    case 6 => T1
    case 7 => T2
    case 8 => Fp
    case 9 => S1
    case 10 => A0
    case 11 => A1
    case 12 => A2
    case 13 => A3
    case 14 => A4
    case 15 => A5
    case 16 => A6
    case 17 => A7
    case 18 => S2
    case 19 => S3
    case 20 => S4
    case 21 => S5
    case 22 => S6
    case 23 => S7
    case 24 => S8
    case 25 => S9
    case 26 => S10
    case 27 => S11
    case 28 => T3
    case 29 => T4
    case 30 => T5
    case 31 => T6
    case _ => Invalid
  }

  /** A field value below 32 names the register numbered xN, N being
      that value. */
  lemma FromU32Number(u: Word)
    requires u < 32
    ensures FromU32(u) != Invalid && Number(FromU32(u)) == u
  {
    if u < 16 { LowFromU32Number(u); } else { HighFromU32Number(u); }
  }

  // The halves below carry no meaning of their own: splitting the 32-way
  // case analysis keeps each proof obligation small.

  lemma LowFromU32Number(u: Word)
    requires u < 16
    ensures FromU32(u) != Invalid && Number(FromU32(u)) == u
  {
  }

  lemma HighFromU32Number(u: Word)
    requires 16 <= u < 32
    ensures FromU32(u) != Invalid && Number(FromU32(u)) == u
  {
  }

  /** Distinct field values below 32 name distinct registers. */
  lemma FromU32Injective(u: Word, v: Word)
    requires u < 32 && v < 32
    ensures FromU32(u) == FromU32(v) ==> u == v
  {
    FromU32Number(u);
    FromU32Number(v);
  }

  /** Every register is reached from its own number. */
  lemma NumberRoundTrip(r: Register)
    requires r != Invalid
    ensures FromU32(Number(r)) == r
  {
    if Number(r) < 16 { LowNumberRoundTrip(r); } else { HighNumberRoundTrip(r); }
  }

  // Split in two only to keep each proof obligation small.

  lemma LowNumberRoundTrip(r: Register)
    requires r != Invalid && Number(r) < 16
    ensures FromU32(Number(r)) == r
  {
  }

  lemma HighNumberRoundTrip(r: Register)
    requires r != Invalid && Number(r) >= 16
    ensures FromU32(Number(r)) == r
  {
  }

  /** The text a register is displayed as: its ABI name, except that x0
      shows as "0" and the sentinel as "invalid". */
  function Name(r: Register): (s: string)
    ensures 0 < |s|
    ensures forall i | 0 <= i < |s| :: 'a' <= s[i] <= 'z' || '0' <= s[i] <= '9'
  {
    match r
    case Zero => "0"
    case Ra => "ra"
    case Sp => "sp"
    case Gp => "gp"
    case Tp => "tp"
    case Fp => "fp"
    case S1 => "s1"
    case S2 => "s2"
    case S3 => "s3"
    case S4 => "s4"
    case S5 => "s5"
    case S6 => "s6"
    case S7 => "s7"
    case S8 => "s8"
    case S9 => "s9"
    case S10 => "s10"
    case S11 => "s11"
    case A0 => "a0"
    case A1 => "a1"
    case A2 => "a2"
    case A3 => "a3"
    case A4 => "a4"
    case A5 => "a5"
    case A6 => "a6"
    case A7 => "a7"
    case T0 => "t0"
    case T1 => "t1"
    case T2 => "t2"
    case T3 => "t3"
    case T4 => "t4"
    case T5 => "t5"
    case T6 => "t6"
    case Invalid => "invalid"
  }

  /** Reads a displayed register name back; `None` for any other text. */
  function Parse(s: string): (r: Option<Register>)
    ensures r.Some? ==> Name(r.value) == s
  {
    var candidate := Candidate(s);
    if candidate.Some? && Name(candidate.value) == s then candidate else None
  }

  /** The only register whose name could be `s`, chosen from the length and
      the first and last characters of `s`. */
  function Candidate(s: string): Option<Register>
  {
    if |s| == 1 then
      if s[0] == '0' then Some(Zero) else None
    else if |s| == 2 then
      match s[0]
      case 'r' => Some(Ra)
      case 'g' => Some(Gp)
      case 'f' => Some(Fp)
      case 's' => if s[1] == 'p' then Some(Sp) else SavedRegister(s[1])
      case 't' => if s[1] == 'p' then Some(Tp) else Temporary(s[1])
      case 'a' => Argument(s[1])
      case _ => None
    else if |s| == 3 && s[0] == 's' then
      if s[2] == '0' then Some(S10) else if s[2] == '1' then Some(S11) else None
    else if |s| == 7 then
      Some(Invalid)
    else
      None
  }

  function SavedRegister(digit: char): Option<Register>
  {
    match digit
    case '1' => Some(S1)
    case '2' => Some(S2)
    case '3' => Some(S3)
    case '4' => Some(S4)
    case '5' => Some(S5)
    case '6' => Some(S6)
    case '7' => Some(S7)
    case '8' => Some(S8)
    case '9' => Some(S9)
    case _ => None
  }

  function Temporary(digit: char): Option<Register>
  {
    match digit
    case '0' => Some(T0)
    case '1' => Some(T1)
    case '2' => Some(T2)
    case '3' => Some(T3)
    case '4' => Some(T4)
    case '5' => Some(T5)
    case '6' => Some(T6)
    case _ => None
  }

  function Argument(digit: char): Option<Register>
  {
    match digit
    case '0' => Some(A0)
    case '1' => Some(A1)
    case '2' => Some(A2)
    case '3' => Some(A3)
    case '4' => Some(A4)
    case '5' => Some(A5)
    case '6' => Some(A6)
    case '7' => Some(A7)
    case _ => None
  }

  /** Reading a displayed name gives back the register it displays. */
  lemma NameRoundTrip(r: Register)
    ensures Parse(Name(r)) == Some(r)
  {
    if r in {Zero, Ra, Sp, Gp, Tp, Fp, Invalid} {
      NamedRoundTrip(r);
    } else if r in {S1, S2, S3, S4, S5, S6, S7, S8, S9, S10, S11} {
      SavedRoundTrip(r);
    } else if r in {A0, A1, A2, A3, A4, A5, A6, A7} {
      ArgumentRoundTrip(r);
    } else {
      TemporaryRoundTrip(r);
    }
  }

  // The groups below follow the shape of the names (fixed names, s-, a-
  // and t-registers); the split only keeps each proof obligation small.

  lemma NamedRoundTrip(r: Register)
    requires r in {Zero, Ra, Sp, Gp, Tp, Fp, Invalid}
    ensures Parse(Name(r)) == Some(r)
  {
  }

  lemma SavedRoundTrip(r: Register)
    requires r in {S1, S2, S3, S4, S5, S6, S7, S8, S9, S10, S11}
    ensures Parse(Name(r)) == Some(r)
  {
    if r in {S10, S11} { LongSavedRoundTrip(r); } else { ShortSavedRoundTrip(r); }
  }

  // Two-character and three-character saved-register names, split only to
  // keep each proof obligation small.

  lemma ShortSavedRoundTrip(r: Register)
    requires r in {S1, S2, S3, S4, S5, S6, S7, S8, S9}
    ensures Parse(Name(r)) == Some(r)
  {
  }

  lemma LongSavedRoundTrip(r: Register)
    requires r in {S10, S11}
    ensures Parse(Name(r)) == Some(r)
  {
  }

  lemma ArgumentRoundTrip(r: Register)
    requires r in {A0, A1, A2, A3, A4, A5, A6, A7}
    ensures Parse(Name(r)) == Some(r)
  {
  }

  lemma TemporaryRoundTrip(r: Register)
    requires r in {T0, T1, T2, T3, T4, T5, T6}
    ensures Parse(Name(r)) == Some(r)
  {
  }

  /** No two of the 33 register values share a displayed name. */
  lemma NamesDistinct(r1: Register, r2: Register)
    ensures Name(r1) == Name(r2) ==> r1 == r2
  {
    NameRoundTrip(r1);
    NameRoundTrip(r2);
  }

  /** "0" is the name of x0 and of nothing else, and "invalid" the name of
      the sentinel and of nothing else. */
  lemma ReservedNames(r: Register)
    ensures Name(r) == "0" <==> r == Zero
    ensures Name(r) == "invalid" <==> r == Invalid
  {
    NamesDistinct(r, Zero);
    NamesDistinct(r, Invalid);
  }
}
