/** The texts of the instruction patterns the emulator registers, compared digit by digit: two of them either
    say nothing about the register fields the lookup hash leaves out or clash where it looks. */
module PatternTexts {
  predicate Digit(c: char) { c in "01" }

  /** The places the hash leaves out: rs1 and rd. */
  predicate Left(i: nat) { 7 <= i < 12 || 15 <= i < 20 }

  /** The text says nothing about rs1 and rd. */
  predicate Plain(text: string)
    requires |text| == 32
  {
    && !Digit(text[12]) && !Digit(text[13]) && !Digit(text[14]) && !Digit(text[15]) && !Digit(text[16])
    && !Digit(text[20]) && !Digit(text[21]) && !Digit(text[22]) && !Digit(text[23]) && !Digit(text[24])
  }

  /** The texts ask for different digits at position `k`. */
  predicate Differ(s: string, t: string, k: nat)
    requires |s| == |t| == 32 && k < 32
  {
    Digit(s[k]) && Digit(t[k]) && s[k] != t[k]
  }

  /** They do so where the hash looks. */
  ghost predicate Clash(s: string, t: string)
    requires |s| == |t| == 32
  {
    exists k: nat :: k < 32 && !Left(31 - k) && Differ(s, t, k)
  }

  /** No text hides another: each is plain, or clashes with every other one. */
  ghost predicate Safe(texts: seq<string>) {
    forall s, t :: s in texts && t in texts && |s| == |t| == 32 ==> s == t || Plain(s) || Clash(s, t)
  }

  // ---- the texts the emulator registers ----

  const ECALL := "00000000000000000000000001110011"
  const EBREAK := "00000000000100000000000001110011"
  const FENCE := "0000********00000000000000001111"
  const MRET := "00110000001000000000000001110011"
  const SRET := "00010000001000000000000001110011"
  const WFI := "00010000010100000000000001110011"
  const SFENCE_VMA := "0001001**********000000001110011"
  const FENCE_I := "*****************001*****0001111"
  const CBO_ZERO := "000000000100*****010000000001111"

  const INTEGER_ALU: seq<string> :=
    ["0000000**********000*****0110011", "0000000**********000*****0111011", "0100000**********000*****0110011",
     "0100000**********000*****0111011", "0000000**********100*****0110011", "0000000**********110*****0110011",
     "0000000**********111*****0110011"]

  const INTEGER_SHIFT: seq<string> :=
    ["0000000**********001*****0110011", "0000000**********001*****0111011", "0000000**********101*****0110011",
     "0000000**********101*****0111011", "0100000**********101*****0110011", "0100000**********101*****0111011",
     "0000000**********010*****0110011", "0000000**********011*****0110011"]

  const INTEGER_IMMEDIATE: seq<string> :=
    ["*****************000*****0010011", "*****************000*****0011011", "*****************100*****0010011",
     "*****************110*****0010011", "*****************111*****0010011"]

  const IMMEDIATE_SHIFT: seq<string> :=
    ["000000***********001*****0010011", "0000000**********001*****0011011", "0000000**********101*****0011011",
     "0100000**********101*****0011011", "000000***********101*****0010011", "010000***********101*****0010011",
     "*****************010*****0010011", "*****************011*****0010011"]

  const LOADS: seq<string> :=
    ["*****************000*****0000011", "*****************001*****0000011", "*****************010*****0000011",
     "*****************011*****0000011", "*****************100*****0000011", "*****************101*****0000011",
     "*****************110*****0000011"]

  const STORES_BRANCHES: seq<string> :=
    ["*****************000*****0100011", "*****************001*****0100011", "*****************010*****0100011",
     "*****************011*****0100011", "*****************000*****1100011", "*****************001*****1100011",
     "*****************100*****1100011", "*****************101*****1100011", "*****************110*****1100011",
     "*****************111*****1100011"]

  const JUMPS: seq<string> :=
    ["*************************1101111", "*****************000*****1100111", "*************************0110111",
     "*************************0010111"]

  const CALLS: seq<string> := [ECALL, EBREAK]

  const MULTIPLY: seq<string> :=
    ["0000001**********000*****0110011", "0000001**********000*****0111011", "0000001**********001*****0110011",
     "0000001**********010*****0110011", "0000001**********011*****0110011"]

  const DIVIDE: seq<string> :=
    ["0000001**********100*****0110011", "0000001**********101*****0110011", "0000001**********101*****0111011",
     "0000001**********100*****0111011", "0000001**********110*****0110011", "0000001**********111*****0110011",
     "0000001**********111*****0111011", "0000001**********110*****0111011"]

  const ATOMIC_WORD: seq<string> :=
    ["00001************010*****0101111", "00000************010*****0101111", "01100************010*****0101111",
     "00100************010*****0101111", "01000************010*****0101111", "10000************010*****0101111",
     "11000************010*****0101111", "10100************010*****0101111", "11100************010*****0101111",
     "00010************010*****0101111", "00011************010*****0101111"]

  const ATOMIC_DOUBLE: seq<string> :=
    ["00001************011*****0101111", "00000************011*****0101111", "01100************011*****0101111",
     "00100************011*****0101111", "01000************011*****0101111", "10000************011*****0101111",
     "11000************011*****0101111", "10100************011*****0101111", "11100************011*****0101111",
     "00010************011*****0101111", "00011************011*****0101111"]

  const SINGLE_ARITHMETIC: seq<string> :=
    ["*****00******************1000011", "*****00******************1000111", "*****00******************1001111",
     "*****00******************1001011", "0000000******************1010011", "0000100******************1010011",
     "0001000******************1010011", "0001100******************1010011", "010110000000*************1010011"]

  const SINGLE_SIGN: seq<string> :=
    ["0010000**********000*****1010011", "0010000**********001*****1010011", "0010000**********010*****1010011",
     "0010100**********000*****1010011", "0010100**********001*****1010011"]

  const SINGLE_CONVERT: seq<string> :=
    ["110000000000*************1010011", "110000000001*************1010011", "110100000000*************1010011",
     "110100000001*************1010011", "110000000010*************1010011", "110000000011*************1010011",
     "110100000010*************1010011", "110100000011*************1010011"]

  const SINGLE_MOVE: seq<string> :=
    ["111000000000*****000*****1010011", "111100000000*****000*****1010011", "1010000**********010*****1010011",
     "1010000**********001*****1010011", "1010000**********000*****1010011", "111000000000*****001*****1010011",
     "*****************010*****0000111", "*****************010*****0100111"]

  const DOUBLE_ARITHMETIC: seq<string> :=
    ["*****01******************1000011", "*****01******************1000111", "*****01******************1001111",
     "*****01******************1001011", "0000001******************1010011", "0000101******************1010011",
     "0001001******************1010011", "0001101******************1010011", "010110100000*************1010011"]

  const DOUBLE_SIGN: seq<string> :=
    ["0010001**********000*****1010011", "0010001**********001*****1010011", "0010001**********010*****1010011",
     "0010101**********000*****1010011", "0010101**********001*****1010011"]

  const DOUBLE_CONVERT: seq<string> :=
    ["010000000001*************1010011", "010000100000*************1010011", "110000100000*************1010011",
     "110000100001*************1010011", "110100100000*************1010011", "110100100001*************1010011",
     "110000100010*************1010011", "110000100011*************1010011", "110100100010*************1010011",
     "110100100011*************1010011"]

  const DOUBLE_MOVE: seq<string> :=
    ["111000100000*****000*****1010011", "111100100000*****000*****1010011", "1010001**********010*****1010011",
     "1010001**********001*****1010011", "1010001**********000*****1010011", "111000100000*****001*****1010011",
     "*****************011*****0000111", "*****************011*****0100111"]

  const COMPRESSED: seq<string> :=
    ["000***********00", "010***********00", "011***********00", "110***********00", "111***********00",
     "0000000000000001", "000***********01", "001***********01", "010***********01", "011***********01",
     "100*00********01", "100*01********01", "100*10********01", "100011***00***01", "100011***01***01",
     "100011***10***01", "100011***11***01", "100111***00***01", "100111***01***01", "101***********01",
     "110***********01", "111***********01", "000***********10", "010***********10", "011***********10",
     "1000*****0000010", "1000**********10", "1001000000000010", "1001*****0000010", "1001**********10",
     "110***********10", "111***********10", "001***********00", "101***********00", "001***********10",
     "101***********10"]

  const RETURNS: seq<string> := [MRET, SRET, WFI, SFENCE_VMA]

  const CSR_ACCESS: seq<string> :=
    ["*****************001*****1110011", "*****************010*****1110011", "*****************011*****1110011",
     "*****************101*****1110011", "*****************110*****1110011", "*****************111*****1110011"]

  const ZBA: seq<string> :=
    ["0000100**********000*****0111011", "0010000**********010*****0110011", "0010000**********010*****0111011",
     "0010000**********100*****0110011", "0010000**********100*****0111011", "0010000**********110*****0110011",
     "0010000**********110*****0111011", "000010***********001*****0011011"]

  const ZBB_LOGIC: seq<string> :=
    ["0100000**********111*****0110011", "0100000**********110*****0110011", "0100000**********100*****0110011",
     "011000000000*****001*****0010011", "011000000000*****001*****0011011", "011000000001*****001*****0010011",
     "011000000001*****001*****0011011", "011000000010*****001*****0010011", "011000000010*****001*****0011011"]

  const ZBB_MIN_MAX: seq<string> :=
    ["0000101**********110*****0110011", "0000101**********111*****0110011", "0000101**********100*****0110011",
     "0000101**********101*****0110011", "011000000100*****001*****0010011", "011000000101*****001*****0010011",
     "000010000000*****100*****0111011"]

  const ZBB_ROTATE: seq<string> :=
    ["0110000**********001*****0110011", "0110000**********001*****0111011", "0110000**********101*****0110011",
     "011000***********101*****0010011", "0110000**********101*****0011011", "0110000**********101*****0111011",
     "001010000111*****101*****0010011", "011010111000*****101*****0010011"]

  const ZBC: seq<string> :=
    ["0000101**********001*****0110011", "0000101**********011*****0110011", "0000101**********010*****0110011"]

  const ZBS: seq<string> :=
    ["0100100**********001*****0110011", "010010***********001*****0010011", "0100100**********101*****0110011",
     "010010***********101*****0010011", "0110100**********001*****0110011", "011010***********001*****0010011",
     "0010100**********001*****0110011", "001010***********001*****0010011"]

  const BASE: seq<string> :=
    INTEGER_ALU + INTEGER_SHIFT + INTEGER_IMMEDIATE + IMMEDIATE_SHIFT + LOADS + STORES_BRANCHES + JUMPS + CALLS + [FENCE]
    + MULTIPLY + DIVIDE + ATOMIC_WORD + ATOMIC_DOUBLE

  const FLOATING: seq<string> :=
    SINGLE_ARITHMETIC + SINGLE_SIGN + SINGLE_CONVERT + SINGLE_MOVE
    + DOUBLE_ARITHMETIC + DOUBLE_SIGN + DOUBLE_CONVERT + DOUBLE_MOVE

  const EXTENSIONS: seq<string> :=
    RETURNS + CSR_ACCESS + [FENCE_I] + ZBA + ZBB_LOGIC + ZBB_MIN_MAX + ZBB_ROTATE + ZBC + ZBS + [CBO_ZERO]

  /** All of them, in the order they are registered. */
  const REGISTERED: seq<string> := BASE + FLOATING + COMPRESSED + EXTENSIONS

  // ---- each text against the others ----

  /** Some digit differs from the opcode 1110011, and some from 0001111. */
  predicate OffSystem(t: string)
    requires |t| == 32
  {
    t[25] == '0' || t[26] == '0' || t[27] == '0' || t[28] == '1' || t[29] == '1' || t[30] == '0' || t[31] == '0'
  }

  predicate OffMisc(t: string)
    requires |t| == 32
  {
    t[25] == '1' || t[26] == '1' || t[27] == '1' || t[28] == '0' || t[29] == '0' || t[30] == '0' || t[31] == '0'
  }

  /** What is true of all texts but those of ten instructions and the CSR accesses. */
  predicate Fine(t: string) { |t| == 32 && Plain(t) && OffSystem(t) && OffMisc(t) }

  predicate System(t: string) {
    |t| == 32 && t[25] == '1' && t[26] == '1' && t[27] == '1' && t[28] == '0' && t[29] == '0' && t[30] == '1' && t[31] == '1'
  }

  predicate Misc(t: string) {
    |t| == 32 && t[25] == '0' && t[26] == '0' && t[27] == '0' && t[28] == '1' && t[29] == '1' && t[30] == '1' && t[31] == '1'
  }


  lemma IntegerAluFine(t: string)
    requires t in INTEGER_ALU
    ensures Fine(t)
  {
  }

  lemma IntegerShiftFine(t: string)
    requires t in INTEGER_SHIFT
    ensures Fine(t)
  {
  }

  lemma IntegerImmediateFine(t: string)
    requires t in INTEGER_IMMEDIATE
    ensures Fine(t)
  {
  }

  lemma ImmediateShiftFine(t: string)
    requires t in IMMEDIATE_SHIFT
    ensures Fine(t)
  {
  }

  lemma LoadsFine(t: string)
    requires t in LOADS
    ensures Fine(t)
  {
  }

  lemma StoresBranchesFine(t: string)
    requires t in STORES_BRANCHES
    ensures Fine(t)
  {
  }

  lemma JumpsFine(t: string)
    requires t in JUMPS
    ensures Fine(t)
  {
  }

  lemma MultiplyFine(t: string)
    requires t in MULTIPLY
    ensures Fine(t)
  {
  }

  lemma DivideFine(t: string)
    requires t in DIVIDE
    ensures Fine(t)
  {
  }

  lemma AtomicWordFine(t: string)
    requires t in ATOMIC_WORD
    ensures Fine(t)
  {
  }

  lemma AtomicDoubleFine(t: string)
    requires t in ATOMIC_DOUBLE
    ensures Fine(t)
  {
  }

  lemma SingleArithmeticFine(t: string)
    requires t in SINGLE_ARITHMETIC
    ensures Fine(t)
  {
  }

  lemma SingleSignFine(t: string)
    requires t in SINGLE_SIGN
    ensures Fine(t)
  {
  }

  lemma SingleConvertFine(t: string)
    requires t in SINGLE_CONVERT
    ensures Fine(t)
  {
  }

  lemma SingleMoveFine(t: string)
    requires t in SINGLE_MOVE
    ensures Fine(t)
  {
  }

  lemma DoubleArithmeticFine(t: string)
    requires t in DOUBLE_ARITHMETIC
    ensures Fine(t)
  {
  }

  lemma DoubleSignFine(t: string)
    requires t in DOUBLE_SIGN
    ensures Fine(t)
  {
  }

  lemma DoubleConvertFine(t: string)
    requires t in DOUBLE_CONVERT
    ensures Fine(t)
  {
  }

  lemma DoubleMoveFine(t: string)
    requires t in DOUBLE_MOVE
    ensures Fine(t)
  {
  }

  lemma ZbaFine(t: string)
    requires t in ZBA
    ensures Fine(t)
  {
  }

  lemma ZbbLogicFine(t: string)
    requires t in ZBB_LOGIC
    ensures Fine(t)
  {
  }

  lemma ZbbMinMaxFine(t: string)
    requires t in ZBB_MIN_MAX
    ensures Fine(t)
  {
  }

  lemma ZbbRotateFine(t: string)
    requires t in ZBB_ROTATE
    ensures Fine(t)
  {
  }

  lemma ZbcFine(t: string)
    requires t in ZBC
    ensures Fine(t)
  {
  }

  lemma ZbsFine(t: string)
    requires t in ZBS
    ensures Fine(t)
  {
  }

  predicate Privileged(t: string) { t in CALLS + RETURNS }

  predicate CsrText(t: string) { t in CSR_ACCESS }

  predicate MiscText(t: string) { t in [FENCE, FENCE_I, CBO_ZERO] }

  lemma CompressedShort(t: string)
    requires t in COMPRESSED
    ensures |t| == 16
  {
  }

  lemma CsrFacts(t: string)
    requires CsrText(t)
    ensures System(t) && Plain(t) && (t[17] == '1' || t[18] == '1' || t[19] == '1')
  {
  }

  lemma PrivilegedFacts(t: string)
    requires Privileged(t)
    ensures System(t) && t[17] == '0' && t[18] == '0' && t[19] == '0'
  {
  }

  lemma MiscFacts(t: string)
    requires MiscText(t)
    ensures Misc(t) && (t == FENCE_I ==> Plain(t))
  {
  }

  lemma MiscApart(s: string, t: string)
    requires MiscText(s) && MiscText(t) && s != t
    ensures |s| == |t| == 32 && Clash(s, t)
  {
    MiscFacts(s);
    MiscFacts(t);
    assert Differ(FENCE, FENCE_I, 19) && Differ(FENCE_I, FENCE, 19);
    assert Differ(FENCE, CBO_ZERO, 18) && Differ(CBO_ZERO, FENCE, 18);
    assert Differ(FENCE_I, CBO_ZERO, 18) && Differ(CBO_ZERO, FENCE_I, 18);
  }

  lemma PrivilegedApart(s: string, t: string)
    requires Privileged(s) && Privileged(t) && s != t
    ensures |s| == |t| == 32 && Clash(s, t)
  {
    PrivilegedFacts(s);
    PrivilegedFacts(t);
    PrivilegedPairs();
    hide Differ;
    assert Differ(s, t, 2) || Differ(s, t, 3) || Differ(s, t, 6) || Differ(s, t, 9) || Differ(s, t, 11);
  }

  lemma PrivilegedPairs()
    ensures Different(ECALL, EBREAK, 11) && Different(ECALL, MRET, 2) && Different(ECALL, SRET, 3)
    ensures Different(ECALL, WFI, 3) && Different(ECALL, SFENCE_VMA, 3) && Different(EBREAK, MRET, 2)
    ensures Different(EBREAK, SRET, 3) && Different(EBREAK, WFI, 3) && Different(EBREAK, SFENCE_VMA, 3)
    ensures Different(MRET, SRET, 2) && Different(MRET, WFI, 2) && Different(MRET, SFENCE_VMA, 2)
    ensures Different(SRET, WFI, 9) && Different(SRET, SFENCE_VMA, 6) && Different(WFI, SFENCE_VMA, 6)
  {
  }

  predicate Different(s: string, t: string, k: nat)
    requires k < 32
  {
    |s| == |t| == 32 && Differ(s, t, k) && Differ(t, s, k)
  }

  // ---- all together ----

  /** Another opcode, or another function code, than an instruction under the system opcode. */
  lemma OpcodeClash(s: string, t: string)
    requires System(s) && |t| == 32 && OffSystem(t)
    ensures Clash(s, t)
  {
    assert Differ(s, t, 25) || Differ(s, t, 26) || Differ(s, t, 27) || Differ(s, t, 28) || Differ(s, t, 29)
      || Differ(s, t, 30) || Differ(s, t, 31);
  }

  lemma MiscClash(s: string, t: string)
    requires Misc(s) && |t| == 32 && OffMisc(t)
    ensures Clash(s, t)
  {
    assert Differ(s, t, 25) || Differ(s, t, 26) || Differ(s, t, 27) || Differ(s, t, 28) || Differ(s, t, 29)
      || Differ(s, t, 30) || Differ(s, t, 31);
  }

  lemma FunctionClash(s: string, t: string)
    requires |s| == |t| == 32 && s[17] == '0' && s[18] == '0' && s[19] == '0'
    requires t[17] == '1' || t[18] == '1' || t[19] == '1'
    ensures Clash(s, t)
  {
    assert Differ(s, t, 17) || Differ(s, t, 18) || Differ(s, t, 19);
  }

  lemma MiscIsOff(t: string)
    requires Misc(t)
    ensures OffSystem(t)
  {
  }

  lemma SystemIsOff(t: string)
    requires System(t)
    ensures OffMisc(t)
  {
  }

  /** What kind of text each one is. */
  predicate Kind(t: string) { |t| == 16 || Fine(t) || Privileged(t) || CsrText(t) || MiscText(t) }

  lemma BaseKinds(t: string)
    requires t in BASE
    ensures Kind(t)
  {
    hide Fine;
    if t in INTEGER_ALU { IntegerAluFine(t); }
    if t in INTEGER_SHIFT { IntegerShiftFine(t); }
    if t in INTEGER_IMMEDIATE { IntegerImmediateFine(t); }
    if t in IMMEDIATE_SHIFT { ImmediateShiftFine(t); }
    if t in LOADS { LoadsFine(t); }
    if t in STORES_BRANCHES { StoresBranchesFine(t); }
    if t in JUMPS { JumpsFine(t); }
    if t in MULTIPLY { MultiplyFine(t); }
    if t in DIVIDE { DivideFine(t); }
    if t in ATOMIC_WORD { AtomicWordFine(t); }
    if t in ATOMIC_DOUBLE { AtomicDoubleFine(t); }
  }

  lemma FloatingKinds(t: string)
    requires t in FLOATING
    ensures Kind(t)
  {
    hide Fine;
    if t in SINGLE_ARITHMETIC { SingleArithmeticFine(t); }
    if t in SINGLE_SIGN { SingleSignFine(t); }
    if t in SINGLE_CONVERT { SingleConvertFine(t); }
    if t in SINGLE_MOVE { SingleMoveFine(t); }
    if t in DOUBLE_ARITHMETIC { DoubleArithmeticFine(t); }
    if t in DOUBLE_SIGN { DoubleSignFine(t); }
    if t in DOUBLE_CONVERT { DoubleConvertFine(t); }
    if t in DOUBLE_MOVE { DoubleMoveFine(t); }
  }

  lemma ExtensionKinds(t: string)
    requires t in EXTENSIONS
    ensures Kind(t)
  {
    hide Fine;
    if t in ZBA { ZbaFine(t); }
    if t in ZBB_LOGIC { ZbbLogicFine(t); }
    if t in ZBB_MIN_MAX { ZbbMinMaxFine(t); }
    if t in ZBB_ROTATE { ZbbRotateFine(t); }
    if t in ZBC { ZbcFine(t); }
    if t in ZBS { ZbsFine(t); }
  }

  lemma Kinds(t: string)
    requires t in REGISTERED
    ensures Kind(t)
  {
    hide Kind;
    if t in BASE { BaseKinds(t); }
    if t in FLOATING { FloatingKinds(t); }
    if t in COMPRESSED { CompressedKind(t); }
    if t in EXTENSIONS { ExtensionKinds(t); }
  }

  lemma CompressedKind(t: string)
    requires t in COMPRESSED
    ensures Kind(t)
  {
    CompressedShort(t);
  }

  /** The registered texts do not hide one another. */
  lemma RegisteredSafe()
    ensures Safe(REGISTERED)
  {
    hide Plain, OffSystem, OffMisc, System, Misc, Privileged, CsrText, MiscText, Clash;
    forall s, t | s in REGISTERED && t in REGISTERED && |s| == |t| == 32 && s != t ensures Plain(s) || Clash(s, t) {
      Kinds(s);
      Kinds(t);
      if Privileged(s) {
        SystemApart(s, t);
      } else if MiscText(s) {
        MiscApartAll(s, t);
      } else if CsrText(s) {
        CsrFacts(s);
      }
    }
  }

  lemma SystemApart(s: string, t: string)
    requires Privileged(s) && s != t && |t| == 32
    requires Fine(t) || Privileged(t) || CsrText(t) || MiscText(t)
    ensures |s| == 32 && Clash(s, t)
  {
    PrivilegedFacts(s);
    hide Plain, OffSystem, OffMisc, System, Misc, Clash, Privileged, CsrText, MiscText;
    if Privileged(t) {
      PrivilegedApart(s, t);
    } else if CsrText(t) {
      CsrFacts(t);
      FunctionClash(s, t);
    } else {
      if MiscText(t) {
        MiscFacts(t);
        MiscIsOff(t);
      }
      OpcodeClash(s, t);
    }
  }

  lemma MiscApartAll(s: string, t: string)
    requires MiscText(s) && s != t && |t| == 32
    requires Fine(t) || Privileged(t) || CsrText(t) || MiscText(t)
    ensures |s| == 32 && Clash(s, t)
  {
    MiscFacts(s);
    hide Plain, OffSystem, OffMisc, System, Misc, Clash, Privileged, CsrText, MiscText;
    if MiscText(t) {
      MiscApart(s, t);
    } else {
      if Privileged(t) {
        PrivilegedFacts(t);
        SystemIsOff(t);
      } else if CsrText(t) {
        CsrFacts(t);
        SystemIsOff(t);
      }
      MiscClash(s, t);
    }
  }
}
