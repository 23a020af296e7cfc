/** The state-transition semantics of rv_emu.c as functions on values:
    the machine state, one function per instruction handler, the rv_one
    dispatch with its analysis counters, and the rv_emulate run loop
    bounded by a step budget. The class in RvMachine updates this state in
    place and is proved against these functions. */
module RvSpec {
  import opened Bits
  import opened Decode
  import opened Memory

  /** RV_NREGS and the standard ABI register numbers. */
  const RV_NREGS: nat := 32
  const RV_ZERO: Reg := 0
  const RV_RA: Reg := 1
  const RV_SP: Reg := 2
  const RV_A0: Reg := 10
  const RV_A1: Reg := 11
  const RV_A2: Reg := 12
  const RV_A3: Reg := 13

  /** RV_STOP: the return address rv_init leaves in ra; reaching it ends
      the run. */
  const RV_STOP: bv64 := 0

  /** The address one past the last stack byte, where sp starts. */
  const STACK_TOP: bv64 := 0x1000_2000

  /** The opcode of each instruction format. */
  const FMT_R: bv32 := 0x33
  const FMT_R_64: bv32 := 0x3b
  const FMT_I_LOAD: bv32 := 0x03
  const FMT_I_JALR: bv32 := 0x67
  const FMT_I_ARITH: bv32 := 0x13
  const FMT_S: bv32 := 0x23
  const FMT_B: bv32 := 0x63
  const FMT_J: bv32 := 0x6f

  /** struct analysis_st: instruction counts by class. */
  datatype Analysis = Analysis(i_count: nat, ir_count: nat, ld_count: nat, st_count: nat,
                               j_count: nat, b_taken: nat, b_not_taken: nat)

  /** struct rv_state_st without the instruction cache. */
  datatype State = State(regs: seq<bv64>, pc: bv64, stack: seq<bv8>, analysis: Analysis)

  predicate Valid(s: State)
  {
    |s.regs| == RV_NREGS && |s.stack| == STACK_SIZE
  }

  /** The routine that reported an unsupported instruction. */
  datatype Origin = RType | RType64 | ITypeLoad | IType | SType | BType | Dispatch

  /** Why execution stopped short of RV_STOP. */
  datatype Fault =
    | Unsupported(origin: Origin, value: bv32) // unsupported(): message and exit(-1)
    | UndefinedShift(amount: bv64)             // sll/srl by 64 or more
    | MemoryFault(address: bv64)               // an access outside the stack
    | FetchFault(address: bv64)                // the pc is not in the code region

  datatype Result<T> = Ok(value: T) | Err(fault: Fault)

  /** The zero-filled state every run starts from before rv_init sets it up. */
  const ZeroAnalysis := Analysis(0, 0, 0, 0, 0, 0, 0)

  /** rv_init: all registers and stack bytes zero, then pc = func, zero
      and ra = 0, sp at the top of the stack and a0..a3 the arguments. */
  function Initial(func: bv64, a0: bv64, a1: bv64, a2: bv64, a3: bv64): (s: State)
    ensures Valid(s)
  {
    var regs := seq(RV_NREGS, _ => 0);
    var regs := regs[RV_ZERO := 0][RV_RA := 0][RV_SP := STACK_TOP];
    var regs := regs[RV_A0 := a0][RV_A1 := a1][RV_A2 := a2][RV_A3 := a3];
    State(regs, func, seq(STACK_SIZE, _ => 0), ZeroAnalysis)
  }

  /** regs[rd] = v followed by pc += 4, the shape of every sequential
      handler that writes a register. */
  function WriteNext(s: State, rd: Reg, v: bv64): (t: State)
    requires Valid(s)
    ensures Valid(t)
  {
    s.(regs := s.regs[rd := v], pc := Add(s.pc, 4))
  }

  /** The value an R-type instruction computes from funct3/funct7 and
      its operands. */
  function RTypeValue(funct3: bv32, funct7: bv32, a: bv64, b: bv64): Result<bv64>
  {
    if funct3 == 0 && funct7 == 0 then Ok(Add(a, b))
    else if funct3 == 7 && funct7 == 0 then Ok(And(a, b))
    else if funct3 == 0 && funct7 == 0x20 then Ok(Sub(a, b))
    else if funct3 == 1 && funct7 == 0 then
      if ShiftInRange(b) then Ok(Shl(a, b as bv6)) else Err(UndefinedShift(b))
    else if funct3 == 5 && funct7 == 0 then
      if ShiftInRange(b) then Ok(Shr(a, b as bv6)) else Err(UndefinedShift(b))
    else if funct3 == 0 && funct7 == 1 then Ok(Mul(a, b))
    else Err(Unsupported(RType, funct3))
  }

  /** emu_r_type. */
  function RTypeStep(s: State, iw: bv32): (r: Result<State>)
    requires Valid(s)
    ensures r.Ok? ==> Valid(r.value)
  {
    match RTypeValue(Funct3(iw), Funct7(iw), s.regs[Rs1(iw)], s.regs[Rs2(iw)])
    case Ok(v) => Ok(WriteNext(s, Rd(iw), v))
    case Err(f) => Err(f)
  }

  /** The value sllw or sraw computes: sllw keeps all 64 bits of the
      shifted value; sraw sign-extends the low word and shifts it
      arithmetically. Both shift by the low five bits of b. */
  function RType64Value(funct3: bv32, funct7: bv32, a: bv64, b: bv64): Result<bv64>
  {
    if funct3 == 1 && funct7 == 0 then Ok(Shl(a, Shamt5(b)))
    else if funct3 == 5 && funct7 == 0x20 then Ok(ArithShiftRight(SignExtend(a, 31), Shamt5(b)))
    else Err(Unsupported(RType64, funct3))
  }

  /** emu_r_type_64. */
  function RType64Step(s: State, iw: bv32): (r: Result<State>)
    requires Valid(s)
    ensures r.Ok? ==> Valid(r.value)
  {
    match RType64Value(Funct3(iw), Funct7(iw), s.regs[Rs1(iw)], s.regs[Rs2(iw)])
    case Ok(v) => Ok(WriteNext(s, Rd(iw), v))
    case Err(f) => Err(f)
  }

  /** The Size(w) bytes at addr, little-endian, or a fault when they are
      not all in the stack. */
  function Load(stack: seq<bv8>, addr: bv64, w: Width): Result<bv64>
    requires |stack| == STACK_SIZE
  {
    if InStack(addr, w) then Ok(LoadLE(stack, Offset(addr, w), Size(w)))
    else Err(MemoryFault(addr))
  }

  /** The stack with the low Size(w) bytes of v written at addr. */
  function Store(stack: seq<bv8>, addr: bv64, w: Width, v: bv64): (r: Result<seq<bv8>>)
    requires |stack| == STACK_SIZE
    ensures r.Ok? ==> |r.value| == STACK_SIZE
  {
    if InStack(addr, w) then Ok(StoreLE(stack, Offset(addr, w), v, Size(w)))
    else Err(MemoryFault(addr))
  }

  /** The register value of a load of width w: lw converts the int it
      reads and lb the char (taken as signed), both by sign extension; ld
      keeps all 64 bits. */
  function Extend(raw: bv64, w: Width): bv64
  {
    match w
    case Byte => SignExtend(raw, 7)
    case Word => SignExtend(raw, 31)
    case Double => raw
  }

  function LoadWidth(funct3: bv32): Result<Width>
  {
    if funct3 == 2 then Ok(Word)
    else if funct3 == 0 then Ok(Byte)
    else if funct3 == 3 then Ok(Double)
    else Err(Unsupported(ITypeLoad, funct3))
  }

  /** emu_i_type_load: lw, lb and ld at regs[rs1] + the I-immediate. */
  function ITypeLoadStep(s: State, iw: bv32): (r: Result<State>)
    requires Valid(s)
    ensures r.Ok? ==> Valid(r.value)
  {
    match LoadWidth(Funct3(iw))
    case Err(f) => Err(f)
    case Ok(w) =>
      match Load(s.stack, Add(ImmI(iw), s.regs[Rs1(iw)]), w)
      case Err(f) => Err(f)
      case Ok(raw) => Ok(WriteNext(s, Rd(iw), Extend(raw, w)))
  }

  /** emu_jalr: the target is computed from the old regs[rs1], bit 0
      cleared; the link pc + 4 is then written to rs1 (not rd). */
  function JalrStep(s: State, iw: bv32): (t: State)
    requires Valid(s)
    ensures Valid(t)
  {
    var rs1 := Rs1(iw);
    var target := And(Add(s.regs[rs1], ImmJalr(iw)), !1);
    s.(regs := s.regs[rs1 := Add(s.pc, 4)], pc := target)
  }

  /** The value addi or srli computes from regs[rs1] and the word. */
  function ITypeValue(funct3: bv32, a: bv64, iw: bv32): Result<bv64>
  {
    if funct3 == 0 then Ok(Add(a, ImmI(iw)))
    else if funct3 == 5 then Ok(Shr(a, ShamtI(iw)))
    else Err(Unsupported(IType, funct3))
  }

  /** emu_i_type. */
  function ITypeStep(s: State, iw: bv32): (r: Result<State>)
    requires Valid(s)
    ensures r.Ok? ==> Valid(r.value)
  {
    match ITypeValue(Funct3(iw), s.regs[Rs1(iw)], iw)
    case Ok(v) => Ok(WriteNext(s, Rd(iw), v))
    case Err(f) => Err(f)
  }

  function StoreWidth(funct3: bv32): Result<Width>
  {
    if funct3 == 2 then Ok(Word)
    else if funct3 == 0 then Ok(Byte)
    else if funct3 == 3 then Ok(Double)
    else Err(Unsupported(SType, funct3))
  }

  /** emu_s_type: sw, sb and sd of regs[rs2] at regs[rs1] + the
      S-immediate. */
  function STypeStep(s: State, iw: bv32): (r: Result<State>)
    requires Valid(s)
    ensures r.Ok? ==> Valid(r.value)
  {
    match StoreWidth(Funct3(iw))
    case Err(f) => Err(f)
    case Ok(w) =>
      match Store(s.stack, Add(ImmS(iw), s.regs[Rs1(iw)]), w, s.regs[Rs2(iw)])
      case Err(f) => Err(f)
      case Ok(stack) => Ok(s.(stack := stack, pc := Add(s.pc, 4)))
  }

  /** The value of a 64-bit pattern as an int64_t is below that of another. */
  predicate SignedLess(a: bv64, b: bv64)
  {
    ToSigned(a) < ToSigned(b)
  }

  /** Whether a branch with this funct3 is taken, or the funct3 is not one
      of beq, bne, blt, bge. */
  function BranchTaken(funct3: bv32, a: bv64, b: bv64): Result<bool>
  {
    if funct3 == 0 then Ok(a == b)
    else if funct3 == 1 then Ok(a != b)
    else if funct3 == 4 then Ok(SignedLess(a, b))
    else if funct3 == 5 then Ok(!SignedLess(a, b))
    else Err(Unsupported(BType, funct3))
  }

  /** The conversion of an int64_t to int and back to 64 bits, as in
      pc += (int) offset: the low 32 bits, sign-extended. */
  function IntCast(x: bv64): bv64
  {
    Widen((x & 0xffff_ffff) as bv32)
  }

  /** emu_b_type, including its own update of b_taken / b_not_taken. */
  function BTypeStep(s: State, iw: bv32): (r: Result<State>)
    requires Valid(s)
    ensures r.Ok? ==> Valid(r.value)
  {
    match BranchTaken(Funct3(iw), s.regs[Rs1(iw)], s.regs[Rs2(iw)])
    case Err(f) => Err(f)
    case Ok(taken) =>
      if taken then
        Ok(s.(pc := Add(s.pc, IntCast(ImmB(iw))), analysis := s.analysis.(b_taken := s.analysis.b_taken + 1)))
      else
        Ok(s.(pc := Add(s.pc, 4), analysis := s.analysis.(b_not_taken := s.analysis.b_not_taken + 1)))
  }

  /** emu_jal: the link is written only when rd is not x0. */
  function JalStep(s: State, iw: bv32): (t: State)
    requires Valid(s)
    ensures Valid(t)
  {
    var rd := Rd(iw);
    var regs := if rd != 0 then s.regs[rd := Add(s.pc, 4)] else s.regs;
    s.(regs := regs, pc := Add(s.pc, ImmJ(iw)))
  }

  /** The counters rv_one raises after a handler returns. */
  datatype Counter = IR | LD | ST | J

  function Bump(a: Analysis, c: Counter): Analysis
  {
    match c
    case IR => a.(ir_count := a.ir_count + 1)
    case LD => a.(ld_count := a.ld_count + 1)
    case ST => a.(st_count := a.st_count + 1)
    case J => a.(j_count := a.j_count + 1)
  }

  function Counted(r: Result<State>, c: Counter): Result<State>
  {
    match r
    case Ok(t) => Ok(t.(analysis := Bump(t.analysis, c)))
    case Err(f) => Err(f)
  }

  /** The handler for iw's opcode, followed by the counter update rv_one
      makes for that opcode. */
  function Execute(s: State, iw: bv32): (r: Result<State>)
    requires Valid(s)
    ensures r.Ok? ==> Valid(r.value)
  {
    var opcode := Opcode(iw);
    if opcode == FMT_R then Counted(RTypeStep(s, iw), IR)
    else if opcode == FMT_R_64 then Counted(RType64Step(s, iw), IR)
    else if opcode == FMT_I_LOAD then Counted(ITypeLoadStep(s, iw), LD)
    else if opcode == FMT_I_JALR then Counted(Ok(JalrStep(s, iw)), J)
    else if opcode == FMT_I_ARITH then Counted(ITypeStep(s, iw), IR)
    else if opcode == FMT_S then Counted(STypeStep(s, iw), ST)
    else if opcode == FMT_B then BTypeStep(s, iw)
    else if opcode == FMT_J then Counted(Ok(JalStep(s, iw)), J)
    else Err(Unsupported(Dispatch, opcode))
  }

  /** The read-only code region: instruction words by address. */
  type Code = map<bv64, bv32>

  /** rv_one: fetch the word at pc and execute it. */
  function RvOne(code: Code, s: State): (r: Result<State>)
    requires Valid(s)
    ensures r.Ok? ==> Valid(r.value)
  {
    if s.pc in code then Execute(s, code[s.pc]) else Err(FetchFault(s.pc))
  }

  /** One turn of the rv_emulate loop: count the instruction, then step. */
  function Tick(s: State): (t: State)
    requires Valid(s)
    ensures Valid(t)
  {
    s.(analysis := s.analysis.(i_count := s.analysis.i_count + 1))
  }

  /** How a run ended: at RV_STOP with a0's value, on a fault, or with
      the step budget spent. */
  datatype Ending = Returned(value: bv64) | Faulted(fault: Fault) | OutOfFuel

  datatype Run = Run(final: State, ending: Ending)

  /** rv_emulate with at most fuel turns of its loop. */
  function Emulate(code: Code, s: State, fuel: nat): (r: Run)
    requires Valid(s)
    ensures Valid(r.final)
    decreases fuel
  {
    if s.pc == RV_STOP then Run(s, Returned(s.regs[RV_A0]))
    else if fuel == 0 then Run(s, OutOfFuel)
    else
      match RvOne(code, Tick(s))
      case Err(f) => Run(Tick(s), Faulted(f))
      case Ok(t) => Emulate(code, t, fuel - 1)
  }
}
