/** The analysis counters of rv_one and rv_emulate, and what a whole run
    keeps: every executed instruction is counted once in i_count and once
    in exactly one class counter. */
module RvRun {
  import opened Bits
  import opened Decode
  import opened Memory
  import opened RvSpec
  import opened RvProps

  /** The sum of the class counters. */
  function ClassTotal(a: Analysis): nat
  {
    a.ir_count + a.ld_count + a.st_count + a.j_count + a.b_taken + a.b_not_taken
  }

  /** i_count equals the sum of the class counters. */
  predicate Balanced(a: Analysis)
  {
    a.i_count == ClassTotal(a)
  }

  /** b rises over a by one in exactly one class counter and in nothing
      else. */
  predicate OneMore(a: Analysis, b: Analysis)
  {
    || b == a.(ir_count := a.ir_count + 1)
    || b == a.(ld_count := a.ld_count + 1)
    || b == a.(st_count := a.st_count + 1)
    || b == a.(j_count := a.j_count + 1)
    || b == a.(b_taken := a.b_taken + 1)
    || b == a.(b_not_taken := a.b_not_taken + 1)
  }

  lemma OneMoreTotal(a: Analysis, b: Analysis)
    requires OneMore(a, b)
    ensures b.i_count == a.i_count && ClassTotal(b) == ClassTotal(a) + 1
  {}

  /** An opcode outside the eight formats is unsupported. */
  lemma ExecuteUnknown(s: State, iw: bv32)
    requires Valid(s)
    requires !(Opcode(iw) in {FMT_R, FMT_R_64, FMT_I_LOAD, FMT_I_JALR, FMT_I_ARITH, FMT_S, FMT_B, FMT_J})
    ensures Execute(s, iw) == Err(Unsupported(Dispatch, Opcode(iw)))
  {}

  /** Counting after a handler that leaves the counters alone raises
      exactly the counter named, by one. */
  lemma CountedBump(a: Analysis, r: Result<State>, c: Counter)
    requires r.Ok? ==> r.value.analysis == a
    ensures Counted(r, c).Ok? <==> r.Ok?
    ensures Counted(r, c).Ok? ==> Counted(r, c).value.analysis == Bump(a, c)
  {}

  /** add, and, sub, sll, srl, mul, sllw and sraw are counted in ir_count
      alone. */
  lemma ExecuteCountsR(s: State, iw: bv32)
    requires Valid(s) && (Opcode(iw) == FMT_R || Opcode(iw) == FMT_R_64)
    ensures var r := Execute(s, iw);
      r.Ok? ==> r.value.analysis == s.analysis.(ir_count := s.analysis.ir_count + 1)
  {
    RTypeEffect(s, iw);
    RType64Effect(s, iw);
    CountedBump(s.analysis, RTypeStep(s, iw), IR);
    CountedBump(s.analysis, RType64Step(s, iw), IR);
  }

  /** addi and srli are counted in ir_count alone. */
  lemma ExecuteCountsI(s: State, iw: bv32)
    requires Valid(s) && Opcode(iw) == FMT_I_ARITH
    ensures var r := Execute(s, iw);
      r.Ok? ==> r.value.analysis == s.analysis.(ir_count := s.analysis.ir_count + 1)
  {
    ITypeEffect(s, iw);
    CountedBump(s.analysis, ITypeStep(s, iw), IR);
  }

  /** lw, lb and ld are counted in ld_count alone. */
  lemma ExecuteCountsLoad(s: State, iw: bv32)
    requires Valid(s) && Opcode(iw) == FMT_I_LOAD
    ensures var r := Execute(s, iw);
      r.Ok? ==> r.value.analysis == s.analysis.(ld_count := s.analysis.ld_count + 1)
  {
    var width := LoadWidth(Funct3(iw));
    var addr := Add(ImmI(iw), s.regs[Rs1(iw)]);
    if width.Ok? && InStack(addr, width.value) {
      ITypeLoadEffect(s, iw, width.value, addr);
    }
    CountedBump(s.analysis, ITypeLoadStep(s, iw), LD);
  }

  /** sw, sb and sd are counted in st_count alone. */
  lemma ExecuteCountsStore(s: State, iw: bv32)
    requires Valid(s) && Opcode(iw) == FMT_S
    ensures var r := Execute(s, iw);
      r.Ok? ==> r.value.analysis == s.analysis.(st_count := s.analysis.st_count + 1)
  {
    var width := StoreWidth(Funct3(iw));
    var addr := Add(ImmS(iw), s.regs[Rs1(iw)]);
    if width.Ok? && InStack(addr, width.value) {
      STypeEffect(s, iw, width.value, addr);
    }
    CountedBump(s.analysis, STypeStep(s, iw), ST);
  }

  /** jalr and jal always succeed and are counted in j_count alone. */
  lemma ExecuteCountsJump(s: State, iw: bv32)
    requires Valid(s) && (Opcode(iw) == FMT_I_JALR || Opcode(iw) == FMT_J)
    ensures var r := Execute(s, iw);
      r.Ok? && r.value.analysis == s.analysis.(j_count := s.analysis.j_count + 1)
  {
    JalrEffect(s, iw);
    JalEffect(s, iw);
    CountedBump(s.analysis, Ok(JalrStep(s, iw)), J);
    CountedBump(s.analysis, Ok(JalStep(s, iw)), J);
  }

  /** A branch is counted by emu_b_type itself: in b_taken alone when its
      condition holds and in b_not_taken alone when it fails. */
  lemma ExecuteCountsBranch(s: State, iw: bv32)
    requires Valid(s) && Opcode(iw) == FMT_B
    ensures var r := Execute(s, iw);
      var taken := BranchTaken(Funct3(iw), s.regs[Rs1(iw)], s.regs[Rs2(iw)]);
      && (r.Ok? <==> taken.Ok?)
      && (taken == Ok(true) ==> r.value.analysis == s.analysis.(b_taken := s.analysis.b_taken + 1))
      && (taken == Ok(false) ==> r.value.analysis == s.analysis.(b_not_taken := s.analysis.b_not_taken + 1))
  {
    var taken := BranchTaken(Funct3(iw), s.regs[Rs1(iw)], s.regs[Rs2(iw)]);
    if taken == Ok(true) {
      BranchTakenStep(s, iw);
    } else if taken == Ok(false) {
      BranchNotTakenStep(s, iw);
    }
  }

  /** A successful Execute raises exactly one class counter by one. */
  lemma ExecuteCounts(s: State, iw: bv32)
    requires Valid(s)
    ensures Execute(s, iw).Ok? ==> OneMore(s.analysis, Execute(s, iw).value.analysis)
  {
    var opcode := Opcode(iw);
    if opcode == FMT_R || opcode == FMT_R_64 {
      ExecuteCountsR(s, iw);
    } else if opcode == FMT_I_ARITH {
      ExecuteCountsI(s, iw);
    } else if opcode == FMT_I_LOAD {
      ExecuteCountsLoad(s, iw);
    } else if opcode == FMT_S {
      ExecuteCountsStore(s, iw);
    } else if opcode == FMT_I_JALR || opcode == FMT_J {
      ExecuteCountsJump(s, iw);
    } else if opcode == FMT_B {
      ExecuteCountsBranch(s, iw);
    }
  }

  /** A turn of the rv_emulate loop keeps a balanced state balanced when
      it does not fault; when it faults, the instruction has been counted
      in i_count only. */
  lemma StepBalanced(code: Code, s: State)
    requires Valid(s) && Balanced(s.analysis)
    ensures var r := RvOne(code, Tick(s));
      r.Ok? ==> Balanced(r.value.analysis)
    ensures RvOne(code, Tick(s)).Err? ==> Tick(s).analysis.i_count == ClassTotal(Tick(s).analysis) + 1
  {
    var t := Tick(s);
    if t.pc in code {
      ExecuteCounts(t, code[t.pc]);
      if RvOne(code, t).Ok? {
        OneMoreTotal(t.analysis, RvOne(code, t).value.analysis);
      }
    }
  }

  /** Over a whole run from a balanced state, the counters stay balanced;
      a run that faults has counted the faulting instruction in i_count
      only. */
  lemma {:induction false} EmulateBalanced(code: Code, s: State, fuel: nat)
    requires Valid(s) && Balanced(s.analysis)
    ensures var r := Emulate(code, s, fuel);
      && (r.ending.Faulted? ==> r.final.analysis.i_count == ClassTotal(r.final.analysis) + 1)
      && (!r.ending.Faulted? ==> Balanced(r.final.analysis))
    decreases fuel
  {
    if s.pc != RV_STOP && fuel > 0 {
      StepBalanced(code, s);
      match RvOne(code, Tick(s))
      case Err(_) =>
      case Ok(t) => EmulateBalanced(code, t, fuel - 1);
    }
  }

  /** A run that ends within its budget ends the same way with any larger
      budget: the budget only bounds the run and never changes it. */
  lemma {:induction false} EmulateMoreFuel(code: Code, s: State, fuel: nat, more: nat)
    requires Valid(s) && fuel <= more && !Emulate(code, s, fuel).ending.OutOfFuel?
    ensures Emulate(code, s, more) == Emulate(code, s, fuel)
    decreases fuel
  {
    if s.pc != RV_STOP {
      match RvOne(code, Tick(s))
      case Err(_) =>
      case Ok(t) => EmulateMoreFuel(code, t, fuel - 1, more - 1);
    }
  }

  /** A run from rv_init's state keeps i_count equal to the sum of the
      class counters, except for a faulting instruction. */
  lemma InitialRunBalanced(code: Code, func: bv64, a0: bv64, a1: bv64, a2: bv64, a3: bv64, fuel: nat)
    ensures var r := Emulate(code, Initial(func, a0, a1, a2, a3), fuel);
      && (r.ending.Faulted? ==> r.final.analysis.i_count == ClassTotal(r.final.analysis) + 1)
      && (!r.ending.Faulted? ==> Balanced(r.final.analysis))
  {
    EmulateBalanced(code, Initial(func, a0, a1, a2, a3), fuel);
  }
}
