/** The emulator as rv_emu.c runs it: a machine object whose register
    file and stack are arrays updated in place by the handlers, rv_one
    and the rv_emulate loop. Every method is proved to change the state
    exactly as the corresponding function of RvSpec says. */
module RvMachine {
  import opened Bits
  import opened Decode
  import opened Memory
  import opened RvSpec

  /** The outcome of one handler: it finished, or it stopped the program
      with a fault (unsupported() and exit in rv_emu.c). */
  datatype Status = Done | Failed(fault: Fault)

  /** The result a handler's Status stands for, given the state it left. */
  function Outcome(status: Status, s: State): Result<State>
  {
    if status.Done? then Ok(s) else Err(status.fault)
  }

  /** struct rv_state_st without its instruction cache. */
  class Machine {
    var regs: array<bv64>
    var stack: array<bv8>
    var pc: bv64
    var analysis: Analysis

    predicate Valid()
      reads this
    {
      regs.Length == RV_NREGS && stack.Length == STACK_SIZE
    }

    /** The state this machine holds, as a value. */
    function View(): (s: State)
      reads this, regs, stack
      ensures Valid() ==> RvSpec.Valid(s)
    {
      State(regs[..], pc, stack[..], analysis)
    }

    /** rv_init: clear the registers and the stack, then set pc, zero, ra,
        sp and the four argument registers. */
    constructor Init(func: bv64, a0: bv64, a1: bv64, a2: bv64, a3: bv64)
      ensures Valid() && fresh(regs) && fresh(stack)
      ensures View() == Initial(func, a0, a1, a2, a3)
    {
      var r := new bv64[RV_NREGS];
      for i := 0 to RV_NREGS
        invariant forall j :: 0 <= j < i ==> r[j] == 0
      {
        r[i] := 0;
      }
      var m := new bv8[STACK_SIZE];
      for i := 0 to STACK_SIZE
        invariant forall j :: 0 <= j < RV_NREGS ==> r[j] == 0
        invariant forall j :: 0 <= j < i ==> m[j] == 0
      {
        m[i] := 0;
      }
      assert r[..] == seq(RV_NREGS, _ => 0);
      assert m[..] == seq(STACK_SIZE, _ => 0);
      r[RV_ZERO] := 0;
      r[RV_RA] := 0;
      r[RV_SP] := STACK_TOP;
      r[RV_A0] := a0;
      r[RV_A1] := a1;
      r[RV_A2] := a2;
      r[RV_A3] := a3;
      regs := r;
      stack := m;
      pc := func;
      analysis := ZeroAnalysis;
    }

    /** emu_r_type: evaluates the R-type operation table and writes the
        result to rd in place. */
    method EmuRType(iw: bv32) returns (status: Status)
      requires Valid()
      modifies this, regs
      ensures Valid() && regs == old(regs) && stack == old(stack)
      ensures Outcome(status, View()) == RTypeStep(old(View()), iw)
      ensures status.Failed? ==> View() == old(View())
    {
      ghost var s0 := View();
      var rd := Rd(iw);
      var a := regs[Rs1(iw)];
      var b := regs[Rs2(iw)];
      assert a == s0.regs[Rs1(iw)] && b == s0.regs[Rs2(iw)];
      var value := RTypeValue(Funct3(iw), Funct7(iw), a, b);
      if value.Err? {
        return Failed(value.fault);
      }
      regs[rd] := value.value;
      pc := Add(pc, 4);
      status := Done;
    }

    /** emu_r_type_64: sllw and sraw. */
    method EmuRType64(iw: bv32) returns (status: Status)
      requires Valid()
      modifies this, regs
      ensures Valid() && regs == old(regs) && stack == old(stack)
      ensures Outcome(status, View()) == RType64Step(old(View()), iw)
      ensures status.Failed? ==> View() == old(View())
    {
      ghost var s0 := View();
      var rd := Rd(iw);
      var a := regs[Rs1(iw)];
      var b := regs[Rs2(iw)];
      assert a == s0.regs[Rs1(iw)] && b == s0.regs[Rs2(iw)];
      var value := RType64Value(Funct3(iw), Funct7(iw), a, b);
      if value.Err? {
        return Failed(value.fault);
      }
      regs[rd] := value.value;
      pc := Add(pc, 4);
      status := Done;
    }

    /** emu_i_type: addi and srli. */
    method EmuIType(iw: bv32) returns (status: Status)
      requires Valid()
      modifies this, regs
      ensures Valid() && regs == old(regs) && stack == old(stack)
      ensures Outcome(status, View()) == ITypeStep(old(View()), iw)
      ensures status.Failed? ==> View() == old(View())
    {
      ghost var s0 := View();
      var rd := Rd(iw);
      var a := regs[Rs1(iw)];
      assert a == s0.regs[Rs1(iw)];
      var value := ITypeValue(Funct3(iw), a, iw);
      if value.Err? {
        return Failed(value.fault);
      }
      regs[rd] := value.value;
      pc := Add(pc, 4);
      status := Done;
    }

    /** emu_i_type_load: lw, lb and ld from the stack. */
    method EmuITypeLoad(iw: bv32) returns (status: Status)
      requires Valid()
      modifies this, regs
      ensures Valid() && regs == old(regs) && stack == old(stack)
      ensures Outcome(status, View()) == ITypeLoadStep(old(View()), iw)
      ensures status.Failed? ==> View() == old(View())
    {
      var rd := Rd(iw);
      var funct3 := Funct3(iw);
      ghost var s0 := View();
      var base := regs[Rs1(iw)];
      assert base == s0.regs[Rs1(iw)];
      var addr := Add(ImmI(iw), base);
      var width := LoadWidth(funct3);
      if width.Err? {
        return Failed(width.fault);
      }
      var w := width.value;
      if !InStack(addr, w) {
        return Failed(MemoryFault(addr));
      }
      var raw := LoadLE(stack[..], Offset(addr, w), Size(w));
      regs[rd] := Extend(raw, w);
      pc := Add(pc, 4);
      status := Done;
    }

    /** The store through a host pointer: the low Size(w) bytes of v
        written little-endian at addr, or a fault when they do not all
        lie in the stack. */
    method StoreBytes(addr: bv64, w: Width, v: bv64) returns (status: Status)
      requires Valid()
      modifies stack
      ensures Store(old(stack[..]), addr, w, v) == if status.Done? then Ok(stack[..]) else Err(status.fault)
      ensures status.Failed? ==> stack[..] == old(stack[..])
    {
      if !InStack(addr, w) {
        return Failed(MemoryFault(addr));
      }
      var k := Offset(addr, w);
      var n := Size(w);
      ghost var before := stack[..];
      forall j | k <= j < k + n {
        stack[j] := ByteOf(v, j - k);
      }
      StoreLEBytes(before, k, v, n);
      assert stack[..] == StoreLE(before, k, v, n);
      status := Done;
    }

    /** emu_s_type: sw, sb and sd to the stack. */
    method EmuSType(iw: bv32) returns (status: Status)
      requires Valid()
      modifies this, stack
      ensures Valid() && regs == old(regs) && stack == old(stack)
      ensures Outcome(status, View()) == STypeStep(old(View()), iw)
      ensures status.Failed? ==> View() == old(View())
    {
      var funct3 := Funct3(iw);
      ghost var s0 := View();
      var base := regs[Rs1(iw)];
      var v := regs[Rs2(iw)];
      assert base == s0.regs[Rs1(iw)] && v == s0.regs[Rs2(iw)];
      var addr := Add(ImmS(iw), base);
      var width := StoreWidth(funct3);
      if width.Err? {
        return Failed(width.fault);
      }
      ghost var stored := Store(s0.stack, addr, width.value, v);
      assert STypeStep(s0, iw) == if stored.Ok? then Ok(s0.(stack := stored.value, pc := Add(s0.pc, 4))) else Err(stored.fault);
      status := StoreBytes(addr, width.value, v);
      if status.Done? {
        pc := Add(pc, 4);
      }
    }

    /** emu_jalr: jump to regs[rs1] + offset with bit 0 cleared, leaving
        the link in rs1. */
    method EmuJalr(iw: bv32)
      requires Valid()
      modifies this, regs
      ensures Valid() && regs == old(regs) && stack == old(stack)
      ensures View() == JalrStep(old(View()), iw)
    {
      var rs1 := Rs1(iw);
      var target := And(Add(regs[rs1], ImmJalr(iw)), !1);
      regs[rs1] := Add(pc, 4);
      pc := target;
    }

    /** emu_b_type: beq, bne, blt and bge, with the taken / not-taken
        counts. */
    method EmuBType(iw: bv32) returns (status: Status)
      requires Valid()
      modifies this
      ensures Valid() && regs == old(regs) && stack == old(stack)
      ensures Outcome(status, View()) == BTypeStep(old(View()), iw)
      ensures status.Failed? ==> View() == old(View())
    {
      var funct3 := Funct3(iw);
      ghost var s0 := View();
      var a := regs[Rs1(iw)];
      var b := regs[Rs2(iw)];
      assert a == s0.regs[Rs1(iw)] && b == s0.regs[Rs2(iw)];
      var taken := BranchTaken(funct3, a, b);
      if taken.Err? {
        return Failed(taken.fault);
      }
      if taken.value {
        pc := Add(pc, IntCast(ImmB(iw)));
        analysis := analysis.(b_taken := analysis.b_taken + 1);
      } else {
        pc := Add(pc, 4);
        analysis := analysis.(b_not_taken := analysis.b_not_taken + 1);
      }
      status := Done;
    }

    /** emu_jal: link in rd unless rd is x0, then jump. */
    method EmuJal(iw: bv32)
      requires Valid()
      modifies this, regs
      ensures Valid() && regs == old(regs) && stack == old(stack)
      ensures View() == JalStep(old(View()), iw)
    {
      var rd := Rd(iw);
      if rd != 0 {
        regs[rd] := Add(pc, 4);
      }
      pc := Add(pc, ImmJ(iw));
    }
  
    /** rv_one: fetch the word at pc, run its handler and count it. */
    method RvOne(code: Code) returns (status: Status)
      requires Valid()
      modifies this, regs, stack
      ensures Valid() && regs == old(regs) && stack == old(stack)
      ensures Outcome(status, View()) == RvSpec.RvOne(code, old(View()))
      ensures status.Failed? ==> View() == old(View())
    {
      if pc !in code {
        return Failed(FetchFault(pc));
      }
      var iw := code[pc];
      var opcode := Opcode(iw);
      if opcode == FMT_R {
        status := EmuRType(iw);
        if status.Done? { analysis := Bump(analysis, IR); }
      } else if opcode == FMT_R_64 {
        status := EmuRType64(iw);
        if status.Done? { analysis := Bump(analysis, IR); }
      } else if opcode == FMT_I_LOAD {
        status := EmuITypeLoad(iw);
        if status.Done? { analysis := Bump(analysis, LD); }
      } else if opcode == FMT_I_JALR {
        EmuJalr(iw);
        analysis := Bump(analysis, J);
        status := Done;
      } else if opcode == FMT_I_ARITH {
        status := EmuIType(iw);
        if status.Done? { analysis := Bump(analysis, IR); }
      } else if opcode == FMT_S {
        status := EmuSType(iw);
        if status.Done? { analysis := Bump(analysis, ST); }
      } else if opcode == FMT_B {
        status := EmuBType(iw);
      } else if opcode == FMT_J {
        EmuJal(iw);
        analysis := Bump(analysis, J);
        status := Done;
      } else {
        status := Failed(Unsupported(Dispatch, opcode));
      }
    }

    /** rv_emulate: count and execute instructions until pc reaches
        RV_STOP, then return a0; at most fuel instructions are run. */
    method Emulate(code: Code, fuel: nat) returns (ending: Ending)
      requires Valid()
      modifies this, regs, stack
      ensures Valid() && regs == old(regs) && stack == old(stack)
      ensures RvSpec.Emulate(code, old(View()), fuel) == Run(View(), ending)
    {
      var budget := fuel;
      while pc != RV_STOP
        invariant Valid() && regs == old(regs) && stack == old(stack)
        invariant RvSpec.Emulate(code, View(), budget) == RvSpec.Emulate(code, old(View()), fuel)
        decreases budget
      {
        if budget == 0 {
          return OutOfFuel;
        }
        analysis := analysis.(i_count := analysis.i_count + 1);
        var status := RvOne(code);
        if status.Failed? {
          return Faulted(status.fault);
        }
        budget := budget - 1;
      }
      ending := Returned(regs[RV_A0]);
    }
  }
}
