/** What the handlers, the dispatch and the run loop of rv_emu.c promise,
    proved about the functions of RvSpec. */
module RvProps {
  import opened Bits
  import opened Decode
  import opened Memory
  import opened RvSpec

  /** rv_init leaves every register zero except sp (the stack top) and
      a0..a3 (the arguments), pc at the entry, a zeroed stack and zeroed
      counters. */
  lemma InitialState(func: bv64, a0: bv64, a1: bv64, a2: bv64, a3: bv64)
    ensures var s := Initial(func, a0, a1, a2, a3);
      && s.pc == func
      && s.regs[RV_SP] == STACK_TOP
      && s.regs[RV_A0] == a0 && s.regs[RV_A1] == a1 && s.regs[RV_A2] == a2 && s.regs[RV_A3] == a3
      && (forall i :: 0 <= i < RV_NREGS && i != 2 && !(10 <= i <= 13) ==> s.regs[i] == 0)
      && (forall j :: 0 <= j < STACK_SIZE ==> s.stack[j] == 0)
      && s.analysis == ZeroAnalysis
  {}

  /** A sequential step: pc advances by exactly 4 and the counters are
      left to rv_one. */
  predicate Sequential(s: State, t: State)
  {
    t.pc == Add(s.pc, 4) && t.analysis == s.analysis
  }

  /** t's registers are s's except possibly register r. */
  predicate OthersKept(s: State, t: State, r: Reg)
    requires Valid(s) && Valid(t)
  {
    forall i :: 0 <= i < RV_NREGS && i != r as int ==> t.regs[i] == s.regs[i]
  }

  /** add, and, sub and mul give their 64-bit wrapped results. */
  lemma RTypeArith(f3: bv32, f7: bv32, a: bv64, b: bv64)
    ensures var r := RTypeValue(f3, f7, a, b);
      && (f3 == 0 && f7 == 0 ==> r == Ok(a + b))
      && (f3 == 7 && f7 == 0 ==> r == Ok(a & b))
      && (f3 == 0 && f7 == 0x20 ==> r == Ok(a - b))
      && (f3 == 0 && f7 == 1 ==> r == Ok(a * b))
  {}

  /** sll and srl shift by the whole second operand; an amount of 64 or
      more, which C leaves undefined, is a fault. */
  lemma RTypeShift(f3: bv32, f7: bv32, a: bv64, b: bv64)
    requires (f3 == 1 || f3 == 5) && f7 == 0
    ensures var r := RTypeValue(f3, f7, a, b);
      && (b < 64 ==> r == Ok(if f3 == 1 then a << (b as bv6) else a >> (b as bv6)))
      && (b >= 64 ==> r == Err(UndefinedShift(b)))
  {}

  /** Exactly the funct3/funct7 pairs outside the six operations are
      reported as unsupported, with funct3 as the value. */
  lemma RTypeUnsupported(f3: bv32, f7: bv32, a: bv64, b: bv64)
    ensures var r := RTypeValue(f3, f7, a, b);
      && (r.Err? && r.fault.Unsupported? <==>
            !(f7 == 0 && (f3 == 0 || f3 == 7 || f3 == 1 || f3 == 5)) && !(f3 == 0 && (f7 == 0x20 || f7 == 1)))
      && (r.Err? && r.fault.Unsupported? ==> r.fault == Unsupported(RType, f3))
  {}

  /** emu_r_type writes the operation's value to rd (x0 included),
      advances pc by 4 and changes nothing else; a fault changes nothing. */
  lemma RTypeEffect(s: State, iw: bv32)
    requires Valid(s)
    ensures var r := RTypeStep(s, iw);
      var v := RTypeValue(Funct3(iw), Funct7(iw), s.regs[Rs1(iw)], s.regs[Rs2(iw)]);
      && (r.Ok? <==> v.Ok?)
      && (r.Ok? ==> Sequential(s, r.value) && r.value.stack == s.stack
                    && r.value.regs[Rd(iw)] == v.value && OthersKept(s, r.value, Rd(iw)))
      && (r.Err? ==> r.fault == v.fault)
  {}

  /** emu_r_type_64 writes the value of sllw or sraw to rd (x0
      included), advances pc by 4 and changes nothing else; a fault
      changes nothing. */
  lemma RType64Effect(s: State, iw: bv32)
    requires Valid(s)
    ensures var r := RType64Step(s, iw);
      var v := RType64Value(Funct3(iw), Funct7(iw), s.regs[Rs1(iw)], s.regs[Rs2(iw)]);
      && (r.Ok? <==> v.Ok?)
      && (r.Ok? ==> Sequential(s, r.value) && r.value.stack == s.stack
                    && r.value.regs[Rd(iw)] == v.value && OthersKept(s, r.value, Rd(iw)))
      && (r.Err? ==> r.fault == v.fault)
  {}

  /** emu_r_type_64 accepts exactly sllw and sraw. */
  lemma RType64Accepts(f3: bv32, f7: bv32, a: bv64, b: bv64)
    ensures var r := RType64Value(f3, f7, a, b);
      && (r.Ok? <==> (f3 == 1 && f7 == 0) || (f3 == 5 && f7 == 0x20))
      && (r.Err? ==> r.fault == Unsupported(RType64, f3))
  {}

  /** sllw shifts by the low five bits of the second operand only and
      keeps all 64 bits of the shifted value. */
  lemma SllwValue(f3: bv32, f7: bv32, a: bv64, b: bv64)
    requires f3 == 1 && f7 == 0
    ensures RType64Value(f3, f7, a, b) == Ok(a << ((b & 0x1f) as bv6))
  {
    Shamt5IsLowBits(b);
  }

  /** sraw shifts the sign-extended low word of the first operand
      arithmetically by the low five bits of the second. */
  lemma SrawValue(f3: bv32, f7: bv32, a: bv64, b: bv64)
    requires f3 == 5 && f7 == 0x20
    ensures RType64Value(f3, f7, a, b) == Ok(ArithShiftRight(SignExtend(a, 31), (b & 0x1f) as bv6))
  {
    Shamt5IsLowBits(b);
  }

  /** emu_i_type writes the value of addi or srli to rd (x0 included),
      advances pc by 4 and changes nothing else; a fault changes
      nothing. */
  lemma ITypeEffect(s: State, iw: bv32)
    requires Valid(s)
    ensures var r := ITypeStep(s, iw);
      var v := ITypeValue(Funct3(iw), s.regs[Rs1(iw)], iw);
      && (r.Ok? <==> v.Ok?)
      && (r.Ok? ==> Sequential(s, r.value) && r.value.stack == s.stack
                    && r.value.regs[Rd(iw)] == v.value && OthersKept(s, r.value, Rd(iw)))
      && (r.Err? ==> r.fault == v.fault)
  {}

  /** emu_i_type accepts exactly addi and srli. */
  lemma ITypeAccepts(f3: bv32, a: bv64, iw: bv32)
    ensures var r := ITypeValue(f3, a, iw);
      && (r.Ok? <==> f3 == 0 || f3 == 5)
      && (r.Err? ==> r.fault == Unsupported(IType, f3))
  {}

  /** addi adds the 12-bit immediate sign-extended from bit 11. */
  lemma AddiValue(f3: bv32, a: bv64, iw: bv32)
    requires f3 == 0
    ensures ITypeValue(f3, a, iw) == Ok(Add(a, SignExtend(GetBits(iw as bv64, 20, 12) as bv64, 11)))
  {
    ImmIAgrees(iw);
  }

  /** srli shifts right by bits 20..24 of the word (the rs2 field), the
      low five bits of the immediate. */
  lemma SrliValue(f3: bv32, a: bv64, iw: bv32)
    requires f3 == 5
    ensures ITypeValue(f3, a, iw) == Ok(Shr(a, Rs2(iw) as bv6))
  {
    ShamtIIsRs2Field(iw);
  }

  /** Register x0 is not protected outside jal: an addi with rd = 0 and
      a non-zero immediate added to x0 leaves x0 non-zero. */
  lemma AddiWritesZeroRegister(s: State, iw: bv32)
    requires Valid(s) && s.regs[RV_ZERO] == 0
    requires Funct3(iw) == 0 && Rd(iw) == 0 && Rs1(iw) == 0 && ImmI(iw) != 0
    ensures var r := ITypeStep(s, iw); r.Ok? && r.value.regs[RV_ZERO] == ImmI(iw) != 0
  {
    ITypeEffect(s, iw);
  }

  /** sllw keeps the bits shifted above bit 31: shifting 2^31 left by one
      gives 2^32, where a 32-bit result re-extended from bit 31 would be 0. */
  lemma SllwKeepsHighBits()
    ensures RType64Value(1, 0, 0x8000_0000, 1) == Ok(0x1_0000_0000)
  {
    SllwValue(1, 0, 0x8000_0000, 1);
  }

  /** srli masks its shift amount to five bits: shamt = 32, which RV64I
      encodes in imm[5:0], shifts by nothing. */
  lemma SrliShamtFiveBits(a: bv64)
    ensures ITypeValue(5, a, EncodeI(32, 1, 5, 1, FMT_I_ARITH)) == Ok(a)
  {
    SrliValue(5, a, EncodeI(32, 1, 5, 1, FMT_I_ARITH));
  }

  /** emu_i_type never looks at imm[11:5], so srai (imm[11:5] = 0x20)
      runs as the logical srli: the sign bit is not copied. */
  lemma SraiRunsAsSrli()
    ensures ITypeValue(5, 0x8000_0000_0000_0000, EncodeI(0x401, 1, 5, 1, FMT_I_ARITH))
            == Ok(0x4000_0000_0000_0000)
  {
    SrliValue(5, 0x8000_0000_0000_0000, EncodeI(0x401, 1, 5, 1, FMT_I_ARITH));
  }

  /** emu_i_type_load and emu_s_type report a funct3 other than lw/lb/ld
      (sw/sb/sd) as unsupported. */
  lemma MemoryUnsupported(s: State, iw: bv32)
    requires Valid(s)
    ensures LoadWidth(Funct3(iw)).Err? ==>
      ITypeLoadStep(s, iw).Err? && ITypeLoadStep(s, iw).fault == Unsupported(ITypeLoad, Funct3(iw))
    ensures StoreWidth(Funct3(iw)).Err? ==>
      STypeStep(s, iw).Err? && STypeStep(s, iw).fault == Unsupported(SType, Funct3(iw))
  {}

  /** A load or store whose bytes are not all in the stack is a memory
      fault at its address. */
  lemma MemoryOutside(s: State, iw: bv32, w: Width, addr: bv64)
    requires Valid(s) && !InStack(addr, w)
    ensures LoadWidth(Funct3(iw)) == Ok(w) && addr == Add(ImmI(iw), s.regs[Rs1(iw)]) ==>
      ITypeLoadStep(s, iw) == Err(MemoryFault(addr))
    ensures StoreWidth(Funct3(iw)) == Ok(w) && addr == Add(ImmS(iw), s.regs[Rs1(iw)]) ==>
      STypeStep(s, iw) == Err(MemoryFault(addr))
  {}

  /** A load inside the stack writes to rd the little-endian bytes at
      the address, extended to 64 bits, advances pc by 4 and changes
      nothing else. */
  lemma ITypeLoadEffect(s: State, iw: bv32, w: Width, addr: bv64)
    requires Valid(s) && LoadWidth(Funct3(iw)) == Ok(w)
    requires addr == Add(ImmI(iw), s.regs[Rs1(iw)]) && InStack(addr, w)
    ensures var r := ITypeLoadStep(s, iw);
      && r.Ok? && Sequential(s, r.value) && r.value.stack == s.stack
      && r.value.regs[Rd(iw)] == Extend(LoadLE(s.stack, Offset(addr, w), Size(w)), w)
      && OthersKept(s, r.value, Rd(iw))
  {}

  /** A store inside the stack is StoreLE of regs[rs2] at the address's
      offset, followed by pc += 4. */
  lemma STypeStepInStack(s: State, iw: bv32, w: Width, addr: bv64)
    requires Valid(s) && StoreWidth(Funct3(iw)) == Ok(w)
    requires addr == Add(ImmS(iw), s.regs[Rs1(iw)]) && InStack(addr, w)
    ensures STypeStep(s, iw) == Ok(s.(stack := StoreLE(s.stack, Offset(addr, w), s.regs[Rs2(iw)], Size(w)), pc := Add(s.pc, 4)))
  {}

  /** A store inside the stack gives exactly the Size(w) bytes at the
      address the low bytes of regs[rs2], advances pc by 4 and leaves the
      registers and counters unchanged. */
  lemma STypeEffect(s: State, iw: bv32, w: Width, addr: bv64)
    requires Valid(s) && StoreWidth(Funct3(iw)) == Ok(w)
    requires addr == Add(ImmS(iw), s.regs[Rs1(iw)]) && InStack(addr, w)
    ensures var r := STypeStep(s, iw);
      var k := Offset(addr, w);
      && r.Ok? && Sequential(s, r.value) && r.value.regs == s.regs
      && (forall j :: 0 <= j < STACK_SIZE ==>
            r.value.stack[j] == if k <= j < k + Size(w) then ByteOf(s.regs[Rs2(iw)], j - k) else s.stack[j])
  {
    STypeStepInStack(s, iw, w, addr);
    StoreLEBytes(s.stack, Offset(addr, w), s.regs[Rs2(iw)], Size(w));
  }

  /** Sign extension from bit 31 (or bit 7) reads only the low word (or
      byte). */
  lemma SignExtendLowWord(v: bv64)
    ensures SignExtend(v & 0xffff_ffff, 31) == SignExtend(v, 31)
  {
    assert (v & 0xffff_ffff) << 32 == v << 32;
  }

  lemma SignExtendLowByte(v: bv64)
    ensures SignExtend(v & 0xff, 7) == SignExtend(v, 7)
  {
    assert (v & 0xff) << 56 == v << 56;
  }

  /** What a load of width w gives back right after a store of v with the
      same width at the same address: the stored value as lw, lb or ld
      would read it. */
  function ReadBack(v: bv64, w: Width): (r: bv64)
    ensures w == Word ==> r == SignExtend(v, 31)
    ensures w == Byte ==> r == SignExtend(v, 7)
    ensures w == Double ==> r == v
  {
    match w
    case Word =>
      LowBytes4(v);
      SignExtendLowWord(v);
      Extend(LowBytes(v, 4), Word)
    case Byte =>
      LowBytes1(v);
      SignExtendLowByte(v);
      Extend(LowBytes(v, 1), Byte)
    case Double =>
      LowBytes8(v);
      Extend(LowBytes(v, 8), Double)
  }

  /** A store followed by a load of the same width at the same address
      reads back the stored bytes. */
  lemma StoreThenLoad(stack: seq<bv8>, addr: bv64, w: Width, v: bv64)
    requires |stack| == STACK_SIZE && InStack(addr, w)
    ensures Store(stack, addr, w, v).Ok?
    ensures Load(Store(stack, addr, w, v).value, addr, w) == Ok(LowBytes(v, Size(w)))
  {
    LoadAfterStoreLE(stack, Offset(addr, w), v, Size(w));
  }

  /** sw, sb or sd followed by lw, lb or ld of the same width from the
      same base register and offset puts the stored register's value, as
      that width reads it, in the load's rd. */
  lemma StoreThenLoadStep(s: State, st: bv32, ld: bv32, w: Width)
    requires Valid(s) && StoreWidth(Funct3(st)) == Ok(w) && LoadWidth(Funct3(ld)) == Ok(w)
    requires Rs1(ld) == Rs1(st) && ImmI(ld) == ImmS(st)
    requires STypeStep(s, st).Ok?
    ensures var t := STypeStep(s, st).value;
      && ITypeLoadStep(t, ld).Ok?
      && ITypeLoadStep(t, ld).value.regs[Rd(ld)] == ReadBack(s.regs[Rs2(st)], w)
  {
    var addr := Add(ImmS(st), s.regs[Rs1(st)]);
    var v := s.regs[Rs2(st)];
    assert InStack(addr, w);
    STypeStepInStack(s, st, w, addr);
    var t := STypeStep(s, st).value;
    StoreThenLoad(s.stack, addr, w, v);
    ITypeLoadEffect(t, ld, w, addr);
  }

  lemma IntCastNonNeg(x: bv64)
    requires x <= 0x7fff_ffff
    ensures IntCast(x) == x
  {}

  lemma IntCastNeg(x: bv64)
    requires x >= 0xffff_ffff_8000_0000
    ensures IntCast(x) == x
  {}

  /** The (int) conversion in pc += (int) offset loses nothing: a B-type
      offset fits in 32 bits. */
  lemma IntCastOffsetB(iw: bv32)
    ensures IntCast(ImmB(iw)) == ImmB(iw)
  {
    if iw & 0x8000_0000 != 0 {
      ImmBNeg(iw);
      IntCastNeg(ImmB(iw));
    } else {
      ImmBNonNeg(iw);
      IntCastNonNeg(ImmB(iw));
    }
  }

  /** A taken branch: pc moves by the B-offset, b_taken rises by one and
      nothing else changes. */
  predicate Taken(s: State, t: State, iw: bv32)
  {
    && t.pc == Add(s.pc, ImmB(iw)) && t.regs == s.regs && t.stack == s.stack
    && t.analysis == s.analysis.(b_taken := s.analysis.b_taken + 1)
  }

  /** A branch not taken: pc advances by 4, b_not_taken rises by one and
      nothing else changes. */
  predicate NotTaken(s: State, t: State)
  {
    && t.pc == Add(s.pc, 4) && t.regs == s.regs && t.stack == s.stack
    && t.analysis == s.analysis.(b_not_taken := s.analysis.b_not_taken + 1)
  }

  /** A branch whose condition holds is taken. */
  lemma BranchTakenStep(s: State, iw: bv32)
    requires Valid(s) && BranchTaken(Funct3(iw), s.regs[Rs1(iw)], s.regs[Rs2(iw)]) == Ok(true)
    ensures BTypeStep(s, iw).Ok? && Taken(s, BTypeStep(s, iw).value, iw)
  {
    IntCastOffsetB(iw);
  }

  /** A branch whose condition fails falls through. */
  lemma BranchNotTakenStep(s: State, iw: bv32)
    requires Valid(s) && BranchTaken(Funct3(iw), s.regs[Rs1(iw)], s.regs[Rs2(iw)]) == Ok(false)
    ensures BTypeStep(s, iw).Ok? && NotTaken(s, BTypeStep(s, iw).value)
  {}

  /** beq, bne, blt, bge: the branch is taken exactly when its comparison
      holds, blt and bge comparing as int64_t. */
  lemma BTypeEffect(s: State, iw: bv32)
    requires Valid(s)
    ensures var r := BTypeStep(s, iw);
      var a := s.regs[Rs1(iw)];
      var b := s.regs[Rs2(iw)];
      var f3 := Funct3(iw);
      var cond := (f3 == 0 && a == b) || (f3 == 1 && a != b)
                  || (f3 == 4 && ToSigned(a) < ToSigned(b)) || (f3 == 5 && ToSigned(a) >= ToSigned(b));
      (f3 == 0 || f3 == 1 || f3 == 4 || f3 == 5) ==>
        r.Ok? && (cond ==> Taken(s, r.value, iw)) && (!cond ==> NotTaken(s, r.value))
  {
    var f3 := Funct3(iw);
    if f3 == 0 || f3 == 1 || f3 == 4 || f3 == 5 {
      if BranchTaken(f3, s.regs[Rs1(iw)], s.regs[Rs2(iw)]) == Ok(true) {
        BranchTakenStep(s, iw);
      } else {
        BranchNotTakenStep(s, iw);
      }
    }
  }

  /** Every funct3 other than beq, bne, blt and bge is unsupported. */
  lemma BTypeUnsupported(s: State, iw: bv32)
    requires Valid(s)
    ensures var r := BTypeStep(s, iw);
      r.Err? <==> Funct3(iw) != 0 && Funct3(iw) != 1 && Funct3(iw) != 4 && Funct3(iw) != 5
    ensures BTypeStep(s, iw).Err? ==> BTypeStep(s, iw).fault == Unsupported(BType, Funct3(iw))
  {}

  /** emu_jal: pc moves by the J-offset; rd receives pc + 4 unless it is
      x0, in which case no register changes. */
  lemma JalEffect(s: State, iw: bv32)
    requires Valid(s)
    ensures var t := JalStep(s, iw);
      && t.pc == Add(s.pc, ImmJ(iw)) && t.stack == s.stack && t.analysis == s.analysis
      && (Rd(iw) == 0 ==> t.regs == s.regs)
      && (Rd(iw) != 0 ==> t.regs[Rd(iw)] == Add(s.pc, 4) && OthersKept(s, t, Rd(iw)))
  {}

  /** emu_jalr: the target is the old regs[rs1] plus the offset with bit
      0 cleared, and the link pc + 4 goes to rs1; nothing else changes. */
  lemma JalrEffect(s: State, iw: bv32)
    requires Valid(s)
    ensures var t := JalrStep(s, iw);
      && t.pc & 1 == 0 && t.pc | 1 == Add(s.regs[Rs1(iw)], ImmJalr(iw)) | 1
      && t.regs[Rs1(iw)] == Add(s.pc, 4) && OthersKept(s, t, Rs1(iw))
      && t.stack == s.stack && t.analysis == s.analysis
  {}

  /** A jal assembled from an even offset in [-2^20, 2^20 - 2] moves pc
      by exactly that offset and links pc + 4 into its rd. */
  lemma JalEncoded(s: State, offset: bv64, rd: Reg)
    requires Valid(s) && FitsOffsetJ(offset) && rd != 0
    ensures var t := JalStep(s, EncodeJ(offset, rd, FMT_J));
      t.pc == Add(s.pc, offset) && t.regs[rd] == Add(s.pc, 4)
  {
    DecodeEncodeJ(offset, rd, FMT_J);
    JalEffect(s, EncodeJ(offset, rd, FMT_J));
  }

  /** A beq assembled from an even offset in [-4096, 4094], comparing two
      equal registers, moves pc by exactly that offset. */
  lemma BeqEncoded(s: State, offset: bv64, rs1: Reg, rs2: Reg)
    requires Valid(s) && FitsOffsetB(offset) && s.regs[rs1] == s.regs[rs2]
    ensures var r := BTypeStep(s, EncodeB(offset, rs2, rs1, 0, FMT_B));
      r.Ok? && r.value.pc == Add(s.pc, offset)
  {
    var iw := EncodeB(offset, rs2, rs1, 0, FMT_B);
    DecodeEncodeB(offset, rs2, rs1, 0, FMT_B);
    BTypeEffect(s, iw);
  }
}
