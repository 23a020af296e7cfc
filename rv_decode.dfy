/** Instruction-word decoding used by the handlers of rv_emu.c: the opcode
    and register/funct fields, and the reassembly of the I, S, B and J
    immediates (RISC-V Unprivileged ISA, version 20191213, sections 2.2 and
    2.3). Encoders for each format are the inverse partners of the field
    extractors. */
module Decode {
  import opened Bits

  /** A register number 0..31, as extracted by get_bits(iw, _, 5). */
  type Reg = bv5

  function Opcode(iw: bv32): (r: bv32)
    ensures r < 0x80
  {
    GetBits(iw as bv64, 0, 7)
  }

  function Rd(iw: bv32): Reg { GetBits(iw as bv64, 7, 5) as Reg }
  function Rs1(iw: bv32): Reg { GetBits(iw as bv64, 15, 5) as Reg }
  function Rs2(iw: bv32): Reg { GetBits(iw as bv64, 20, 5) as Reg }

  function Funct3(iw: bv32): (r: bv32)
    ensures r < 8
  {
    GetBits(iw as bv64, 12, 3)
  }

  function Funct7(iw: bv32): (r: bv32)
    ensures r < 0x80
  {
    GetBits(iw as bv64, 25, 7)
  }

  /** The conversion of an int32_t to int64_t: bit 31 is copied upwards. */
  function Widen(x: bv32): bv64
  {
    if x & 0x8000_0000 != 0 then x as bv64 | 0xffff_ffff_0000_0000 else x as bv64
  }

  /** The I-type immediate as the load and arithmetic handlers compute it:
      the word is read as an int32_t, arithmetically shifted right by 20
      and widened to int64_t. */
  function ImmI(iw: bv32): bv64
  {
    var imm32 := if iw & 0x8000_0000 != 0 then (iw >> 20) | 0xffff_f000 else iw >> 20;
    Widen(imm32)
  }

  /** The jalr offset: bits 20..31 sign-extended from bit 11. */
  function ImmJalr(iw: bv32): bv64
  {
    SignExtend(GetBits(iw as bv64, 20, 12) as bv64, 11)
  }

  /** The S-type offset: imm[11:5] from bits 25..31, imm[4:0] from bits 7..11. */
  function ImmS(iw: bv32): bv64
  {
    var imm11_5 := GetBits(iw as bv64, 25, 7) << 5;
    var imm4_0 := GetBits(iw as bv64, 7, 5);
    SignExtend((imm11_5 | imm4_0) as bv64, 11)
  }

  /** The B-type offset: imm[12] from bit 31, imm[10:5] from bits 25..30,
      imm[4:1] from bits 8..11 and imm[11] from bit 7. */
  function ImmB(iw: bv32): bv64
  {
    var imm12 := GetBits(iw as bv64, 31, 1) << 12;
    var imm10_5 := GetBits(iw as bv64, 25, 6) << 5;
    var imm4_1 := GetBits(iw as bv64, 8, 4) << 1;
    var imm11 := GetBits(iw as bv64, 7, 1) << 11;
    SignExtend((imm12 | imm10_5 | imm4_1 | imm11) as bv64, 12)
  }

  /** The J-type offset: imm[20] from bit 31, imm[10:1] from bits 21..30,
      imm[11] from bit 20 and imm[19:12] from bits 12..19. */
  function ImmJ(iw: bv32): bv64
  {
    var imm20 := GetBits(iw as bv64, 31, 1) << 20;
    var imm10_1 := GetBits(iw as bv64, 21, 10) << 1;
    var imm11 := GetBits(iw as bv64, 20, 1) << 11;
    var imm19_12 := GetBits(iw as bv64, 12, 8) << 12;
    SignExtend((imm20 | imm19_12 | imm11 | imm10_1) as bv64, 20)
  }

  /** The shift amount srli uses: the low byte of the I-immediate, then
      its low five bits. */
  function ShamtI(iw: bv32): (n: bv6)
    ensures n < 32
  {
    ((((ImmI(iw) & 0xff) as bv8) & 0x1f) as bv6)
  }

  /** The low five bits of a register, the shift amount of sllw and sraw. */
  function Shamt5(x: bv64): (n: bv6)
    ensures n < 32
  {
    GetBits(x, 0, 5) as bv6
  }

  // Encoders: the instruction layouts of section 2.2 and 2.3 of the RISC-V
  // Unprivileged ISA, each the inverse of the extractors above.

  function EncodeR(funct7: bv32, rs2: Reg, rs1: Reg, funct3: bv32, rd: Reg, opcode: bv32): bv32
    requires funct7 < 0x80 && funct3 < 8 && opcode < 0x80
  {
    (funct7 << 25) | ((rs2 as bv32) << 20) | ((rs1 as bv32) << 15) | (funct3 << 12) | ((rd as bv32) << 7) | opcode
  }

  function EncodeI(imm: bv64, rs1: Reg, funct3: bv32, rd: Reg, opcode: bv32): bv32
    requires funct3 < 8 && opcode < 0x80
  {
    (((imm & 0xfff) as bv32) << 20) | ((rs1 as bv32) << 15) | (funct3 << 12) | ((rd as bv32) << 7) | opcode
  }

  function EncodeS(imm: bv64, rs2: Reg, rs1: Reg, funct3: bv32, opcode: bv32): bv32
    requires funct3 < 8 && opcode < 0x80
  {
    var o := (imm & 0xfff) as bv32;
    ((o >> 5) << 25) | ((rs2 as bv32) << 20) | ((rs1 as bv32) << 15) | (funct3 << 12) | ((o & 0x1f) << 7) | opcode
  }

  function EncodeB(offset: bv64, rs2: Reg, rs1: Reg, funct3: bv32, opcode: bv32): bv32
    requires funct3 < 8 && opcode < 0x80
  {
    var o := (offset & 0x1ffe) as bv32;
    ((o >> 12) << 31) | (((o >> 5) & 0x3f) << 25) | ((rs2 as bv32) << 20) | ((rs1 as bv32) << 15)
      | (funct3 << 12) | (((o >> 1) & 0xf) << 8) | (((o >> 11) & 1) << 7) | opcode
  }

  function EncodeJ(offset: bv64, rd: Reg, opcode: bv32): bv32
    requires opcode < 0x80
  {
    var o := (offset & 0x1f_fffe) as bv32;
    ((o >> 20) << 31) | (((o >> 1) & 0x3ff) << 21) | (((o >> 11) & 1) << 20) | (((o >> 12) & 0xff) << 12)
      | ((rd as bv32) << 7) | opcode
  }

  // Immediates that fit: the two's-complement ranges of a 12-bit
  // immediate and of the even 13-bit and 21-bit branch and jump offsets,
  // written as 64-bit patterns.

  predicate FitsImm12(imm: bv64)
  {
    imm <= 0x7ff || imm >= 0xffff_ffff_ffff_f800
  }

  predicate FitsOffsetB(offset: bv64)
  {
    offset & 1 == 0 && (offset <= 0xffe || offset >= 0xffff_ffff_ffff_f000)
  }

  predicate FitsOffsetJ(offset: bv64)
  {
    offset & 1 == 0 && (offset <= 0xf_fffe || offset >= 0xffff_ffff_fff0_0000)
  }

  lemma ImmIAgreesNeg(iw: bv32)
    requires iw & 0x8000_0000 != 0
    ensures ImmI(iw) == ImmJalr(iw)
  {}

  lemma ImmIAgreesNonNeg(iw: bv32)
    requires iw & 0x8000_0000 == 0
    ensures ImmI(iw) == ImmJalr(iw)
  {}

  /** The I-immediate computed as ((int32_t) iw) >> 20 equals
      sign_extend(get_bits(iw, 20, 12), 11), the form emu_jalr uses. */
  lemma ImmIAgrees(iw: bv32)
    ensures ImmI(iw) == ImmJalr(iw)
  {
    if iw & 0x8000_0000 != 0 { ImmIAgreesNeg(iw); } else { ImmIAgreesNonNeg(iw); }
  }

  /** srli shifts by bits 20..24 of the word: the low five bits of the
      immediate. */
  lemma ShamtIIsRs2Field(iw: bv32)
    ensures ShamtI(iw) as bv64 == ImmI(iw) & 0x1f
    ensures ShamtI(iw) == Rs2(iw) as bv6
  {}

  /** sllw and sraw shift by the low five bits of the register only. */
  lemma Shamt5IsLowBits(x: bv64)
    ensures Shamt5(x) == (x & 0x1f) as bv6
  {}

  lemma ImmSNeg(iw: bv32)
    requires iw & 0x8000_0000 != 0
    ensures ImmS(iw) >= 0xffff_ffff_ffff_f800
  {}

  lemma ImmSNonNeg(iw: bv32)
    requires iw & 0x8000_0000 == 0
    ensures ImmS(iw) <= 0x7ff
  {}

  lemma ImmBNeg(iw: bv32)
    requires iw & 0x8000_0000 != 0
    ensures ImmB(iw) & 1 == 0 && ImmB(iw) >= 0xffff_ffff_ffff_f000
  {}

  lemma ImmBNonNeg(iw: bv32)
    requires iw & 0x8000_0000 == 0
    ensures ImmB(iw) & 1 == 0 && ImmB(iw) <= 0xffe
  {}

  lemma ImmJNeg(iw: bv32)
    requires iw & 0x8000_0000 != 0
    ensures ImmJ(iw) & 1 == 0 && ImmJ(iw) >= 0xffff_ffff_fff0_0000
  {}

  lemma ImmJNonNeg(iw: bv32)
    requires iw & 0x8000_0000 == 0
    ensures ImmJ(iw) & 1 == 0 && ImmJ(iw) <= 0xf_fffe
  {}

  /** The S-immediate is a 12-bit two's-complement value, negative
      exactly when bit 31 of the word is set. */
  lemma ImmSRange(iw: bv32)
    ensures FitsImm12(ImmS(iw))
    ensures ToSigned(ImmS(iw)) < 0 <==> iw & 0x8000_0000 != 0
  {
    if iw & 0x8000_0000 != 0 { ImmSNeg(iw); } else { ImmSNonNeg(iw); }
  }

  /** The B-offset is even and lies in [-4096, 4094]. */
  lemma ImmBRange(iw: bv32)
    ensures FitsOffsetB(ImmB(iw))
    ensures -4096 <= ToSigned(ImmB(iw)) <= 4094
  {
    if iw & 0x8000_0000 != 0 { ImmBNeg(iw); } else { ImmBNonNeg(iw); }
  }

  /** The J-offset is even and lies in [-2^20, 2^20 - 2]. */
  lemma ImmJRange(iw: bv32)
    ensures FitsOffsetJ(ImmJ(iw))
    ensures -0x10_0000 <= ToSigned(ImmJ(iw)) <= 0xf_fffe
  {
    if iw & 0x8000_0000 != 0 { ImmJNeg(iw); } else { ImmJNonNeg(iw); }
  }

  /** Every word is the R-layout encoding of its own fields. */
  lemma EncodeDecodeR(iw: bv32)
    ensures EncodeR(Funct7(iw), Rs2(iw), Rs1(iw), Funct3(iw), Rd(iw), Opcode(iw)) == iw
  {}

  /** Each field of an R-layout encoding decodes back. */
  lemma DecodeEncodeR(funct7: bv32, rs2: Reg, rs1: Reg, funct3: bv32, rd: Reg, opcode: bv32)
    requires funct7 < 0x80 && funct3 < 8 && opcode < 0x80
    ensures var iw := EncodeR(funct7, rs2, rs1, funct3, rd, opcode);
      Funct7(iw) == funct7 && Rs2(iw) == rs2 && Rs1(iw) == rs1 && Funct3(iw) == funct3 && Rd(iw) == rd && Opcode(iw) == opcode
  {}

  lemma EncodeDecodeINeg(iw: bv32)
    requires iw & 0x8000_0000 != 0
    ensures EncodeI(ImmI(iw), Rs1(iw), Funct3(iw), Rd(iw), Opcode(iw)) == iw
  {}

  lemma EncodeDecodeINonNeg(iw: bv32)
    requires iw & 0x8000_0000 == 0
    ensures EncodeI(ImmI(iw), Rs1(iw), Funct3(iw), Rd(iw), Opcode(iw)) == iw
  {}

  /** Every word is the I-layout encoding of its immediate and fields. */
  lemma EncodeDecodeI(iw: bv32)
    ensures EncodeI(ImmI(iw), Rs1(iw), Funct3(iw), Rd(iw), Opcode(iw)) == iw
  {
    if iw & 0x8000_0000 != 0 { EncodeDecodeINeg(iw); } else { EncodeDecodeINonNeg(iw); }
  }

  lemma DecodeEncodeINeg(imm: bv64, rs1: Reg, funct3: bv32, rd: Reg, opcode: bv32)
    requires funct3 < 8 && opcode < 0x80 && imm >= 0xffff_ffff_ffff_f800
    ensures ImmI(EncodeI(imm, rs1, funct3, rd, opcode)) == imm
  {}

  lemma DecodeEncodeINonNeg(imm: bv64, rs1: Reg, funct3: bv32, rd: Reg, opcode: bv32)
    requires funct3 < 8 && opcode < 0x80 && imm <= 0x7ff
    ensures ImmI(EncodeI(imm, rs1, funct3, rd, opcode)) == imm
  {}

  lemma DecodeEncodeIFields(imm: bv64, rs1: Reg, funct3: bv32, rd: Reg, opcode: bv32)
    requires funct3 < 8 && opcode < 0x80
    ensures var iw := EncodeI(imm, rs1, funct3, rd, opcode);
      Rs1(iw) == rs1 && Funct3(iw) == funct3 && Rd(iw) == rd && Opcode(iw) == opcode
  {}

  /** A 12-bit immediate and the register and funct3 fields survive
      I-encoding and decoding. */
  lemma DecodeEncodeI(imm: bv64, rs1: Reg, funct3: bv32, rd: Reg, opcode: bv32)
    requires funct3 < 8 && opcode < 0x80 && FitsImm12(imm)
    ensures var iw := EncodeI(imm, rs1, funct3, rd, opcode);
      ImmI(iw) == imm && Rs1(iw) == rs1 && Funct3(iw) == funct3 && Rd(iw) == rd && Opcode(iw) == opcode
  {
    DecodeEncodeIFields(imm, rs1, funct3, rd, opcode);
    if imm <= 0x7ff {
      DecodeEncodeINonNeg(imm, rs1, funct3, rd, opcode);
    } else {
      DecodeEncodeINeg(imm, rs1, funct3, rd, opcode);
    }
  }

  lemma EncodeDecodeSNeg(iw: bv32)
    requires iw & 0x8000_0000 != 0
    ensures EncodeS(ImmS(iw), Rs2(iw), Rs1(iw), Funct3(iw), Opcode(iw)) == iw
  {}

  lemma EncodeDecodeSNonNeg(iw: bv32)
    requires iw & 0x8000_0000 == 0
    ensures EncodeS(ImmS(iw), Rs2(iw), Rs1(iw), Funct3(iw), Opcode(iw)) == iw
  {}

  /** Every word is the S-layout encoding of its immediate and fields. */
  lemma EncodeDecodeS(iw: bv32)
    ensures EncodeS(ImmS(iw), Rs2(iw), Rs1(iw), Funct3(iw), Opcode(iw)) == iw
  {
    if iw & 0x8000_0000 != 0 { EncodeDecodeSNeg(iw); } else { EncodeDecodeSNonNeg(iw); }
  }

  lemma DecodeEncodeSNeg(imm: bv64, rs2: Reg, rs1: Reg, funct3: bv32, opcode: bv32)
    requires funct3 < 8 && opcode < 0x80 && imm >= 0xffff_ffff_ffff_f800
    ensures ImmS(EncodeS(imm, rs2, rs1, funct3, opcode)) == imm
  {}

  lemma DecodeEncodeSNonNeg(imm: bv64, rs2: Reg, rs1: Reg, funct3: bv32, opcode: bv32)
    requires funct3 < 8 && opcode < 0x80 && imm <= 0x7ff
    ensures ImmS(EncodeS(imm, rs2, rs1, funct3, opcode)) == imm
  {}

  lemma DecodeEncodeSFields(imm: bv64, rs2: Reg, rs1: Reg, funct3: bv32, opcode: bv32)
    requires funct3 < 8 && opcode < 0x80
    ensures var iw := EncodeS(imm, rs2, rs1, funct3, opcode);
      Rs2(iw) == rs2 && Rs1(iw) == rs1 && Funct3(iw) == funct3 && Opcode(iw) == opcode
  {}

  /** A 12-bit immediate and the register and funct3 fields survive
      S-encoding and decoding. */
  lemma DecodeEncodeS(imm: bv64, rs2: Reg, rs1: Reg, funct3: bv32, opcode: bv32)
    requires funct3 < 8 && opcode < 0x80 && FitsImm12(imm)
    ensures var iw := EncodeS(imm, rs2, rs1, funct3, opcode);
      ImmS(iw) == imm && Rs2(iw) == rs2 && Rs1(iw) == rs1 && Funct3(iw) == funct3 && Opcode(iw) == opcode
  {
    DecodeEncodeSFields(imm, rs2, rs1, funct3, opcode);
    if imm <= 0x7ff {
      DecodeEncodeSNonNeg(imm, rs2, rs1, funct3, opcode);
    } else {
      DecodeEncodeSNeg(imm, rs2, rs1, funct3, opcode);
    }
  }

  lemma EncodeDecodeBNeg(iw: bv32)
    requires iw & 0x8000_0000 != 0
    ensures EncodeB(ImmB(iw), Rs2(iw), Rs1(iw), Funct3(iw), Opcode(iw)) == iw
  {}

  lemma EncodeDecodeBNonNeg(iw: bv32)
    requires iw & 0x8000_0000 == 0
    ensures EncodeB(ImmB(iw), Rs2(iw), Rs1(iw), Funct3(iw), Opcode(iw)) == iw
  {}

  /** Every word is the B-layout encoding of its offset and fields. */
  lemma EncodeDecodeB(iw: bv32)
    ensures EncodeB(ImmB(iw), Rs2(iw), Rs1(iw), Funct3(iw), Opcode(iw)) == iw
  {
    if iw & 0x8000_0000 != 0 { EncodeDecodeBNeg(iw); } else { EncodeDecodeBNonNeg(iw); }
  }

  lemma DecodeEncodeBNeg(offset: bv64, rs2: Reg, rs1: Reg, funct3: bv32, opcode: bv32)
    requires funct3 < 8 && opcode < 0x80 && offset & 1 == 0 && offset >= 0xffff_ffff_ffff_f000
    ensures ImmB(EncodeB(offset, rs2, rs1, funct3, opcode)) == offset
  {}

  lemma DecodeEncodeBNonNeg(offset: bv64, rs2: Reg, rs1: Reg, funct3: bv32, opcode: bv32)
    requires funct3 < 8 && opcode < 0x80 && offset & 1 == 0 && offset <= 0xffe
    ensures ImmB(EncodeB(offset, rs2, rs1, funct3, opcode)) == offset
  {}

  lemma DecodeEncodeBFields(offset: bv64, rs2: Reg, rs1: Reg, funct3: bv32, opcode: bv32)
    requires funct3 < 8 && opcode < 0x80
    ensures var iw := EncodeB(offset, rs2, rs1, funct3, opcode);
      Rs2(iw) == rs2 && Rs1(iw) == rs1 && Funct3(iw) == funct3 && Opcode(iw) == opcode
  {}

  /** An even offset in [-4096, 4094] and the register and funct3 fields
      survive B-encoding and decoding. */
  lemma DecodeEncodeB(offset: bv64, rs2: Reg, rs1: Reg, funct3: bv32, opcode: bv32)
    requires funct3 < 8 && opcode < 0x80 && FitsOffsetB(offset)
    ensures var iw := EncodeB(offset, rs2, rs1, funct3, opcode);
      ImmB(iw) == offset && Rs2(iw) == rs2 && Rs1(iw) == rs1 && Funct3(iw) == funct3 && Opcode(iw) == opcode
  {
    DecodeEncodeBFields(offset, rs2, rs1, funct3, opcode);
    if offset <= 0xffe {
      DecodeEncodeBNonNeg(offset, rs2, rs1, funct3, opcode);
    } else {
      DecodeEncodeBNeg(offset, rs2, rs1, funct3, opcode);
    }
  }

  lemma EncodeDecodeJNeg(iw: bv32)
    requires iw & 0x8000_0000 != 0
    ensures EncodeJ(ImmJ(iw), Rd(iw), Opcode(iw)) == iw
  {}

  lemma EncodeDecodeJNonNeg(iw: bv32)
    requires iw & 0x8000_0000 == 0
    ensures EncodeJ(ImmJ(iw), Rd(iw), Opcode(iw)) == iw
  {}

  /** Every word is the J-layout encoding of its offset and fields. */
  lemma EncodeDecodeJ(iw: bv32)
    ensures EncodeJ(ImmJ(iw), Rd(iw), Opcode(iw)) == iw
  {
    if iw & 0x8000_0000 != 0 { EncodeDecodeJNeg(iw); } else { EncodeDecodeJNonNeg(iw); }
  }

  lemma DecodeEncodeJNeg(offset: bv64, rd: Reg, opcode: bv32)
    requires opcode < 0x80 && offset & 1 == 0 && offset >= 0xffff_ffff_fff0_0000
    ensures ImmJ(EncodeJ(offset, rd, opcode)) == offset
  {}

  lemma DecodeEncodeJNonNeg(offset: bv64, rd: Reg, opcode: bv32)
    requires opcode < 0x80 && offset & 1 == 0 && offset <= 0xf_fffe
    ensures ImmJ(EncodeJ(offset, rd, opcode)) == offset
  {}

  lemma DecodeEncodeJFields(offset: bv64, rd: Reg, opcode: bv32)
    requires opcode < 0x80
    ensures var iw := EncodeJ(offset, rd, opcode); Rd(iw) == rd && Opcode(iw) == opcode
  {}

  /** An even offset in [-2^20, 2^20 - 2] and rd survive J-encoding and
      decoding. */
  lemma DecodeEncodeJ(offset: bv64, rd: Reg, opcode: bv32)
    requires opcode < 0x80 && FitsOffsetJ(offset)
    ensures var iw := EncodeJ(offset, rd, opcode); ImmJ(iw) == offset && Rd(iw) == rd && Opcode(iw) == opcode
  {
    DecodeEncodeJFields(offset, rd, opcode);
    if offset <= 0xf_fffe {
      DecodeEncodeJNonNeg(offset, rd, opcode);
    } else {
      DecodeEncodeJNeg(offset, rd, opcode);
    }
  }
}
