/**
 The instruction encoding shared by the compiler and the virtual machine
 (`byte_code` in src/vm/vm.hpp). Every opcode is one word; the word values
 are the unsigned 32-bit enumerator values, kept here as plain integers.
 Unary opcodes carry bit 31, binary opcodes carry bit 30, the data-movement
 and control opcodes carry neither.
 */
module ByteCode {
  import opened CppInt

  /** `op_unary_flag = 1u << 31u` */
  const UnaryFlag: int := 0x8000_0000
  /** `op_binary_flag = 1u << 30u` */
  const BinaryFlag: int := 0x4000_0000

  const OpPos: int := 1 + UnaryFlag
  const OpNeg: int := 2 + UnaryFlag
  const OpLogNot: int := 3 + UnaryFlag
  const OpBitNot: int := 4 + UnaryFlag

  const OpAdd: int := 5 + BinaryFlag
  const OpSub: int := 6 + BinaryFlag
  const OpMul: int := 7 + BinaryFlag
  const OpDiv: int := 8 + BinaryFlag
  const OpMod: int := 9 + BinaryFlag

  const OpEq: int := 10 + BinaryFlag
  const OpNeq: int := 11 + BinaryFlag
  const OpLt: int := 12 + BinaryFlag
  const OpLte: int := 13 + BinaryFlag
  const OpGt: int := 14 + BinaryFlag
  const OpGte: int := 15 + BinaryFlag

  const OpBitwiseOr: int := 16 + BinaryFlag
  const OpBitwiseXor: int := 17 + BinaryFlag
  const OpBitwiseAnd: int := 18 + BinaryFlag

  const OpShiftLeft: int := 19 + BinaryFlag
  const OpShiftRight: int := 20 + BinaryFlag

  const OpLogicalAnd: int := 21 + BinaryFlag
  const OpLogicalOr: int := 22 + BinaryFlag

  const OpLoad: int := 23
  const OpStore: int := 24
  const OpInt: int := 25
  const OpJumpIf: int := 26
  const OpJump: int := 27
  const OpStkAdj: int := 28
  const OpCall: int := 29
  const OpReturn: int := 30

  /** The default capacity of the machine's operand stack, in words. */
  const DefaultStackSize: nat := 4096

  const UnaryOpcodes: seq<int> := [OpPos, OpNeg, OpLogNot, OpBitNot]

  const BinaryOpcodes: seq<int> :=
    [OpAdd, OpSub, OpMul, OpDiv, OpMod,
     OpEq, OpNeq, OpLt, OpLte, OpGt, OpGte,
     OpBitwiseOr, OpBitwiseXor, OpBitwiseAnd,
     OpShiftLeft, OpShiftRight,
     OpLogicalAnd, OpLogicalOr]

  const PlainOpcodes: seq<int> :=
    [OpLoad, OpStore, OpInt, OpJumpIf, OpJump, OpStkAdj, OpCall, OpReturn]

  const AllOpcodes: seq<int> := UnaryOpcodes + BinaryOpcodes + PlainOpcodes

  /** Bit `k` of the unsigned 32-bit word `w`, where `flag` is 2^k. */
  predicate FlagSet(w: int, flag: int)
    requires flag > 0
  {
    0 <= w < Modulus && (w / flag) % 2 == 1
  }

  /** `w & op_unary_flag` is non-zero. */
  predicate HasUnaryFlag(w: int) { FlagSet(w, UnaryFlag) }

  /** `w & op_binary_flag` is non-zero. */
  predicate HasBinaryFlag(w: int) { FlagSet(w, BinaryFlag) }

  /** True iff no two entries of `s` are equal. */
  predicate Distinct(s: seq<int>) {
    forall i, j :: 0 <= i < j < |s| ==> s[i] != s[j]
  }

  /** The flag constants are the powers of two of bits 31 and 30. */
  lemma FlagsArePowersOfTwo()
    ensures UnaryFlag == 2 * BinaryFlag
    ensures BinaryFlag == Pow2(30)
  {
    assert Pow2(10) == 1024 by {
      assert Pow2(2) == 4;
      assert Pow2(4) == 16;
      assert Pow2(6) == 64;
      assert Pow2(8) == 256;
    }
    Pow2Add(10, 20);
    Pow2Add(10, 10);
  }

  /** The four unary opcodes have bit 31 set and bit 30 clear. */
  lemma UnaryOpcodesFlagged()
    ensures |UnaryOpcodes| == 4
    ensures forall i :: 0 <= i < |UnaryOpcodes| ==>
      HasUnaryFlag(UnaryOpcodes[i]) && !HasBinaryFlag(UnaryOpcodes[i])
  {
  }

  /** The eighteen binary opcodes have bit 30 set and bit 31 clear. */
  lemma BinaryOpcodesFlagged()
    ensures |BinaryOpcodes| == 18
    ensures forall i :: 0 <= i < |BinaryOpcodes| ==>
      HasBinaryFlag(BinaryOpcodes[i]) && !HasUnaryFlag(BinaryOpcodes[i])
  {
  }

  /** `op_load` … `op_return` are the values 23 to 30 and carry neither flag. */
  lemma PlainOpcodesUnflagged()
    ensures forall i :: 0 <= i < |PlainOpcodes| ==> PlainOpcodes[i] == 23 + i
    ensures forall i :: 0 <= i < |PlainOpcodes| ==>
      !HasUnaryFlag(PlainOpcodes[i]) && !HasBinaryFlag(PlainOpcodes[i])
  {
  }

  /** The opcodes carry the low numbers 1 to 30 in enumeration order. */
  lemma OpcodeNumbers()
    ensures |AllOpcodes| == 30
    ensures forall i :: 0 <= i < |AllOpcodes| ==> AllOpcodes[i] % BinaryFlag == i + 1
  {
  }

  /** All thirty opcode values are pairwise distinct. */
  lemma OpcodesDistinct()
    ensures |AllOpcodes| == 30
    ensures Distinct(AllOpcodes)
  {
    OpcodeNumbers();
    forall i, j | 0 <= i < j < |AllOpcodes|
      ensures AllOpcodes[i] != AllOpcodes[j]
    {
      assert AllOpcodes[i] % BinaryFlag != AllOpcodes[j] % BinaryFlag;
    }
  }
}
