/** What the arithmetic of the network processor means, bit by bit and byte by byte. */
module AluMeaning {
  import opened Words
  import opened Isa
  import opened Microengine

  // -------------------------------------------------------------------- shifts

  lemma HalfOfRemainder(x: nat, p: nat)
    requires p > 0
    ensures x % (2 * p) % 2 == x % 2 && x % (2 * p) / 2 == x / 2 % p
  {
    LowHigh(x / 2, p);
    var q, r := x / 2 / p, x / 2 % p;
    assert x == (2 * r + x % 2) + 2 * p * q by {
      assert 2 * (p * q) == 2 * p * q;
    }
    SplitLow(2 * r + x % 2, 2 * p, q);
  }

  lemma {:induction false} BitOfRemainder(x: nat, m: nat, k: nat)
    requires k < m
    ensures Bit(x % Pow2(m), k) == Bit(x, k)
    decreases m
  {
    HalfOfRemainder(x, Pow2(m - 1));
    if k > 0 {
      BitOfRemainder(x / 2, m - 1, k - 1);
    }
  }

  lemma {:induction false} BitOfProduct(a: nat, n: nat, k: nat)
    ensures Bit(a * Pow2(n), k) == (k >= n && Bit(a, k - n))
    decreases n
  {
    if n > 0 {
      var half := a * Pow2(n - 1);
      assert a * Pow2(n) == 2 * half;
      if k > 0 {
        BitOfProduct(a, n - 1, k - 1);
      }
    } else {
      assert a * Pow2(0) == a;
    }
  }

  function Quotient(a: nat, d: nat): nat
    requires d > 0
  {
    LowHigh(a, d);
    a / d
  }

  lemma {:induction false} BitOfQuotient(a: nat, n: nat, k: nat)
    ensures Bit(Quotient(a, Pow2(n)), k) == Bit(a, k + n)
    decreases n
  {
    if n > 0 {
      QuotientOfQuotient(a, 2, Pow2(n - 1));
      BitOfQuotient(a / 2, n - 1, k);
    }
  }

  /** A left shift moves every bit up and drops those that leave the word; a right shift moves down. */
  lemma ShiftBits(a: Word, n: nat, k: nat)
    requires n < 32 && k < 32
    ensures Bit(ShiftLeft(a, n), k) == (k >= n && Bit(a, k - n))
    ensures Bit(ShiftRight(a, n), k) == Bit(a, k + n)
  {
    hide Bit, Pow2;
    Pow2Bits();
    BitOfRemainder(a * Pow2(n), 32, k);
    BitOfProduct(a, n, k);
    BitOfQuotient(a, n, k);
  }

  // ----------------------------------------------------------------------- ALU

  /** The logical operations work on each bit alone. */
  lemma LogicalBits(op: nat, a: Word, b: Word, carry: nat, sign: nat, k: nat)
    requires BIT_NOT_SECOND <= op <= XOR && carry < 2 && k < 32
    ensures Bit(AluResult(op, a, b, carry, sign), k) ==
            if op == BIT_NOT_SECOND then !Bit(b, k)
            else if op == AND then Bit(a, k) && Bit(b, k)
            else if op == OR then Bit(a, k) || Bit(b, k)
            else Bit(a, k) != Bit(b, k)
  {
    BitOfBitwise((x, y) => !x, b, 0, 32, k);
    BitOfBitwise((x, y) => x && y, a, b, 32, k);
    BitOfBitwise((x, y) => x || y, a, b, 32, k);
    BitOfBitwise((x, y) => x != y, a, b, 32, k);
  }

  /** Adding back what was subtracted restores the word, in both directions of subtraction. */
  lemma SubtractionUndone(a: Word, b: Word, carry: nat, sign: nat)
    requires carry < 2
    ensures Wrap(AluResult(0, Wrap(AluResult(MINUS, a, b, carry, sign)), b, carry, sign)) == a
    ensures Wrap(AluResult(0, a, Wrap(AluResult(BACKWARDS_MINUS, a, b, carry, sign)), carry, sign)) == b
  {
    WrappedDifference(a, b);
    WrappedDifference(b, a);
  }

  lemma WrappedDifference(a: Word, b: Word)
    ensures Wrap(a - b) == (if a >= b then a - b else a - b + 0x1_0000_0000)
    ensures Wrap(Wrap(Wrap(a - b)) + b) == a
  {
  }

  /** The sign flag after a subtraction orders the operands as signed numbers exactly when their
      difference fits in 32 bits. */
  lemma SignAfterMinus(core: Core, ctx: nat, inst: Inst<nat>)
    requires core.Valid() && ctx < CONTEXTS && FieldsFit(inst) && inst.Alu? && inst.opcode == ALU && inst.op == MINUS
    ensures var a, b := Signed(Operand(core, ctx, inst.src1)), Signed(Operand(core, ctx, inst.src2));
            (ExecAlu(core, ctx, inst).sign == 1 <==> a < b) <==> -0x8000_0000 <= a - b < 0x8000_0000
  {
    TopBitOfDifference(Operand(core, ctx, inst.src1), Operand(core, ctx, inst.src2));
  }

  lemma TopBitOfDifference(a: Word, b: Word)
    ensures (Wrap(a - b) / 0x8000_0000 % 2 == 1 <==> Signed(a) < Signed(b)) <==>
            -0x8000_0000 <= Signed(a) - Signed(b) < 0x8000_0000
  {
    WrappedDifference(a, b);
  }

  // ---------------------------------------------------------------- immediates

  function ByteOf(x: Word, k: nat): nat
    requires k < 4
  {
    if k == 0 then x % 0x100
    else if k == 1 then x / 0x100 % 0x100
    else if k == 2 then x / 0x1_0000 % 0x100
    else x / 0x100_0000
  }

  /** The bytes an immediate instruction writes, and where in its value they come from. */
  function Replaces(opcode: int, k: nat): Option<nat> {
    if IMMED_B0 <= opcode <= IMMED_B3 then (if k == opcode - IMMED_B0 then Some(0) else None)
    else if opcode == IMMED_W0 then (if k < 2 then Some(k) else None)
    else if k >= 2 then Some(k - 2)
    else None
  }

  lemma FourBytes(x: Word)
    ensures x % 0x1_0000 == ByteOf(x, 0) + 0x100 * ByteOf(x, 1)
    ensures x % 0x100_0000 == ByteOf(x, 0) + 0x100 * ByteOf(x, 1) + 0x1_0000 * ByteOf(x, 2)
    ensures x / 0x1_0000 == ByteOf(x, 2) + 0x100 * ByteOf(x, 3)
    ensures x / 0x100 == ByteOf(x, 1) + 0x100 * ByteOf(x, 2) + 0x1_0000 * ByteOf(x, 3)
    ensures ByteOf(x, 0) < 0x100 && ByteOf(x, 1) < 0x100 && ByteOf(x, 2) < 0x100 && ByteOf(x, 3) < 0x100
  {
    var y := x / 0x100;
    var z := y / 0x100;
    var w := z / 0x100;
    SplitLow(x % 0x100 + 0x100 * (y % 0x100), 0x1_0000, z);
    SplitLow(x % 0x100 + 0x100 * (y % 0x100) + 0x1_0000 * (z % 0x100), 0x100_0000, w);
  }

  function Word4(b0: nat, b1: nat, b2: nat, b3: nat): nat {
    b0 + 0x100 * b1 + 0x1_0000 * b2 + 0x100_0000 * b3
  }

  lemma BytesUnique(b0: nat, b1: nat, b2: nat, b3: nat)
    requires b0 < 0x100 && b1 < 0x100 && b2 < 0x100 && b3 < 0x100
    ensures var x := Word4(b0, b1, b2, b3);
            x < WORD && ByteOf(x, 0) == b0 && ByteOf(x, 1) == b1 && ByteOf(x, 2) == b2 && ByteOf(x, 3) == b3
  {
    var x := Word4(b0, b1, b2, b3);
    SplitLow(b0, 0x100, b1 + 0x100 * b2 + 0x1_0000 * b3);
    SplitLow(b1, 0x100, b2 + 0x100 * b3);
    SplitLow(b0 + 0x100 * b1, 0x1_0000, b2 + 0x100 * b3);
    SplitLow(b2, 0x100, b3);
    SplitLow(b0 + 0x100 * b1 + 0x1_0000 * b2, 0x100_0000, b3);
  }

  /** IMMED_Bn replaces byte n and IMMED_Wn two bytes; every other byte of the register stays. */
  lemma ImmediateBytes(opcode: int, orig: Word, ival: nat, rot: int, k: nat)
    requires IMMED_B0 <= opcode <= IMMED_W1 && ival < 0x1_0000 && k < 4
    ensures var from := Replaces(opcode, k);
            ByteOf(ImmediateValue(opcode, orig, ival, rot), k) ==
            if from.None? then ByteOf(orig, k) else ByteOf(ival, from.value)
  {
    FourBytes(orig);
    FourBytes(ival);
    ImmediateWord(opcode, orig, ival, rot);
    var b, h := ByteOf(ival, 0), ByteOf(ival, 1);
    var o0, o1, o2, o3 := ByteOf(orig, 0), ByteOf(orig, 1), ByteOf(orig, 2), ByteOf(orig, 3);
    hide ByteOf, ImmediateValue;
    match opcode
    case 30 => BytesUnique(b, o1, o2, o3);
    case 31 => BytesUnique(o0, b, o2, o3);
    case 32 => BytesUnique(o0, o1, b, o3);
    case 33 => BytesUnique(o0, o1, o2, b);
    case 34 => BytesUnique(b, h, o2, o3);
    case _ => BytesUnique(o0, o1, b, h);
  }

  lemma ImmediateWord(opcode: int, orig: Word, ival: nat, rot: int)
    requires IMMED_B0 <= opcode <= IMMED_W1 && ival < 0x1_0000
    ensures var b, h := ByteOf(ival, 0), ByteOf(ival, 1);
            var o0, o1, o2, o3 := ByteOf(orig, 0), ByteOf(orig, 1), ByteOf(orig, 2), ByteOf(orig, 3);
            ImmediateValue(opcode, orig, ival, rot) ==
            if opcode == IMMED_B0 then Word4(b, o1, o2, o3)
            else if opcode == IMMED_B1 then Word4(o0, b, o2, o3)
            else if opcode == IMMED_B2 then Word4(o0, o1, b, o3)
            else if opcode == IMMED_B3 then Word4(o0, o1, o2, b)
            else if opcode == IMMED_W0 then Word4(b, h, o2, o3)
            else Word4(o0, o1, b, h)
  {
    FourBytes(orig);
    FourBytes(ival);
  }
}
