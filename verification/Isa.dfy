/** Instruction formats of the broadcooom microengine (devices/broadcooom/types.hpp). */
module Isa {
  import opened Words

  const ALU := 0
  const ALU_SHF := 1
  const DBL_SHF := 2
  const BR := 3
  const BR_EQ := 4
  const BR_NEQ := 5
  const BR_LESS := 6
  const BR_LESS_EQ := 7
  const BR_GREATER := 8
  const BR_GREATER_EQ := 9
  const BR_EQ_CTX := 16
  const BR_NEQ_CTX := 17
  const BR_NOT_SIGNAL := 19
  const RTN := 20
  const CSR := 21
  const RX_PKT := 24
  const R_FIFO_RD := 25
  const SCRATCH := 26
  const RAM := 27
  const T_FIFO_WR := 28
  const IMMED := 29
  const IMMED_B0 := 30
  const IMMED_B1 := 31
  const IMMED_B2 := 32
  const IMMED_B3 := 33
  const IMMED_W0 := 34
  const IMMED_W1 := 35
  const LD_FIELD := 36
  const LD_FIELD_W_CLR := 37
  const CTX_ARB := 39
  const NOP := 40

  const RELATIVE := 0
  const ABSOLUTE := 1

  const READ := 0
  const WRITE := 1

  const CTX_SWAP := 1

  const LEFT_EIGHT := 2
  const LEFT_SIXTEEN := 3

  const SHIFT_LEFT := 0

  /** The ALU operations. */
  const PLUS := 0
  const MINUS := 1
  const BACKWARDS_MINUS := 2
  const SECOND := 3
  const BIT_NOT_SECOND := 4
  const AND := 5
  const OR := 6
  const XOR := 7
  const PLUS_CARRY := 8
  const ALU_SHIFT_LEFT := 9
  const ALU_SHIFT_RIGHT := 10
  const PLUS_IF_SIGN := 11
  const PLUS_FOUR := 12
  const PLUS_EIGHT := 13
  const PLUS_SIXTEEN := 14

  datatype Reg = Reg(kind: int, number: int)

  /** One instruction; `T` is the type of a branch target: a label in assembly source, an
      instruction index once resolved. Fields are integers because the assembler accepts any
      literal and only the packing rejects those that do not fit. */
  datatype Inst<T> =
    | Immediate(opcode: int, dst: Reg, ival: int, rot: int)
    | Alu(opcode: int, dst: Reg, src1: Reg, op: int, src2: Reg, shift: int, numShift: int)
    | Memory(opcode: int, direction: int, xfer: Reg, addr1: Reg, addr2: Reg, count: int, token: int)
    | Branch(opcode: int, src1: Reg, src2: Reg, target: T)
    | Load(opcode: int, dst: Reg, mask: int, src: Reg, rot: int)
    | Fifo(opcode: int, size: Reg, addr1: Reg, addr2: Reg, token: int)
    | NoArg(opcode: int)
    | Csr(opcode: int, dst: Reg, csrNum: int)

  datatype Layout = AluL | ImmediateL | MemoryL | BranchL | LoadL | FifoL | NoneL | CsrL | UnknownL

  function LayoutOf<T>(inst: Inst<T>): Layout {
    match inst
    case Immediate(_, _, _, _) => ImmediateL
    case Alu(_, _, _, _, _, _, _) => AluL
    case Memory(_, _, _, _, _, _, _) => MemoryL
    case Branch(_, _, _, _) => BranchL
    case Load(_, _, _, _, _) => LoadL
    case Fifo(_, _, _, _, _) => FifoL
    case NoArg(_) => NoneL
    case Csr(_, _, _) => CsrL
  }

  /** How `interpret_instruction` chooses the union member to read. */
  function Dispatch(opcode: int): Layout {
    if ALU <= opcode <= DBL_SHF then AluL
    else if IMMED <= opcode <= IMMED_W1 then ImmediateL
    else if opcode == SCRATCH || opcode == RAM then MemoryL
    else if BR <= opcode <= BR_NOT_SIGNAL then BranchL
    else if opcode == LD_FIELD || opcode == LD_FIELD_W_CLR then LoadL
    else if opcode == T_FIFO_WR || opcode == R_FIFO_RD || opcode == RX_PKT then FifoL
    else if opcode == NOP || opcode == CTX_ARB then NoneL
    else if opcode == CSR then CsrL
    else UnknownL
  }

  /** Widths of the packed bitfields, in declaration order. The compiler allocates them from the
      least significant bit of the five-byte word upwards. */
  function BitfieldWidths(layout: Layout): (widths: seq<nat>) {
    match layout
    case ImmediateL => [6, 1, 8, 16, 2]
    case CsrL => [6, 1, 8, 16]
    case AluL => [6, 1, 8, 1, 8, 4, 1, 8, 1, 2]
    case MemoryL => [6, 1, 1, 8, 1, 8, 1, 8, 4, 2]
    case BranchL => [6, 1, 8, 1, 8, 12]
    case LoadL => [6, 1, 8, 4, 1, 8, 2]
    case FifoL => [6, 1, 8, 1, 8, 1, 8, 2]
    case NoneL => [6]
    case UnknownL => [6]
  }

  /** Reads consecutive bitfields of the given widths out of a word. */
  function ReadBitfields(word: nat, widths: seq<nat>): (fs: seq<nat>)
    ensures |fs| == |widths|
  {
    if widths == [] then []
    else
      LowHigh(word, Pow2(widths[0]));
      [word % Pow2(widths[0])] + ReadBitfields(word / Pow2(widths[0]), widths[1..])
  }

  function LittleEndian(bytes: seq<Byte>): nat {
    if bytes == [] then 0 else bytes[0] + 256 * LittleEndian(bytes[1..])
  }

  function FromBitfields(layout: Layout, f: seq<nat>): Inst<nat>
    requires |f| == |BitfieldWidths(layout)|
  {
    match layout
    case ImmediateL => Immediate(f[0], Reg(f[1], f[2]), f[3], f[4])
    case CsrL => Csr(f[0], Reg(f[1], f[2]), f[3])
    case AluL => Alu(f[0], Reg(f[1], f[2]), Reg(f[3], f[4]), f[5], Reg(f[6], f[7]), f[8], f[9])
    case MemoryL => Memory(f[0], f[1], Reg(f[2], f[3]), Reg(f[4], f[5]), Reg(f[6], f[7]), f[8], f[9])
    case BranchL => Branch(f[0], Reg(f[1], f[2]), Reg(f[3], f[4]), f[5])
    case LoadL => Load(f[0], Reg(f[1], f[2]), f[3], Reg(f[4], f[5]), f[6])
    case FifoL => Fifo(f[0], Reg(f[1], f[2]), Reg(f[3], f[4]), Reg(f[5], f[6]), f[7])
    case NoneL => NoArg(f[0])
    case UnknownL => NoArg(f[0])
  }

  /** The instruction a five-byte word denotes to the interpreter. */
  function Decode(word: nat): Inst<nat> {
    DecodeAs(Dispatch(word % Pow2(6)), word)
  }

  function DecodeAs(layout: Layout, word: nat): Inst<nat> {
    FromBitfields(layout, ReadBitfields(word, BitfieldWidths(layout)))
  }

  const INSTRUCTION_BYTES := 5

  /** The instruction at index `pc` of a code image. */
  function FetchInst(image: seq<Byte>, pc: nat): Inst<nat>
    requires INSTRUCTION_BYTES * (pc + 1) <= |image|
  {
    Decode(LittleEndian(image[INSTRUCTION_BYTES * pc..INSTRUCTION_BYTES * (pc + 1)]))
  }

  predicate RegFits(r: Reg) {
    0 <= r.kind < 2 && 0 <= r.number < 256
  }

  /** The field ranges of an instruction word. */
  predicate FieldsFit(inst: Inst<nat>) {
    match inst
    case Immediate(opcode, dst, ival, rot) => RegFits(dst) && 0 <= ival < 0x1_0000 && 0 <= rot < 4
    case Alu(opcode, dst, src1, op, src2, shift, numShift) =>
      RegFits(dst) && RegFits(src1) && RegFits(src2) && 0 <= op < 16 && 0 <= shift < 2 && 0 <= numShift < 4
    case Memory(opcode, direction, xfer, addr1, addr2, count, token) =>
      RegFits(xfer) && RegFits(addr1) && RegFits(addr2) && 0 <= direction < 2 && 0 <= count < 16 && 0 <= token < 4
    case Branch(opcode, src1, src2, target) => RegFits(src1) && RegFits(src2) && target < 4096
    case Load(opcode, dst, mask, src, rot) => RegFits(dst) && RegFits(src) && 0 <= mask < 16 && 0 <= rot < 4
    case Fifo(opcode, size, addr1, addr2, token) =>
      RegFits(size) && RegFits(addr1) && RegFits(addr2) && 0 <= token < 4
    case NoArg(opcode) => true
    case Csr(opcode, dst, csrNum) => RegFits(dst) && 0 <= csrNum < 0x1_0000
  }

  lemma {:induction false} BitfieldBounds(word: nat, widths: seq<nat>, i: nat)
    requires i < |widths|
    ensures ReadBitfields(word, widths)[i] < Pow2(widths[i])
  {
    LowHigh(word, Pow2(widths[0]));
    if i > 0 {
      BitfieldBounds(word / Pow2(widths[0]), widths[1..], i - 1);
    }
  }

  lemma BoundedFieldsFit(layout: Layout, f: seq<nat>)
    requires |f| == |BitfieldWidths(layout)|
    requires forall i :: 0 <= i < |f| ==> f[i] < Pow2(BitfieldWidths(layout)[i])
    ensures FieldsFit(FromBitfields(layout, f))
  {
    FieldSizes();
    var w := BitfieldWidths(layout);
    match layout
    case ImmediateL => assert f[1] < Pow2(w[1]) && f[2] < Pow2(w[2]) && f[3] < Pow2(w[3]) && f[4] < Pow2(w[4]);
    case CsrL => assert f[1] < Pow2(w[1]) && f[2] < Pow2(w[2]) && f[3] < Pow2(w[3]);
    case BranchL =>
      assert f[1] < Pow2(w[1]) && f[2] < Pow2(w[2]) && f[3] < Pow2(w[3]) && f[4] < Pow2(w[4]) && f[5] < Pow2(w[5]);
    case LoadL =>
      assert f[1] < Pow2(w[1]) && f[2] < Pow2(w[2]) && f[3] < Pow2(w[3]) && f[4] < Pow2(w[4]) && f[5] < Pow2(w[5]);
      assert f[6] < Pow2(w[6]);
    case FifoL =>
      assert f[1] < Pow2(w[1]) && f[2] < Pow2(w[2]) && f[3] < Pow2(w[3]) && f[4] < Pow2(w[4]) && f[5] < Pow2(w[5]);
      assert f[6] < Pow2(w[6]) && f[7] < Pow2(w[7]);
    case AluL =>
      assert f[1] < Pow2(w[1]) && f[2] < Pow2(w[2]) && f[3] < Pow2(w[3]) && f[4] < Pow2(w[4]) && f[5] < Pow2(w[5]);
      assert f[6] < Pow2(w[6]) && f[7] < Pow2(w[7]) && f[8] < Pow2(w[8]) && f[9] < Pow2(w[9]);
    case MemoryL =>
      assert f[1] < Pow2(w[1]) && f[2] < Pow2(w[2]) && f[3] < Pow2(w[3]) && f[4] < Pow2(w[4]) && f[5] < Pow2(w[5]);
      assert f[6] < Pow2(w[6]) && f[7] < Pow2(w[7]) && f[8] < Pow2(w[8]) && f[9] < Pow2(w[9]);
    case NoneL =>
    case UnknownL =>
  }

  lemma FieldSizes()
    ensures Pow2(1) == 2 && Pow2(2) == 4 && Pow2(4) == 16 && Pow2(8) == 256 && Pow2(12) == 4096
    ensures Pow2(16) == 0x1_0000
  {
    Pow2Bits();
    Pow2Add(8, 8);
    Pow2Add(8, 4);
  }

  /** Whatever bytes are fetched, the decoded fields are in range. */
  lemma DecodedFieldsFit(word: nat)
    ensures FieldsFit(Decode(word))
  {
    var layout := Dispatch(word % Pow2(6));
    var widths := BitfieldWidths(layout);
    forall i | 0 <= i < |widths|
      ensures ReadBitfields(word, widths)[i] < Pow2(widths[i])
    {
      BitfieldBounds(word, widths, i);
    }
    BoundedFieldsFit(layout, ReadBitfields(word, widths));
  }

  // ----------------------------------------------------------------- positions

  /** `w` bits of a word, from bit `at` upwards. */
  function Slice(word: nat, at: nat, w: nat): nat {
    LowHigh(word, Pow2(at));
    word / Pow2(at) % Pow2(w)
  }

  function WidthBefore(widths: seq<nat>, i: nat): nat
    requires i <= |widths|
  {
    if i == 0 then 0 else widths[0] + WidthBefore(widths[1..], i - 1)
  }

  lemma {:induction false} FieldIsSlice(word: nat, widths: seq<nat>, i: nat)
    requires i < |widths|
    ensures ReadBitfields(word, widths)[i] == Slice(word, WidthBefore(widths, i), widths[i])
    decreases i
  {
    LowHigh(word, Pow2(widths[0]));
    if i > 0 {
      hide Pow2;
      var rest := word / Pow2(widths[0]);
      FieldIsSlice(rest, widths[1..], i - 1);
      Pow2Add(widths[0], WidthBefore(widths[1..], i - 1));
      QuotientOfQuotient(word, Pow2(widths[0]), Pow2(WidthBefore(widths[1..], i - 1)));
    }
  }

  lemma {:induction false} WidthNext(widths: seq<nat>, i: nat)
    requires i < |widths|
    ensures WidthBefore(widths, i + 1) == WidthBefore(widths, i) + widths[i]
    decreases i
  {
    if i > 0 {
      WidthNext(widths[1..], i - 1);
    }
  }

  /** The first bit of every field. */
  function Positions(layout: Layout): (at: seq<nat>) {
    match layout
    case ImmediateL => [0, 6, 7, 15, 31]
    case CsrL => [0, 6, 7, 15]
    case AluL => [0, 6, 7, 15, 16, 24, 28, 29, 37, 38]
    case MemoryL => [0, 6, 7, 8, 16, 17, 25, 26, 34, 38]
    case BranchL => [0, 6, 7, 15, 16, 24]
    case LoadL => [0, 6, 7, 15, 19, 20, 28]
    case FifoL => [0, 6, 7, 15, 16, 24, 25, 33]
    case NoneL => [0]
    case UnknownL => [0]
  }

  lemma PositionNext(layout: Layout, i: nat)
    requires i + 1 < |BitfieldWidths(layout)|
    ensures |Positions(layout)| == |BitfieldWidths(layout)|
    ensures Positions(layout)[i + 1] == Positions(layout)[i] + BitfieldWidths(layout)[i]
  {
  }

  lemma {:induction false} PositionsAreSums(layout: Layout, i: nat)
    requires i < |BitfieldWidths(layout)|
    ensures |Positions(layout)| == |BitfieldWidths(layout)|
    ensures WidthBefore(BitfieldWidths(layout), i) == Positions(layout)[i]
  {
    if i > 0 {
      hide WidthBefore, Positions, BitfieldWidths;
      PositionsAreSums(layout, i - 1);
      WidthNext(BitfieldWidths(layout), i - 1);
      PositionNext(layout, i - 1);
    }
  }

  lemma FieldAt(layout: Layout, word: nat, i: nat)
    requires i < |BitfieldWidths(layout)|
    ensures |Positions(layout)| == |BitfieldWidths(layout)|
    ensures ReadBitfields(word, BitfieldWidths(layout))[i] ==
            Slice(word, Positions(layout)[i], BitfieldWidths(layout)[i])
  {
    hide ReadBitfields, Slice, BitfieldWidths, Positions;
    PositionsAreSums(layout, i);
    FieldIsSlice(word, BitfieldWidths(layout), i);
  }

  function RegAt(word: nat, at: nat): Reg {
    Reg(Slice(word, at, 1), Slice(word, at + 1, 8))
  }

  /** Where the interpreter finds each field, by the position of its first bit and its width. */
  lemma DecodedFields(word: nat)
    ensures var opcode := Slice(word, 0, 6);
            Decode(word) ==
            match Dispatch(opcode)
            case ImmediateL => Immediate(opcode, RegAt(word, 6), Slice(word, 15, 16), Slice(word, 31, 2))
            case CsrL => Csr(opcode, RegAt(word, 6), Slice(word, 15, 16))
            case AluL => Alu(opcode, RegAt(word, 6), RegAt(word, 15), Slice(word, 24, 4), RegAt(word, 28),
                             Slice(word, 37, 1), Slice(word, 38, 2))
            case MemoryL => Memory(opcode, Slice(word, 6, 1), RegAt(word, 7), RegAt(word, 16), RegAt(word, 25),
                                   Slice(word, 34, 4), Slice(word, 38, 2))
            case BranchL => Branch(opcode, RegAt(word, 6), RegAt(word, 15), Slice(word, 24, 12))
            case LoadL => Load(opcode, RegAt(word, 6), Slice(word, 15, 4), RegAt(word, 19), Slice(word, 28, 2))
            case FifoL => Fifo(opcode, RegAt(word, 6), RegAt(word, 15), RegAt(word, 24), Slice(word, 33, 2))
            case _ => NoArg(opcode)
  {
    var layout := Dispatch(word % Pow2(6));
    assert Slice(word, 0, 6) == word % Pow2(6);
    hide ReadBitfields, Slice, Dispatch;
    forall i | 0 <= i < |BitfieldWidths(layout)|
      ensures |Positions(layout)| == |BitfieldWidths(layout)|
      ensures ReadBitfields(word, BitfieldWidths(layout))[i] ==
              Slice(word, Positions(layout)[i], BitfieldWidths(layout)[i])
    {
      FieldAt(layout, word, i);
    }
  }
}
