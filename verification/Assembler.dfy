/** The microcode assembler (devices/broadcooom/assembler.py) and its agreement with the
    bitfields the interpreter reads. */
module Assembler {
  import opened Words
  import opened Isa

  /** One parsed statement. An absent label is the empty string. */
  datatype Statement = Statement(name: string, inst: Inst<string>)

  datatype Error = DuplicateLabel | UndefinedTarget | FieldOutOfRange

  // ---------------------------------------------------------------- packing

  datatype Field = Field(width: nat, value: int)

  predicate Fits(f: Field) {
    0 <= f.value < Pow2(f.width)
  }

  /** The format strings of `_INSTRUCTION_TYPES`, padding included. */
  function Fields(inst: Inst<nat>): (fs: seq<Field>)
    ensures |fs| >= 1 && fs[0] == Field(6, inst.opcode)
  {
    match inst
    case Immediate(opcode, dst, ival, rot) =>
      [Field(6, opcode), Field(1, dst.kind), Field(8, dst.number), Field(16, ival), Field(2, rot), Field(7, 0)]
    case Alu(opcode, dst, src1, op, src2, shift, numShift) =>
      [Field(6, opcode), Field(1, dst.kind), Field(8, dst.number), Field(1, src1.kind), Field(8, src1.number),
       Field(4, op), Field(1, src2.kind), Field(8, src2.number), Field(1, shift), Field(2, numShift)]
    case Memory(opcode, direction, xfer, addr1, addr2, count, token) =>
      [Field(6, opcode), Field(1, direction), Field(1, xfer.kind), Field(8, xfer.number), Field(1, addr1.kind),
       Field(8, addr1.number), Field(1, addr2.kind), Field(8, addr2.number), Field(4, count), Field(2, token)]
    case Branch(opcode, src1, src2, target) =>
      [Field(6, opcode), Field(1, src1.kind), Field(8, src1.number), Field(1, src2.kind), Field(8, src2.number),
       Field(12, target), Field(4, 0)]
    case Load(opcode, dst, mask, src, rot) =>
      [Field(6, opcode), Field(1, dst.kind), Field(8, dst.number), Field(4, mask), Field(1, src.kind),
       Field(8, src.number), Field(2, rot), Field(10, 0)]
    case Fifo(opcode, size, addr1, addr2, token) =>
      [Field(6, opcode), Field(1, size.kind), Field(8, size.number), Field(1, addr1.kind), Field(8, addr1.number),
       Field(1, addr2.kind), Field(8, addr2.number), Field(2, token), Field(5, 0)]
    case NoArg(opcode) =>
      [Field(6, opcode), Field(34, 0)]
    case Csr(opcode, dst, csrNum) =>
      [Field(6, opcode), Field(1, dst.kind), Field(8, dst.number), Field(16, csrNum), Field(9, 0)]
  }

  predicate Encodable(inst: Inst<nat>) {
    forall i :: 0 <= i < |Fields(inst)| ==> Fits(Fields(inst)[i])
  }

  function TotalWidth(fs: seq<Field>): nat {
    if fs == [] then 0 else fs[0].width + TotalWidth(fs[1..])
  }

  function WidthAt(fs: seq<Field>, i: nat): nat {
    if i < |fs| then fs[i].width else 0
  }

  lemma {:induction false} WidthSuffix(fs: seq<Field>, i: nat)
    ensures TotalWidth(if i < |fs| then fs[i..] else []) ==
            WidthAt(fs, i) + TotalWidth(if i + 1 < |fs| then fs[i + 1..] else [])
  {
    if i < |fs| {
      assert fs[i..][1..] == fs[i + 1..];
    }
  }

  function SuffixWidth(fs: seq<Field>, i: nat): nat {
    TotalWidth(if i < |fs| then fs[i..] else [])
  }

  lemma SumOfWidths(fs: seq<Field>)
    requires |fs| <= 10
    ensures TotalWidth(fs) ==
            WidthAt(fs, 0) + WidthAt(fs, 1) + WidthAt(fs, 2) + WidthAt(fs, 3) + WidthAt(fs, 4) +
            WidthAt(fs, 5) + WidthAt(fs, 6) + WidthAt(fs, 7) + WidthAt(fs, 8) + WidthAt(fs, 9)
  {
    assert TotalWidth(fs) == SuffixWidth(fs, 0) by {
      assert fs[0..] == fs;
    }
    forall i: nat
      ensures SuffixWidth(fs, i) == WidthAt(fs, i) + SuffixWidth(fs, i + 1)
    {
      WidthSuffix(fs, i);
    }
    assert SuffixWidth(fs, 10) == 0;
  }

  /** Every format string describes exactly one five-byte word. */
  lemma FieldsFillWord(inst: Inst<nat>)
    ensures TotalWidth(Fields(inst)) == 8 * INSTRUCTION_BYTES
  {
    SumOfWidths(Fields(inst));
  }

  /** `w` bits of a value, least significant first. */
  function ToBits(v: nat, w: nat): (bs: seq<bool>)
    ensures |bs| == w
  {
    if w == 0 then [] else [v % 2 == 1] + ToBits(v / 2, w - 1)
  }

  function FromBits(bs: seq<bool>): nat {
    if bs == [] then 0 else (if bs[0] then 1 else 0) + 2 * FromBits(bs[1..])
  }

  /** `bitstruct.pack` with a '<' format: the fields in order, each least significant bit first. */
  function PackBits(fs: seq<Field>): (bs: seq<bool>)
    requires forall i :: 0 <= i < |fs| ==> Fits(fs[i])
    ensures |bs| == TotalWidth(fs)
  {
    if fs == [] then [] else assert Fits(fs[0]); ToBits(fs[0].value, fs[0].width) + PackBits(fs[1..])
  }

  function ByteOfMsbFirst(bs: seq<bool>): (b: nat)
    ensures b < Pow2(|bs|)
  {
    if bs == [] then 0
    else (if bs[0] then Pow2(|bs| - 1) else 0) + ByteOfMsbFirst(bs[1..])
  }

  /** Bits fill each byte from its most significant end. */
  function BytesOfBits(bs: seq<bool>): (r: seq<Byte>)
    requires |bs| % 8 == 0
    ensures |r| == |bs| / 8
  {
    if bs == [] then []
    else
      Pow2Bits();
      [ByteOfMsbFirst(bs[..8]) as Byte] + BytesOfBits(bs[8..])
  }

  /** The binary digits of a byte, most significant first. */
  function BitsMsbFirst(b: nat, w: nat): (bs: seq<bool>)
    ensures |bs| == w
  {
    if w == 0 then [] else BitsMsbFirst(b / 2, w - 1) + [b % 2 == 1]
  }

  function Reversed(bs: seq<bool>): (r: seq<bool>)
    ensures |r| == |bs|
  {
    if bs == [] then [] else Reversed(bs[1..]) + [bs[0]]
  }

  /** The byte whose binary digits are those of b in reverse. */
  function ReverseByte(b: Byte): Byte {
    Pow2Bits();
    ByteOfMsbFirst(Reversed(BitsMsbFirst(b, 8)))
  }

  function ReverseEachByte(bytes: seq<Byte>): (r: seq<Byte>)
    ensures |r| == |bytes|
  {
    seq(|bytes|, i requires 0 <= i < |bytes| => ReverseByte(bytes[i]))
  }

  function ToBinary(inst: Inst<nat>): (bytes: seq<Byte>)
    requires Encodable(inst)
    ensures |bytes| == INSTRUCTION_BYTES
  {
    FieldsFillWord(inst);
    BytesOfBits(PackBits(Fields(inst)))
  }

  // ------------------------------------------- packed bits against the bitfields

  lemma LowBit(x: nat, low: bool, rest: nat)
    requires x == (if low then 1 else 0) + 2 * rest
    ensures (x % 2 == 1) == low && x / 2 == rest
  {
  }

  lemma {:induction false} BitsRoundTrip(bs: seq<bool>)
    ensures FromBits(bs) < Pow2(|bs|)
    ensures ToBits(FromBits(bs), |bs|) == bs
  {
    if bs != [] {
      BitsRoundTrip(bs[1..]);
      LowBit(FromBits(bs), bs[0], FromBits(bs[1..]));
      assert [bs[0]] + bs[1..] == bs;
    }
  }

  lemma {:induction false} ValueRoundTrip(v: nat, w: nat)
    requires v < Pow2(w)
    ensures FromBits(ToBits(v, w)) == v
  {
    if w > 0 {
      ValueRoundTrip(v / 2, w - 1);
      assert ToBits(v, w)[1..] == ToBits(v / 2, w - 1);
    }
  }

  lemma {:induction false} FromBitsAppend(a: seq<bool>, b: seq<bool>)
    ensures FromBits(a + b) == FromBits(a) + Pow2(|a|) * FromBits(b)
  {
    if a == [] {
      assert a + b == b;
    } else {
      FromBitsAppend(a[1..], b);
      assert (a + b)[1..] == a[1..] + b;
      assert Pow2(|a|) == 2 * Pow2(|a| - 1);
      MulTwice(Pow2(|a| - 1), FromBits(b));
    }
  }

  lemma MulTwice(x: nat, y: nat)
    ensures (2 * x) * y == 2 * (x * y)
  {
  }

  lemma {:induction false} ReversedTwice(bs: seq<bool>)
    ensures Reversed(Reversed(bs)) == bs
  {
    if bs != [] {
      ReversedTwice(bs[1..]);
      ReversedSnoc(Reversed(bs[1..]), bs[0]);
    }
  }

  lemma {:induction false} ReversedSnoc(bs: seq<bool>, x: bool)
    ensures Reversed(bs + [x]) == [x] + Reversed(bs)
  {
    if bs != [] {
      ReversedSnoc(bs[1..], x);
      assert (bs + [x])[1..] == bs[1..] + [x];
    }
  }

  lemma {:induction false} DigitsAreReversedBits(b: nat, w: nat)
    ensures BitsMsbFirst(b, w) == Reversed(ToBits(b, w))
  {
    if w > 0 {
      DigitsAreReversedBits(b / 2, w - 1);
      assert ToBits(b, w)[1..] == ToBits(b / 2, w - 1);
    }
  }

  lemma {:induction false} MsbFirstIsReversed(bs: seq<bool>)
    ensures ByteOfMsbFirst(bs) == FromBits(Reversed(bs))
  {
    if bs != [] {
      MsbFirstIsReversed(bs[1..]);
      FromBitsAppend(Reversed(bs[1..]), [bs[0]]);
      assert FromBits([bs[0]]) == if bs[0] then 1 else 0;
    }
  }

  /** Packing fills a byte from the top and the assembler then mirrors it, so the first packed bit
      ends up least significant. */
  lemma MirroredByte(bs: seq<bool>)
    requires |bs| == 8
    ensures ByteOfMsbFirst(bs) < 256
    ensures ReverseByte(ByteOfMsbFirst(bs)) == FromBits(bs)
  {
    Pow2Bits();
    var b := ByteOfMsbFirst(bs);
    MsbFirstIsReversed(bs);
    BitsRoundTrip(Reversed(bs));
    DigitsAreReversedBits(b, 8);
    ReversedTwice(Reversed(bs));
    ReversedTwice(bs);
    MsbFirstIsReversed(Reversed(bs));
  }

  lemma {:induction false} ImageOfBits(bs: seq<bool>)
    requires |bs| % 8 == 0
    ensures LittleEndian(ReverseEachByte(BytesOfBits(bs))) == FromBits(bs)
  {
    if bs != [] {
      var first, rest := bs[..8], bs[8..];
      ImageOfBits(rest);
      MirroredByte(first);
      SplitFirstByte(bs);
      ReverseEachCons(ByteOfMsbFirst(first), BytesOfBits(rest));
      assert BytesOfBits(bs) == [ByteOfMsbFirst(first) as Byte] + BytesOfBits(rest);
    }
  }

  lemma SplitFirstByte(bs: seq<bool>)
    requires |bs| >= 8
    ensures FromBits(bs) == FromBits(bs[..8]) + 256 * FromBits(bs[8..])
  {
    Pow2Bits();
    FromBitsAppend(bs[..8], bs[8..]);
    assert bs[..8] + bs[8..] == bs;
  }

  lemma ReverseEachCons(b: Byte, bytes: seq<Byte>)
    ensures LittleEndian(ReverseEachByte([b] + bytes)) == ReverseByte(b) + 256 * LittleEndian(ReverseEachByte(bytes))
  {
    assert ReverseEachByte([b] + bytes)[1..] == ReverseEachByte(bytes);
  }

  function Widths(fs: seq<Field>): (ws: seq<nat>)
    ensures |ws| == |fs|
  {
    seq(|fs|, i requires 0 <= i < |fs| => fs[i].width)
  }

  function Values(fs: seq<Field>): (vs: seq<int>)
    ensures |vs| == |fs|
  {
    seq(|fs|, i requires 0 <= i < |fs| => fs[i].value)
  }

  /** Bitfields whose widths are those of the first packed fields read back exactly their values,
      whatever follows. */
  lemma ReadFirst(v: nat, w: nat, rest: nat, widths: seq<nat>)
    requires v < Pow2(w)
    ensures ReadBitfields(v + Pow2(w) * rest, [w] + widths) == [v] + ReadBitfields(rest, widths)
  {
    SplitLow(v, Pow2(w), rest);
    assert ([w] + widths)[1..] == widths;
  }

  lemma PackedFirst(fs: seq<Field>)
    requires fs != [] && forall i :: 0 <= i < |fs| ==> Fits(fs[i])
    ensures FromBits(PackBits(fs)) == fs[0].value + Pow2(fs[0].width) * FromBits(PackBits(fs[1..]))
  {
    FromBitsAppend(ToBits(fs[0].value, fs[0].width), PackBits(fs[1..]));
    ValueRoundTrip(fs[0].value, fs[0].width);
  }

  lemma TailFields(fs: seq<Field>)
    requires fs != []
    ensures Widths(fs) == [fs[0].width] + Widths(fs[1..])
    ensures Values(fs) == [fs[0].value] + Values(fs[1..])
  {
  }

  lemma {:induction false} BitfieldsReadPackedValues(fs: seq<Field>, widths: seq<nat>)
    requires forall i :: 0 <= i < |fs| ==> Fits(fs[i])
    requires widths <= Widths(fs)
    ensures ReadBitfields(FromBits(PackBits(fs)), widths) == Values(fs)[..|widths|]
  {
    if widths != [] {
      hide FromBits, PackBits, ReadBitfields, Pow2, Widths, Values;
      TailFields(fs);
      PackedFirst(fs);
      ReadFirst(fs[0].value, fs[0].width, FromBits(PackBits(fs[1..])), widths[1..]);
      assert widths == [fs[0].width] + widths[1..];
      BitfieldsReadPackedValues(fs[1..], widths[1..]);
    }
  }

  // ------------------------------------------------------- one instruction

  /** The opcodes each instruction type is used with in `_OPCODES`. */
  predicate WellTyped<T>(inst: Inst<T>) {
    match inst
    case Immediate(opcode, _, _, _) => IMMED <= opcode <= IMMED_W1
    case Alu(opcode, _, _, _, _, _, _) => ALU <= opcode <= DBL_SHF
    case Memory(opcode, _, _, _, _, _, _) => opcode == SCRATCH || opcode == RAM
    case Branch(opcode, _, _, _) => BR <= opcode <= RTN
    case Load(opcode, _, _, _, _) => opcode == LD_FIELD || opcode == LD_FIELD_W_CLR
    case Fifo(opcode, _, _, _, _) => opcode == RX_PKT || opcode == R_FIFO_RD || opcode == T_FIFO_WR
    case NoArg(opcode) => opcode == NOP || opcode == CTX_ARB
    case Csr(opcode, _, _) => opcode == CSR
  }

  /** The interpreter reads an instruction with the layout the assembler wrote it in, except RTN. */
  lemma DispatchAgrees<T>(inst: Inst<T>)
    requires WellTyped(inst)
    ensures Dispatch(inst.opcode) == LayoutOf(inst) <==> inst.opcode != RTN
  {
  }

  /** The bitfield structs and the format strings agree, padding aside. */
  lemma WidthsAgree(inst: Inst<nat>)
    ensures BitfieldWidths(LayoutOf(inst)) <= Widths(Fields(inst))
    ensures [6] <= Widths(Fields(inst))
  {
  }

  function Emitted(inst: Inst<nat>): (bytes: seq<Byte>)
    requires Encodable(inst)
    ensures |bytes| == INSTRUCTION_BYTES
  {
    ReverseEachByte(ToBinary(inst))
  }

  lemma EmittedWord(inst: Inst<nat>)
    requires Encodable(inst)
    ensures LittleEndian(Emitted(inst)) == FromBits(PackBits(Fields(inst)))
  {
    FieldsFillWord(inst);
    ImageOfBits(PackBits(Fields(inst)));
  }

  lemma FromOwnFields(inst: Inst<nat>, f: seq<nat>)
    requires BitfieldWidths(LayoutOf(inst)) <= Widths(Fields(inst))
    requires f == Values(Fields(inst))[..|BitfieldWidths(LayoutOf(inst))|]
    ensures FromBitfields(LayoutOf(inst), f) == inst
  {
  }

  lemma OpcodeOfWord(inst: Inst<nat>)
    requires Encodable(inst)
    ensures FromBits(PackBits(Fields(inst))) % Pow2(6) == inst.opcode
  {
    var word := FromBits(PackBits(Fields(inst)));
    WidthsAgree(inst);
    BitfieldsReadPackedValues(Fields(inst), [6]);
    assert ReadBitfields(word, [6])[0] == Values(Fields(inst))[0];
  }

  /** Read with its own layout, an emitted word gives back the instruction. */
  lemma OwnLayoutDecodes(inst: Inst<nat>)
    requires Encodable(inst)
    ensures DecodeAs(LayoutOf(inst), FromBits(PackBits(Fields(inst)))) == inst
  {
    var widths := BitfieldWidths(LayoutOf(inst));
    WidthsAgree(inst);
    BitfieldsReadPackedValues(Fields(inst), widths);
    FromOwnFields(inst, ReadBitfields(FromBits(PackBits(Fields(inst))), widths));
  }

  lemma UnknownLayoutDecodes(inst: Inst<nat>)
    requires Encodable(inst)
    ensures DecodeAs(UnknownL, FromBits(PackBits(Fields(inst)))) == NoArg(inst.opcode)
  {
    WidthsAgree(inst);
    BitfieldsReadPackedValues(Fields(inst), [6]);
  }

  /** What the interpreter sees in the five bytes of an assembled instruction: the instruction
      itself, unless it is RTN, whose operands are never read. */
  lemma InstructionRoundTrip(inst: Inst<nat>)
    requires WellTyped(inst) && Encodable(inst)
    ensures Decode(LittleEndian(Emitted(inst))) == if inst.opcode == RTN then NoArg(RTN) else inst
  {
    hide DecodeAs, ReadBitfields, Pow2, LittleEndian, Emitted, FromBits, PackBits, Encodable;
    EmittedWord(inst);
    OpcodeOfWord(inst);
    DispatchAgrees(inst);
    OwnLayoutDecodes(inst);
    UnknownLayoutDecodes(inst);
  }

  // --------------------------------------------------------------- programs

  predicate UniqueLabels(stmts: seq<Statement>) {
    forall i, j :: 0 <= i < j < |stmts| && stmts[i].name == stmts[j].name ==> stmts[i].name == ""
  }

  /** `d` is `inst` with its label replaced by the index of the statement that carries it. */
  predicate Denotes(stmts: seq<Statement>, inst: Inst<string>, d: Inst<nat>) {
    match inst
    case Immediate(opcode, dst, ival, rot) => d == Immediate(opcode, dst, ival, rot)
    case Alu(opcode, dst, src1, op, src2, shift, numShift) =>
      d == Alu(opcode, dst, src1, op, src2, shift, numShift)
    case Memory(opcode, direction, xfer, addr1, addr2, count, token) =>
      d == Memory(opcode, direction, xfer, addr1, addr2, count, token)
    case Branch(opcode, src1, src2, target) =>
      && d.Branch? && d.opcode == opcode && d.src1 == src1 && d.src2 == src2
      && target != "" && d.target < |stmts| && stmts[d.target].name == target
    case Load(opcode, dst, mask, src, rot) => d == Load(opcode, dst, mask, src, rot)
    case Fifo(opcode, size, addr1, addr2, token) => d == Fifo(opcode, size, addr1, addr2, token)
    case NoArg(opcode) => d == NoArg(opcode)
    case Csr(opcode, dst, csrNum) => d == Csr(opcode, dst, csrNum)
  }

  /** A source program the assembler accepts. */
  ghost predicate Assemblable(stmts: seq<Statement>) {
    && UniqueLabels(stmts)
    && forall i :: 0 <= i < |stmts| ==> DenotesEncodable(stmts, stmts[i].inst)
  }

  ghost predicate DenotesEncodable(stmts: seq<Statement>, inst: Inst<string>) {
    exists d :: Denotes(stmts, inst, d) && Encodable(d)
  }

  predicate IsLabelTable(stmts: seq<Statement>, upTo: nat, table: map<string, nat>)
    requires upTo <= |stmts|
  {
    && (forall l :: l in table ==> l != "" && table[l] < upTo && stmts[table[l]].name == l)
    && (forall i :: 0 <= i < upTo && stmts[i].name != "" ==>
          stmts[i].name in table && table[stmts[i].name] == i)
  }

  method ExtractLabels(stmts: seq<Statement>) returns (r: Result<map<string, nat>, Error>)
    ensures r.Ok? <==> UniqueLabels(stmts)
    ensures r.Ok? ==> IsLabelTable(stmts, |stmts|, r.value)
    ensures r.Err? ==> r.error == DuplicateLabel
  {
    var table: map<string, nat> := map[];
    for i := 0 to |stmts|
      invariant IsLabelTable(stmts, i, table)
      invariant UniqueLabels(stmts[..i])
    {
      var name := stmts[i].name;
      if name != "" {
        if name in table {
          assert table[name] < i && stmts[table[name]].name == stmts[i].name;
          return Err(DuplicateLabel);
        }
        table := table[name := i];
      }
    }
    assert stmts[..|stmts|] == stmts;
    return Ok(table);
  }

  /** The resolved instruction, or nothing when the target is not a label of the program. */
  function ResolveTarget(inst: Inst<string>, table: map<string, nat>): (r: Option<Inst<nat>>) {
    match inst
    case Immediate(opcode, dst, ival, rot) => Some(Immediate(opcode, dst, ival, rot))
    case Alu(opcode, dst, src1, op, src2, shift, numShift) =>
      Some(Alu(opcode, dst, src1, op, src2, shift, numShift))
    case Memory(opcode, direction, xfer, addr1, addr2, count, token) =>
      Some(Memory(opcode, direction, xfer, addr1, addr2, count, token))
    case Branch(opcode, src1, src2, target) =>
      if target in table then Some(Branch(opcode, src1, src2, table[target])) else None
    case Load(opcode, dst, mask, src, rot) => Some(Load(opcode, dst, mask, src, rot))
    case Fifo(opcode, size, addr1, addr2, token) => Some(Fifo(opcode, size, addr1, addr2, token))
    case NoArg(opcode) => Some(NoArg(opcode))
    case Csr(opcode, dst, csrNum) => Some(Csr(opcode, dst, csrNum))
  }

  /** With a complete label table, resolution finds the one instruction a statement denotes. */
  lemma ResolveIsDenote(stmts: seq<Statement>, table: map<string, nat>, inst: Inst<string>)
    requires UniqueLabels(stmts) && IsLabelTable(stmts, |stmts|, table)
    ensures forall d :: Denotes(stmts, inst, d) <==> ResolveTarget(inst, table) == Some(d)
  {
  }

  method ResolveTargets(stmts: seq<Statement>, table: map<string, nat>)
    returns (r: Result<seq<Inst<nat>>, Error>)
    requires UniqueLabels(stmts) && IsLabelTable(stmts, |stmts|, table)
    ensures r.Ok? <==> forall i :: 0 <= i < |stmts| ==> ResolveTarget(stmts[i].inst, table).Some?
    ensures r.Ok? ==> |r.value| == |stmts|
    ensures r.Ok? ==> forall i :: 0 <= i < |stmts| ==>
      ResolveTarget(stmts[i].inst, table) == Some(r.value[i]) && Denotes(stmts, stmts[i].inst, r.value[i])
    ensures r.Err? ==> r.error == UndefinedTarget
  {
    var resolved: seq<Inst<nat>> := [];
    for i := 0 to |stmts|
      invariant |resolved| == i
      invariant forall k :: 0 <= k < i ==>
        ResolveTarget(stmts[k].inst, table) == Some(resolved[k]) && Denotes(stmts, stmts[k].inst, resolved[k])
    {
      ResolveIsDenote(stmts, table, stmts[i].inst);
      var inst := ResolveTarget(stmts[i].inst, table);
      if inst == None {
        return Err(UndefinedTarget);
      }
      resolved := resolved + [inst.value];
    }
    return Ok(resolved);
  }

  method ChangeEndiannessOfEachByte(binary: seq<Byte>) returns (r: seq<Byte>)
    ensures r == ReverseEachByte(binary)
  {
    r := [];
    for i := 0 to |binary|
      invariant r == ReverseEachByte(binary[..i])
    {
      r := r + [ReverseByte(binary[i])];
      assert binary[..i + 1] == binary[..i] + [binary[i]];
    }
    assert binary[..|binary|] == binary;
  }

  /** The image is the emitted words of the instructions, in order. */
  ghost predicate HoldsWords(image: seq<Byte>, insts: seq<Inst<nat>>) {
    && |image| == INSTRUCTION_BYTES * |insts|
    && forall k :: 0 <= k < |insts| ==>
         Encodable(insts[k]) && WordAt(image, k) == Emitted(insts[k])
  }

  function WordAt(image: seq<Byte>, k: nat): seq<Byte>
    requires INSTRUCTION_BYTES * (k + 1) <= |image|
  {
    image[INSTRUCTION_BYTES * k..INSTRUCTION_BYTES * (k + 1)]
  }

  /** The emit loop: fails on the first instruction with a field that does not fit. */
  method Emit(insts: seq<Inst<nat>>) returns (r: Result<seq<Byte>, Error>)
    ensures r.Ok? <==> forall i :: 0 <= i < |insts| ==> Encodable(insts[i])
    ensures r.Ok? ==> HoldsWords(r.value, insts)
    ensures r.Err? ==> r.error == FieldOutOfRange
  {
    var image: seq<Byte> := [];
    for i := 0 to |insts|
      invariant HoldsWords(image, insts[..i])
    {
      if !Encodable(insts[i]) {
        return Err(FieldOutOfRange);
      }
      var binary := ChangeEndiannessOfEachByte(ToBinary(insts[i]));
      HoldsOneMore(image, insts[..i], insts[i]);
      assert insts[..i + 1] == insts[..i] + [insts[i]];
      image := image + binary;
    }
    assert insts[..|insts|] == insts;
    return Ok(image);
  }

  lemma HoldsOneMore(image: seq<Byte>, insts: seq<Inst<nat>>, inst: Inst<nat>)
    requires HoldsWords(image, insts) && Encodable(inst)
    ensures HoldsWords(image + Emitted(inst), insts + [inst])
  {
    var word := Emitted(inst);
    var insts' := insts + [inst];
    forall k | 0 <= k < |insts'|
      ensures Encodable(insts'[k]) && WordAt(image + word, k) == Emitted(insts'[k])
    {
      if k < |insts| {
        assert insts'[k] == insts[k];
        assert WordAt(image + word, k) == WordAt(image, k);
      } else {
        assert WordAt(image + word, k) == word;
      }
    }
  }

  /** Fetching from an image of emitted words. */
  lemma FetchEmitted(image: seq<Byte>, insts: seq<Inst<nat>>, i: nat)
    requires HoldsWords(image, insts) && i < |insts| && WellTyped(insts[i])
    ensures FetchInst(image, i) == if insts[i].opcode == RTN then NoArg(RTN) else insts[i]
  {
    InstructionRoundTrip(insts[i]);
    assert WordAt(image, i) == Emitted(insts[i]);
  }

  lemma DenotedType(stmts: seq<Statement>, inst: Inst<string>, d: Inst<nat>)
    requires WellTyped(inst) && Denotes(stmts, inst, d)
    ensures WellTyped(d) && d.opcode == inst.opcode
  {
  }

  /** Acceptance, in terms of a label table. */
  lemma AssemblableByTable(stmts: seq<Statement>, table: map<string, nat>)
    requires UniqueLabels(stmts) && IsLabelTable(stmts, |stmts|, table)
    ensures Assemblable(stmts) <==>
            forall i :: 0 <= i < |stmts| ==>
              ResolveTarget(stmts[i].inst, table).Some? && Encodable(ResolveTarget(stmts[i].inst, table).value)
  {
    forall i | 0 <= i < |stmts|
      ensures DenotesEncodable(stmts, stmts[i].inst) <==>
              ResolveTarget(stmts[i].inst, table).Some? && Encodable(ResolveTarget(stmts[i].inst, table).value)
    {
      ResolveIsDenote(stmts, table, stmts[i].inst);
      if ResolveTarget(stmts[i].inst, table).Some? {
        assert Denotes(stmts, stmts[i].inst, ResolveTarget(stmts[i].inst, table).value);
      }
    }
  }

  /** The image of a program, and what fetching from it yields. Assembly succeeds for exactly the
      assemblable programs; then word `i` is read back as statement `i` with its label replaced by
      the labelled statement's index, for every opcode but RTN. */
  method Assemble(stmts: seq<Statement>) returns (r: Result<seq<Byte>, Error>)
    requires forall i :: 0 <= i < |stmts| ==> WellTyped(stmts[i].inst)
    ensures r.Ok? <==> Assemblable(stmts)
    ensures r.Ok? ==> |r.value| == INSTRUCTION_BYTES * |stmts|
    ensures r.Ok? ==> forall i :: 0 <= i < |stmts| ==>
      if stmts[i].inst.opcode == RTN then FetchInst(r.value, i) == NoArg(RTN)
      else Denotes(stmts, stmts[i].inst, FetchInst(r.value, i))
  {
    var labels := ExtractLabels(stmts);
    if labels.Err? {
      return Err(labels.error);
    }
    AssemblableByTable(stmts, labels.value);
    var insts := ResolveTargets(stmts, labels.value);
    if insts.Err? {
      return Err(insts.error);
    }
    r := Emit(insts.value);
    if r.Ok? {
      forall i | 0 <= i < |stmts|
        ensures if stmts[i].inst.opcode == RTN then FetchInst(r.value, i) == NoArg(RTN)
                else Denotes(stmts, stmts[i].inst, FetchInst(r.value, i))
      {
        DenotedType(stmts, stmts[i].inst, insts.value[i]);
        FetchEmitted(r.value, insts.value, i);
      }
    }
  }
}
