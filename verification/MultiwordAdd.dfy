/** Additions longer than a word, chained through the carry flag of the microengine. */
module MultiwordAdd {
  import opened Words
  import opened Isa
  import opened Microengine

  function WordPower(k: nat): (r: nat)
    ensures r > 0
  {
    if k == 0 then 1 else WORD * WordPower(k - 1)
  }

  predicate AllRegsFit(rs: seq<Reg>) {
    forall i :: 0 <= i < |rs| ==> RegFits(rs[i])
  }

  /** The number held by a list of registers, lowest word first. */
  function Value(core: Core, ctx: nat, rs: seq<Reg>): (v: nat)
    requires core.Valid() && ctx < CONTEXTS && AllRegsFit(rs)
    ensures v < WordPower(|rs|)
  {
    if rs == [] then 0 else Operand(core, ctx, rs[0]) + WORD * Value(core, ctx, rs[1..])
  }

  predicate SameLengths(ds: seq<Reg>, xs: seq<Reg>, ys: seq<Reg>) {
    |ds| == |xs| == |ys| && AllRegsFit(ds) && AllRegsFit(xs) && AllRegsFit(ys)
  }

  /** No destination overwrites a later source or another destination. */
  predicate NoClobber(ctx: nat, ds: seq<Reg>, xs: seq<Reg>, ys: seq<Reg>)
    requires ctx < CONTEXTS && SameLengths(ds, xs, ys)
  {
    forall i, j :: 0 <= i < j < |ds| ==>
      var d := AbsoluteRegister(ctx, ds[i]);
      d != AbsoluteRegister(ctx, xs[j]) && d != AbsoluteRegister(ctx, ys[j]) && d != AbsoluteRegister(ctx, ds[j])
  }

  lemma NoClobberTail(ctx: nat, ds: seq<Reg>, xs: seq<Reg>, ys: seq<Reg>)
    requires ctx < CONTEXTS && SameLengths(ds, xs, ys) && ds != [] && NoClobber(ctx, ds, xs, ys)
    ensures SameLengths(ds[1..], xs[1..], ys[1..]) && NoClobber(ctx, ds[1..], xs[1..], ys[1..])
    ensures forall i :: 0 <= i < |ds[1..]| ==> AbsoluteRegister(ctx, ds[1..][i]) != AbsoluteRegister(ctx, ds[0])
  {
    forall i | 0 <= i < |ds[1..]|
      ensures AbsoluteRegister(ctx, ds[1..][i]) != AbsoluteRegister(ctx, ds[0])
    {
      assert ds[1..][i] == ds[i + 1];
    }
  }

  function Addition(op: nat, d: Reg, x: Reg, y: Reg): Inst<nat> {
    Alu(ALU, d, x, op, y, SHIFT_LEFT, 0)
  }

  /** `+` on the lowest words, `+carry` on every higher one. */
  function AddProgram(op: nat, ds: seq<Reg>, xs: seq<Reg>, ys: seq<Reg>): (code: seq<Inst<nat>>)
    requires SameLengths(ds, xs, ys)
    decreases |ds|
  {
    if ds == [] then []
    else [Addition(op, ds[0], xs[0], ys[0])] + AddProgram(PLUS_CARRY, ds[1..], xs[1..], ys[1..])
  }

  /** Executes a straight line of instructions of one context. */
  function ExecAll(core: Core, ctx: nat, code: seq<Inst<nat>>): (core': Core)
    requires core.Valid() && ctx < CONTEXTS && forall i :: 0 <= i < |code| ==> FieldsFit(code[i])
    ensures core'.Valid()
    decreases |code|
  {
    if code == [] then core else ExecAll(Exec(Advance(core, ctx), ctx, code[0]), ctx, code[1..])
  }

  lemma {:induction false} AddProgramFits(op: nat, ds: seq<Reg>, xs: seq<Reg>, ys: seq<Reg>)
    requires SameLengths(ds, xs, ys) && op < 15
    ensures forall i :: 0 <= i < |AddProgram(op, ds, xs, ys)| ==> FieldsFit(AddProgram(op, ds, xs, ys)[i])
    decreases |ds|
  {
    if ds != [] {
      AddProgramFits(PLUS_CARRY, ds[1..], xs[1..], ys[1..]);
    }
  }

  function Added(core: Core, ctx: nat, op: nat, d: Reg, x: Reg, y: Reg): (core': Core)
    requires core.Valid() && ctx < CONTEXTS && RegFits(d) && RegFits(x) && RegFits(y) && op < 15
    ensures core'.Valid()
  {
    Exec(Advance(core, ctx), ctx, Addition(op, d, x, y))
  }

  lemma AddUnfold(core: Core, ctx: nat, op: nat, ds: seq<Reg>, xs: seq<Reg>, ys: seq<Reg>)
    requires core.Valid() && ctx < CONTEXTS && SameLengths(ds, xs, ys) && ds != [] && op < 15
    ensures forall i :: 0 <= i < |AddProgram(op, ds, xs, ys)| ==> FieldsFit(AddProgram(op, ds, xs, ys)[i])
    ensures var rest := AddProgram(PLUS_CARRY, ds[1..], xs[1..], ys[1..]);
            && (forall i :: 0 <= i < |rest| ==> FieldsFit(rest[i]))
            && ExecAll(core, ctx, AddProgram(op, ds, xs, ys)) ==
               ExecAll(Added(core, ctx, op, ds[0], xs[0], ys[0]), ctx, rest)
  {
    AddProgramFits(op, ds, xs, ys);
    AddProgramFits(PLUS_CARRY, ds[1..], xs[1..], ys[1..]);
    assert AddProgram(op, ds, xs, ys)[1..] == AddProgram(PLUS_CARRY, ds[1..], xs[1..], ys[1..]);
  }

  /** One addition step: the low word, the carry out, and everything else unchanged. */
  lemma AddStep(core: Core, ctx: nat, op: nat, d: Reg, x: Reg, y: Reg)
    requires core.Valid() && ctx < CONTEXTS && RegFits(d) && RegFits(x) && RegFits(y)
    requires op == PLUS || op == PLUS_CARRY
    ensures var core' := Added(core, ctx, op, d, x, y);
            && Operand(core', ctx, d) + WORD * core'.carry ==
               Operand(core, ctx, x) + Operand(core, ctx, y) + (if op == PLUS_CARRY then core.carry else 0)
            && core'.regs == core.regs[AbsoluteRegister(ctx, d) := Operand(core', ctx, d)]
  {
  }

  lemma {:induction false} ValueFrame(core: Core, core': Core, ctx: nat, rs: seq<Reg>)
    requires core.Valid() && core'.Valid() && ctx < CONTEXTS && AllRegsFit(rs)
    requires forall i :: 0 <= i < |rs| ==> Operand(core', ctx, rs[i]) == Operand(core, ctx, rs[i])
    ensures Value(core', ctx, rs) == Value(core, ctx, rs)
  {
    if rs != [] {
      ValueFrame(core, core', ctx, rs[1..]);
    }
  }

  /** Registers other than the destinations are untouched. */
  lemma {:induction false} AddFrame(core: Core, ctx: nat, op: nat, ds: seq<Reg>, xs: seq<Reg>, ys: seq<Reg>, r: nat)
    requires core.Valid() && ctx < CONTEXTS && SameLengths(ds, xs, ys) && r < REGISTERS
    requires op == PLUS || op == PLUS_CARRY
    requires forall i :: 0 <= i < |ds| ==> AbsoluteRegister(ctx, ds[i]) != r
    ensures forall i :: 0 <= i < |AddProgram(op, ds, xs, ys)| ==> FieldsFit(AddProgram(op, ds, xs, ys)[i])
    ensures ExecAll(core, ctx, AddProgram(op, ds, xs, ys)).regs[r] == core.regs[r]
    decreases |ds|
  {
    AddProgramFits(op, ds, xs, ys);
    if ds != [] {
      AddUnfold(core, ctx, op, ds, xs, ys);
      AddStep(core, ctx, op, ds[0], xs[0], ys[0]);
      AddFrame(Added(core, ctx, op, ds[0], xs[0], ys[0]), ctx, PLUS_CARRY, ds[1..], xs[1..], ys[1..], r);
    }
  }

  /** The weight of a carry flag. */
  function CarryOut(carry: nat, weight: nat): nat {
    if carry == 0 then 0 else weight
  }

  /** Carrying out of the low word and into the rest. */
  lemma ChainWords(low: nat, carry: nat, x0: nat, y0: nat, cin: nat, rest: nat, p: nat, cout: nat, xt: nat, yt: nat)
    requires low + WORD * carry == x0 + y0 + cin
    requires rest + CarryOut(cout, p) == xt + yt + carry
    ensures (low + WORD * rest) + CarryOut(cout, WORD * p) == (x0 + WORD * xt) + (y0 + WORD * yt) + cin
  {
  }

  /** After the first step the remaining sources are as before. */
  lemma SourcesKept(core: Core, core1: Core, ctx: nat, ds: seq<Reg>, xs: seq<Reg>, ys: seq<Reg>, v: Word)
    requires core.Valid() && core1.Valid() && ctx < CONTEXTS && ds != []
    requires SameLengths(ds, xs, ys) && NoClobber(ctx, ds, xs, ys)
    requires core1.regs == core.regs[AbsoluteRegister(ctx, ds[0]) := v]
    ensures Value(core1, ctx, xs[1..]) == Value(core, ctx, xs[1..])
    ensures Value(core1, ctx, ys[1..]) == Value(core, ctx, ys[1..])
  {
    ValueFrame(core, core1, ctx, xs[1..]);
    ValueFrame(core, core1, ctx, ys[1..]);
  }

  /** The running equation: result plus carry out equals both operands plus carry in. */
  ghost predicate SumHolds(core: Core, core': Core, ctx: nat, ds: seq<Reg>, xs: seq<Reg>, ys: seq<Reg>, cin: nat) {
    && core.Valid() && core'.Valid() && ctx < CONTEXTS && SameLengths(ds, xs, ys)
    && Value(core', ctx, ds) + CarryOut(core'.carry, WordPower(|ds|)) ==
       Value(core, ctx, xs) + Value(core, ctx, ys) + cin
  }

  lemma SumStep(core: Core, core1: Core, core': Core, ctx: nat, ds: seq<Reg>, xs: seq<Reg>, ys: seq<Reg>, cin: nat)
    requires core.Valid() && core1.Valid() && ctx < CONTEXTS && ds != []
    requires SameLengths(ds, xs, ys) && NoClobber(ctx, ds, xs, ys)
    requires core1.regs == core.regs[AbsoluteRegister(ctx, ds[0]) := Operand(core1, ctx, ds[0])]
    requires Operand(core1, ctx, ds[0]) + WORD * core1.carry ==
             Operand(core, ctx, xs[0]) + Operand(core, ctx, ys[0]) + cin
    requires SumHolds(core1, core', ctx, ds[1..], xs[1..], ys[1..], core1.carry)
    requires Operand(core', ctx, ds[0]) == Operand(core1, ctx, ds[0])
    ensures SumHolds(core, core', ctx, ds, xs, ys, cin)
  {
    SourcesKept(core, core1, ctx, ds, xs, ys, Operand(core1, ctx, ds[0]));
    ChainWords(Operand(core1, ctx, ds[0]), core1.carry, Operand(core, ctx, xs[0]), Operand(core, ctx, ys[0]), cin,
               Value(core', ctx, ds[1..]), WordPower(|ds| - 1), core'.carry,
               Value(core, ctx, xs[1..]), Value(core, ctx, ys[1..]));
  }

  lemma {:induction false} AddExact(core: Core, ctx: nat, op: nat, ds: seq<Reg>, xs: seq<Reg>, ys: seq<Reg>)
    requires core.Valid() && ctx < CONTEXTS && SameLengths(ds, xs, ys) && NoClobber(ctx, ds, xs, ys)
    requires op == PLUS_CARRY || (op == PLUS && ds != [])
    ensures forall i :: 0 <= i < |AddProgram(op, ds, xs, ys)| ==> FieldsFit(AddProgram(op, ds, xs, ys)[i])
    ensures SumHolds(core, ExecAll(core, ctx, AddProgram(op, ds, xs, ys)), ctx, ds, xs, ys,
                     if op == PLUS_CARRY then core.carry else 0)
    decreases |ds|
  {
    AddProgramFits(op, ds, xs, ys);
    if ds != [] {
      var core1 := Added(core, ctx, op, ds[0], xs[0], ys[0]);
      var dt, xt, yt := ds[1..], xs[1..], ys[1..];
      AddUnfold(core, ctx, op, ds, xs, ys);
      NoClobberTail(ctx, ds, xs, ys);
      AddExact(core1, ctx, PLUS_CARRY, dt, xt, yt);
      AddFrame(core1, ctx, PLUS_CARRY, dt, xt, yt, AbsoluteRegister(ctx, ds[0]));
      var core' := ExecAll(core1, ctx, AddProgram(PLUS_CARRY, dt, xt, yt));
      AddStep(core, ctx, op, ds[0], xs[0], ys[0]);
      SumStep(core, core1, core', ctx, ds, xs, ys, if op == PLUS_CARRY then core.carry else 0);
    }
  }

  /** A k-word addition is exact: the result is the sum below 2^(32k), and the carry flag is the one
      unit of weight 2^(32k) that does not fit. */
  lemma MultiwordSum(core: Core, ctx: nat, ds: seq<Reg>, xs: seq<Reg>, ys: seq<Reg>)
    requires core.Valid() && ctx < CONTEXTS && ds != [] && SameLengths(ds, xs, ys) && NoClobber(ctx, ds, xs, ys)
    ensures forall i :: 0 <= i < |AddProgram(PLUS, ds, xs, ys)| ==> FieldsFit(AddProgram(PLUS, ds, xs, ys)[i])
    ensures var core' := ExecAll(core, ctx, AddProgram(PLUS, ds, xs, ys));
            && Value(core', ctx, ds) < WordPower(|ds|)
            && Value(core', ctx, ds) + CarryOut(core'.carry, WordPower(|ds|)) ==
               Value(core, ctx, xs) + Value(core, ctx, ys)
  {
    AddExact(core, ctx, PLUS, ds, xs, ys);
  }
}
