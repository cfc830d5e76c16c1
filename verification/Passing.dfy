/** Passing arguments according to a plan: a caller that puts each argument where the plan says,
    and a callee whose parameter instructions read each one from there. Both calling conventions
    of the back ends are such plans. */
module Passing {
  import opened Wrappers
  import opened Word
  import opened Asm

  /** An integer or pointer, a double, or a single (kept in its slot as a double). */
  datatype Class = I | D | F

  /** Where one argument travels; stack words are counted from the stack pointer at the call. */
  datatype Place = InReg(r: Reg) | InXmm(x: nat) | InStack(k: nat)

  /** Places for all arguments; `mirrors` are integer registers that get a copy of a float. */
  datatype Plan = Plan(places: seq<Place>, mirrors: seq<Option<Reg>>)

  /** The place suits the class, and is neither a scratch register nor `h`, that of the hidden
      pointer. */
  predicate Suits(c: Class, p: Place, words: nat, h: Reg) {
    match p
    case InReg(r) => c.I? && r != Rax && r != Rsp && r != Rbp && r != h
    case InXmm(_) => !c.I?
    case InStack(k) => k < words
  }

  predicate MirrorSuits(p: Place, mirror: Option<Reg>, h: Reg) {
    mirror.Some? ==> p.InXmm? && mirror.value != Rax && mirror.value != Rsp && mirror.value != Rbp && mirror.value != h
  }

  predicate Apart(p: Place, mirror: Option<Reg>, q: Place, other: Option<Reg>) {
    p != q && (mirror.Some? ==> q != InReg(mirror.value) && other != mirror)
  }

  /** No two arguments share a place or a mirror, no mirror is a place, and xmm0, which parameter
      instructions use as scratch, holds none but the first float. */
  ghost predicate PlanOk(cs: seq<Class>, plan: Plan, words: nat, h: Reg) {
    && |plan.places| == |plan.mirrors| == |cs|
    && (forall i :: 0 <= i < |cs| ==> Suits(cs[i], plan.places[i], words, h) && MirrorSuits(plan.places[i], plan.mirrors[i], h))
    && (forall i, j :: 0 <= i < |cs| && 0 <= j < |cs| && i != j ==> Apart(plan.places[i], plan.mirrors[i], plan.places[j], plan.mirrors[j]))
    && forall i, j :: 0 <= i < j < |cs| && plan.places[j] == InXmm(0) ==> cs[i].I?
  }

  // ----- the caller -----

  function StackArg(c: Class, off: int, k: nat): seq<Instr> {
    match c
    case I => [Ld(Rax, Rbp, off), St(Rsp, 8 * k, Rax)]
    case D => [LdX(0, Rbp, off), StX(Rsp, 8 * k, 0)]
    case F => [LdX(0, Rbp, off), Sd2Ss(0), StX(Rsp, 8 * k, 0)]
  }

  function RegArg(c: Class, off: int, p: Place): seq<Instr> {
    match p
    case InReg(r) => [Ld(r, Rbp, off)]
    case InXmm(x) => if c.F? then [LdX(x, Rbp, off), Sd2Ss(x)] else [LdX(x, Rbp, off)]
    case _ => []
  }

  function MirrorCode(p: Place, mirror: Option<Reg>): seq<Instr> {
    if mirror.Some? && p.InXmm? then [MovQ(mirror.value, p.x)] else []
  }

  /** First pass: the arguments that go to the stack, from `i` on. */
  function StackPass(cs: seq<Class>, plan: Plan, offs: seq<int>, i: nat): seq<Instr>
    requires i <= |cs| == |offs| == |plan.places|
    decreases |cs| - i
  {
    if i == |cs| then []
    else
      (if plan.places[i].InStack? then StackArg(cs[i], offs[i], plan.places[i].k) else []) + StackPass(cs, plan, offs, i + 1)
  }

  /** Second pass: the arguments that go to registers. */
  function RegPass(cs: seq<Class>, plan: Plan, offs: seq<int>, i: nat): seq<Instr>
    requires i <= |cs| == |offs| == |plan.places| == |plan.mirrors|
    decreases |cs| - i
  {
    if i == |cs| then []
    else
      RegArg(cs[i], offs[i], plan.places[i]) + MirrorCode(plan.places[i], plan.mirrors[i]) + RegPass(cs, plan, offs, i + 1)
  }

  function Room(bytes: nat): seq<Instr> {
    if bytes > 0 then [SubSp(bytes)] else []
  }

  /** ST_emit_call_args: argument i is taken from rbp + offs[i]. */
  function PassAll(cs: seq<Class>, plan: Plan, offs: seq<int>, bytes: nat): seq<Instr>
    requires |cs| == |offs| == |plan.places| == |plan.mirrors|
  {
    Room(bytes) + StackPass(cs, plan, offs, 0) + RegPass(cs, plan, offs, 0)
  }

  // ----- the callee -----

  function SlotOffset(id: nat): int {
    -8 * (id + 1)
  }

  /** How ST_IR_PARAM reads its place. */
  function Fetch(c: Class, p: Place): Instr {
    match p
    case InReg(r) => if c.I? then Mov(Rax, r) else Ud2
    case InXmm(x) => if c.I? then Ud2 else if c.D? then MovX(0, x) else MovSs(0, x)
    case InStack(k) => if c.I? then Ld(Rax, Rbp, 16 + 8 * k) else if c.D? then LdX(0, Rbp, 16 + 8 * k) else LdSs(0, Rbp, 16 + 8 * k)
  }

  /** ST_IR_PARAM, and its spill. */
  function ParamCode(c: Class, p: Place, id: nat): seq<Instr> {
    match c
    case I => [Fetch(c, p), St(Rbp, SlotOffset(id), Rax)]
    case D => [Fetch(c, p), StX(Rbp, SlotOffset(id), 0)]
    case F => [Fetch(c, p), Ss2Sd(0), StX(Rbp, SlotOffset(id), 0)]
  }

  function ParamsCode(cs: seq<Class>, places: seq<Place>, ids: seq<nat>, i: nat): seq<Instr>
    requires i <= |cs| == |ids| == |places|
    decreases |cs| - i
  {
    if i == |cs| then [] else ParamCode(cs[i], places[i], ids[i]) + ParamsCode(cs, places, ids, i + 1)
  }

  // ----- what is passed -----

  function Held(m: Cpu, p: Place, sp: int): Word64 {
    match p
    case InReg(r) => m.Get(r)
    case InXmm(x) => m.GetX(x)
    case InStack(k) => m.At(sp + 8 * k)
  }

  /** The word `u` carries argument word `w`: a single travels in the low half. */
  predicate Carries(c: Class, u: int, w: int, fp: Fp) {
    if c.F? then Low32(u) == Low32(fp.narrow(w)) else u == w
  }

  /** What the callee keeps of argument word `w`. */
  function Received(c: Class, w: int, fp: Fp): int {
    if c.F? then U(fp.widen(Low32(fp.narrow(w)))) else w
  }

  // ----- single instructions -----

  lemma ExecNil(m: Cpu)
    ensures ExecAll([], m) == Some(m)
  {
  }

  lemma Run1(i: Instr, m: Cpu)
    ensures ExecAll([i], m) == Exec(i, m)
  {
    match Exec(i, m)
    case None =>
    case Some(m') => assert ExecAll([], m') == Exec(i, m);
  }

  lemma Run2(i: Instr, j: Instr, m: Cpu)
    requires Exec(i, m).Some?
    ensures ExecAll([i, j], m) == Exec(j, Exec(i, m).value)
  {
    Run1(j, Exec(i, m).value);
    assert [i, j][1..] == [j];
  }

  lemma Run3(i: Instr, j: Instr, k: Instr, m: Cpu)
    requires Exec(i, m).Some? && Exec(j, Exec(i, m).value).Some?
    ensures ExecAll([i, j, k], m) == Exec(k, Exec(j, Exec(i, m).value).value)
  {
    Run2(j, k, Exec(i, m).value);
    assert [i, j, k][1..] == [j, k];
  }

  /** Only register `r` changes, to `u`. */
  ghost predicate RegSet(m: Cpu, m': Cpu, r: Reg, u: int) {
    && m'.Get(r) == u && (forall q :: q != r ==> m'.Get(q) == m.Get(q))
    && m'.xmm == m.xmm && m'.mem == m.mem && m'.fp == m.fp
  }

  ghost predicate XmmSet(m: Cpu, m': Cpu, x: nat, u: int) {
    && m'.GetX(x) == u && (forall y :: y != x ==> m'.GetX(y) == m.GetX(y))
    && m'.regs == m.regs && m'.mem == m.mem && m'.fp == m.fp
  }

  ghost predicate WordSet(m: Cpu, m': Cpu, a: int, u: int) {
    && m'.At(a) == u && (forall b :: b != a ==> m'.At(b) == m.At(b))
    && m'.regs == m.regs && m'.xmm == m.xmm && m'.fp == m.fp
  }

  lemma LowReplaced(u: Word64, x: int)
    ensures 0 <= u - Low32(u) + Low32(x) < W
    ensures Low32(u - Low32(u) + Low32(x)) == Low32(x)
  {
    assert IsWord(u);
    var q := u / 0x1_0000_0000;
    assert u - Low32(u) == q * 0x1_0000_0000;
    ModShift(Low32(x), q, 0x1_0000_0000);
  }

  lemma SetReg(m: Cpu, r: Reg, u: Word64)
    ensures RegSet(m, m.Set(r, u), r, u)
  {
    hide U;
    UOfWord(u);
  }

  lemma SetXmm(m: Cpu, x: nat, u: Word64)
    ensures XmmSet(m, m.SetX(x, u), x, u)
  {
    hide U;
    UOfWord(u);
  }

  lemma PutWord(m: Cpu, a: int, u: Word64)
    ensures WordSet(m, m.Put(a, u), a, u)
  {
    hide U;
    UOfWord(u);
  }

  /** Conversions to and from single precision. */
  lemma LowMove(m: Cpu, x: nat, u: int)
    ensures XmmSet(m, SetLow(m, x, u), x, SetLow(m, x, u).GetX(x))
    ensures Low32(SetLow(m, x, u).GetX(x)) == Low32(u)
  {
    hide U, Low32;
    LowReplaced(m.GetX(x), u);
    SetXmm(m, x, m.GetX(x) - Low32(m.GetX(x)) + Low32(u));
  }

  lemma LowIsWord(u: int)
    ensures U(Low32(u)) == Low32(u) && Low32(Low32(u)) == Low32(u)
  {
  }

  lemma LdDone(m: Cpu, r: Reg, q: Reg, off: int)
    ensures Exec(Ld(r, q, off), m).Some? && RegSet(m, Exec(Ld(r, q, off), m).value, r, m.At(m.Get(q) + off))
  {
    SetReg(m, r, m.At(m.Get(q) + off));
  }

  lemma MovDone(m: Cpu, r: Reg, q: Reg)
    ensures Exec(Mov(r, q), m).Some? && RegSet(m, Exec(Mov(r, q), m).value, r, m.Get(q))
  {
    SetReg(m, r, m.Get(q));
  }

  lemma MovQDone(m: Cpu, r: Reg, x: nat)
    ensures Exec(MovQ(r, x), m).Some? && RegSet(m, Exec(MovQ(r, x), m).value, r, m.GetX(x))
  {
    SetReg(m, r, m.GetX(x));
  }

  lemma StDone(m: Cpu, q: Reg, off: int, r: Reg)
    ensures Exec(St(q, off, r), m).Some? && WordSet(m, Exec(St(q, off, r), m).value, m.Get(q) + off, m.Get(r))
  {
    PutWord(m, m.Get(q) + off, m.Get(r));
  }

  lemma LdXDone(m: Cpu, x: nat, q: Reg, off: int)
    ensures Exec(LdX(x, q, off), m).Some? && XmmSet(m, Exec(LdX(x, q, off), m).value, x, m.At(m.Get(q) + off))
  {
    SetXmm(m, x, m.At(m.Get(q) + off));
  }

  lemma MovXDone(m: Cpu, x: nat, y: nat)
    ensures Exec(MovX(x, y), m).Some? && XmmSet(m, Exec(MovX(x, y), m).value, x, m.GetX(y))
  {
    SetXmm(m, x, m.GetX(y));
  }

  lemma StXDone(m: Cpu, q: Reg, off: int, x: nat)
    ensures Exec(StX(q, off, x), m).Some? && WordSet(m, Exec(StX(q, off, x), m).value, m.Get(q) + off, m.GetX(x))
  {
    PutWord(m, m.Get(q) + off, m.GetX(x));
  }

  /** Register `x` holds a word with the low half of `u`, and nothing else has changed. */
  ghost predicate LowSet(m: Cpu, m': Cpu, x: nat, u: int) {
    XmmSet(m, m', x, m'.GetX(x)) && Low32(m'.GetX(x)) == Low32(u)
  }

  lemma NarrowDone(m: Cpu, x: nat)
    ensures Exec(Sd2Ss(x), m).Some? && LowSet(m, Exec(Sd2Ss(x), m).value, x, m.fp.narrow(m.GetX(x)))
  {
    LowMove(m, x, m.fp.narrow(m.GetX(x)));
  }

  lemma MovSsDone(m: Cpu, x: nat, y: nat)
    ensures Exec(MovSs(x, y), m).Some? && LowSet(m, Exec(MovSs(x, y), m).value, x, m.GetX(y))
  {
    LowMove(m, x, m.GetX(y));
  }

  lemma LdSsDone(m: Cpu, x: nat, q: Reg, off: int)
    ensures Exec(LdSs(x, q, off), m).Some? && LowSet(m, Exec(LdSs(x, q, off), m).value, x, m.At(m.Get(q) + off))
  {
    LowIsWord(m.At(m.Get(q) + off));
    SetXmm(m, x, Low32(m.At(m.Get(q) + off)));
  }

  lemma WidenDone(m: Cpu, x: nat)
    ensures Exec(Ss2Sd(x), m).Some? && XmmSet(m, Exec(Ss2Sd(x), m).value, x, U(m.fp.widen(Low32(m.GetX(x)))))
  {
    hide Low32;
    SetXmm(m, x, U(m.fp.widen(Low32(m.GetX(x)))));
    assert m.SetX(x, U(m.fp.widen(Low32(m.GetX(x))))) == m.SetX(x, m.fp.widen(Low32(m.GetX(x))));
  }

  // ----- the caller's passes -----

  /** One stack argument. */
  ghost predicate StackArgDone(c: Class, off: int, k: nat, m: Cpu, m': Cpu) {
    var a := m.Get(Rsp) + 8 * k;
    && m'.fp == m.fp && (forall r :: r != Rax ==> m'.Get(r) == m.Get(r))
    && Carries(c, m'.At(a), m.At(m.Get(Rbp) + off), m.fp)
    && forall b :: b != a ==> m'.At(b) == m.At(b)
  }

  lemma StackArgRight(c: Class, off: int, k: nat, m: Cpu)
    ensures ExecAll(StackArg(c, off, k), m).Some?
    ensures StackArgDone(c, off, k, m, ExecAll(StackArg(c, off, k), m).value)
  {
    hide U, Low32, Exec, ExecAll;
    match c
    case I =>
      LdDone(m, Rax, Rbp, off);
      var m1 := Exec(Ld(Rax, Rbp, off), m).value;
      StDone(m1, Rsp, 8 * k, Rax);
      Run2(Ld(Rax, Rbp, off), St(Rsp, 8 * k, Rax), m);
    case D =>
      LdXDone(m, 0, Rbp, off);
      var m1 := Exec(LdX(0, Rbp, off), m).value;
      StXDone(m1, Rsp, 8 * k, 0);
      Run2(LdX(0, Rbp, off), StX(Rsp, 8 * k, 0), m);
    case F =>
      LdXDone(m, 0, Rbp, off);
      var m1 := Exec(LdX(0, Rbp, off), m).value;
      NarrowDone(m1, 0);
      var m2 := Exec(Sd2Ss(0), m1).value;
      StXDone(m2, Rsp, 8 * k, 0);
      Run3(LdX(0, Rbp, off), Sd2Ss(0), StX(Rsp, 8 * k, 0), m);
  }

  /** The stack argument `k`, if it is one of those from `i` on, is in its word. */
  ghost predicate StackCarries(cs: seq<Class>, plan: Plan, offs: seq<int>, i: nat, m: Cpu, m': Cpu, k: nat)
    requires |cs| == |offs| == |plan.places|
  {
    i <= k < |cs| && plan.places[k].InStack? ==>
      Carries(cs[k], m'.At(m.Get(Rsp) + 8 * plan.places[k].k), m.At(m.Get(Rbp) + offs[k]), m.fp)
  }

  /** The word of an argument before `i` stays. */
  ghost predicate StackKept(plan: Plan, i: nat, m: Cpu, m': Cpu, k: nat) {
    k < i && k < |plan.places| && plan.places[k].InStack? ==>
      m'.At(m.Get(Rsp) + 8 * plan.places[k].k) == m.At(m.Get(Rsp) + 8 * plan.places[k].k)
  }

  ghost predicate StackPassed(cs: seq<Class>, plan: Plan, offs: seq<int>, i: nat, bytes: nat, m: Cpu, m': Cpu)
    requires i <= |cs| == |offs| == |plan.places|
  {
    && m'.fp == m.fp && (forall r :: r != Rax ==> m'.Get(r) == m.Get(r))
    && (forall b :: b < m.Get(Rsp) || b >= m.Get(Rsp) + bytes ==> m'.At(b) == m.At(b))
    && (forall k: nat :: StackCarries(cs, plan, offs, i, m, m', k))
    && forall k: nat :: StackKept(plan, i, m, m', k)
  }

  /** The arguments lie above the words that the stack arguments go to. */
  ghost predicate SlotsAbove(offs: seq<int>, m: Cpu, top: int) {
    forall k :: 0 <= k < |offs| ==> m.Get(Rbp) + offs[k] >= top
  }

  /** What the passes need of the plan. */
  ghost predicate Fits(cs: seq<Class>, plan: Plan, offs: seq<int>, words: nat, bytes: nat, h: Reg) {
    PlanOk(cs, plan, words, h) && |offs| == |cs| == |plan.places| == |plan.mirrors| && 8 * words <= bytes
  }

  lemma {:induction false} StackPassRight(cs: seq<Class>, plan: Plan, offs: seq<int>, i: nat, words: nat, bytes: nat, h: Reg, m: Cpu)
    requires Fits(cs, plan, offs, words, bytes, h) && i <= |cs| && SlotsAbove(offs, m, m.Get(Rsp) + bytes)
    ensures ExecAll(StackPass(cs, plan, offs, i), m).Some?
    ensures StackPassed(cs, plan, offs, i, bytes, m, ExecAll(StackPass(cs, plan, offs, i), m).value)
    decreases |cs| - i
  {
    hide Carries, ExecAll, PlanOk;
    if i == |cs| {
      ExecNil(m);
    } else if !plan.places[i].InStack? {
      StackPassRight(cs, plan, offs, i + 1, words, bytes, h, m);
      assert StackPass(cs, plan, offs, i) == StackPass(cs, plan, offs, i + 1);
      StackPassSkip(cs, plan, offs, i, bytes, m, ExecAll(StackPass(cs, plan, offs, i), m).value);
    } else {
      var code := StackArg(cs[i], offs[i], plan.places[i].k);
      StackArgRight(cs[i], offs[i], plan.places[i].k, m);
      var m1 := ExecAll(code, m).value;
      StackPassRight(cs, plan, offs, i + 1, words, bytes, h, m1);
      ExecAppend(code, StackPass(cs, plan, offs, i + 1), m);
      StackPassStep(cs, plan, offs, i, words, bytes, h, m, m1, ExecAll(StackPass(cs, plan, offs, i), m).value);
    }
  }

  lemma StackPassSkip(cs: seq<Class>, plan: Plan, offs: seq<int>, i: nat, bytes: nat, m: Cpu, m': Cpu)
    requires i < |cs| == |offs| == |plan.places| && !plan.places[i].InStack?
    requires StackPassed(cs, plan, offs, i + 1, bytes, m, m')
    ensures StackPassed(cs, plan, offs, i, bytes, m, m')
  {
    hide Carries;
    forall k: nat
      ensures StackCarries(cs, plan, offs, i, m, m', k) && StackKept(plan, i, m, m', k)
    {
      assert StackCarries(cs, plan, offs, i + 1, m, m', k) && StackKept(plan, i + 1, m, m', k);
    }
  }

  lemma StackPassStep(cs: seq<Class>, plan: Plan, offs: seq<int>, i: nat, words: nat, bytes: nat, h: Reg, m: Cpu, m1: Cpu, m': Cpu)
    requires Fits(cs, plan, offs, words, bytes, h) && i < |cs| && SlotsAbove(offs, m, m.Get(Rsp) + bytes)
    requires plan.places[i].InStack? && StackArgDone(cs[i], offs[i], plan.places[i].k, m, m1)
    requires StackPassed(cs, plan, offs, i + 1, bytes, m1, m')
    ensures StackPassed(cs, plan, offs, i, bytes, m, m')
  {
    hide Carries;
    assert Suits(cs[i], plan.places[i], words, h);
    forall k: nat
      ensures StackCarries(cs, plan, offs, i, m, m', k) && StackKept(plan, i, m, m', k)
    {
      StackArgKept(cs, plan, offs, i, words, bytes, h, m, m1, m', k);
    }
  }

  lemma StackArgKept(cs: seq<Class>, plan: Plan, offs: seq<int>, i: nat, words: nat, bytes: nat, h: Reg,
                     m: Cpu, m1: Cpu, m': Cpu, k: nat)
    requires Fits(cs, plan, offs, words, bytes, h) && i < |cs| && SlotsAbove(offs, m, m.Get(Rsp) + bytes)
    requires plan.places[i].InStack? && plan.places[i].k < words && StackArgDone(cs[i], offs[i], plan.places[i].k, m, m1)
    requires StackPassed(cs, plan, offs, i + 1, bytes, m1, m')
    ensures StackCarries(cs, plan, offs, i, m, m', k) && StackKept(plan, i, m, m', k)
  {
    hide Carries, Suits;
    assert StackCarries(cs, plan, offs, i + 1, m1, m', k) && StackKept(plan, i + 1, m1, m', k);
    assert StackKept(plan, i + 1, m1, m', i);
    if k < |cs| && k != i {
      assert Apart(plan.places[i], plan.mirrors[i], plan.places[k], plan.mirrors[k]);
      assert m1.At(m.Get(Rbp) + offs[k]) == m.At(m.Get(Rbp) + offs[k]);
    }
  }

  /** One register argument, and its mirror. */
  ghost predicate RegArgDone(c: Class, off: int, p: Place, m: Cpu, m': Cpu) {
    && m'.fp == m.fp && m'.mem == m.mem
    && Carries(c, Held(m', p, 0), m.At(m.Get(Rbp) + off), m.fp)
    && (forall r :: p != InReg(r) ==> m'.Get(r) == m.Get(r))
    && forall x: nat :: p != InXmm(x) ==> m'.GetX(x) == m.GetX(x)
  }

  lemma RegArgRight(c: Class, off: int, p: Place, m: Cpu)
    requires !p.InStack? && (p.InReg? <==> c.I?)
    ensures ExecAll(RegArg(c, off, p), m).Some?
    ensures RegArgDone(c, off, p, m, ExecAll(RegArg(c, off, p), m).value)
  {
    hide U, Low32, Exec, ExecAll;
    match p
    case InReg(r) =>
      LdDone(m, r, Rbp, off);
      Run1(Ld(r, Rbp, off), m);
    case InXmm(x) =>
      LdXDone(m, x, Rbp, off);
      var m1 := Exec(LdX(x, Rbp, off), m).value;
      if c.F? {
        NarrowDone(m1, x);
        Run2(LdX(x, Rbp, off), Sd2Ss(x), m);
      } else {
        Run1(LdX(x, Rbp, off), m);
      }
  }

  /** The integer register beside a float holds the same word. */
  predicate Mirrored(p: Place, mirror: Option<Reg>, m: Cpu) {
    p.InXmm? && mirror.Some? ==> m.Get(mirror.value) == m.GetX(p.x)
  }

  ghost predicate MirrorDone(p: Place, mirror: Option<Reg>, m: Cpu, m': Cpu) {
    && m'.fp == m.fp && m'.mem == m.mem && m'.xmm == m.xmm && Mirrored(p, mirror, m')
    && forall r :: mirror != Some(r) ==> m'.Get(r) == m.Get(r)
  }

  lemma MirrorRight(p: Place, mirror: Option<Reg>, m: Cpu)
    ensures ExecAll(MirrorCode(p, mirror), m).Some?
    ensures MirrorDone(p, mirror, m, ExecAll(MirrorCode(p, mirror), m).value)
  {
    hide Exec;
    if mirror.Some? && p.InXmm? {
      MovQDone(m, mirror.value, p.x);
      Run1(MovQ(mirror.value, p.x), m);
    } else {
      ExecNil(m);
    }
  }

  ghost predicate RegCarries(cs: seq<Class>, plan: Plan, offs: seq<int>, i: nat, m: Cpu, m': Cpu, k: nat)
    requires |cs| == |offs| == |plan.places| == |plan.mirrors|
  {
    i <= k < |cs| && !plan.places[k].InStack? ==>
      && Carries(cs[k], Held(m', plan.places[k], 0), m.At(m.Get(Rbp) + offs[k]), m.fp)
      && Mirrored(plan.places[k], plan.mirrors[k], m')
  }

  /** A register that holds one of the first `i` arguments keeps it, and so does its mirror. */
  ghost predicate RegKept(plan: Plan, i: nat, m: Cpu, m': Cpu, k: nat)
    requires |plan.places| == |plan.mirrors|
  {
    k < i && k < |plan.places| && !plan.places[k].InStack? ==>
      && Held(m', plan.places[k], 0) == Held(m, plan.places[k], 0)
      && (plan.mirrors[k].Some? ==> m'.Get(plan.mirrors[k].value) == m.Get(plan.mirrors[k].value))
  }

  ghost predicate RegPassed(cs: seq<Class>, plan: Plan, offs: seq<int>, i: nat, h: Reg, m: Cpu, m': Cpu)
    requires i <= |cs| == |offs| == |plan.places| == |plan.mirrors|
  {
    && m'.fp == m.fp && m'.mem == m.mem && m'.Get(Rsp) == m.Get(Rsp) && m'.Get(Rbp) == m.Get(Rbp) && m'.Get(h) == m.Get(h)
    && (forall k: nat :: RegCarries(cs, plan, offs, i, m, m', k))
    && forall k: nat :: RegKept(plan, i, m, m', k)
  }

  lemma {:induction false} RegPassRight(cs: seq<Class>, plan: Plan, offs: seq<int>, i: nat, words: nat, bytes: nat, h: Reg, m: Cpu)
    requires Fits(cs, plan, offs, words, bytes, h) && i <= |cs|
    ensures ExecAll(RegPass(cs, plan, offs, i), m).Some?
    ensures RegPassed(cs, plan, offs, i, h, m, ExecAll(RegPass(cs, plan, offs, i), m).value)
    decreases |cs| - i
  {
    hide Carries, ExecAll, Suits;
    if i == |cs| {
      ExecNil(m);
    } else {
      var p, mirror := plan.places[i], plan.mirrors[i];
      var code, copy, rest := RegArg(cs[i], offs[i], p), MirrorCode(p, mirror), RegPass(cs, plan, offs, i + 1);
      if p.InStack? {
        ExecNil(m);
        assert code == [];
      } else {
        SuitsReg(cs[i], p, words, h);
        RegArgRight(cs[i], offs[i], p, m);
      }
      var m1 := ExecAll(code, m).value;
      MirrorRight(p, mirror, m1);
      var m2 := ExecAll(copy, m1).value;
      RegPassRight(cs, plan, offs, i + 1, words, bytes, h, m2);
      ExecAppend(code, copy, m);
      ExecAppend(code + copy, rest, m);
      RegPassStep(cs, plan, offs, i, words, bytes, h, m, m1, m2, ExecAll(rest, m2).value);
    }
  }

  lemma SuitsReg(c: Class, p: Place, words: nat, h: Reg)
    requires Suits(c, p, words, h) && !p.InStack?
    ensures p.InReg? <==> c.I?
  {
  }

  lemma RegPassStep(cs: seq<Class>, plan: Plan, offs: seq<int>, i: nat, words: nat, bytes: nat, h: Reg,
                    m: Cpu, m1: Cpu, m2: Cpu, m': Cpu)
    requires Fits(cs, plan, offs, words, bytes, h) && i < |cs| && RegPassed(cs, plan, offs, i + 1, h, m2, m')
    requires if plan.places[i].InStack? then m1 == m else RegArgDone(cs[i], offs[i], plan.places[i], m, m1)
    requires MirrorDone(plan.places[i], plan.mirrors[i], m1, m2)
    ensures RegPassed(cs, plan, offs, i, h, m, m')
  {
    hide Carries;
    assert Suits(cs[i], plan.places[i], words, h) && MirrorSuits(plan.places[i], plan.mirrors[i], h);
    forall k: nat
      ensures RegCarries(cs, plan, offs, i, m, m', k) && RegKept(plan, i, m, m', k)
    {
      RegArgKept(cs, plan, offs, i, words, bytes, h, m, m1, m2, m', k);
    }
  }

  lemma RegArgKept(cs: seq<Class>, plan: Plan, offs: seq<int>, i: nat, words: nat, bytes: nat, h: Reg,
                   m: Cpu, m1: Cpu, m2: Cpu, m': Cpu, k: nat)
    requires Fits(cs, plan, offs, words, bytes, h) && i < |cs| && RegPassed(cs, plan, offs, i + 1, h, m2, m')
    requires if plan.places[i].InStack? then m1 == m else RegArgDone(cs[i], offs[i], plan.places[i], m, m1)
    requires MirrorDone(plan.places[i], plan.mirrors[i], m1, m2)
    requires Suits(cs[i], plan.places[i], words, h) && MirrorSuits(plan.places[i], plan.mirrors[i], h)
    ensures RegCarries(cs, plan, offs, i, m, m', k) && RegKept(plan, i, m, m', k)
  {
    hide Carries;
    assert m2.Get(Rbp) == m.Get(Rbp) && m2.mem == m.mem;
    assert RegCarries(cs, plan, offs, i + 1, m2, m', k) && RegKept(plan, i + 1, m2, m', k);
    if k < |cs| && k != i {
      assert Apart(plan.places[i], plan.mirrors[i], plan.places[k], plan.mirrors[k]);
    }
  }

  /** Argument `k` is in its place, seen from the stack pointer `sp`, and in its mirror. */
  ghost predicate ArgCarries(cs: seq<Class>, plan: Plan, offs: seq<int>, m: Cpu, m': Cpu, sp: int, k: nat)
    requires |cs| == |offs| == |plan.places| == |plan.mirrors|
  {
    k < |cs| ==>
      && Carries(cs[k], Held(m', plan.places[k], sp), m.At(m.Get(Rbp) + offs[k]), m.fp)
      && Mirrored(plan.places[k], plan.mirrors[k], m')
  }

  /** Between `m` and `m'` the arguments were passed, and the caller's frame is as before. */
  ghost predicate Passed(cs: seq<Class>, plan: Plan, offs: seq<int>, bytes: nat, h: Reg, m: Cpu, m': Cpu)
    requires |cs| == |offs| == |plan.places| == |plan.mirrors|
  {
    && m'.Get(Rsp) == m.Get(Rsp) - bytes && m'.Get(Rbp) == m.Get(Rbp) && m'.fp == m.fp
    && (h != Rax && h != Rsp ==> m'.Get(h) == m.Get(h))
    && (forall a :: a >= m.Get(Rsp) ==> m'.At(a) == m.At(a))
    && forall k: nat :: ArgCarries(cs, plan, offs, m, m', m'.Get(Rsp), k)
  }

  lemma SubSpDone(m: Cpu, n: nat)
    requires m.Get(Rsp) >= n
    ensures Exec(SubSp(n), m).Some? && RegSet(m, Exec(SubSp(n), m).value, Rsp, m.Get(Rsp) - n)
  {
    SetReg(m, Rsp, m.Get(Rsp) - n);
  }

  lemma RoomMade(n: nat, m: Cpu)
    requires n <= m.Get(Rsp)
    ensures ExecAll(Room(n), m).Some?
    ensures RegSet(m, ExecAll(Room(n), m).value, Rsp, m.Get(Rsp) - n)
  {
    hide Exec;
    if n > 0 {
      SubSpDone(m, n);
      Run1(SubSp(n), m);
    } else {
      assert ExecAll([], m) == Some(m);
    }
  }

  lemma PassAllRight(cs: seq<Class>, plan: Plan, offs: seq<int>, words: nat, bytes: nat, h: Reg, m: Cpu)
    requires Fits(cs, plan, offs, words, bytes, h) && SlotsAbove(offs, m, m.Get(Rsp)) && bytes <= m.Get(Rsp)
    ensures ExecAll(PassAll(cs, plan, offs, bytes), m).Some?
    ensures Passed(cs, plan, offs, bytes, h, m, ExecAll(PassAll(cs, plan, offs, bytes), m).value)
  {
    hide Carries, ExecAll, PlanOk;
    RoomMade(bytes, m);
    var m1 := ExecAll(Room(bytes), m).value;
    StackPassRight(cs, plan, offs, 0, words, bytes, h, m1);
    var m2 := ExecAll(StackPass(cs, plan, offs, 0), m1).value;
    RegPassRight(cs, plan, offs, 0, words, bytes, h, m2);
    ExecAppend(Room(bytes), StackPass(cs, plan, offs, 0), m);
    ExecAppend(Room(bytes) + StackPass(cs, plan, offs, 0), RegPass(cs, plan, offs, 0), m);
    PassesMeet(cs, plan, offs, bytes, h, m, m1, m2, ExecAll(RegPass(cs, plan, offs, 0), m2).value);
  }

  lemma PassesMeet(cs: seq<Class>, plan: Plan, offs: seq<int>, bytes: nat, h: Reg, m: Cpu, m1: Cpu, m2: Cpu, m3: Cpu)
    requires |cs| == |offs| == |plan.places| == |plan.mirrors| && SlotsAbove(offs, m, m.Get(Rsp)) && RegSet(m, m1, Rsp, m.Get(Rsp) - bytes)
    requires StackPassed(cs, plan, offs, 0, bytes, m1, m2) && RegPassed(cs, plan, offs, 0, h, m2, m3)
    ensures Passed(cs, plan, offs, bytes, h, m, m3)
  {
    hide Carries;
    assert forall a :: m3.At(a) == m2.At(a) && m1.At(a) == m.At(a);
    forall k: nat
      ensures ArgCarries(cs, plan, offs, m, m3, m3.Get(Rsp), k)
    {
      ArgMeets(cs, plan, offs, bytes, h, m, m1, m2, m3, k);
    }
  }

  lemma ArgMeets(cs: seq<Class>, plan: Plan, offs: seq<int>, bytes: nat, h: Reg, m: Cpu, m1: Cpu, m2: Cpu, m3: Cpu, k: nat)
    requires |cs| == |offs| == |plan.places| == |plan.mirrors| && SlotsAbove(offs, m, m.Get(Rsp)) && RegSet(m, m1, Rsp, m.Get(Rsp) - bytes)
    requires StackPassed(cs, plan, offs, 0, bytes, m1, m2) && RegPassed(cs, plan, offs, 0, h, m2, m3)
    ensures ArgCarries(cs, plan, offs, m, m3, m3.Get(Rsp), k)
  {
    hide Carries;
    assert StackCarries(cs, plan, offs, 0, m1, m2, k) && RegCarries(cs, plan, offs, 0, m2, m3, k);
    if k < |cs| {
      assert m2.At(m.Get(Rbp) + offs[k]) == m.At(m.Get(Rbp) + offs[k]);
    }
  }

  // ----- the callee's parameters -----

  /** What a parameter instruction keeps of the word `u` that it finds. */
  function Kept(c: Class, u: int, fp: Fp): int {
    if c.F? then U(fp.widen(Low32(u))) else u
  }

  predicate Fitting(c: Class, p: Place) {
    (p.InReg? ==> c.I? && p.r != Rax && p.r != Rbp && p.r != Rsp) && (p.InXmm? ==> !c.I?)
  }

  ghost predicate ParamDone(c: Class, p: Place, id: nat, m: Cpu, m': Cpu) {
    var a := m.Get(Rbp) + SlotOffset(id);
    && m'.fp == m.fp && (forall r :: r != Rax ==> m'.Get(r) == m.Get(r))
    && (forall x: nat :: x != 0 || c.I? ==> m'.GetX(x) == m.GetX(x))
    && m'.At(a) == Kept(c, Held(m, p, m.Get(Rbp) + 16), m.fp)
    && forall b :: b != a ==> m'.At(b) == m.At(b)
  }

  lemma FetchWord(p: Place, m: Cpu)
    requires Fitting(I, p)
    ensures Exec(Fetch(I, p), m).Some? && RegSet(m, Exec(Fetch(I, p), m).value, Rax, Held(m, p, m.Get(Rbp) + 16))
  {
    hide Exec;
    match p
    case InReg(r) => MovDone(m, Rax, r);
    case InStack(k) => LdDone(m, Rax, Rbp, 16 + 8 * k);
  }

  lemma FetchDouble(p: Place, m: Cpu)
    requires Fitting(D, p)
    ensures Exec(Fetch(D, p), m).Some? && XmmSet(m, Exec(Fetch(D, p), m).value, 0, Held(m, p, m.Get(Rbp) + 16))
  {
    hide Exec;
    match p
    case InXmm(x) => MovXDone(m, 0, x);
    case InStack(k) => LdXDone(m, 0, Rbp, 16 + 8 * k);
  }

  lemma FetchSingle(p: Place, m: Cpu)
    requires Fitting(F, p)
    ensures Exec(Fetch(F, p), m).Some? && LowSet(m, Exec(Fetch(F, p), m).value, 0, Held(m, p, m.Get(Rbp) + 16))
  {
    hide Exec;
    match p
    case InXmm(x) => MovSsDone(m, 0, x);
    case InStack(k) => LdSsDone(m, 0, Rbp, 16 + 8 * k);
  }

  lemma ParamRight(c: Class, p: Place, id: nat, m: Cpu)
    requires Fitting(c, p)
    ensures ExecAll(ParamCode(c, p, id), m).Some?
    ensures ParamDone(c, p, id, m, ExecAll(ParamCode(c, p, id), m).value)
  {
    hide U, Low32, Exec, ExecAll, SlotOffset;
    var code := ParamCode(c, p, id);
    if c.I? {
      FetchWord(p, m);
      StDone(Exec(code[0], m).value, Rbp, SlotOffset(id), Rax);
      Run2(code[0], code[1], m);
    } else if c.D? {
      FetchDouble(p, m);
      StXDone(Exec(code[0], m).value, Rbp, SlotOffset(id), 0);
      Run2(code[0], code[1], m);
    } else {
      FetchSingle(p, m);
      var m1 := Exec(code[0], m).value;
      WidenDone(m1, 0);
      StXDone(Exec(code[1], m1).value, Rbp, SlotOffset(id), 0);
      Run3(code[0], code[1], code[2], m);
    }
  }

  predicate Distinct(ids: seq<nat>) {
    forall i, j :: 0 <= i < j < |ids| ==> ids[i] != ids[j]
  }

  /** What reading the parameters needs of the places. */
  ghost predicate Readable(cs: seq<Class>, ps: seq<Place>) {
    && |ps| == |cs| && (forall i :: 0 <= i < |cs| ==> Fitting(cs[i], ps[i]))
    && forall i, j :: 0 <= i < j < |cs| && ps[j] == InXmm(0) ==> cs[i].I?
  }

  ghost predicate ParamKept(cs: seq<Class>, ps: seq<Place>, ids: seq<nat>, i: nat, m: Cpu, m': Cpu, k: nat)
    requires |cs| == |ids| == |ps|
  {
    i <= k < |cs| ==>
      m'.At(m.Get(Rbp) + SlotOffset(ids[k])) == Kept(cs[k], Held(m, ps[k], m.Get(Rbp) + 16), m.fp)
  }

  /** Only the slots of the parameters from `i` on are written. */
  ghost predicate OtherWord(ids: seq<nat>, i: nat, m: Cpu, m': Cpu, a: int) {
    m'.At(a) == m.At(a) || exists k :: i <= k < |ids| && a == m.Get(Rbp) + SlotOffset(ids[k])
  }

  ghost predicate ParamsKept(cs: seq<Class>, ps: seq<Place>, ids: seq<nat>, i: nat, m: Cpu, m': Cpu)
    requires |cs| == |ids| == |ps|
  {
    && m'.fp == m.fp && (forall r :: r != Rax ==> m'.Get(r) == m.Get(r))
    && (forall k: nat :: ParamKept(cs, ps, ids, i, m, m', k))
    && forall a :: OtherWord(ids, i, m, m', a)
  }

  lemma {:induction false} ParamsRight(cs: seq<Class>, ps: seq<Place>, ids: seq<nat>, i: nat, m: Cpu)
    requires i <= |cs| == |ids| && Distinct(ids) && Readable(cs, ps)
    ensures ExecAll(ParamsCode(cs, ps, ids, i), m).Some?
    ensures ParamsKept(cs, ps, ids, i, m, ExecAll(ParamsCode(cs, ps, ids, i), m).value)
    decreases |cs| - i
  {
    hide Kept, ExecAll;
    if i == |cs| {
      ExecNil(m);
      assert forall a :: OtherWord(ids, i, m, m, a);
    } else {
      var code := ParamCode(cs[i], ps[i], ids[i]);
      var rest := ParamsCode(cs, ps, ids, i + 1);
      ParamRight(cs[i], ps[i], ids[i], m);
      var m1 := ExecAll(code, m).value;
      ParamsRight(cs, ps, ids, i + 1, m1);
      ExecAppend(code, rest, m);
      ParamsStep(cs, ps, ids, i, m, m1, ExecAll(rest, m1).value);
    }
  }

  /** A later parameter is still in its place after an earlier one was fetched. */
  lemma PlaceSurvives(cs: seq<Class>, ps: seq<Place>, id: nat, i: nat, k: nat, m: Cpu, m1: Cpu)
    requires Readable(cs, ps) && i < k < |cs| && ParamDone(cs[i], ps[i], id, m, m1)
    ensures Held(m1, ps[k], m.Get(Rbp) + 16) == Held(m, ps[k], m.Get(Rbp) + 16)
  {
    hide Kept;
    assert Fitting(cs[k], ps[k]);
  }

  lemma ParamsStep(cs: seq<Class>, ps: seq<Place>, ids: seq<nat>, i: nat, m: Cpu, m1: Cpu, m': Cpu)
    requires i < |cs| == |ids| && Distinct(ids) && Readable(cs, ps)
    requires ParamDone(cs[i], ps[i], ids[i], m, m1) && ParamsKept(cs, ps, ids, i + 1, m1, m')
    ensures ParamsKept(cs, ps, ids, i, m, m')
  {
    hide Kept;
    forall k: nat
      ensures ParamKept(cs, ps, ids, i, m, m', k)
    {
      assert ParamKept(cs, ps, ids, i + 1, m1, m', k);
      if k == i {
        assert OtherWord(ids, i + 1, m1, m', m.Get(Rbp) + SlotOffset(ids[i]));
      } else if i < k < |cs| {
        PlaceSurvives(cs, ps, ids[i], i, k, m, m1);
      }
    }
    forall a
      ensures OtherWord(ids, i, m, m', a)
    {
      assert OtherWord(ids, i + 1, m1, m', a);
      assert a == m.Get(Rbp) + SlotOffset(ids[i]) || m1.At(a) == m.At(a);
    }
  }
}
