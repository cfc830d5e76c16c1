/** The results of a call: what the callee leaves is what the caller picks up. */
module Returns {
  import opened Wrappers
  import opened Word
  import opened Asm
  import opened Passing
  import opened Calling
  import opened Calls

  /** The first two results travel in rax and rdx, or in xmm0 and xmm1. */
  function RetPlace(c: Class, i: nat): Place {
    if c.I? then InReg(if i == 0 then Rax else Rdx) else InXmm(if i == 0 then 0 else 1)
  }

  // ----- the callee -----

  function RetStores(rs: seq<Class>, offs: seq<int>, i: nat): seq<Instr>
    requires i <= |rs| == |offs|
    decreases |rs| - i
  {
    if i == |rs| then []
    else (if rs[i].I? then [Ld(Rax, Rbp, offs[i]), St(R10, 8 * i, Rax)] else [LdX(0, Rbp, offs[i]), StX(R10, 8 * i, 0)])
         + RetStores(rs, offs, i + 1)
  }

  /** The `ret` case of ST_generate_term, up to `leave`. */
  function RetCode(rs: seq<Class>, values: nat, offs: seq<int>): seq<Instr>
    requires |rs| == |offs|
  {
    if |rs| > 2 then [Ld(R10, Rbp, HiddenOff(values))] + RetStores(rs, offs, 0) + [Mov(Rax, R10)]
    else (if |rs| >= 1 then RegArg(rs[0], offs[0], RetPlace(rs[0], 0)) else [])
         + (if |rs| >= 2 then RegArg(rs[1], offs[1], RetPlace(rs[1], 1)) else [])
  }

  // ----- the caller -----

  function KeepRet(c: Class, off: int, i: nat): seq<Instr> {
    match c
    case I => [St(Rbp, off, RetPlace(c, i).r)]
    case D => [StX(Rbp, off, RetPlace(c, i).x)]
    case F => [Ss2Sd(RetPlace(c, i).x), StX(Rbp, off, RetPlace(c, i).x)]
  }

  function Reload(c: Class, buf: int): seq<Instr> {
    if c.I? then [Ld(Rax, Rbp, buf)] else [LdX(0, Rbp, buf)]
  }

  /** What ST_generate_inst puts after the call, with the spill into the call's own slot. */
  function ReadBack(rs: seq<Class>, buf: int, slot: int): seq<Instr> {
    if |rs| == 0 then []
    else if |rs| == 1 then KeepRet(rs[0], slot, 0)
    else
      (if |rs| == 2 then KeepRet(rs[0], buf, 0) + KeepRet(rs[1], buf + 8, 1) else [])
      + Reload(rs[0], buf) + (if rs[0].I? then [St(Rbp, slot, Rax)] else [StX(Rbp, slot, 0)])
  }

  /** Where the caller finds result `i`: ST_IR_EXTRACT_OP, or the slot of a single result. */
  function ResultOff(rs: seq<Class>, buf: int, slot: int, i: nat): int {
    if |rs| >= 2 then buf + 8 * i else slot
  }

  /** What becomes of the word `w` of result `i`. */
  function Brought(rs: seq<Class>, i: nat, w: int, fp: Fp): int
    requires i < |rs|
  {
    if |rs| > 2 then w else Received(rs[i], w, fp)
  }

  // ----- storing through the hidden pointer -----

  ghost predicate Stored(rs: seq<Class>, offs: seq<int>, i: nat, m: Cpu, m': Cpu, k: nat)
    requires |rs| == |offs|
  {
    i <= k < |rs| ==> m'.At(m.Get(R10) + 8 * k) == m.At(m.Get(Rbp) + offs[k])
  }

  ghost predicate RetStored(rs: seq<Class>, offs: seq<int>, i: nat, m: Cpu, m': Cpu)
    requires |rs| == |offs|
  {
    && m'.fp == m.fp && (forall r :: r != Rax ==> m'.Get(r) == m.Get(r))
    && (forall a :: a < m.Get(R10) + 8 * i || a >= m.Get(R10) + 8 * |rs| ==> m'.At(a) == m.At(a))
    && forall k: nat :: Stored(rs, offs, i, m, m', k)
  }

  ghost predicate Below(offs: seq<int>, m: Cpu, p: int) {
    forall k :: 0 <= k < |offs| ==> m.Get(Rbp) + offs[k] < p
  }

  lemma {:induction false} RetStoresRight(rs: seq<Class>, offs: seq<int>, i: nat, m: Cpu)
    requires i <= |rs| == |offs| && Below(offs, m, m.Get(R10))
    ensures ExecAll(RetStores(rs, offs, i), m).Some?
    ensures RetStored(rs, offs, i, m, ExecAll(RetStores(rs, offs, i), m).value)
    decreases |rs| - i
  {
    hide Exec, ExecAll;
    if i == |rs| {
      ExecNil(m);
    } else {
      var code := if rs[i].I? then [Ld(Rax, Rbp, offs[i]), St(R10, 8 * i, Rax)] else [LdX(0, Rbp, offs[i]), StX(R10, 8 * i, 0)];
      RetStoreOne(rs[i], offs[i], i, m);
      var m1 := ExecAll(code, m).value;
      RetStoresRight(rs, offs, i + 1, m1);
      ExecAppend(code, RetStores(rs, offs, i + 1), m);
      RetStoresStep(rs, offs, i, m, m1, ExecAll(RetStores(rs, offs, i + 1), m1).value);
    }
  }

  ghost predicate RetStoreDone(off: int, i: nat, m: Cpu, m1: Cpu) {
    var a := m.Get(R10) + 8 * i;
    && m1.fp == m.fp && (forall r :: r != Rax ==> m1.Get(r) == m.Get(r))
    && m1.At(a) == m.At(m.Get(Rbp) + off) && forall b :: b != a ==> m1.At(b) == m.At(b)
  }

  lemma RetStoreOne(c: Class, off: int, i: nat, m: Cpu)
    ensures
      match ExecAll(if c.I? then [Ld(Rax, Rbp, off), St(R10, 8 * i, Rax)] else [LdX(0, Rbp, off), StX(R10, 8 * i, 0)], m)
      case None => false
      case Some(m1) => RetStoreDone(off, i, m, m1)
  {
    hide Exec, ExecAll;
    if c.I? {
      LdDone(m, Rax, Rbp, off);
      StDone(Exec(Ld(Rax, Rbp, off), m).value, R10, 8 * i, Rax);
      Run2(Ld(Rax, Rbp, off), St(R10, 8 * i, Rax), m);
    } else {
      LdXDone(m, 0, Rbp, off);
      StXDone(Exec(LdX(0, Rbp, off), m).value, R10, 8 * i, 0);
      Run2(LdX(0, Rbp, off), StX(R10, 8 * i, 0), m);
    }
  }

  lemma RetStoresStep(rs: seq<Class>, offs: seq<int>, i: nat, m: Cpu, m1: Cpu, m': Cpu)
    requires i < |rs| == |offs| && Below(offs, m, m.Get(R10))
    requires RetStoreDone(offs[i], i, m, m1) && RetStored(rs, offs, i + 1, m1, m')
    ensures RetStored(rs, offs, i, m, m')
  {
    forall k: nat
      ensures Stored(rs, offs, i, m, m', k)
    {
      assert Stored(rs, offs, i + 1, m1, m', k);
      if i < k < |rs| {
        assert m1.At(m.Get(Rbp) + offs[k]) == m.At(m.Get(Rbp) + offs[k]);
      }
    }
  }

  // ----- what the callee leaves -----

  ghost predicate InRegisters(rs: seq<Class>, offs: seq<int>, m: Cpu, m': Cpu, k: nat)
    requires |rs| == |offs|
  {
    k < |rs| <= 2 ==> Carries(rs[k], Held(m', RetPlace(rs[k], k), 0), m.At(m.Get(Rbp) + offs[k]), m.fp)
  }

  /** The hidden pointer is at `p`. */
  ghost predicate Left(rs: seq<Class>, offs: seq<int>, p: int, m: Cpu, m': Cpu)
    requires |rs| == |offs|
  {
    && m'.Get(Rbp) == m.Get(Rbp) && m'.fp == m.fp
    && (forall a :: |rs| <= 2 || a < p || a >= p + 8 * |rs| ==> m'.At(a) == m.At(a))
    && (forall k: nat :: InRegisters(rs, offs, m, m', k))
    && (|rs| > 2 ==> m'.Get(Rax) == p && forall k: nat :: k < |rs| ==> m'.At(p + 8 * k) == m.At(m.Get(Rbp) + offs[k]))
  }

  lemma RetManyRight(rs: seq<Class>, values: nat, offs: seq<int>, p: int, m: Cpu)
    requires |rs| == |offs| && |rs| > 2 && Below(offs, m, p) && m.At(m.Get(Rbp) + HiddenOff(values)) == p
    ensures
      match ExecAll(RetCode(rs, values, offs), m)
      case None => false
      case Some(m') => Left(rs, offs, p, m, m')
  {
    hide Exec, ExecAll, RetStores;
    var first, last := Ld(R10, Rbp, HiddenOff(values)), Mov(Rax, R10);
    LdDone(m, R10, Rbp, HiddenOff(values));
    Run1(first, m);
    var m1 := Exec(first, m).value;
    RetStoresRight(rs, offs, 0, m1);
    var m2 := ExecAll(RetStores(rs, offs, 0), m1).value;
    MovDone(m2, Rax, R10);
    Run1(last, m2);
    ExecAppend([first], RetStores(rs, offs, 0), m);
    ExecAppend([first] + RetStores(rs, offs, 0), [last], m);
    LeftMany(rs, offs, p, m, m1, m2, Exec(last, m2).value);
  }

  lemma LeftMany(rs: seq<Class>, offs: seq<int>, p: int, m: Cpu, m1: Cpu, m2: Cpu, m3: Cpu)
    requires |rs| == |offs| && |rs| > 2
    requires RegSet(m, m1, R10, p) && RetStored(rs, offs, 0, m1, m2) && RegSet(m2, m3, Rax, p)
    ensures Left(rs, offs, p, m, m3)
  {
    assert forall a :: m3.At(a) == m2.At(a) && m1.At(a) == m.At(a);
    forall k: nat | k < |rs|
      ensures m3.At(p + 8 * k) == m.At(m.Get(Rbp) + offs[k])
    {
      assert Stored(rs, offs, 0, m1, m2, k);
    }
  }

  lemma RetFewRight(rs: seq<Class>, values: nat, offs: seq<int>, p: int, m: Cpu)
    requires |rs| == |offs| && |rs| <= 2
    ensures
      match ExecAll(RetCode(rs, values, offs), m)
      case None => false
      case Some(m') => Left(rs, offs, p, m, m')
  {
    hide Exec, ExecAll, Carries;
    ExecNil(m);
    if |rs| == 0 {
      assert RetCode(rs, values, offs) == [];
    } else {
      var a := RegArg(rs[0], offs[0], RetPlace(rs[0], 0));
      RegArgRight(rs[0], offs[0], RetPlace(rs[0], 0), m);
      var m1 := ExecAll(a, m).value;
      if |rs| == 1 {
        assert RetCode(rs, values, offs) == a;
        LeftFew(rs, offs, p, m, m1, m1);
      } else {
        var b := RegArg(rs[1], offs[1], RetPlace(rs[1], 1));
        RegArgRight(rs[1], offs[1], RetPlace(rs[1], 1), m1);
        ExecAppend(a, b, m);
        LeftFew(rs, offs, p, m, m1, ExecAll(b, m1).value);
      }
    }
  }

  lemma LeftFew(rs: seq<Class>, offs: seq<int>, p: int, m: Cpu, m1: Cpu, m2: Cpu)
    requires 1 <= |rs| == |offs| <= 2 && RegArgDone(rs[0], offs[0], RetPlace(rs[0], 0), m, m1)
    requires if |rs| == 2 then RegArgDone(rs[1], offs[1], RetPlace(rs[1], 1), m1, m2) else m1 == m2
    ensures Left(rs, offs, p, m, m2)
  {
    hide Carries;
    assert forall a :: m2.At(a) == m.At(a);
    forall k: nat
      ensures InRegisters(rs, offs, m, m2, k)
    {
      assert k < |rs| <= 2 ==> k == 0 || k == 1;
    }
  }

  // ----- leaving -----

  /** ret: the address on top of the stack is where it goes. */
  function Gone(m: Cpu): Cpu {
    m.Set(Rsp, m.Get(Rsp) + 8)
  }

  ghost predicate Unwound(m: Cpu, m': Cpu) {
    && m'.Get(Rsp) == m.Get(Rbp) + 16 && m'.Get(Rbp) == m.At(m.Get(Rbp))
    && (forall r :: r != Rsp && r != Rbp ==> m'.Get(r) == m.Get(r))
    && m'.xmm == m.xmm && m'.mem == m.mem && m'.fp == m.fp
  }

  lemma LeaveExec(m: Cpu)
    ensures Exec(Leave, m) == Some(m.Set(Rsp, m.Get(Rbp) + 8).Set(Rbp, m.At(m.Get(Rbp))))
  {
    hide U;
  }

  lemma LeaveRight(m: Cpu)
    requires m.Get(Rbp) + 16 < W
    ensures Exec(Leave, m).Some?
    ensures Unwound(m, Gone(Exec(Leave, m).value)) && Exec(Leave, m).value.Get(Rsp) == m.Get(Rbp) + 8
    ensures Exec(Leave, m).value.mem == m.mem
  {
    hide U, Exec;
    LeaveExec(m);
    SetReg(m, Rsp, m.Get(Rbp) + 8);
    var m1 := m.Set(Rsp, m.Get(Rbp) + 8);
    SetReg(m1, Rbp, m.At(m.Get(Rbp)));
    var m2 := m1.Set(Rbp, m.At(m.Get(Rbp)));
    SetReg(m2, Rsp, m2.Get(Rsp) + 8);
  }

  // ----- picking up -----

  ghost predicate KeepDone(c: Class, off: int, i: nat, m: Cpu, m': Cpu) {
    var a := m.Get(Rbp) + off;
    && m'.fp == m.fp && m'.regs == m.regs
    && (forall x: nat :: RetPlace(c, i) != InXmm(x) ==> m'.GetX(x) == m.GetX(x))
    && m'.At(a) == Kept(c, Held(m, RetPlace(c, i), 0), m.fp) && forall b :: b != a ==> m'.At(b) == m.At(b)
  }

  lemma KeepRetRight(c: Class, off: int, i: nat, m: Cpu)
    ensures ExecAll(KeepRet(c, off, i), m).Some?
    ensures KeepDone(c, off, i, m, ExecAll(KeepRet(c, off, i), m).value)
  {
    hide U, Low32, Exec, ExecAll;
    match RetPlace(c, i) {
      case InReg(r) =>
        StDone(m, Rbp, off, r);
        Run1(St(Rbp, off, r), m);
      case InXmm(x) =>
        if c.D? {
          StXDone(m, Rbp, off, x);
          Run1(StX(Rbp, off, x), m);
        } else {
          WidenDone(m, x);
          StXDone(Exec(Ss2Sd(x), m).value, Rbp, off, x);
          Run2(Ss2Sd(x), StX(Rbp, off, x), m);
        }
    }
  }

  /** The word of result `k` as the call left it. */
  function PickedWord(rs: seq<Class>, buf: int, m: Cpu, k: nat): int
    requires k < |rs|
  {
    if |rs| > 2 then m.At(m.Get(Rbp) + buf + 8 * k) else Kept(rs[k], Held(m, RetPlace(rs[k], k), 0), m.fp)
  }

  ghost predicate Recovered(rs: seq<Class>, buf: int, slot: int, m: Cpu, m': Cpu, k: nat) {
    k < |rs| ==>
      m'.At(m.Get(Rbp) + ResultOff(rs, buf, slot, k)) == PickedWord(rs, buf, m, k)
  }

  /** `a` is the call's slot or lies in its return buffer. */
  predicate ResultWord(rs: seq<Class>, buf: int, slot: int, base: int, a: int) {
    || (|rs| > 0 && a == base + slot)
    || (|rs| >= 2 && base + buf <= a < base + buf + 8 * |rs|)
  }

  ghost predicate PickedUp(rs: seq<Class>, buf: int, slot: int, m: Cpu, m': Cpu) {
    && m'.Get(Rsp) == m.Get(Rsp) && m'.Get(Rbp) == m.Get(Rbp)
    && (forall k: nat :: Recovered(rs, buf, slot, m, m', k))
    && forall a :: !ResultWord(rs, buf, slot, m.Get(Rbp), a) ==> m'.At(a) == m.At(a)
  }

  function FinalSpill(c: Class, buf: int, slot: int): seq<Instr> {
    Reload(c, buf) + (if c.I? then [St(Rbp, slot, Rax)] else [StX(Rbp, slot, 0)])
  }

  ghost predicate SlotOnly(slot: int, m: Cpu, m': Cpu) {
    && m'.Get(Rsp) == m.Get(Rsp) && m'.Get(Rbp) == m.Get(Rbp)
    && forall a :: a != m.Get(Rbp) + slot ==> m'.At(a) == m.At(a)
  }

  lemma FinalSpillRight(c: Class, buf: int, slot: int, m: Cpu)
    ensures ExecAll(FinalSpill(c, buf, slot), m).Some?
    ensures SlotOnly(slot, m, ExecAll(FinalSpill(c, buf, slot), m).value)
  {
    hide Exec, ExecAll;
    if c.I? {
      LdDone(m, Rax, Rbp, buf);
      StDone(Exec(Ld(Rax, Rbp, buf), m).value, Rbp, slot, Rax);
      Run2(Ld(Rax, Rbp, buf), St(Rbp, slot, Rax), m);
      assert FinalSpill(c, buf, slot) == [Ld(Rax, Rbp, buf), St(Rbp, slot, Rax)];
    } else {
      LdXDone(m, 0, Rbp, buf);
      StXDone(Exec(LdX(0, Rbp, buf), m).value, Rbp, slot, 0);
      Run2(LdX(0, Rbp, buf), StX(Rbp, slot, 0), m);
      assert FinalSpill(c, buf, slot) == [LdX(0, Rbp, buf), StX(Rbp, slot, 0)];
    }
  }

  lemma ReadBackRight(rs: seq<Class>, buf: int, slot: int, m: Cpu)
    requires |rs| >= 2 ==> slot >= buf + 8 * |rs|
    ensures
      match ExecAll(ReadBack(rs, buf, slot), m)
      case None => false
      case Some(m') => PickedUp(rs, buf, slot, m, m')
  {
    hide Exec, ExecAll, Kept, KeepRet;
    ExecNil(m);
    if |rs| == 1 {
      KeepRetRight(rs[0], slot, 0, m);
    } else if |rs| == 2 {
      var a, b, c := KeepRet(rs[0], buf, 0), KeepRet(rs[1], buf + 8, 1), FinalSpill(rs[0], buf, slot);
      KeepRetRight(rs[0], buf, 0, m);
      var m1 := ExecAll(a, m).value;
      KeepRetRight(rs[1], buf + 8, 1, m1);
      var m2 := ExecAll(b, m1).value;
      FinalSpillRight(rs[0], buf, slot, m2);
      ExecAppend(a, b, m);
      ExecAppend(a + b, c, m);
      assert ReadBack(rs, buf, slot) == a + b + c;
      PickedUpTwo(rs, buf, slot, m, m1, m2, ExecAll(c, m2).value);
    } else if |rs| > 2 {
      FinalSpillRight(rs[0], buf, slot, m);
      assert ReadBack(rs, buf, slot) == FinalSpill(rs[0], buf, slot);
    }
  }

  lemma PickedUpTwo(rs: seq<Class>, buf: int, slot: int, m: Cpu, m1: Cpu, m2: Cpu, m3: Cpu)
    requires |rs| == 2 && slot >= buf + 16
    requires KeepDone(rs[0], buf, 0, m, m1) && KeepDone(rs[1], buf + 8, 1, m1, m2) && SlotOnly(slot, m2, m3)
    ensures PickedUp(rs, buf, slot, m, m3)
  {
    hide Kept;
    forall k: nat
      ensures Recovered(rs, buf, slot, m, m3, k)
    {
      if k < 2 {
        assert Held(m1, RetPlace(rs[1], 1), 0) == Held(m, RetPlace(rs[1], 1), 0);
        assert k == 0 || k == 1;
      }
    }
  }

  // ----- the whole way back -----

  /** The callee as it is about to return: its frame, the words above it and the hidden pointer
      are as they were when it had read its parameters. */
  ghost predicate AboutToReturn(values: nat, rs: seq<Class>, offs: seq<int>, m4: Cpu, m5: Cpu)
    requires |rs| == |offs|
  {
    && m5.Get(Rbp) == m4.Get(Rbp) && m5.fp == m4.fp
    && (forall a :: a >= m4.Get(Rbp) ==> m5.At(a) == m4.At(a))
    && (|rs| > 2 ==> m5.At(m5.Get(Rbp) + HiddenOff(values)) == m4.At(m4.Get(Rbp) + HiddenOff(values)))
    && forall k :: 0 <= k < |offs| ==> offs[k] < 0
  }

  function BackInCaller(rs: seq<Class>, bytes: nat, buf: int, slot: int, m: Cpu): Option<Cpu> {
    ExecAll((if bytes > 0 then [AddSp(bytes)] else []) + ReadBack(rs, buf, slot), Gone(m))
  }

  ghost predicate ResultRight(rs: seq<Class>, roffs: seq<int>, buf: int, slot: int, m5: Cpu, m': Cpu, k: nat)
    requires |rs| == |roffs|
  {
    k < |rs| ==>
      m'.At(m'.Get(Rbp) + ResultOff(rs, buf, slot, k)) == Brought(rs, k, m5.At(m5.Get(Rbp) + roffs[k]), m5.fp)
  }

  /** Back in the caller: its frame as before but for the results. */
  ghost predicate CameBack(rs: seq<Class>, roffs: seq<int>, buf: int, slot: int, m: Cpu, m5: Cpu, m': Cpu)
    requires |rs| == |roffs|
  {
    && m'.Get(Rsp) == m.Get(Rsp) && m'.Get(Rbp) == m.Get(Rbp)
    && (forall k: nat :: ResultRight(rs, roffs, buf, slot, m5, m', k))
    && forall a :: a >= m.Get(Rsp) && !ResultWord(rs, buf, slot, m.Get(Rbp), a) ==> m'.At(a) == m.At(a)
  }

  ghost predicate BufferOk(rs: seq<Class>, buf: int, slot: int, m: Cpu) {
    |rs| >= 2 ==> m.Get(Rsp) <= m.Get(Rbp) + buf && slot >= buf + 8 * |rs|
  }

  lemma AddSpDone(m: Cpu, n: nat)
    requires m.Get(Rsp) + n < W
    ensures Exec(AddSp(n), m).Some? && RegSet(m, Exec(AddSp(n), m).value, Rsp, m.Get(Rsp) + n)
  {
    SetReg(m, Rsp, m.Get(Rsp) + n);
  }

  lemma RoomFreed(n: nat, m: Cpu)
    requires m.Get(Rsp) + n < W
    ensures ExecAll(if n > 0 then [AddSp(n)] else [], m).Some?
    ensures RegSet(m, ExecAll(if n > 0 then [AddSp(n)] else [], m).value, Rsp, m.Get(Rsp) + n)
  {
    hide Exec;
    if n > 0 {
      AddSpDone(m, n);
      Run1(AddSp(n), m);
    } else {
      assert ExecAll([], m) == Some(m);
    }
  }

  /** The callee's `ret` goes back to the call; afterwards the caller's stack pointer and frame
      are as before, and every result is where the caller reads it. */
  lemma ResultsReturn(c: Site, rs: seq<Class>, buf: int, roffs: seq<int>, slot: int, m: Cpu, m4: Cpu, m5: Cpu, ret: Word64)
    requires SiteOk(c) && |rs| == |roffs| && c.res == Hidden(rs) && c.addr == m.Get(Rbp) + buf
    requires InCallee(c, m, m4, ret) && AboutToReturn(c.values, rs, roffs, m4, m5)
    requires BufferOk(rs, buf, slot, m) && m.Get(Rsp) % 16 == 0
    ensures
      match ExecAll(RetCode(rs, c.values, roffs) + [Leave], m5)
      case None => false
      case Some(m6) =>
        && m6.At(m6.Get(Rsp)) == ret
        && match BackInCaller(rs, c.bytes, buf, slot, m6)
           case None => false
           case Some(m') => CameBack(rs, roffs, buf, slot, m, m5, m')
  {
    hide Exec, ExecAll, Carries, RetCode, ReadBack, Received, Kept;
    var p := m.Get(Rbp) + buf;
    var bytes := c.bytes;
    if |rs| > 2 {
      RetManyRight(rs, c.values, roffs, p, m5);
    } else {
      RetFewRight(rs, c.values, roffs, p, m5);
    }
    var ma := ExecAll(RetCode(rs, c.values, roffs), m5).value;
    LeaveRight(ma);
    Run1(Leave, ma);
    ExecAppend(RetCode(rs, c.values, roffs), [Leave], m5);
    var mb := Gone(Exec(Leave, ma).value);
    RoomFreed(bytes, mb);
    var room := if bytes > 0 then [AddSp(bytes)] else [];
    var mc := ExecAll(room, mb).value;
    ReadBackRight(rs, buf, slot, mc);
    ExecAppend(room, ReadBack(rs, buf, slot), mb);
    WordsBack(c, rs, buf, roffs, slot, m, m4, m5, ma, mb, mc,
              ExecAll(ReadBack(rs, buf, slot), mc).value, ret);
  }

  lemma WordsBack(c: Site, rs: seq<Class>, buf: int, roffs: seq<int>, slot: int, m: Cpu, m4: Cpu, m5: Cpu, ma: Cpu, mb: Cpu, mc: Cpu, m': Cpu, ret: Word64)
    requires SiteOk(c) && |rs| == |roffs| && c.res == Hidden(rs) && c.addr == m.Get(Rbp) + buf
    requires InCallee(c, m, m4, ret) && AboutToReturn(c.values, rs, roffs, m4, m5)
    requires BufferOk(rs, buf, slot, m) && Left(rs, roffs, m.Get(Rbp) + buf, m5, ma) && Unwound(ma, mb)
    requires RegSet(mb, mc, Rsp, m.Get(Rsp)) && PickedUp(rs, buf, slot, mc, m')
    ensures CameBack(rs, roffs, buf, slot, m, m5, m')
  {
    hide Carries, Received, Kept;
    assert mc.Get(Rbp) == m.Get(Rbp);
    assert forall a :: mc.At(a) == ma.At(a);
    forall k: nat
      ensures ResultRight(rs, roffs, buf, slot, m5, m', k)
    {
      ResultBack(rs, buf, roffs, slot, m, m5, ma, mb, mc, m', k);
    }
    forall a | a >= m.Get(Rsp) && !ResultWord(rs, buf, slot, m.Get(Rbp), a)
      ensures m'.At(a) == m.At(a)
    {
      assert mc.At(a) == ma.At(a) == m5.At(a) == m4.At(a);
    }
  }

  lemma ResultBack(rs: seq<Class>, buf: int, roffs: seq<int>, slot: int,
                   m: Cpu, m5: Cpu, ma: Cpu, mb: Cpu, mc: Cpu, m': Cpu, k: nat)
    requires |rs| == |roffs| && Left(rs, roffs, m.Get(Rbp) + buf, m5, ma) && Unwound(ma, mb)
    requires RegSet(mb, mc, Rsp, m.Get(Rsp)) && PickedUp(rs, buf, slot, mc, m') && mc.Get(Rbp) == m.Get(Rbp)
    ensures ResultRight(rs, roffs, buf, slot, m5, m', k)
  {
    hide U, Low32, Carries, Kept, Received;
    if k < |rs| {
      assert Recovered(rs, buf, slot, mc, m', k);
      if |rs| > 2 {
        assert mc.At(m.Get(Rbp) + buf + 8 * k) == ma.At(m.Get(Rbp) + buf + 8 * k);
      } else {
        assert InRegisters(rs, roffs, m5, ma, k);
        HeldBack(RetPlace(rs[k], k), ma, mb, mc, m.Get(Rsp));
        CarriedIsKept(rs[k], Held(ma, RetPlace(rs[k], k), 0), m5.At(m5.Get(Rbp) + roffs[k]), m5.fp);
      }
    }
  }

  lemma HeldBack(p: Place, ma: Cpu, mb: Cpu, mc: Cpu, sp: int)
    requires Unwound(ma, mb) && RegSet(mb, mc, Rsp, sp) && !p.InStack? && p != InReg(Rsp) && p != InReg(Rbp)
    ensures Held(mc, p, 0) == Held(ma, p, 0)
  {
  }

  lemma CarriedIsKept(c: Class, u: int, w: int, fp: Fp)
    requires Carries(c, u, w, fp)
    ensures Kept(c, u, fp) == Received(c, w, fp)
  {
  }
}
