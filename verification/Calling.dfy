/** Into the callee: the call pushes the return address, the callee sets up its frame, saves the
    hidden pointer and reads its parameters from the places of the plan. */
module Calling {
  import opened Wrappers
  import opened Word
  import opened Asm
  import opened Passing

  /** The call instruction pushes the address to return to. */
  function Called(m: Cpu, ret: Word64): Cpu {
    m.Put(m.Get(Rsp) - 8, ret).Set(Rsp, m.Get(Rsp) - 8)
  }

  /** ST_layout_fn: the word of the hidden pointer follows those of the values. */
  function HiddenOff(values: nat): int {
    -8 * (values + 1)
  }

  function FrameBytes(values: nat, res: nat): (n: nat)
    ensures n % 16 == 0 && n >= 8 * values + 8 * res
  {
    (8 * values + 8 * res + 15) / 16 * 16
  }

  function Entry(values: nat, res: nat, h: Reg): seq<Instr> {
    [Push(Rbp), Mov(Rbp, Rsp), SubSp(FrameBytes(values, res))]
    + (if res == 1 then [St(Rbp, HiddenOff(values), h)] else [])
  }

  /** The callee's frame is set up under the return address. */
  ghost predicate Entered(values: nat, res: nat, h: Reg, m: Cpu, m': Cpu) {
    var base := m.Get(Rsp) - 8;
    && m'.Get(Rbp) == base && m'.Get(Rsp) == base - FrameBytes(values, res)
    && (forall r :: r != Rbp && r != Rsp ==> m'.Get(r) == m.Get(r))
    && m'.xmm == m.xmm && m'.fp == m.fp
    && m'.At(base) == m.Get(Rbp) && (forall a :: a >= m.Get(Rsp) ==> m'.At(a) == m.At(a))
    && (res == 1 && h != Rbp && h != Rsp ==> m'.At(base + HiddenOff(values)) == m.Get(h))
  }

  /** rbp is saved and points to where it was saved; rsp is `n` bytes below. */
  ghost predicate FrameMade(n: nat, m: Cpu, m': Cpu) {
    var base := m.Get(Rsp) - 8;
    && m'.Get(Rbp) == base && m'.Get(Rsp) == base - n
    && (forall r :: r != Rbp && r != Rsp ==> m'.Get(r) == m.Get(r))
    && m'.xmm == m.xmm && m'.fp == m.fp
    && m'.At(base) == m.Get(Rbp) && forall a :: a >= m.Get(Rsp) ==> m'.At(a) == m.At(a)
  }

  lemma FrameRight(n: nat, m: Cpu)
    requires m.Get(Rsp) >= 8 + n
    ensures ExecAll([Push(Rbp), Mov(Rbp, Rsp), SubSp(n)], m).Some?
    ensures FrameMade(n, m, ExecAll([Push(Rbp), Mov(Rbp, Rsp), SubSp(n)], m).value)
  {
    hide U, Exec, ExecAll;
    PushDone(m, Rbp);
    var m1 := Exec(Push(Rbp), m).value;
    MovDone(m1, Rbp, Rsp);
    var m2 := Exec(Mov(Rbp, Rsp), m1).value;
    SubSpDone(m2, n);
    Run3(Push(Rbp), Mov(Rbp, Rsp), SubSp(n), m);
    var m3 := Exec(SubSp(n), m2).value;
    assert forall a :: m3.At(a) == m1.At(a);
  }

  lemma EntryRight(values: nat, res: nat, h: Reg, m: Cpu)
    requires m.Get(Rsp) >= 8 + FrameBytes(values, res)
    ensures ExecAll(Entry(values, res, h), m).Some?
    ensures Entered(values, res, h, m, ExecAll(Entry(values, res, h), m).value)
  {
    hide U, Exec, ExecAll, FrameBytes;
    var n := FrameBytes(values, res);
    var frame := [Push(Rbp), Mov(Rbp, Rsp), SubSp(n)];
    FrameRight(n, m);
    var m3 := ExecAll(frame, m).value;
    if res == 1 {
      StDone(m3, Rbp, HiddenOff(values), h);
      Run1(St(Rbp, HiddenOff(values), h), m3);
      ExecAppend(frame, [St(Rbp, HiddenOff(values), h)], m);
    } else {
      assert Entry(values, res, h) == frame;
    }
  }

  ghost predicate Pushed(m: Cpu, m': Cpu, u: int) {
    && m'.Get(Rsp) == m.Get(Rsp) - 8 && (forall r :: r != Rsp ==> m'.Get(r) == m.Get(r))
    && m'.xmm == m.xmm && m'.fp == m.fp
    && m'.At(m.Get(Rsp) - 8) == u && forall a :: a != m.Get(Rsp) - 8 ==> m'.At(a) == m.At(a)
  }

  lemma PushDone(m: Cpu, r: Reg)
    requires m.Get(Rsp) >= 8
    ensures Exec(Push(r), m).Some? && Pushed(m, Exec(Push(r), m).value, m.Get(r))
  {
    hide U;
    UOfWord(m.Get(Rsp) - 8);
    PutWord(m, m.Get(Rsp) - 8, m.Get(r));
    SetReg(m.Put(m.Get(Rsp) - 8, m.Get(r)), Rsp, m.Get(Rsp) - 8);
  }

  lemma CalledDone(m: Cpu, ret: Word64)
    requires m.Get(Rsp) >= 8
    ensures Pushed(m, Called(m, ret), ret)
  {
    hide U;
    PutWord(m, m.Get(Rsp) - 8, ret);
    SetReg(m.Put(m.Get(Rsp) - 8, ret), Rsp, m.Get(Rsp) - 8);
  }

  lemma LeaDone(m: Cpu, r: Reg, q: Reg, off: int)
    requires 0 <= m.Get(q) + off < W
    ensures Exec(Lea(r, q, off), m).Some? && RegSet(m, Exec(Lea(r, q, off), m).value, r, m.Get(q) + off)
  {
    SetReg(m, r, m.Get(q) + off);
  }

  // ----- from the caller's frame to the callee's -----

  /** The first `n` arguments are to be passed from the slots `offs`; `addr` is the address of the
      result buffer if `res` is 1, and the callee has `values` values. */
  datatype Site = Site(cs: seq<Class>, places: seq<Place>, n: nat, offs: seq<int>, bytes: nat, res: nat, h: Reg,
                       addr: int, ids: seq<nat>, values: nat)

  ghost predicate SiteOk(c: Site) {
    && |c.cs| == |c.places| == |c.offs| == |c.ids| && Readable(c.cs, c.places)
    && Distinct(c.ids) && (forall k :: 0 <= k < |c.ids| ==> c.ids[k] < c.values)
    && (c.res == 1 ==> c.h != Rax && c.h != Rbp && c.h != Rsp)
  }

  ghost predicate Placed(c: Site, m: Cpu, m1: Cpu, k: nat)
    requires |c.cs| == |c.places| == |c.offs|
  {
    k < |c.cs| && k < c.n ==>
      Carries(c.cs[k], Held(m1, c.places[k], m1.Get(Rsp)), m.At(m.Get(Rbp) + c.offs[k]), m.fp)
  }

  /** How things stand at the call instruction. */
  ghost predicate AtCall(c: Site, m: Cpu, m1: Cpu)
    requires |c.cs| == |c.places| == |c.offs|
  {
    && m1.Get(Rsp) == m.Get(Rsp) - c.bytes && m1.Get(Rbp) == m.Get(Rbp) && m1.fp == m.fp
    && (c.res == 1 ==> m1.Get(c.h) == c.addr)
    && (forall a :: a >= m.Get(Rsp) ==> m1.At(a) == m.At(a))
    && forall k: nat :: Placed(c, m, m1, k)
  }

  lemma AtCallAligned(c: Site, m: Cpu, m1: Cpu)
    requires |c.cs| == |c.places| == |c.offs| && AtCall(c, m, m1) && m.Get(Rsp) % 16 == 0 && c.bytes % 16 == 0
    ensures m1.Get(Rsp) % 16 == 0
  {
  }

  /** Parameter `k` has the value of argument `k`. */
  ghost predicate Arrived(c: Site, m: Cpu, m': Cpu, k: nat)
    requires |c.cs| == |c.offs| == |c.ids|
  {
    k < |c.cs| && k < c.n ==>
      m'.At(m'.Get(Rbp) + SlotOffset(c.ids[k])) == Received(c.cs[k], m.At(m.Get(Rbp) + c.offs[k]), m.fp)
  }

  /** The callee's frame after its parameters were read. */
  ghost predicate InCallee(c: Site, m: Cpu, m': Cpu, ret: int)
    requires |c.cs| == |c.offs| == |c.ids|
  {
    && m'.Get(Rbp) == m.Get(Rsp) - c.bytes - 16 && m'.Get(Rsp) == m'.Get(Rbp) - FrameBytes(c.values, c.res)
    && m'.fp == m.fp && m'.At(m'.Get(Rbp)) == m.Get(Rbp) && m'.At(m'.Get(Rbp) + 8) == ret
    && (c.res == 1 ==> m'.At(m'.Get(Rbp) + HiddenOff(c.values)) == c.addr)
    && (forall a :: a >= m.Get(Rsp) ==> m'.At(a) == m.At(a))
    && forall k: nat :: Arrived(c, m, m', k)
  }

  /** The machine when the callee has read its parameters. */
  function Inside(c: Site, m1: Cpu, ret: Word64): Option<Cpu>
    requires |c.cs| == |c.ids| == |c.places|
  {
    ExecAll(Entry(c.values, c.res, c.h) + ParamsCode(c.cs, c.places, c.ids, 0), Called(m1, ret))
  }

  /** Caller and callee agree: each parameter that was passed gets the value of its argument, the
      callee finds the hidden pointer, and the caller's frame is untouched. */
  lemma ArgumentsArrive(c: Site, m: Cpu, m1: Cpu, ret: Word64)
    requires SiteOk(c) && AtCall(c, m, m1) && m.Get(Rsp) >= c.bytes + 16 + FrameBytes(c.values, c.res)
    ensures
      match Inside(c, m1, ret)
      case None => false
      case Some(m') => InCallee(c, m, m', ret)
  {
    hide ExecAll, Carries, FrameBytes, Called, Entry, Readable;
    CalledDone(m1, ret);
    var m2 := Called(m1, ret);
    EntryRight(c.values, c.res, c.h, m2);
    var m3 := ExecAll(Entry(c.values, c.res, c.h), m2).value;
    ParamsRight(c.cs, c.places, c.ids, 0, m3);
    ExecAppend(Entry(c.values, c.res, c.h), ParamsCode(c.cs, c.places, c.ids, 0), m2);
    ArrivedInside(c, m, m1, m2, m3, ExecAll(ParamsCode(c.cs, c.places, c.ids, 0), m3).value, ret);
  }

  lemma ArrivedInside(c: Site, m: Cpu, m1: Cpu, m2: Cpu, m3: Cpu, m4: Cpu, ret: Word64)
    requires SiteOk(c) && AtCall(c, m, m1) && Pushed(m1, m2, ret) && Entered(c.values, c.res, c.h, m2, m3)
    requires ParamsKept(c.cs, c.places, c.ids, 0, m3, m4)
    ensures InCallee(c, m, m4, ret)
  {
    hide Carries, FrameBytes, Kept, Received, Readable;
    forall a | a >= m3.Get(Rbp) || a == m3.Get(Rbp) + HiddenOff(c.values)
      ensures m4.At(a) == m3.At(a)
    {
      assert OtherWord(c.ids, 0, m3, m4, a);
    }
    forall k: nat
      ensures Arrived(c, m, m4, k)
    {
      ArrivedOne(c, m, m1, m2, m3, m4, ret, k);
    }
  }

  lemma ArrivedOne(c: Site, m: Cpu, m1: Cpu, m2: Cpu, m3: Cpu, m4: Cpu, ret: Word64, k: nat)
    requires SiteOk(c) && AtCall(c, m, m1) && Pushed(m1, m2, ret) && Entered(c.values, c.res, c.h, m2, m3)
    requires ParamsKept(c.cs, c.places, c.ids, 0, m3, m4)
    ensures Arrived(c, m, m4, k)
  {
    hide FrameBytes, U, Low32;
    if k < |c.cs| && k < c.n {
      assert Placed(c, m, m1, k);
      assert ParamKept(c.cs, c.places, c.ids, 0, m3, m4, k);
      HeldInside(c.cs[k], c.places[k], m1, m2, m3, ret, c.values, c.res, c.h);
    }
  }

  lemma HeldInside(cl: Class, p: Place, m1: Cpu, m2: Cpu, m3: Cpu, ret: Word64, values: nat, res: nat, h: Reg)
    requires Pushed(m1, m2, ret) && Entered(values, res, h, m2, m3) && (p.InReg? ==> p.r != Rbp && p.r != Rsp)
    ensures Held(m3, p, m3.Get(Rbp) + 16) == Held(m1, p, m1.Get(Rsp))
  {
    hide FrameBytes;
  }
}
