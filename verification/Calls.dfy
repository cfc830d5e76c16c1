/** Calls under the System V convention. */
module Calls {
  import opened Wrappers
  import opened Word
  import opened Asm
  import opened Passing
  import opened CallArgs
  import opened Calling

  /** ST_abi_ret_is_indirect: more than two results are returned through a hidden pointer. */
  function Hidden(rs: seq<Class>): nat {
    if |rs| > 2 then 1 else 0
  }

  function FloatRegs(cs: seq<Class>): (n: nat)
    ensures n < 0x100
  {
    var n := Floats(cs[..Capped(|cs|)], Capped(|cs|));
    if n < XMM_REGS then n else XMM_REGS
  }

  /** Before the call: the hidden pointer, the arguments, and how many float registers hold one. */
  function BeforeCall(cs: seq<Class>, rs: seq<Class>, offs: seq<int>, buf: int): seq<Instr>
    requires |cs| == |offs|
  {
    HiddenLea(rs, buf) + CallerCode(cs, Hidden(rs), offs) + [MovAl(FloatRegs(cs))]
  }

  /** The call of a function with these parameters and results. */
  function SysVSite(cs: seq<Class>, rs: seq<Class>, offs: seq<int>, ids: seq<nat>, values: nat, addr: int): Site {
    Site(cs, Places(cs, Hidden(rs)), Capped(|cs|), offs, StackBytes(cs[..Capped(|cs|)], Hidden(rs)), Hidden(rs),
         HiddenReg(Hidden(rs)), addr, ids, values)
  }

  lemma MovAlDone(m: Cpu, n: nat)
    requires n < 0x100
    ensures Exec(MovAl(n), m).Some? && RegSet(m, Exec(MovAl(n), m).value, Rax, Exec(MovAl(n), m).value.Get(Rax))
    ensures Exec(MovAl(n), m).value.Get(Rax) % 0x100 == n
  {
    hide U;
    var a := m.Get(Rax);
    assert IsWord(a);
    assert a - a % 0x100 == a / 0x100 * 0x100;
    SetReg(m, Rax, a - a % 0x100 + n);
  }

  /** The stack is aligned, big enough, and the caller's frame lies above the stack pointer. */
  ghost predicate Ready(cs: seq<Class>, rs: seq<Class>, offs: seq<int>, buf: int, m: Cpu)
    requires |cs| == |offs|
  {
    && m.Get(Rsp) % 16 == 0 && m.Get(Rsp) >= StackBytes(cs[..Capped(|cs|)], Hidden(rs))
    && (forall k :: 0 <= k < |offs| ==> m.Get(Rbp) + offs[k] >= m.Get(Rsp))
    && (|rs| > 2 ==> m.Get(Rsp) <= m.Get(Rbp) + buf < W)
  }

  function HiddenLea(rs: seq<Class>, buf: int): seq<Instr> {
    if Hidden(rs) == 1 then [Lea(Rdi, Rbp, buf)] else []
  }

  lemma HiddenLeaRight(rs: seq<Class>, buf: int, m: Cpu)
    requires |rs| > 2 ==> 0 <= m.Get(Rbp) + buf < W
    ensures ExecAll(HiddenLea(rs, buf), m).Some?
    ensures RegSet(m, ExecAll(HiddenLea(rs, buf), m).value, Rdi, if |rs| > 2 then m.Get(Rbp) + buf else m.Get(Rdi))
  {
    hide Exec;
    if |rs| > 2 {
      LeaDone(m, Rdi, Rbp, buf);
      Run1(Lea(Rdi, Rbp, buf), m);
    } else {
      assert ExecAll([], m) == Some(m);
    }
  }

  /** At the call every argument is where the plan says, the hidden pointer is in rdi, al holds the
      number of float registers, and rsp is a multiple of 16. */
  lemma BeforeCallRight(cs: seq<Class>, rs: seq<Class>, offs: seq<int>, buf: int, ids: seq<nat>, values: nat, m: Cpu)
    requires |cs| == |offs| && Ready(cs, rs, offs, buf, m)
    ensures
      match ExecAll(BeforeCall(cs, rs, offs, buf), m)
      case None => false
      case Some(m1) =>
        && AtCall(SysVSite(cs, rs, offs, ids, values, m.Get(Rbp) + buf), m, m1) && m1.Get(Rsp) % 16 == 0
        && m1.Get(Rax) % 0x100 == FloatRegs(cs)
  {
    hide Exec, ExecAll, FloatRegs, StackBytes, AtCall, BeforeCall, Passed;
    var m0, m1 := BeforeCallRuns(cs, rs, offs, buf, m);
    MovAlDone(m1, FloatRegs(cs));
    PlacedAtCall(cs, rs, offs, buf, ids, values, m, m0, m1, Exec(MovAl(FloatRegs(cs)), m1).value);
    AtCallAligned(SysVSite(cs, rs, offs, ids, values, m.Get(Rbp) + buf), m, Exec(MovAl(FloatRegs(cs)), m1).value);
  }

  /** The hidden pointer in `m0`, the arguments in `m1`. */
  lemma BeforeCallRuns(cs: seq<Class>, rs: seq<Class>, offs: seq<int>, buf: int, m: Cpu) returns (m0: Cpu, m1: Cpu)
    requires |cs| == |offs| && Ready(cs, rs, offs, buf, m)
    ensures ExecAll(BeforeCall(cs, rs, offs, buf), m) == Exec(MovAl(FloatRegs(cs)), m1)
    ensures RegSet(m, m0, Rdi, if |rs| > 2 then m.Get(Rbp) + buf else m.Get(Rdi))
    ensures
      var n, res := Capped(|cs|), Hidden(rs);
      Passed(cs[..n], SysV(cs[..n], res), offs[..n], StackBytes(cs[..n], res), HiddenReg(res), m0, m1)
  {
    hide Exec, ExecAll, Carries, PassAll, FloatRegs, StackBytes, PlanOk, SysV, ArgCarries, Readable, Stacked, HiddenLea, Passed;
    var n, res := Capped(|cs|), Hidden(rs);
    var args, from := cs[..n], offs[..n];
    var plan, bytes, h := SysV(args, res), StackBytes(args, res), HiddenReg(res);
    HiddenLeaRight(rs, buf, m);
    m0 := ExecAll(HiddenLea(rs, buf), m).value;
    SysVFits(args, res, from);
    PassAllRight(args, plan, from, Stacked(args, res, n), bytes, h, m0);
    m1 := ExecAll(PassAll(args, plan, from, bytes), m0).value;
    Run1(MovAl(FloatRegs(cs)), m1);
    ExecAppend(HiddenLea(rs, buf), CallerCode(cs, res, offs), m);
    ExecAppend(HiddenLea(rs, buf) + CallerCode(cs, res, offs), [MovAl(FloatRegs(cs))], m);
  }

  lemma SysVFits(cs: seq<Class>, res: nat, offs: seq<int>)
    requires |cs| == |offs| && res <= 1
    ensures Fits(cs, SysV(cs, res), offs, Stacked(cs, res, |cs|), StackBytes(cs, res), HiddenReg(res))
  {
    SysVOk(cs, res);
  }

  lemma PlacedAtCall(cs: seq<Class>, rs: seq<Class>, offs: seq<int>, buf: int, ids: seq<nat>, values: nat,
                     m: Cpu, m0: Cpu, m1: Cpu, m2: Cpu)
    requires |cs| == |offs| && RegSet(m, m0, Rdi, if |rs| > 2 then m.Get(Rbp) + buf else m.Get(Rdi))
    requires
      var n, res := Capped(|cs|), Hidden(rs);
      Passed(cs[..n], SysV(cs[..n], res), offs[..n], StackBytes(cs[..n], res), HiddenReg(res), m0, m1)
    requires RegSet(m1, m2, Rax, m2.Get(Rax))
    ensures AtCall(SysVSite(cs, rs, offs, ids, values, m.Get(Rbp) + buf), m, m2)
  {
    hide Carries, StackBytes, PlaceOf, Placed, ArgCarries;
    var c := SysVSite(cs, rs, offs, ids, values, m.Get(Rbp) + buf);
    assert forall a :: m2.At(a) == m1.At(a) && m0.At(a) == m.At(a);
    forall k: nat
      ensures Placed(c, m, m2, k)
    {
      if k < |cs| && k < Capped(|cs|) {
        PlacedOne(cs, rs, offs, buf, ids, values, m, m0, m1, m2, k);
      } else {
        PlacedBeyond(c, m, m2, k);
      }
    }
  }

  lemma PlacedBeyond(c: Site, m: Cpu, m1: Cpu, k: nat)
    requires |c.cs| == |c.places| == |c.offs| && !(k < |c.cs| && k < c.n)
    ensures Placed(c, m, m1, k)
  {
  }

  lemma PlacedOne(cs: seq<Class>, rs: seq<Class>, offs: seq<int>, buf: int, ids: seq<nat>, values: nat,
                  m: Cpu, m0: Cpu, m1: Cpu, m2: Cpu, k: nat)
    requires |cs| == |offs| && RegSet(m, m0, Rdi, if |rs| > 2 then m.Get(Rbp) + buf else m.Get(Rdi))
    requires RegSet(m1, m2, Rax, m2.Get(Rax)) && k < |cs| && k < Capped(|cs|)
    requires
      var n, res := Capped(|cs|), Hidden(rs);
      ArgCarries(cs[..n], SysV(cs[..n], res), offs[..n], m0, m1, m1.Get(Rsp), k)
    ensures Placed(SysVSite(cs, rs, offs, ids, values, m.Get(Rbp) + buf), m, m2, k)
  {
    hide Carries, StackBytes, PlaceOf;
    var n, res := Capped(|cs|), Hidden(rs);
    PlacesOfPrefix(cs, res, n, k);
    NotScratch(cs, res, k);
  }

  lemma NotScratch(cs: seq<Class>, res: nat, k: nat)
    requires k < |cs|
    ensures PlaceOf(cs, res, k) != InReg(Rax)
  {
  }

  /** The callee's side of the convention suits the caller's. */
  lemma SysVSiteOk(cs: seq<Class>, rs: seq<Class>, offs: seq<int>, ids: seq<nat>, values: nat, addr: int)
    requires |cs| == |offs| == |ids| && Distinct(ids) && forall k :: 0 <= k < |ids| ==> ids[k] < values
    ensures SiteOk(SysVSite(cs, rs, offs, ids, values, addr))
  {
    hide Readable;
    SysVOk(cs, Hidden(rs));
  }

  /** For every signature: what the code before the call passes, the parameter instructions read. */
  lemma SysVAgrees(cs: seq<Class>, rs: seq<Class>, offs: seq<int>, buf: int, ids: seq<nat>, values: nat, m: Cpu, ret: Word64)
    requires |cs| == |offs| == |ids| && Distinct(ids) && forall k :: 0 <= k < |ids| ==> ids[k] < values
    requires Ready(cs, rs, offs, buf, m)
    requires m.Get(Rsp) >= StackBytes(cs[..Capped(|cs|)], Hidden(rs)) + 16 + FrameBytes(values, Hidden(rs))
    ensures
      var c := SysVSite(cs, rs, offs, ids, values, m.Get(Rbp) + buf);
      match ExecAll(BeforeCall(cs, rs, offs, buf), m)
      case None => false
      case Some(m1) =>
        && m1.Get(Rsp) % 16 == 0
        && match Inside(c, m1, ret)
           case None => false
           case Some(m') => InCallee(c, m, m', ret)
  {
    hide ExecAll, BeforeCall, StackBytes, FrameBytes, SiteOk, AtCall, InCallee, Ready;
    var c := SysVSite(cs, rs, offs, ids, values, m.Get(Rbp) + buf);
    BeforeCallRight(cs, rs, offs, buf, ids, values, m);
    SysVSiteOk(cs, rs, offs, ids, values, m.Get(Rbp) + buf);
    ArgumentsArrive(c, m, ExecAll(BeforeCall(cs, rs, offs, buf), m).value, ret);
  }

  /** Beyond 256 arguments the code of the call does not depend on where the later ones are. */
  lemma LaterIgnored(cs: seq<Class>, rs: seq<Class>, offs: seq<int>, others: seq<int>, buf: int)
    requires |cs| == |offs| == |others| && |cs| > 256 && offs[..256] == others[..256]
    ensures BeforeCall(cs, rs, offs, buf) == BeforeCall(cs, rs, others, buf)
  {
    assert offs[..Capped(|cs|)] == others[..Capped(|cs|)];
  }

  // ----- which arguments arrive -----

  datatype Call = Call(cs: seq<Class>, rs: seq<Class>, offs: seq<int>, buf: int, ids: seq<nat>, values: nat)

  /** There is enough stack, and the callee has a value for each parameter. */
  ghost predicate CallOk(c: Call, m: Cpu) {
    && |c.cs| == |c.offs| == |c.ids| && Distinct(c.ids) && (forall k :: 0 <= k < |c.ids| ==> c.ids[k] < c.values)
    && Ready(c.cs, c.rs, c.offs, c.buf, m)
    && m.Get(Rsp) >= StackBytes(c.cs[..Capped(|c.cs|)], Hidden(c.rs)) + 16 + FrameBytes(c.values, Hidden(c.rs))
  }

  /** The machine when the callee has read its parameters. */
  function InsideCall(c: Call, m: Cpu, ret: Word64): Option<Cpu>
    requires |c.cs| == |c.offs| == |c.ids|
  {
    match ExecAll(BeforeCall(c.cs, c.rs, c.offs, c.buf), m)
    case None => None
    case Some(m1) => Inside(SysVSite(c.cs, c.rs, c.offs, c.ids, c.values, m.Get(Rbp) + c.buf), m1, ret)
  }

  /** Parameter `k` of the callee has the value of argument `k`. */
  ghost predicate Delivered(c: Call, m: Cpu, ret: Word64, k: nat)
    requires |c.cs| == |c.offs| == |c.ids| && k < |c.cs|
  {
    match InsideCall(c, m, ret)
    case None => false
    case Some(m') =>
      m'.At(m'.Get(Rbp) + SlotOffset(c.ids[k])) == Received(c.cs[k], m.At(m.Get(Rbp) + c.offs[k]), m.fp)
  }

  ghost predicate AlwaysDelivered(k: nat) {
    forall c: Call, m: Cpu, ret: Word64 :: CallOk(c, m) && k < |c.cs| ==> Delivered(c, m, ret, k)
  }

  /** Argument `k` arrives in every call, of whatever signature and from whatever state, if and only
      if it is among the first 256. (Arguments are counted in 32 bits.) */
  lemma ArrivesExactly(k: nat)
    requires k < 0x1_0000_0000
    ensures AlwaysDelivered(k) <==> k < 256
  {
    if k < 256 {
      forall c: Call, m: Cpu, ret: Word64 | CallOk(c, m) && k < |c.cs|
        ensures Delivered(c, m, ret, k)
      {
        FirstDelivered(c, m, ret, k);
      }
    } else {
      LaterLost(k);
    }
  }

  lemma FirstDelivered(c: Call, m: Cpu, ret: Word64, k: nat)
    requires CallOk(c, m) && k < |c.cs| && k < 256
    ensures Delivered(c, m, ret, k)
  {
    hide ExecAll, BeforeCall, Inside, StackBytes, FrameBytes, Ready, Received, Places;
    SysVAgrees(c.cs, c.rs, c.offs, c.buf, c.ids, c.values, m, ret);
    var m1 := ExecAll(BeforeCall(c.cs, c.rs, c.offs, c.buf), m).value;
    var site := SysVSite(c.cs, c.rs, c.offs, c.ids, c.values, m.Get(Rbp) + c.buf);
    assert Arrived(site, m, Inside(site, m1, ret).value, k);
  }

  /** `k + 1` integers, all in one slot, the last one perhaps in another. */
  function Wide(k: nat, last: int): Call {
    Call(seq(k + 1, i => I), [], seq(k, i => -8) + [last], 0, seq(k + 1, i => i), k + 1)
  }

  /** A caller whose first slot holds 1 and whose second holds 0. */
  function Caller(): Cpu {
    Cpu(map[Rbp := 0x1_0000_0000_0010, Rsp := 0x1_0000_0000_0000], map[], map[0x1_0000_0000_0008 := 1],
        Flags(false, false, false, false), Fp(w => w, w => w))
  }

  lemma WideOk(k: nat, last: int)
    requires k < 0x1_0000_0000 && -16 <= last
    ensures CallOk(Wide(k, last), Caller())
  {
    var c := Wide(k, last);
    FewStacked(c.cs[..Capped(|c.cs|)], 0, Capped(|c.cs|));
  }

  lemma {:induction false} FewStacked(cs: seq<Class>, res: nat, i: nat)
    requires i <= |cs|
    ensures Stacked(cs, res, i) <= i
  {
    if i > 0 {
      FewStacked(cs, res, i - 1);
    }
  }

  /** Two calls that differ in where argument `k` is look the same to the callee, so it cannot get
      both values. */
  lemma LaterLost(k: nat)
    requires 256 <= k < 0x1_0000_0000
    ensures !AlwaysDelivered(k)
  {
    hide CallOk, BeforeCall, ExecAll, Entry, ParamsCode, Called, Places, StackBytes;
    var a, b, m := Wide(k, -8), Wide(k, -16), Caller();
    WideOk(k, -8);
    WideOk(k, -16);
    assert a.offs[..256] == b.offs[..256];
    LaterIgnored(a.cs, a.rs, a.offs, b.offs, a.buf);
    assert InsideCall(a, m, 0) == InsideCall(b, m, 0);
    assert m.At(m.Get(Rbp) - 8) == 1 && m.At(m.Get(Rbp) - 16) == 0;
    assert !Delivered(a, m, 0, k) || !Delivered(b, m, 0, k);
  }
}
