/** Calls under the Win64 convention: arguments take the registers by position, a float leaves a
    copy in the integer register of its position, and stack words start above the shadow space. */
module Win64 {
  import opened Wrappers
  import opened Word
  import opened Asm
  import opened Passing
  import opened CallArgs
  import opened Calling

  const WIN_REGS: nat := 4

  function WinReg(pos: nat): Reg {
    match pos
    case 0 => Rcx
    case 1 => Rdx
    case 2 => R8
    case _ => R9
  }

  /** Stack words are counted from rsp, so position `pos` is at 32 + 8 (pos - 4). */
  function WinPlace(c: Class, pos: nat): Place {
    if pos >= WIN_REGS then InStack(pos) else if c.I? then InReg(WinReg(pos)) else InXmm(pos)
  }

  function WinPlaces(cs: seq<Class>, res: nat): (ps: seq<Place>)
    ensures |ps| == |cs| && forall i :: 0 <= i < |cs| ==> ps[i] == WinPlace(cs[i], i + res)
  {
    seq(|cs|, i requires 0 <= i < |cs| => WinPlace(cs[i], i + res))
  }

  function WinMirror(c: Class, pos: nat): Option<Reg> {
    if pos < WIN_REGS && !c.I? then Some(WinReg(pos)) else None
  }

  function WinMirrors(cs: seq<Class>, res: nat): (ms: seq<Option<Reg>>)
    ensures |ms| == |cs| && forall i :: 0 <= i < |cs| ==> ms[i] == WinMirror(cs[i], i + res)
  {
    seq(|cs|, i requires 0 <= i < |cs| => WinMirror(cs[i], i + res))
  }

  function WinPlan(cs: seq<Class>, res: nat): Plan {
    Plan(WinPlaces(cs, res), WinMirrors(cs, res))
  }

  /** The shadow space and the stack arguments, rounded up to 16 bytes. */
  function WinBytes(n: nat, res: nat): (b: nat)
    ensures b % 16 == 0 && b >= 32 && b >= 8 * (n + res)
  {
    var stack := if n + res > WIN_REGS then n + res - WIN_REGS else 0;
    (32 + stack * 8 + 15) / 16 * 16
  }

  function WinHidden(res: nat): Reg {
    if res == 1 then Rcx else Rax
  }

  lemma WinPlanOk(cs: seq<Class>, res: nat)
    requires res <= 1
    ensures PlanOk(cs, WinPlan(cs, res), |cs| + res, WinHidden(res)) && Readable(cs, WinPlaces(cs, res))
  {
    hide WinPlace, WinMirror, Suits, MirrorSuits, Fitting, Apart;
    var ps, ms := WinPlaces(cs, res), WinMirrors(cs, res);
    forall i | 0 <= i < |cs|
      ensures Suits(cs[i], ps[i], |cs| + res, WinHidden(res)) && MirrorSuits(ps[i], ms[i], WinHidden(res))
      ensures Fitting(cs[i], ps[i]) && (ps[i] == InXmm(0) ==> i + res == 0)
    {
      WinPlaceOk(cs[i], i + res, |cs| + res, res);
    }
    forall i, j | 0 <= i < |cs| && 0 <= j < |cs| && i != j
      ensures Apart(ps[i], ms[i], ps[j], ms[j])
    {
      WinApart(cs[i], i + res, cs[j], j + res);
    }
  }

  lemma WinPlaceOk(c: Class, pos: nat, words: nat, res: nat)
    requires res <= pos < words && res <= 1
    ensures Suits(c, WinPlace(c, pos), words, WinHidden(res))
    ensures MirrorSuits(WinPlace(c, pos), WinMirror(c, pos), WinHidden(res))
    ensures Fitting(c, WinPlace(c, pos)) && (WinPlace(c, pos) == InXmm(0) ==> pos == 0)
  {
  }

  lemma WinApart(c: Class, p: nat, d: Class, q: nat)
    requires p != q
    ensures Apart(WinPlace(c, p), WinMirror(c, p), WinPlace(d, q), WinMirror(d, q))
  {
  }

  function WinLea(res: nat, buf: int): seq<Instr> {
    if res == 1 then [Lea(Rcx, Rbp, buf)] else []
  }

  /** ST_emit_call_args, then the hidden pointer. */
  function WinBefore(cs: seq<Class>, res: nat, offs: seq<int>, buf: int): seq<Instr>
    requires |cs| == |offs|
  {
    var n := Capped(|cs|);
    PassAll(cs[..n], WinPlan(cs[..n], res), offs[..n], WinBytes(n, res)) + WinLea(res, buf)
  }

  function WinSite(cs: seq<Class>, res: nat, offs: seq<int>, ids: seq<nat>, values: nat, addr: int): Site {
    Site(cs, WinPlaces(cs, res), Capped(|cs|), offs, WinBytes(Capped(|cs|), res), res, WinHidden(res), addr, ids, values)
  }

  ghost predicate WinReady(cs: seq<Class>, res: nat, offs: seq<int>, buf: int, m: Cpu)
    requires |cs| == |offs|
  {
    && res <= 1 && m.Get(Rsp) % 16 == 0 && m.Get(Rsp) >= WinBytes(Capped(|cs|), res)
    && (forall k :: 0 <= k < |offs| ==> m.Get(Rbp) + offs[k] >= m.Get(Rsp))
    && (res == 1 ==> 0 <= m.Get(Rbp) + buf < W)
  }

  lemma WinLeaRight(res: nat, buf: int, m: Cpu)
    requires res == 1 ==> 0 <= m.Get(Rbp) + buf < W
    ensures ExecAll(WinLea(res, buf), m).Some?
    ensures RegSet(m, ExecAll(WinLea(res, buf), m).value, Rcx, if res == 1 then m.Get(Rbp) + buf else m.Get(Rcx))
  {
    hide Exec;
    if res == 1 {
      LeaDone(m, Rcx, Rbp, buf);
      Run1(Lea(Rcx, Rbp, buf), m);
    } else {
      ExecNil(m);
    }
  }

  lemma WinPassed(cs: seq<Class>, res: nat, offs: seq<int>, buf: int, m: Cpu)
    requires |cs| == |offs| && WinReady(cs, res, offs, buf, m)
    ensures
      var n := Capped(|cs|);
      var code := PassAll(cs[..n], WinPlan(cs[..n], res), offs[..n], WinBytes(n, res));
      && ExecAll(code, m).Some? && ExecAll(code, m).value.Get(Rbp) == m.Get(Rbp)
      && ExecAll(code, m).value.Get(Rsp) == m.Get(Rsp) - WinBytes(n, res)
      && Passed(cs[..n], WinPlan(cs[..n], res), offs[..n], WinBytes(n, res), WinHidden(res), m, ExecAll(code, m).value)
  {
    hide Exec, ExecAll, Carries, ArgCarries, PassAll, PlanOk, WinBytes, Fitting, Readable;
    var n := Capped(|cs|);
    WinPlanOk(cs[..n], res);
    PassAllRight(cs[..n], WinPlan(cs[..n], res), offs[..n], n + res, WinBytes(n, res), WinHidden(res), m);
  }

  /** Argument `k`, if it is a float in a register, is also in the integer register of its position. */
  ghost predicate Copied(cs: seq<Class>, res: nat, m: Cpu, k: nat) {
    k < |cs| && k < Capped(|cs|) ==> Mirrored(WinPlace(cs[k], k + res), WinMirror(cs[k], k + res), m)
  }

  /** At the call the arguments are where the positions say, and rsp is a multiple of 16. */
  lemma WinBeforeRight(cs: seq<Class>, res: nat, offs: seq<int>, buf: int, ids: seq<nat>, values: nat, m: Cpu)
    requires |cs| == |offs| && WinReady(cs, res, offs, buf, m)
    ensures
      match ExecAll(WinBefore(cs, res, offs, buf), m)
      case None => false
      case Some(m1) =>
        && AtCall(WinSite(cs, res, offs, ids, values, m.Get(Rbp) + buf), m, m1) && m1.Get(Rsp) % 16 == 0
        && forall k: nat :: Copied(cs, res, m1, k)
  {
    hide Exec, ExecAll, Passed, AtCall, PassAll, WinBytes, WinLea, RegSet, Copied;
    var n := Capped(|cs|);
    var code := PassAll(cs[..n], WinPlan(cs[..n], res), offs[..n], WinBytes(n, res));
    WinPassed(cs, res, offs, buf, m);
    var m1 := ExecAll(code, m).value;
    WinLeaRight(res, buf, m1);
    ExecAppend(code, WinLea(res, buf), m);
    var m2 := ExecAll(WinLea(res, buf), m1).value;
    WinPlaced(cs, res, offs, buf, ids, values, m, m1, m2);
    AtCallAligned(WinSite(cs, res, offs, ids, values, m.Get(Rbp) + buf), m, m2);
  }

  lemma WinPlaced(cs: seq<Class>, res: nat, offs: seq<int>, buf: int, ids: seq<nat>, values: nat, m: Cpu, m1: Cpu, m2: Cpu)
    requires |cs| == |offs| && res <= 1
    requires
      var n := Capped(|cs|);
      Passed(cs[..n], WinPlan(cs[..n], res), offs[..n], WinBytes(n, res), WinHidden(res), m, m1)
    requires RegSet(m1, m2, Rcx, if res == 1 then m1.Get(Rbp) + buf else m1.Get(Rcx))
    ensures AtCall(WinSite(cs, res, offs, ids, values, m.Get(Rbp) + buf), m, m2)
    ensures forall k: nat :: Copied(cs, res, m2, k)
  {
    hide Carries, WinBytes, ArgCarries, Placed, Copied;
    var n := Capped(|cs|);
    var c := WinSite(cs, res, offs, ids, values, m.Get(Rbp) + buf);
    assert forall a :: m2.At(a) == m1.At(a);
    forall k: nat
      ensures Placed(c, m, m2, k) && Copied(cs, res, m2, k)
    {
      assert ArgCarries(cs[..n], WinPlan(cs[..n], res), offs[..n], m, m1, m1.Get(Rsp), k);
      WinPlacedOne(cs, res, offs, buf, ids, values, m, m1, m2, k);
    }
  }

  lemma WinPlacedOne(cs: seq<Class>, res: nat, offs: seq<int>, buf: int, ids: seq<nat>, values: nat,
                     m: Cpu, m1: Cpu, m2: Cpu, k: nat)
    requires |cs| == |offs| && res <= 1 && m1.Get(Rbp) == m.Get(Rbp) && m1.fp == m.fp
    requires
      var n := Capped(|cs|);
      ArgCarries(cs[..n], WinPlan(cs[..n], res), offs[..n], m, m1, m1.Get(Rsp), k)
    requires RegSet(m1, m2, Rcx, if res == 1 then m1.Get(Rbp) + buf else m1.Get(Rcx))
    ensures Placed(WinSite(cs, res, offs, ids, values, m.Get(Rbp) + buf), m, m2, k) && Copied(cs, res, m2, k)
  {
    hide Carries, WinBytes;
    assert forall a :: m2.At(a) == m1.At(a);
  }

  /** For every signature: what the code before the call passes, the parameter instructions read. */
  lemma WinAgrees(cs: seq<Class>, res: nat, offs: seq<int>, buf: int, ids: seq<nat>, values: nat, m: Cpu, ret: Word64)
    requires |cs| == |offs| == |ids| && Distinct(ids) && forall k :: 0 <= k < |ids| ==> ids[k] < values
    requires WinReady(cs, res, offs, buf, m) && m.Get(Rsp) >= WinBytes(Capped(|cs|), res) + 16 + FrameBytes(values, res)
    ensures
      var c := WinSite(cs, res, offs, ids, values, m.Get(Rbp) + buf);
      match ExecAll(WinBefore(cs, res, offs, buf), m)
      case None => false
      case Some(m1) =>
        && m1.Get(Rsp) % 16 == 0
        && match Inside(c, m1, ret)
           case None => false
           case Some(m') => InCallee(c, m, m', ret)
  {
    hide ExecAll, WinBefore, WinBytes, FrameBytes, AtCall, InCallee, Readable;
    var c := WinSite(cs, res, offs, ids, values, m.Get(Rbp) + buf);
    WinBeforeRight(cs, res, offs, buf, ids, values, m);
    WinPlanOk(cs, res);
    ArgumentsArrive(c, m, ExecAll(WinBefore(cs, res, offs, buf), m).value, ret);
  }

  lemma WinStackStep(cs: seq<Class>, res: nat, offs: seq<int>, i: nat)
    requires i <= |cs| == |offs|
    ensures StackPass(cs, WinPlan(cs, res), offs, i) ==
      if i == |cs| then []
      else (if i + res >= WIN_REGS then StackArg(cs[i], offs[i], i + res) else []) + StackPass(cs, WinPlan(cs, res), offs, i + 1)
  {
    hide StackArg, WinMirror;
  }

  class Output {
    var out: seq<Instr>

    constructor ()
      ensures out == []
    {
      out := [];
    }

    /** ST_emit_call_args of the Win64 back end. */
    method EmitCallArgs(cs: seq<Class>, offs: seq<int>, reserved: nat) returns (bytes: nat)
      requires |cs| == |offs| && reserved <= 1
      modifies this
      ensures
        var n := Capped(|cs|);
        out == old(out) + PassAll(cs[..n], WinPlan(cs[..n], reserved), offs[..n], WinBytes(n, reserved))
      ensures bytes == WinBytes(Capped(|cs|), reserved)
    {
      hide StackPass, RegPass, WinPlan;
      var n := if |cs| < 256 then |cs| else 256;
      var args, from := cs[..n], offs[..n];
      var stack := if n + reserved > WIN_REGS then n + reserved - WIN_REGS else 0;
      bytes := (32 + stack * 8 + 15) / 16 * 16;
      out := out + [SubSp(bytes)];
      assert out == old(out) + Room(bytes);
      StackArgs(args, from, reserved);
      RegArgs(args, from, reserved);
    }

    method StackArgs(cs: seq<Class>, offs: seq<int>, reserved: nat)
      requires |cs| == |offs|
      modifies this
      ensures out == old(out) + StackPass(cs, WinPlan(cs, reserved), offs, 0)
    {
      hide StackArg, StackPass, WinMirror;
      ghost var plan := WinPlan(cs, reserved);
      WinStackStep(cs, reserved, offs, |cs|);
      for i := 0 to |cs|
        invariant out + StackPass(cs, plan, offs, i) == old(out) + StackPass(cs, plan, offs, 0)
      {
        var pos := i + reserved;
        ghost var rest := StackPass(cs, plan, offs, i + 1);
        WinStackStep(cs, reserved, offs, i);
        if pos >= WIN_REGS {
          assert (out + StackArg(cs[i], offs[i], pos)) + rest == out + (StackArg(cs[i], offs[i], pos) + rest);
          out := out + StackArg(cs[i], offs[i], pos);
        } else {
          assert StackPass(cs, plan, offs, i) == rest;
        }
      }
    }

    method RegArgs(cs: seq<Class>, offs: seq<int>, reserved: nat)
      requires |cs| == |offs|
      modifies this
      ensures out == old(out) + RegPass(cs, WinPlan(cs, reserved), offs, 0)
    {
      hide RegArg, MirrorCode, WinPlace, WinMirror;
      ghost var plan := WinPlan(cs, reserved);
      for i := 0 to |cs|
        invariant out + RegPass(cs, plan, offs, i) == old(out) + RegPass(cs, plan, offs, 0)
      {
        var pos := i + reserved;
        var c := cs[i];
        ghost var code := RegArg(c, offs[i], WinPlace(c, pos)) + MirrorCode(WinPlace(c, pos), WinMirror(c, pos));
        ghost var rest := RegPass(cs, plan, offs, i + 1);
        assert (out + code) + rest == out + (code + rest);
        RegArgument(c, offs[i], pos);
      }
    }

    /** One register argument; a float is copied to the integer register of its position. */
    method RegArgument(c: Class, off: int, pos: nat)
      modifies this
      ensures out == old(out) + (RegArg(c, off, WinPlace(c, pos)) + MirrorCode(WinPlace(c, pos), WinMirror(c, pos)))
    {
      if pos < WIN_REGS {
        if c.I? {
          out := out + [Ld(WinReg(pos), Rbp, off)];
        } else {
          var load := if c.F? then [LdX(pos, Rbp, off), Sd2Ss(pos)] else [LdX(pos, Rbp, off)];
          out := out + (load + [MovQ(WinReg(pos), pos)]);
        }
      }
    }
  }
}
