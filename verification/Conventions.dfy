/** Both calling conventions register by register, as the psABI and the Win64 convention have them:
    what a function in another language finds, and what it has to leave. */
module Conventions {
  import opened Wrappers
  import opened Word
  import opened Asm
  import opened Passing
  import opened CallArgs
  import opened Calling
  import opened Calls
  import Returns
  import Win64

  function Min(a: int, b: int): int {
    if a < b then a else b
  }

  /** How many of the first `k` arguments are integers or pointers. */
  function IntsBefore(cs: seq<Class>, k: nat): nat
    requires k <= |cs|
  {
    multiset(cs[..k])[I]
  }

  /** The word of argument `k` when `h` integer registers hold something else: integers and floats
      take their registers in order, and the rest are on the stack in order. */
  function AbiWord(cs: seq<Class>, h: nat, k: nat, m: Cpu, sp: int): Word64
    requires k < |cs| && h <= 1
  {
    var ints := IntsBefore(cs, k);
    var floats := k - ints;
    if cs[k] == I && h + ints < 6 then m.Get([Rdi, Rsi, Rdx, Rcx, R8, R9][h + ints])
    else if cs[k] != I && 0 <= floats < 8 then m.GetX(floats)
    else m.At(sp + 8 * (k - Min(ints, 6 - h) - Min(floats, 8)))
  }

  lemma {:induction false} CountsAre(cs: seq<Class>, h: nat, k: nat)
    requires k <= |cs| && h <= 1
    ensures Ints(cs, k) == IntsBefore(cs, k) && Floats(cs, k) == k - IntsBefore(cs, k)
    ensures Stacked(cs, h, k) == k - Min(IntsBefore(cs, k), 6 - h) - Min(k - IntsBefore(cs, k), 8)
  {
    if k > 0 {
      CountsAre(cs, h, k - 1);
      assert cs[..k] == cs[..k - 1] + [cs[k - 1]];
    }
  }

  lemma PlaceIsAbi(cs: seq<Class>, h: nat, k: nat, m: Cpu, sp: int)
    requires k < |cs| && h <= 1
    ensures Held(m, PlaceOf(cs, h, k), sp) == AbiWord(cs, h, k, m, sp)
  {
    CountsAre(cs, h, k);
  }

  /** How many arguments there are, floats, and words on the stack. */
  lemma TotalsAre(cs: seq<Class>, h: nat)
    requires h <= 1
    ensures
      var n := Min(|cs|, 256);
      var floats := n - IntsBefore(cs, n);
      && FloatRegs(cs) == Min(floats, 8)
      && StackBytes(cs[..n], h) == (8 * (n - Min(n - floats, 6 - h) - Min(floats, 8)) + 15) / 16 * 16
  {
    var n := Capped(|cs|);
    CountsAre(cs[..n], h, n);
    assert cs[..n][..n] == cs[..n];
  }

  /** Section 3.2.3 of the psABI at the call: the words of the first 256 arguments (a single in the
      low half of its word), the address of the result buffer in rdi if there are more than two
      results, the number of float registers in al, and rsp a multiple of 16 under the stack words. */
  lemma CallerKeepsAbi(cs: seq<Class>, rs: seq<Class>, offs: seq<int>, buf: int, m: Cpu)
    requires |cs| == |offs| && Ready(cs, rs, offs, buf, m)
    ensures
      var h := if |rs| > 2 then 1 else 0;
      var n := Min(|cs|, 256);
      var floats := n - IntsBefore(cs, n);
      match ExecAll(BeforeCall(cs, rs, offs, buf), m)
      case None => false
      case Some(m1) =>
        && (forall k: nat :: k < n ==>
              var u := AbiWord(cs, h, k, m1, m1.Get(Rsp));
              var w := m.At(m.Get(Rbp) + offs[k]);
              if cs[k] == F then u % 0x1_0000_0000 == m.fp.narrow(w) % 0x1_0000_0000 else u == w)
        && (h == 1 ==> m1.Get(Rdi) == m.Get(Rbp) + buf)
        && m1.Get(Rax) % 0x100 == Min(floats, 8)
        && m1.Get(Rsp) % 16 == 0
        && m1.Get(Rsp) == m.Get(Rsp) - (8 * (n - Min(n - floats, 6 - h) - Min(floats, 8)) + 15) / 16 * 16
  {
    hide Exec, ExecAll, BeforeCall, AbiWord, StackBytes, FloatRegs, Ready, IntsBefore;
    var h := if |rs| > 2 then 1 else 0;
    var ids: seq<nat> := [];
    BeforeCallRight(cs, rs, offs, buf, ids, 0, m);
    TotalsAre(cs, h);
    var m1 := ExecAll(BeforeCall(cs, rs, offs, buf), m).value;
    forall k: nat | k < Min(|cs|, 256)
      ensures Carries(cs[k], AbiWord(cs, h, k, m1, m1.Get(Rsp)), m.At(m.Get(Rbp) + offs[k]), m.fp)
    {
      assert Placed(SysVSite(cs, rs, offs, ids, 0, m.Get(Rbp) + buf), m, m1, k);
      PlaceIsAbi(cs, h, k, m1, m1.Get(Rsp));
    }
  }

  /** Parameter `k` has the word of its argument; a single is widened. */
  ghost predicate ParamFound(cs: seq<Class>, h: nat, ids: seq<nat>, m: Cpu, m': Cpu, k: nat)
    requires |cs| == |ids| && h <= 1
  {
    k < |cs| ==>
      var u := AbiWord(cs, h, k, m, m.Get(Rsp) + 8);
      m'.At(m.Get(Rsp) - 8 - 8 * (ids[k] + 1)) == if cs[k] == F then U(m.fp.widen(u % 0x1_0000_0000)) else u
  }

  /** And at the first instruction of the callee, whoever calls it: each parameter gets the word of
      its argument, and the hidden pointer is taken from rdi. All values have a slot above rsp, which
      is a multiple of 16 again. */
  lemma CalleeKeepsAbi(cs: seq<Class>, rs: seq<Class>, ids: seq<nat>, values: nat, m: Cpu)
    requires |cs| == |ids| && Distinct(ids) && forall k :: 0 <= k < |ids| ==> ids[k] < values
    requires m.Get(Rsp) >= 8 + FrameBytes(values, if |rs| > 2 then 1 else 0)
    ensures
      var h := if |rs| > 2 then 1 else 0;
      match ExecAll(Entry(values, h, HiddenReg(h)) + ParamsCode(cs, Places(cs, h), ids, 0), m)
      case None => false
      case Some(m') =>
        && m'.Get(Rbp) == m.Get(Rsp) - 8
        && (forall k: nat :: ParamFound(cs, h, ids, m, m', k))
        && (h == 1 ==> m'.At(m.Get(Rsp) - 8 - 8 * (values + 1)) == m.Get(Rdi))
        && m'.Get(Rsp) <= m'.Get(Rbp) - 8 * (values + h)
        && ((m.Get(Rsp) + 8) % 16 == 0 ==> m'.Get(Rsp) % 16 == 0)
  {
    hide ExecAll, Entry, ParamsCode, FrameBytes, ParamFound, Entered, ParamsKept, Places, Distinct;
    var h := if |rs| > 2 then 1 else 0;
    var m3, m' := CalleeRuns(cs, h, ids, values, m);
    forall k: nat
      ensures ParamFound(cs, h, ids, m, m', k)
    {
      KeptIsFound(cs, h, ids, values, m, m3, m', k);
    }
    FrameFound(cs, h, ids, values, m, m3, m');
  }

  lemma FrameFound(cs: seq<Class>, h: nat, ids: seq<nat>, values: nat, m: Cpu, m3: Cpu, m': Cpu)
    requires |cs| == |ids| && h <= 1 && Entered(values, h, HiddenReg(h), m, m3)
    requires ParamsKept(cs, Places(cs, h), ids, 0, m3, m') && forall k :: 0 <= k < |ids| ==> ids[k] < values
    ensures m'.Get(Rbp) == m.Get(Rsp) - 8 && m'.Get(Rsp) <= m'.Get(Rbp) - 8 * (values + h)
    ensures h == 1 ==> m'.At(m.Get(Rsp) - 8 - 8 * (values + 1)) == m.Get(Rdi)
    ensures (m.Get(Rsp) + 8) % 16 == 0 ==> m'.Get(Rsp) % 16 == 0
  {
    hide OtherWord, Places, ParamKept;
    HiddenStays(ids, values, m3, m');
    Aligned16(m.Get(Rsp), FrameBytes(values, h));
  }

  lemma Aligned16(sp: int, n: nat)
    requires n % 16 == 0
    ensures (sp + 8) % 16 == 0 ==> (sp - 8 - n) % 16 == 0
  {
  }

  lemma CalleeRuns(cs: seq<Class>, h: nat, ids: seq<nat>, values: nat, m: Cpu) returns (m3: Cpu, m': Cpu)
    requires |cs| == |ids| && Distinct(ids) && h <= 1 && m.Get(Rsp) >= 8 + FrameBytes(values, h)
    ensures ExecAll(Entry(values, h, HiddenReg(h)) + ParamsCode(cs, Places(cs, h), ids, 0), m) == Some(m')
    ensures Entered(values, h, HiddenReg(h), m, m3) && ParamsKept(cs, Places(cs, h), ids, 0, m3, m')
  {
    hide ExecAll, Entry, ParamsCode, FrameBytes, Readable, PlanOk, Entered, ParamsKept, Distinct, PlaceOf;
    var entry, params := Entry(values, h, HiddenReg(h)), ParamsCode(cs, Places(cs, h), ids, 0);
    SysVOk(cs, h);
    EntryRight(values, h, HiddenReg(h), m);
    m3 := ExecAll(entry, m).value;
    ParamsRight(cs, Places(cs, h), ids, 0, m3);
    m' := ExecAll(params, m3).value;
    ExecAppend(entry, params, m);
  }

  /** No parameter has the slot of the hidden pointer. */
  lemma HiddenStays(ids: seq<nat>, values: nat, m3: Cpu, m': Cpu)
    requires OtherWord(ids, 0, m3, m', m3.Get(Rbp) + HiddenOff(values))
    requires forall k :: 0 <= k < |ids| ==> ids[k] < values
    ensures m'.At(m3.Get(Rbp) + HiddenOff(values)) == m3.At(m3.Get(Rbp) + HiddenOff(values))
  {
  }

  lemma KeptIsFound(cs: seq<Class>, h: nat, ids: seq<nat>, values: nat, m: Cpu, m3: Cpu, m': Cpu, k: nat)
    requires |cs| == |ids| && h <= 1 && Entered(values, h, HiddenReg(h), m, m3)
    requires ParamsKept(cs, Places(cs, h), ids, 0, m3, m')
    ensures ParamFound(cs, h, ids, m, m', k)
  {
    hide FrameBytes, AbiWord, PlaceOf, U, OtherWord;
    assert ParamKept(cs, Places(cs, h), ids, 0, m3, m', k);
    if k < |cs| {
      PlaceIsAbi(cs, h, k, m, m.Get(Rsp) + 8);
      PlaceNotFrame(cs, h, k);
    }
  }

  lemma PlaceNotFrame(cs: seq<Class>, h: nat, k: nat)
    requires k < |cs|
    ensures PlaceOf(cs, h, k) != InReg(Rsp) && PlaceOf(cs, h, k) != InReg(Rbp)
  {
  }

  // ----- results -----

  /** Up to two results: the first in rax or xmm0, the second in rdx or xmm1 (by position, also
      when the first is of the other kind). More are stored behind the hidden pointer, which rax
      then holds. */
  lemma ResultsLeft(rs: seq<Class>, values: nat, offs: seq<int>, m: Cpu)
    requires |rs| == |offs|
    requires |rs| > 2 ==> forall k :: 0 <= k < |offs| ==> m.Get(Rbp) + offs[k] < m.At(m.Get(Rbp) - 8 * (values + 1))
    ensures
      match ExecAll(Returns.RetCode(rs, values, offs), m)
      case None => false
      case Some(m') =>
        && (|rs| <= 2 ==> forall k: nat :: k < |rs| ==>
              var u := if rs[k] == I then m'.Get([Rax, Rdx][k]) else m'.GetX([0, 1][k]);
              var w := m.At(m.Get(Rbp) + offs[k]);
              if rs[k] == F then u % 0x1_0000_0000 == m.fp.narrow(w) % 0x1_0000_0000 else u == w)
        && (|rs| > 2 ==>
              var p := m.At(m.Get(Rbp) - 8 * (values + 1));
              m'.Get(Rax) == p && forall k: nat :: k < |rs| ==> m'.At(p + 8 * k) == m.At(m.Get(Rbp) + offs[k]))
  {
    hide ExecAll, Returns.RetCode;
    var p := m.At(m.Get(Rbp) - 8 * (values + 1));
    if |rs| > 2 {
      Returns.RetManyRight(rs, values, offs, p, m);
    } else {
      Returns.RetFewRight(rs, values, offs, p, m);
      var m' := ExecAll(Returns.RetCode(rs, values, offs), m).value;
      forall k: nat | k < |rs|
        ensures
          var u := if rs[k] == I then m'.Get([Rax, Rdx][k]) else m'.GetX([0, 1][k]);
          Carries(rs[k], u, m.At(m.Get(Rbp) + offs[k]), m.fp)
      {
        assert Returns.InRegisters(rs, offs, m, m', k);
      }
    }
  }

  /** Where result `k` is read, there is the word of its register, or what the buffer holds. */
  ghost predicate ResultTaken(rs: seq<Class>, buf: int, slot: int, m: Cpu, m': Cpu, k: nat) {
    k < |rs| ==>
      var w := m'.At(m.Get(Rbp) + (if |rs| == 1 then slot else buf + 8 * k));
      if |rs| > 2 then w == m.At(m.Get(Rbp) + buf + 8 * k)
      else
        var u := if rs[k] == I then m.Get([Rax, Rdx][k]) else m.GetX([0, 1][k]);
        w == if rs[k] == F then U(m.fp.widen(u % 0x1_0000_0000)) else u
  }

  /** After the call one or two results are taken from these registers, and more from the buffer. */
  lemma ResultsTaken(rs: seq<Class>, buf: int, slot: int, m: Cpu)
    requires |rs| >= 2 ==> slot >= buf + 8 * |rs|
    ensures
      match ExecAll(Returns.ReadBack(rs, buf, slot), m)
      case None => false
      case Some(m') => forall k: nat :: ResultTaken(rs, buf, slot, m, m', k)
  {
    hide ExecAll, Returns.ReadBack;
    Returns.ReadBackRight(rs, buf, slot, m);
    var m' := ExecAll(Returns.ReadBack(rs, buf, slot), m).value;
    forall k: nat
      ensures ResultTaken(rs, buf, slot, m, m', k)
    {
      assert Returns.Recovered(rs, buf, slot, m, m', k);
    }
  }

  // ----- Win64 -----

  /** The word at position `pos`. */
  function WinWord(c: Class, pos: nat, m: Cpu): Word64 {
    if pos >= 4 then m.At(m.Get(Rsp) + 32 + 8 * (pos - 4))
    else if c == I then m.Get([Rcx, Rdx, R8, R9][pos])
    else m.GetX(pos)
  }

  /** Argument `k` is at position `k + res`, and a float also in the integer register there. */
  ghost predicate WinPassed(cs: seq<Class>, res: nat, offs: seq<int>, m: Cpu, m1: Cpu, k: nat)
    requires |cs| == |offs|
  {
    k < |cs| && k < 256 ==>
      var u := WinWord(cs[k], k + res, m1);
      var w := m.At(m.Get(Rbp) + offs[k]);
      && (if cs[k] == F then u % 0x1_0000_0000 == m.fp.narrow(w) % 0x1_0000_0000 else u == w)
      && (k + res < 4 ==> m1.Get([Rcx, Rdx, R8, R9][k + res]) == u)
  }

  /** Win64: the position alone decides. The stack words start above 32 bytes of shadow space, and
      rcx has the hidden pointer. */
  lemma CallerKeepsWin64(cs: seq<Class>, res: nat, offs: seq<int>, buf: int, m: Cpu)
    requires |cs| == |offs| && Win64.WinReady(cs, res, offs, buf, m)
    ensures
      match ExecAll(Win64.WinBefore(cs, res, offs, buf), m)
      case None => false
      case Some(m1) =>
        var words := Min(|cs|, 256) + res;
        && (forall k: nat :: WinPassed(cs, res, offs, m, m1, k))
        && (res == 1 ==> m1.Get(Rcx) == m.Get(Rbp) + buf)
        && m1.Get(Rsp) % 16 == 0
        && m1.Get(Rsp) == m.Get(Rsp) - (32 + 8 * (if words > 4 then words - 4 else 0) + 15) / 16 * 16
  {
    hide Exec, ExecAll, Win64.WinBefore, Win64.WinReady, WinPassed, Placed, Win64.Copied;
    var ids: seq<nat> := [];
    Win64.WinBeforeRight(cs, res, offs, buf, ids, 0, m);
    var m1 := ExecAll(Win64.WinBefore(cs, res, offs, buf), m).value;
    forall k: nat
      ensures WinPassed(cs, res, offs, m, m1, k)
    {
      assert Placed(Win64.WinSite(cs, res, offs, ids, 0, m.Get(Rbp) + buf), m, m1, k);
      assert Win64.Copied(cs, res, m1, k);
      WinPlacedIsPassed(cs, res, offs, buf, m, m1, k);
    }
  }

  lemma WinPlacedIsPassed(cs: seq<Class>, res: nat, offs: seq<int>, buf: int, m: Cpu, m1: Cpu, k: nat)
    requires |cs| == |offs| && Win64.Copied(cs, res, m1, k)
    requires Placed(Win64.WinSite(cs, res, offs, [], 0, m.Get(Rbp) + buf), m, m1, k)
    ensures WinPassed(cs, res, offs, m, m1, k)
  {
    hide Win64.WinBytes;
  }
}
