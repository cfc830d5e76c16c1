/** The two sides of the calling convention as the back end computes them, with counters that
    are updated argument by argument. */
module CallEmitter {
  import opened Wrappers
  import opened Asm
  import opened Passing
  import opened CallArgs
  import opened Calls

  class Output {
    var out: seq<Instr>

    constructor ()
      ensures out == []
    {
      out := [];
    }

    /** The first loop of ST_emit_call_args: which arguments find no register. */
    method Classify(cs: seq<Class>, reserved: nat) returns (stackArg: array<bool>, slots: nat)
      requires |cs| <= 256 && reserved <= 1
      ensures fresh(stackArg) && stackArg.Length == 256 && slots == Stacked(cs, reserved, |cs|)
      ensures forall k :: 0 <= k < |cs| ==> stackArg[k] == OnStack(cs, reserved, k)
    {
      stackArg := new bool[256];
      var intIdx, floatIdx := reserved, 0;
      slots := 0;
      for i := 0 to |cs|
        invariant intIdx == Least(reserved + Ints(cs, i), INT_REGS) && floatIdx == Least(Floats(cs, i), XMM_REGS)
        invariant slots == Stacked(cs, reserved, i)
        invariant forall k :: 0 <= k < i ==> stackArg[k] == OnStack(cs, reserved, k)
      {
        if cs[i].I? {
          stackArg[i] := intIdx >= INT_REGS;
          if !stackArg[i] { intIdx := intIdx + 1; }
        } else {
          stackArg[i] := floatIdx >= XMM_REGS;
          if !stackArg[i] { floatIdx := floatIdx + 1; }
        }
        if stackArg[i] { slots := slots + 1; }
      }
    }

    /** The second loop: the stack arguments. */
    method StackArgs(cs: seq<Class>, offs: seq<int>, reserved: nat, stackArg: array<bool>)
      requires |cs| == |offs| <= stackArg.Length
      requires forall k :: 0 <= k < |cs| ==> stackArg[k] == OnStack(cs, reserved, k)
      modifies this
      ensures out == old(out) + StackPass(cs, SysV(cs, reserved), offs, 0)
    {
      var k := 0;
      for i := 0 to |cs|
        invariant k == Stacked(cs, reserved, i)
        invariant out + StackPass(cs, SysV(cs, reserved), offs, i) == old(out) + StackPass(cs, SysV(cs, reserved), offs, 0)
      {
        ghost var rest := StackPass(cs, SysV(cs, reserved), offs, i + 1);
        if stackArg[i] {
          assert (out + StackArg(cs[i], offs[i], k)) + rest == out + (StackArg(cs[i], offs[i], k) + rest);
          out := out + StackArg(cs[i], offs[i], k);
          k := k + 1;
        } else {
          assert StackPass(cs, SysV(cs, reserved), offs, i) == rest;
        }
      }
    }

    /** The third loop: the register arguments. */
    method RegArgs(cs: seq<Class>, offs: seq<int>, reserved: nat, stackArg: array<bool>) returns (floatIdx: nat)
      requires |cs| == |offs| <= stackArg.Length && reserved <= 1
      requires forall k :: 0 <= k < |cs| ==> stackArg[k] == OnStack(cs, reserved, k)
      modifies this
      ensures out == old(out) + RegPass(cs, SysV(cs, reserved), offs, 0)
      ensures floatIdx == Least(Floats(cs, |cs|), XMM_REGS)
    {
      hide RegPass, StackPass;
      var intIdx := reserved;
      floatIdx := 0;
      for i := 0 to |cs|
        invariant intIdx == Least(reserved + Ints(cs, i), INT_REGS) && floatIdx == Least(Floats(cs, i), XMM_REGS)
        invariant out + RegPass(cs, SysV(cs, reserved), offs, i) == old(out) + RegPass(cs, SysV(cs, reserved), offs, 0)
      {
        ghost var code := RegArg(cs[i], offs[i], PlaceOf(cs, reserved, i));
        ghost var rest := RegPass(cs, SysV(cs, reserved), offs, i + 1);
        RegArgStep(cs, offs, reserved, i);
        assert (out + code) + rest == out + (code + rest);
        if stackArg[i] {
          assert code == [] && out + code == out;
        } else if !cs[i].I? {
          out := out + RegArg(cs[i], offs[i], InXmm(floatIdx));
          floatIdx := floatIdx + 1;
        } else {
          out := out + RegArg(cs[i], offs[i], InReg(ArgReg(intIdx)));
          intIdx := intIdx + 1;
        }
      }
      NoRegArgs(cs, offs, reserved);
      assert out + [] == out;
    }

    /** ST_emit_call_args. */
    method EmitCallArgs(cs: seq<Class>, offs: seq<int>, reserved: nat) returns (floats: nat, bytes: nat)
      requires |cs| == |offs| && reserved <= 1
      modifies this
      ensures out == old(out) + CallerCode(cs, reserved, offs)
      ensures bytes == StackBytes(cs[..Capped(|cs|)], reserved) && floats == FloatRegs(cs)
    {
      hide StackPass, RegPass;
      var n := if |cs| < 256 then |cs| else 256;
      var args, from := cs[..n], offs[..n];
      var stackArg, slots := Classify(args, reserved);
      bytes := (8 * slots + 15) / 16 * 16;
      ghost var room := if bytes > 0 then [SubSp(bytes)] else [];
      if bytes > 0 {
        out := out + [SubSp(bytes)];
      }
      assert out == old(out) + room;
      StackArgs(args, from, reserved, stackArg);
      floats := RegArgs(args, from, reserved, stackArg);
    }

    /** ST_IR_CALL up to the call instruction. */
    method EmitBefore(cs: seq<Class>, rs: seq<Class>, offs: seq<int>, buf: int) returns (bytes: nat)
      requires |cs| == |offs|
      modifies this
      ensures out == old(out) + BeforeCall(cs, rs, offs, buf)
      ensures bytes == StackBytes(cs[..Capped(|cs|)], Hidden(rs))
    {
      hide CallerCode, StackBytes, FloatRegs;
      var reserved := 0;
      if |rs| > 2 {
        out := out + [Lea(Rdi, Rbp, buf)];
        reserved := 1;
      }
      var floats;
      floats, bytes := EmitCallArgs(cs, offs, reserved);
      out := out + [MovAl(floats)];
    }
  }

  lemma RegArgStep(cs: seq<Class>, offs: seq<int>, reserved: nat, i: nat)
    requires i < |cs| == |offs|
    ensures RegPass(cs, SysV(cs, reserved), offs, i) ==
      RegArg(cs[i], offs[i], PlaceOf(cs, reserved, i)) + RegPass(cs, SysV(cs, reserved), offs, i + 1)
  {
    var code := RegArg(cs[i], offs[i], PlaceOf(cs, reserved, i));
    assert code + MirrorCode(PlaceOf(cs, reserved, i), None) == code;
  }

  lemma NoRegArgs(cs: seq<Class>, offs: seq<int>, reserved: nat)
    requires |cs| == |offs|
    ensures RegPass(cs, SysV(cs, reserved), offs, |cs|) == []
  {
  }

  function Least(a: nat, b: nat): nat {
    if a < b then a else b
  }

  /** ST_gen_ctx_t: the parameters of a function are read in order, through three counters. */
  class ParamReader {
    const hidden: bool
    var nextInt: nat
    var nextFloat: nat
    var nextStack: nat
    var out: seq<Instr>
    ghost var seen: seq<Class>

    ghost predicate Valid()
      reads this
    {
      var shift := if hidden then 1 else 0;
      && nextInt + shift == Least(shift + Ints(seen, |seen|), INT_REGS)
      && nextFloat == Least(Floats(seen, |seen|), XMM_REGS)
      && nextStack == Stacked(seen, shift, |seen|)
    }

    constructor (h: bool)
      ensures Valid() && hidden == h && seen == [] && out == []
    {
      hidden, nextInt, nextFloat, nextStack, out, seen := h, 0, 0, 0, [], [];
    }

    /** ST_IR_PARAM and its spill: the parameter is taken from the place that the convention
        gives to the next one of its class. */
    method GenerateParam(c: Class, id: nat)
      requires Valid()
      modifies this
      ensures Valid() && seen == old(seen) + [c]
      ensures out == old(out) + ParamCode(c, PlaceOf(seen, if hidden then 1 else 0, |old(seen)|), id)
    {
      var shift := if hidden then 1 else 0;
      ghost var n := |seen|;
      seen := seen + [c];
      assert seen[..n] == old(seen);
      PlacesOfPrefix(seen, shift, n, n);
      var p;
      if !c.I? {
        if nextFloat >= XMM_REGS {
          p := InStack(nextStack);
          nextStack := nextStack + 1;
        } else {
          p := InXmm(nextFloat);
          nextFloat := nextFloat + 1;
        }
      } else {
        var idx := nextInt + shift;
        if idx >= INT_REGS {
          p := InStack(nextStack);
          nextStack := nextStack + 1;
        } else {
          p := InReg(ArgReg(idx));
          nextInt := nextInt + 1;
        }
      }
      assert p == PlaceOf(seen, shift, n);
      out := out + ParamCode(c, p, id);
    }

    /** The parameter instructions of a whole signature. */
    method GenerateParams(cs: seq<Class>, ids: seq<nat>)
      requires Valid() && seen == [] && |cs| == |ids|
      modifies this
      ensures Valid() && seen == cs
      ensures out == old(out) + ParamsCode(cs, Places(cs, if hidden then 1 else 0), ids, 0)
    {
      hide ParamCode, PlaceOf;
      ghost var shift := if hidden then 1 else 0;
      for i := 0 to |cs|
        invariant Valid() && seen == cs[..i]
        invariant out + ParamsCode(cs, Places(cs, shift), ids, i) == old(out) + ParamsCode(cs, Places(cs, shift), ids, 0)
      {
        ghost var code := ParamCode(cs[i], PlaceOf(cs, shift, i), ids[i]);
        assert (out + code) + ParamsCode(cs, Places(cs, shift), ids, i + 1) == out + ParamsCode(cs, Places(cs, shift), ids, i);
        GenerateParam(cs[i], ids[i]);
        assert seen == cs[..i + 1];
        PlacesOfPrefix(cs, shift, i + 1, i);
      }
    }
  }
}
