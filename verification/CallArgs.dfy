/** The System V plan: integers and floats take the registers of their kind in order (section
    3.2.3 of the System V AMD64 psABI), and the rest goes to the stack. */
module CallArgs {
  import opened Wrappers
  import opened Asm
  import opened Passing

  const INT_REGS: nat := 6
  const XMM_REGS: nat := 8

  function ArgReg(j: nat): Reg {
    match j
    case 0 => Rdi
    case 1 => Rsi
    case 2 => Rdx
    case 3 => Rcx
    case 4 => R8
    case _ => R9
  }

  function Ints(cs: seq<Class>, i: nat): nat
    requires i <= |cs|
  {
    if i == 0 then 0 else Ints(cs, i - 1) + (if cs[i - 1].I? then 1 else 0)
  }

  function Floats(cs: seq<Class>, i: nat): nat
    requires i <= |cs|
  {
    if i == 0 then 0 else Floats(cs, i - 1) + (if cs[i - 1].I? then 0 else 1)
  }

  /** No register is left for argument `i`; `res` is 1 when rdi holds the hidden pointer. */
  predicate OnStack(cs: seq<Class>, res: nat, i: nat)
    requires i < |cs|
  {
    if cs[i].I? then res + Ints(cs, i) >= INT_REGS else Floats(cs, i) >= XMM_REGS
  }

  /** How many arguments before `i` are on the stack. */
  function Stacked(cs: seq<Class>, res: nat, i: nat): nat
    requires i <= |cs|
  {
    if i == 0 then 0 else Stacked(cs, res, i - 1) + (if OnStack(cs, res, i - 1) then 1 else 0)
  }

  function PlaceOf(cs: seq<Class>, res: nat, i: nat): Place
    requires i < |cs|
  {
    if OnStack(cs, res, i) then InStack(Stacked(cs, res, i))
    else if cs[i].I? then InReg(ArgReg(res + Ints(cs, i)))
    else InXmm(Floats(cs, i))
  }

  lemma {:induction false} CountsGrow(cs: seq<Class>, res: nat, i: nat, j: nat)
    requires i <= j <= |cs|
    ensures Stacked(cs, res, i) <= Stacked(cs, res, j)
    ensures Ints(cs, i) <= Ints(cs, j) && Floats(cs, i) <= Floats(cs, j)
    ensures i < j && OnStack(cs, res, i) ==> Stacked(cs, res, i) < Stacked(cs, res, j)
    ensures i < j && cs[i].I? ==> Ints(cs, i) < Ints(cs, j)
    ensures i < j && !cs[i].I? ==> Floats(cs, i) < Floats(cs, j)
    decreases j - i
  {
    if i < j {
      CountsGrow(cs, res, i + 1, j);
    }
  }

  /** The places of the first arguments do not depend on the later ones. */
  lemma {:induction false} PlacesOfPrefix(cs: seq<Class>, res: nat, n: nat, i: nat)
    requires i <= n <= |cs|
    ensures Ints(cs[..n], i) == Ints(cs, i) && Floats(cs[..n], i) == Floats(cs, i)
    ensures Stacked(cs[..n], res, i) == Stacked(cs, res, i)
    ensures i < n ==> PlaceOf(cs[..n], res, i) == PlaceOf(cs, res, i)
  {
    if i > 0 {
      PlacesOfPrefix(cs, res, n, i - 1);
    }
  }

  function StackBytes(cs: seq<Class>, res: nat): (n: nat)
    ensures n % 16 == 0 && 8 * Stacked(cs, res, |cs|) <= n < 8 * Stacked(cs, res, |cs|) + 16
  {
    (8 * Stacked(cs, res, |cs|) + 15) / 16 * 16
  }

  function Places(cs: seq<Class>, res: nat): (ps: seq<Place>)
    ensures |ps| == |cs| && forall i :: 0 <= i < |cs| ==> ps[i] == PlaceOf(cs, res, i)
  {
    seq(|cs|, i requires 0 <= i < |cs| => PlaceOf(cs, res, i))
  }

  function SysV(cs: seq<Class>, res: nat): Plan {
    Plan(Places(cs, res), seq(|cs|, i => None))
  }

  /** The register of the hidden pointer; rax stands for none. */
  function HiddenReg(res: nat): Reg {
    if res == 1 then Rdi else Rax
  }

  /** No two arguments travel in the same place, and none where the hidden pointer does. */
  lemma PlacesApart(cs: seq<Class>, res: nat, i: nat, j: nat)
    requires i < j < |cs|
    ensures PlaceOf(cs, res, i) != PlaceOf(cs, res, j)
    ensures PlaceOf(cs, res, j) == InXmm(0) ==> cs[i].I?
  {
    CountsGrow(cs, res, i, j);
  }

  lemma SysVOk(cs: seq<Class>, res: nat)
    requires res <= 1
    ensures PlanOk(cs, SysV(cs, res), Stacked(cs, res, |cs|), HiddenReg(res)) && Readable(cs, Places(cs, res))
  {
    var plan := SysV(cs, res);
    forall i | 0 <= i < |cs|
      ensures Suits(cs[i], plan.places[i], Stacked(cs, res, |cs|), HiddenReg(res))
      ensures MirrorSuits(plan.places[i], plan.mirrors[i], HiddenReg(res)) && Fitting(cs[i], plan.places[i])
    {
      CountsGrow(cs, res, i, |cs|);
    }
    forall i, j | 0 <= i < |cs| && 0 <= j < |cs| && i != j
      ensures Apart(plan.places[i], plan.mirrors[i], plan.places[j], plan.mirrors[j])
    {
      if i < j {
        PlacesApart(cs, res, i, j);
      } else {
        PlacesApart(cs, res, j, i);
      }
    }
    forall i, j | 0 <= i < j < |cs| && plan.places[j] == InXmm(0)
      ensures cs[i].I?
    {
      PlacesApart(cs, res, i, j);
    }
  }

  /** Arguments after the 256th are dropped. */
  function Capped(n: nat): nat {
    if n < 256 then n else 256
  }

  /** The code of ST_emit_call_args. */
  function CallerCode(cs: seq<Class>, res: nat, offs: seq<int>): seq<Instr>
    requires |cs| == |offs|
  {
    var n := Capped(|cs|);
    PassAll(cs[..n], SysV(cs[..n], res), offs[..n], StackBytes(cs[..n], res))
  }
}
