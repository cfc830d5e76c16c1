/** Types laid out in memory: what a layout promises, and which declarations have one. */
module TypeLayout {
  import opened Wrappers
  import opened Word
  import opened Rounding
  import opened Digraph

  /** A type as it is written. Types are interned, so the same writing is the same type. */
  datatype TyExpr =
    | Prim(size: nat, align: nat)
    | Named(d: nat)
    | Ptr(inner: TyExpr)
    | Slice(inner: TyExpr)
    | Dyn(inner: TyExpr)
    | Arr(inner: TyExpr, count: int)

  datatype Decl = Struct(fields: seq<TyExpr>, packed: bool) | Union(payloads: seq<Option<TyExpr>>)

  datatype Metric = Metric(size: nat, align: nat)

  // ----- structs -----

  function FieldAlign(m: Metric, packed: bool): (a: nat)
    ensures a > 0
  {
    if packed || m.align == 0 then 1 else m.align
  }

  /** Where field `k` goes, and where the first `n` fields end. */
  function OffsetAt(fs: seq<Metric>, packed: bool, k: nat): nat
    requires k < |fs|
    decreases k, 1
  {
    RoundUp(EndOf(fs, packed, k), FieldAlign(fs[k], packed))
  }

  function EndOf(fs: seq<Metric>, packed: bool, n: nat): nat
    requires n <= |fs|
    decreases n, 0
  {
    if n == 0 then 0 else OffsetAt(fs, packed, n - 1) + fs[n - 1].size
  }

  function AlignOf(fs: seq<Metric>, packed: bool, n: nat): (a: nat)
    requires n <= |fs|
    ensures a > 0
  {
    if n == 0 then 1
    else
      var a := AlignOf(fs, packed, n - 1);
      if FieldAlign(fs[n - 1], packed) > a then FieldAlign(fs[n - 1], packed) else a
  }

  function StructMetric(fs: seq<Metric>, packed: bool): Metric {
    var a := AlignOf(fs, packed, |fs|);
    Metric(RoundUp(EndOf(fs, packed, |fs|), a), a)
  }

  ghost predicate Powers(fs: seq<Metric>) {
    forall k :: 0 <= k < |fs| ==> IsPow2(FieldAlign(fs[k], false))
  }

  lemma OneIsPow2()
    ensures IsPow2(1)
  {
    assert Pow2(0) == 1;
  }

  lemma {:induction false} AlignPower(fs: seq<Metric>, packed: bool, n: nat)
    requires n <= |fs| && Powers(fs)
    ensures IsPow2(AlignOf(fs, packed, n))
    ensures forall k :: 0 <= k < n ==> FieldAlign(fs[k], packed) <= AlignOf(fs, packed, n)
  {
    OneIsPow2();
    if n > 0 {
      AlignPower(fs, packed, n - 1);
    }
  }

  lemma {:induction false} PowersDivide(i: nat, j: nat)
    requires Pow2(i) <= Pow2(j)
    ensures Pow2(j) % Pow2(i) == 0
  {
    if i > j {
      PowersGrow(j, i);
    } else if i < j {
      if Pow2(i) <= Pow2(j - 1) {
        PowersDivide(i, j - 1);
        var q := Pow2(j - 1) / Pow2(i);
        DivModUnique(Pow2(j), Pow2(i), 2 * q, 0);
      } else {
        PowersGrow(i, j);
        PowersGrow(i, j - 1);
      }
    } else {
      DivModUnique(Pow2(j), Pow2(i), 1, 0);
    }
  }

  lemma {:induction false} PowersGrow(i: nat, j: nat)
    requires i <= j
    ensures i < j ==> Pow2(i) < Pow2(j)
    ensures Pow2(i) <= Pow2(j)
  {
    if i < j {
      PowersGrow(i, j - 1);
    }
  }

  /** Fields are aligned and in order without overlapping, the struct is a multiple of its
      alignment and that of each field divides it, and it is no longer than it must be. */
  lemma StructRight(fs: seq<Metric>, packed: bool, k: nat)
    requires Powers(fs) && k < |fs|
    ensures OffsetAt(fs, packed, k) % FieldAlign(fs[k], packed) == 0
    ensures k + 1 < |fs| ==> OffsetAt(fs, packed, k) + fs[k].size <= OffsetAt(fs, packed, k + 1)
    ensures OffsetAt(fs, packed, k) + fs[k].size <= StructMetric(fs, packed).size
    ensures StructMetric(fs, packed).size % StructMetric(fs, packed).align == 0
    ensures StructMetric(fs, packed).align % FieldAlign(fs[k], packed) == 0
    ensures StructMetric(fs, packed).size < EndOf(fs, packed, |fs|) + StructMetric(fs, packed).align
  {
    var a := StructMetric(fs, packed).align;
    OneIsPow2();
    AlignPower(fs, packed, |fs|);
    RoundUpAligned(EndOf(fs, packed, k), FieldAlign(fs[k], packed));
    if k + 1 < |fs| {
      RoundUpBounds(EndOf(fs, packed, k + 1), FieldAlign(fs[k + 1], packed));
    }
    EndsGrow(fs, packed, k + 1, |fs|);
    RoundUpBounds(EndOf(fs, packed, |fs|), a);
    RoundUpAligned(EndOf(fs, packed, |fs|), a);
    var i: nat :| FieldAlign(fs[k], packed) == Pow2(i);
    var j: nat :| a == Pow2(j);
    PowersDivide(i, j);
  }

  lemma {:induction false} EndsGrow(fs: seq<Metric>, packed: bool, i: nat, j: nat)
    requires i <= j <= |fs|
    ensures EndOf(fs, packed, i) <= EndOf(fs, packed, j)
    decreases j
  {
    if i < j {
      RoundUpBounds(EndOf(fs, packed, j - 1), FieldAlign(fs[j - 1], packed));
      EndsGrow(fs, packed, i, j - 1);
    }
  }

  function SumOf(fs: seq<Metric>, n: nat): nat
    requires n <= |fs|
  {
    if n == 0 then 0 else SumOf(fs, n - 1) + fs[n - 1].size
  }

  /** A packed struct has no gaps. */
  lemma {:induction false} PackedRight(fs: seq<Metric>, n: nat)
    requires n <= |fs|
    ensures EndOf(fs, true, n) == SumOf(fs, n) && AlignOf(fs, true, n) == 1
    ensures n < |fs| ==> OffsetAt(fs, true, n) == SumOf(fs, n)
    ensures n == |fs| ==> StructMetric(fs, true) == Metric(SumOf(fs, n), 1)
  {
    if n > 0 {
      PackedRight(fs, n - 1);
    }
    RoundUpBounds(EndOf(fs, true, n), 1);
  }

  // ----- tagged unions -----

  function Largest(ps: seq<Metric>, n: nat): nat
    requires n <= |ps|
  {
    if n == 0 then 0
    else
      var m := Largest(ps, n - 1);
      if ps[n - 1].size > m then ps[n - 1].size else m
  }

  function UnionMetric(ps: seq<Metric>): Metric {
    Metric(8 + RoundUp(Largest(ps, |ps|), 8), 8)
  }

  /** Every payload fits behind the tag. */
  lemma UnionRight(ps: seq<Metric>, k: nat)
    requires k < |ps|
    ensures 8 + ps[k].size <= UnionMetric(ps).size && UnionMetric(ps).size % 8 == 0
    ensures exists j :: 0 <= j < |ps| && UnionMetric(ps).size < 8 + ps[j].size + 8
  {
    var m := Largest(ps, |ps|);
    LargestRight(ps, |ps|, k);
    RoundUpBounds(m, 8);
    assert Pow2(3) == 8;
    RoundUpAligned(m, 8);
    assert (8 + RoundUp(m, 8)) % 8 == 0;
  }

  lemma {:induction false} LargestRight(ps: seq<Metric>, n: nat, k: nat)
    requires k < n <= |ps|
    ensures ps[k].size <= Largest(ps, n) && exists j :: 0 <= j < n && ps[j].size == Largest(ps, n)
  {
    if k < n - 1 {
      LargestRight(ps, n - 1, k);
    } else if n > 1 {
      LargestRight(ps, n - 1, n - 2);
    }
  }

  // ----- what must be laid out first -----

  /** The element types of fixed arrays are completed when the array type is resolved, also
      behind a pointer. */
  function ArrayNeeds(t: TyExpr): seq<nat> {
    match t
    case Prim(_, _) => []
    case Named(_) => []
    case Ptr(i) => ArrayNeeds(i)
    case Slice(i) => ArrayNeeds(i)
    case Dyn(i) => ArrayNeeds(i)
    case Arr(i, _) => ArrayNeeds(i) + (if i.Named? then [i.d] else [])
  }

  function FieldNeeds(t: TyExpr): seq<nat> {
    ArrayNeeds(t) + (if t.Named? then [t.d] else [])
  }

  function AllNeeds(ts: seq<TyExpr>): seq<nat> {
    if ts == [] then [] else FieldNeeds(ts[0]) + AllNeeds(ts[1..])
  }

  function Payloads(ps: seq<Option<TyExpr>>): seq<TyExpr> {
    if ps == [] then [] else (if ps[0].Some? then [ps[0].value] else []) + Payloads(ps[1..])
  }

  function Parts(d: Decl): seq<TyExpr> {
    match d
    case Struct(fs, _) => fs
    case Union(ps) => Payloads(ps)
  }

  function Needs(decls: seq<Decl>): (g: seq<seq<nat>>)
    ensures |g| == |decls| && forall d :: 0 <= d < |g| ==> g[d] == AllNeeds(Parts(decls[d]))
  {
    seq(|decls|, d requires 0 <= d < |decls| => AllNeeds(Parts(decls[d])))
  }

  // ----- containment by value -----

  function Contains(t: TyExpr): seq<nat> {
    match t
    case Named(d) => [d]
    case Arr(i, _) => Contains(i)
    case _ => []
  }

  function AllContained(ts: seq<TyExpr>): seq<nat> {
    if ts == [] then [] else Contains(ts[0]) + AllContained(ts[1..])
  }

  /** What a declaration holds by value, through fields, payloads and fixed arrays. */
  function ByValue(decls: seq<Decl>): (g: seq<seq<nat>>)
    ensures |g| == |decls| && forall d :: 0 <= d < |g| ==> g[d] == AllContained(Parts(decls[d]))
  {
    seq(|decls|, d requires 0 <= d < |decls| => AllContained(Parts(decls[d])))
  }

  /** The writing `u` occurs in `t`. */
  predicate Inside(t: TyExpr, u: TyExpr) {
    || t == u
    || match t
       case Ptr(i) => Inside(i, u)
       case Slice(i) => Inside(i, u)
       case Dyn(i) => Inside(i, u)
       case Arr(i, _) => Inside(i, u)
       case _ => false
  }

  ghost predicate ElementIn(t: TyExpr, w: nat) {
    exists n :: Inside(t, Arr(Named(w), n))
  }

  /** What resolving a type needs: every declaration that occurs in it as the element of a fixed array. */
  lemma {:induction false} NeedsAreElements(t: TyExpr, w: nat)
    ensures w in ArrayNeeds(t) <==> ElementIn(t, w)
    ensures w in FieldNeeds(t) <==> ElementIn(t, w) || t == Named(w)
  {
    match t
    case Ptr(i) => NeedsAreElements(i, w); SameElements(t, i, w);
    case Slice(i) => NeedsAreElements(i, w); SameElements(t, i, w);
    case Dyn(i) => NeedsAreElements(i, w); SameElements(t, i, w);
    case Arr(i, n) =>
      NeedsAreElements(i, w);
      if i == Named(w) {
        assert Inside(t, Arr(Named(w), n));
      } else {
        SameElements(t, i, w);
      }
    case _ =>
  }

  lemma SameElements(t: TyExpr, i: TyExpr, w: nat)
    requires forall u :: Inside(t, u) <==> t == u || Inside(i, u)
    requires t.Arr? ==> t.inner != Named(w)
    ensures ElementIn(t, w) <==> ElementIn(i, w)
  {
    if ElementIn(t, w) {
      var n :| Inside(t, Arr(Named(w), n));
      assert Inside(i, Arr(Named(w), n));
    }
    if ElementIn(i, w) {
      var n :| Inside(i, Arr(Named(w), n));
      assert Inside(t, Arr(Named(w), n));
    }
  }

  /** `w` is the element of a fixed array that `t` names behind a pointer or a slice. */
  predicate Behind(t: TyExpr, w: nat) {
    match t
    case Ptr(i) => w in ArrayNeeds(i)
    case Slice(i) => w in ArrayNeeds(i)
    case Dyn(i) => w in ArrayNeeds(i)
    case Arr(i, _) => Behind(i, w)
    case _ => false
  }

  /** What must be laid out first is what is held by value, and those elements. */
  lemma {:induction false} NeededExactly(t: TyExpr, w: nat)
    ensures w in ArrayNeeds(t) <==> (t.Arr? && w in Contains(t)) || Behind(t, w)
    ensures w in FieldNeeds(t) <==> w in Contains(t) || Behind(t, w)
  {
    if t.Arr? {
      NeededExactly(t.inner, w);
    }
  }

  lemma {:induction false} AllNeededExactly(ts: seq<TyExpr>, w: nat)
    ensures w in AllNeeds(ts) <==> w in AllContained(ts) || exists t :: t in ts && Behind(t, w)
  {
    if ts != [] {
      NeededExactly(ts[0], w);
      AllNeededExactly(ts[1..], w);
      assert ts == [ts[0]] + ts[1..];
    }
  }

  /** A type of infinite size is always found: its cycle is also one of the needs. */
  lemma ByValueCycleFound(decls: seq<Decl>, d: nat)
    requires Cyclic(ByValue(decls), d)
    ensures Cyclic(Needs(decls), d)
  {
    var p :| WalkFrom(ByValue(decls), d, p) && Revisits(p);
    forall i | 0 <= i < |p| - 1
      ensures Edge(Needs(decls), p[i], p[i + 1])
    {
      assert Edge(ByValue(decls), p[i], p[i + 1]);
      AllNeededExactly(Parts(decls[p[i]]), p[i + 1]);
    }
    assert WalkFrom(Needs(decls), d, p);
  }

  /** But a type of finite size may be refused too: a struct with a pointer to an array of
      itself holds nothing by value. */
  lemma PointerToArrayRefused()
    ensures
      var decls := [Struct([Ptr(Arr(Named(0), 4))], false)];
      Cyclic(Needs(decls), 0) && forall d: nat :: !Cyclic(ByValue(decls), d)
  {
    var t := Ptr(Arr(Named(0), 4));
    var decls := [Struct([t], false)];
    var ts := [t];
    assert ts[1..] == [] && Parts(decls[0]) == ts;
    assert ArrayNeeds(Arr(Named(0), 4)) == [0];
    assert FieldNeeds(t) == [0] && Contains(t) == [];
    assert AllNeeds(ts) == [0] + [] == [0];
    assert AllContained(ts) == [] + [] == [];
    assert Needs(decls)[0] == [0];
    assert Edge(Needs(decls), 0, 0);
    assert WalkFrom(Needs(decls), 0, [0, 0]);
    assert [0, 0][0] == [0, 0][1];
    assert Revisits([0, 0]);
    assert ByValue(decls)[0] == [];
    forall d: nat, p | WalkFrom(ByValue(decls), d, p)
      ensures !Revisits(p)
    {
      FirstEdge(ByValue(decls), p);
    }
  }

  lemma FirstEdge(g: seq<seq<nat>>, p: seq<nat>)
    requires Walk(g, p)
    ensures |p| > 1 ==> Edge(g, p[0], p[0 + 1])
  {
  }
}
