/** Completing types: a depth-first walk that computes each declaration's layout once and reports
    types that contain themselves. */
module TypeChecker {
  import opened Wrappers
  import opened Word
  import opened Rounding
  import opened Digraph
  import opened Search
  import opened TypeLayout

  datatype Progress = Fresh | Computing | Done

  datatype Field = Field(ty: TyExpr, offset: nat)

  /** Sizes as they are known; the size of an array type is fixed when it is first interned. */
  function MetricOf(ms: seq<Metric>, arrays: map<TyExpr, Metric>, t: TyExpr): Metric {
    match t
    case Prim(n, a) => Metric(n, a)
    case Named(d) => if d < |ms| then ms[d] else Metric(0, 0)
    case Ptr(_) => Metric(8, 8)
    case Slice(_) => Metric(16, 8)
    case Dyn(_) => Metric(24, 8)
    case Arr(_, _) => if t in arrays then arrays[t] else Metric(0, 1)
  }

  function MetricsOf(ms: seq<Metric>, arrays: map<TyExpr, Metric>, ts: seq<TyExpr>): (r: seq<Metric>)
    ensures |r| == |ts| && forall k :: 0 <= k < |ts| ==> r[k] == MetricOf(ms, arrays, ts[k])
  {
    seq(|ts|, k requires 0 <= k < |ts| => MetricOf(ms, arrays, ts[k]))
  }

  /** An array length below zero makes the whole type unusable. */
  predicate Usable(t: TyExpr) {
    match t
    case Ptr(i) => Usable(i)
    case Slice(i) => Usable(i)
    case Dyn(i) => Usable(i)
    case Arr(i, n) => Usable(i) && n >= 0
    case _ => true
  }

  function UsableOf(ts: seq<TyExpr>): seq<TyExpr> {
    if ts == [] then []
    else UsableOf(ts[..|ts| - 1]) + (if Usable(ts[|ts| - 1]) then [ts[|ts| - 1]] else [])
  }

  function TypesOf(fs: seq<Field>): (r: seq<TyExpr>)
    ensures |r| == |fs| && forall k :: 0 <= k < |fs| ==> r[k] == fs[k].ty
  {
    seq(|fs|, k requires 0 <= k < |fs| => fs[k].ty)
  }

  /** The size of `t` is final. */
  predicate Known(arrays: map<TyExpr, Metric>, s: Dfs, t: TyExpr) {
    match t
    case Named(d) => d in s.order
    case Arr(_, _) => t in arrays
    case _ => true
  }

  function ArrayMetric(m: Metric, n: nat): Metric {
    Metric(Times(m.size, n), if m.align > 0 then m.align else 1)
  }

  datatype Table = Table(metrics: seq<Metric>, laid: seq<seq<Field>>, arrays: map<TyExpr, Metric>)

  function SizeIn(t: Table, ty: TyExpr): Metric {
    MetricOf(t.metrics, t.arrays, ty)
  }

  function SizesIn(t: Table, ts: seq<TyExpr>): (r: seq<Metric>)
    ensures |r| == |ts|
  {
    MetricsOf(t.metrics, t.arrays, ts)
  }

  /** The fields so far have the sizes that are known, and stand where the layout says. */
  ghost predicate FieldsRight(t: Table, s: Dfs, fs: seq<Field>, ts: seq<TyExpr>, packed: bool) {
    && TypesOf(fs) == ts && (forall k :: 0 <= k < |ts| ==> Known(t.arrays, s, ts[k]))
    && forall k :: 0 <= k < |fs| ==> fs[k].offset == OffsetAt(SizesIn(t, ts), packed, k)
  }

  /** A finished declaration has the layout of its usable parts. */
  ghost predicate LaidOut(decls: seq<Decl>, t: Table, s: Dfs, d: nat) {
    d in s.order && d < |decls| && d < |t.metrics| && d < |t.laid| ==>
      var ts := UsableOf(Parts(decls[d]));
      && (forall k :: 0 <= k < |ts| ==> Known(t.arrays, s, ts[k]))
      && match decls[d]
         case Struct(_, packed) =>
           t.metrics[d] == StructMetric(SizesIn(t, ts), packed) && FieldsRight(t, s, t.laid[d], ts, packed)
         case Union(_) => t.metrics[d] == UnionMetric(SizesIn(t, ts))
  }

  ghost predicate ArrayRight(t: Table, s: Dfs, ty: TyExpr) {
    ty in t.arrays ==>
      ty.Arr? && ty.count >= 0 && Known(t.arrays, s, ty.inner) && t.arrays[ty] == ArrayMetric(SizeIn(t, ty.inner), ty.count)
  }

  ghost predicate TableOk(decls: seq<Decl>, t: Table, s: Dfs) {
    && |t.metrics| == |decls| == |t.laid|
    && (forall d: nat :: LaidOut(decls, t, s, d))
    && forall ty :: ArrayRight(t, s, ty)
  }

  /** What is finished does not change any more. */
  ghost predicate Extends(t: Table, s: Dfs, t': Table, s': Dfs) {
    && Later(s, s') && |t'.metrics| == |t.metrics| && |t'.laid| == |t.laid|
    && (forall d: nat :: Unchanged(t, s, t', d))
    && forall ty :: ty in t.arrays ==> ty in t'.arrays && t'.arrays[ty] == t.arrays[ty]
  }

  ghost predicate Later(s: Dfs, s': Dfs) {
    s'.stack == s.stack && s.order <= s'.order && s'.circular == s.circular && s'.faults == s.faults
  }

  predicate Unchanged(t: Table, s: Dfs, t': Table, d: nat) {
    d in s.order && d < |t.metrics| && d < |t'.metrics| && d < |t.laid| && d < |t'.laid| ==>
      t'.metrics[d] == t.metrics[d] && t'.laid[d] == t.laid[d]
  }

  lemma ExtendsTrans(t0: Table, s0: Dfs, t1: Table, s1: Dfs, t2: Table, s2: Dfs)
    requires Extends(t0, s0, t1, s1) && Extends(t1, s1, t2, s2)
    ensures Extends(t0, s0, t2, s2)
  {
    forall d: nat
      ensures Unchanged(t0, s0, t2, d)
    {
      assert Unchanged(t0, s0, t1, d) && Unchanged(t1, s1, t2, d);
    }
  }

  lemma KnownStays(t: Table, s: Dfs, t': Table, s': Dfs, ty: TyExpr)
    requires |t.metrics| == |t.laid| && (forall d: nat :: d in s.order ==> d < |t.metrics|)
    requires Extends(t, s, t', s') && Known(t.arrays, s, ty)
    ensures Known(t'.arrays, s', ty) && SizeIn(t', ty) == SizeIn(t, ty)
  {
    if ty.Named? {
      assert Unchanged(t, s, t', ty.d);
    }
  }

  lemma SizesStay(t: Table, s: Dfs, t': Table, s': Dfs, ts: seq<TyExpr>)
    requires |t.metrics| == |t.laid| && (forall d: nat :: d in s.order ==> d < |t.metrics|)
    requires Extends(t, s, t', s') && forall k :: 0 <= k < |ts| ==> Known(t.arrays, s, ts[k])
    ensures SizesIn(t', ts) == SizesIn(t, ts) && forall k :: 0 <= k < |ts| ==> Known(t'.arrays, s', ts[k])
  {
    forall k | 0 <= k < |ts|
      ensures Known(t'.arrays, s', ts[k]) && SizesIn(t', ts)[k] == SizesIn(t, ts)[k]
    {
      KnownStays(t, s, t', s', ts[k]);
    }
  }

  lemma FieldsStay(t: Table, s: Dfs, t': Table, s': Dfs, fs: seq<Field>, ts: seq<TyExpr>, packed: bool)
    requires |t.metrics| == |t.laid| && (forall d: nat :: d in s.order ==> d < |t.metrics|)
    requires Extends(t, s, t', s') && FieldsRight(t, s, fs, ts, packed)
    ensures FieldsRight(t', s', fs, ts, packed) && SizesIn(t', ts) == SizesIn(t, ts)
  {
    SizesStay(t, s, t', s', ts);
  }

  /** Changing what is not finished keeps the table right. */
  lemma LaidOutStays(decls: seq<Decl>, t: Table, s: Dfs, t': Table, s': Dfs, d: nat)
    requires TableOk(decls, t, s) && (forall d: nat :: d in s.order ==> d < |t.metrics|)
    requires Extends(t, s, t', s') && d in s.order
    ensures LaidOut(decls, t', s', d)
  {
    hide StructMetric, UnionMetric, FieldsRight, UsableOf, Extends;
    assert LaidOut(decls, t, s, d);
    UnchangedAt(t, s, t', s', d);
    var ts := UsableOf(Parts(decls[d]));
    SizesStay(t, s, t', s', ts);
    if decls[d].Struct? {
      FieldsStay(t, s, t', s', t.laid[d], ts, decls[d].packed);
    }
  }

  lemma UnchangedAt(t: Table, s: Dfs, t': Table, s': Dfs, d: nat)
    requires Extends(t, s, t', s') && d in s.order && d < |t.metrics| == |t.laid|
    ensures t'.metrics[d] == t.metrics[d] && t'.laid[d] == t.laid[d] && |t'.metrics| == |t'.laid| == |t.metrics|
  {
    assert Unchanged(t, s, t', d);
  }

  lemma ArrayStays(decls: seq<Decl>, t: Table, s: Dfs, t': Table, s': Dfs, ty: TyExpr)
    requires TableOk(decls, t, s) && (forall d: nat :: d in s.order ==> d < |t.metrics|)
    requires Extends(t, s, t', s') && ty in t.arrays
    ensures ArrayRight(t', s', ty)
  {
    assert ArrayRight(t, s, ty);
    KnownStays(t, s, t', s', ty.inner);
  }

  lemma TableSame(decls: seq<Decl>, t: Table, s: Dfs, s': Dfs)
    requires TableOk(decls, t, s) && s'.order == s.order
    ensures TableOk(decls, t, s')
  {
    hide StructMetric, UnionMetric, UsableOf;
    forall d: nat
      ensures LaidOut(decls, t, s', d)
    {
      assert LaidOut(decls, t, s, d);
    }
    forall ty
      ensures ArrayRight(t, s', ty)
    {
      assert ArrayRight(t, s, ty);
    }
  }

  function Interned(t: Table, ty: TyExpr): Table
    requires ty.Arr? && ty.count >= 0
  {
    if ty in t.arrays then t else t.(arrays := t.arrays[ty := ArrayMetric(SizeIn(t, ty.inner), ty.count)])
  }

  ghost predicate InTable(t: Table, s: Dfs) {
    |t.metrics| == |t.laid| && forall d: nat :: d in s.order ==> d < |t.metrics|
  }

  lemma InternOk(decls: seq<Decl>, t: Table, s: Dfs, ty: TyExpr)
    requires TableOk(decls, t, s) && InTable(t, s) && ty.Arr? && ty.count >= 0 && Known(t.arrays, s, ty.inner)
    ensures Extends(t, s, Interned(t, ty), s) && TableOk(decls, Interned(t, ty), s)
  {
    hide StructMetric, UnionMetric, UsableOf, FieldsRight;
    var t' := Interned(t, ty);
    assert Extends(t, s, t', s);
    if ty !in t.arrays {
      forall d: nat
        ensures LaidOut(decls, t', s, d)
      {
        if d in s.order {
          LaidOutStays(decls, t, s, t', s, d);
        }
      }
      forall u
        ensures ArrayRight(t', s, u)
      {
        if u in t.arrays {
          ArrayStays(decls, t, s, t', s, u);
        }
        KnownStays(t, s, t', s, ty.inner);
      }
    }
  }

  function WithLayout(t: Table, d: nat, m: Metric, fs: seq<Field>): Table
    requires d < |t.metrics| && d < |t.laid|
  {
    t.(metrics := t.metrics[d := m], laid := t.laid[d := fs])
  }

  /** `m` and `fs` are the layout of the declaration. */
  ghost predicate LayoutOf(decl: Decl, t: Table, s: Dfs, m: Metric, fs: seq<Field>) {
    var ts := UsableOf(Parts(decl));
    && (forall k :: 0 <= k < |ts| ==> Known(t.arrays, s, ts[k]))
    && match decl
       case Struct(_, packed) => m == StructMetric(SizesIn(t, ts), packed) && FieldsRight(t, s, fs, ts, packed)
       case Union(_) => m == UnionMetric(SizesIn(t, ts))
  }

  lemma LayoutKept(decls: seq<Decl>, t: Table, s: Dfs, m: Metric, fs: seq<Field>)
    requires TableOk(decls, t, s) && InTable(t, s) && s.stack != [] && Top(s) < |decls| && Top(s) !in s.order
    requires LayoutOf(decls[Top(s)], t, s, m, fs)
    ensures Extends(t, s, WithLayout(t, Top(s), m, fs), s)
    ensures TableOk(decls, WithLayout(t, Top(s), m, fs), Leave(s))
  {
    hide StructMetric, UnionMetric, UsableOf, FieldsRight;
    var u := Top(s);
    var t', s' := WithLayout(t, u, m, fs), Leave(s);
    assert Extends(t, s, t', s);
    var g := s'.(stack := s.stack);
    assert Extends(t, s, t', g);
    forall d: nat
      ensures LaidOut(decls, t', g, d)
    {
      if d in s.order {
        LaidOutStays(decls, t, s, t', g, d);
      } else if d == u {
        var ts := UsableOf(Parts(decls[u]));
        SizesStay(t, s, t', g, ts);
        if decls[u].Struct? {
          FieldsStay(t, s, t', g, fs, ts, decls[u].packed);
        }
      }
    }
    forall ty
      ensures ArrayRight(t', g, ty)
    {
      if ty in t.arrays {
        ArrayStays(decls, t, s, t', g, ty);
      }
    }
    TableSame(decls, t', g, s');
  }

  // ----- one more field -----

  lemma {:induction false} PrefixEnds(fs: seq<Metric>, m: Metric, packed: bool, n: nat)
    requires n <= |fs|
    ensures EndOf(fs + [m], packed, n) == EndOf(fs, packed, n) && AlignOf(fs + [m], packed, n) == AlignOf(fs, packed, n)
    ensures n < |fs| ==> OffsetAt(fs + [m], packed, n) == OffsetAt(fs, packed, n)
  {
    if n > 0 {
      PrefixEnds(fs, m, packed, n - 1);
    }
  }

  /** The running offset and alignment of ST_complete_struct. */
  ghost predicate Running(t: Table, s: Dfs, fs: seq<Field>, ts: seq<TyExpr>, packed: bool, off: nat, align: nat) {
    && FieldsRight(t, s, fs, ts, packed)
    && off == EndOf(SizesIn(t, ts), packed, |ts|) && align == AlignOf(SizesIn(t, ts), packed, |ts|)
  }

  lemma FieldAdded(t: Table, s: Dfs, fs: seq<Field>, ts: seq<TyExpr>, packed: bool, off: nat, align: nat, ty: TyExpr)
    requires Running(t, s, fs, ts, packed, off, align) && Known(t.arrays, s, ty)
    ensures
      var m := SizeIn(t, ty);
      var a := FieldAlign(m, packed);
      var at := RoundUp(off, a);
      Running(t, s, fs + [Field(ty, at)], ts + [ty], packed, at + m.size, if a > align then a else align)
  {
    hide RoundUp;
    var m := SizeIn(t, ty);
    var ms, ms' := SizesIn(t, ts), SizesIn(t, ts + [ty]);
    assert ms' == ms + [m];
    var at := RoundUp(off, FieldAlign(m, packed));
    var fs', ts' := fs + [Field(ty, at)], ts + [ty];
    assert TypesOf(fs') == ts';
    PrefixEnds(ms, m, packed, |ms|);
    forall k | 0 <= k < |fs'|
      ensures fs'[k].offset == OffsetAt(ms', packed, k)
    {
      PrefixEnds(ms, m, packed, if k < |ms| then k else |ms|);
    }
  }

  lemma RunningStays(t: Table, s: Dfs, t': Table, s': Dfs, fs: seq<Field>, ts: seq<TyExpr>, packed: bool, off: nat, align: nat)
    requires InTable(t, s) && Extends(t, s, t', s') && Running(t, s, fs, ts, packed, off, align)
    ensures Running(t', s', fs, ts, packed, off, align)
  {
    FieldsStay(t, s, t', s', fs, ts, packed);
  }

  // ----- the walk -----

  predicate InBounds(ty: TyExpr, n: nat) {
    match ty
    case Named(d) => d < n
    case Ptr(i) => InBounds(i, n)
    case Slice(i) => InBounds(i, n)
    case Dyn(i) => InBounds(i, n)
    case Arr(i, _) => InBounds(i, n)
    case _ => true
  }

  ghost predicate WellFormed(decls: seq<Decl>) {
    forall d, k :: 0 <= d < |decls| && 0 <= k < |Parts(decls[d])| ==> InBounds(Parts(decls[d])[k], |decls|)
  }

  predicate Declared(decls: seq<Decl>, d: nat) {
    d < |decls|
  }

  function AllOf(decls: seq<Decl>): set<nat> {
    set d: nat | d < |decls| && Declared(decls, d)
  }

  /** The search may go to everything in `ws` next. */
  ghost predicate AllAhead(decls: seq<Decl>, s: Dfs, ws: seq<nat>) {
    forall w: nat :: w in ws ==> Ahead(Needs(decls), AllOf(decls), s, w)
  }

  predicate AllDone(s: Dfs, ws: seq<nat>) {
    forall w: nat :: w in ws ==> w in s.order
  }

  ghost predicate Linked(progress: seq<Progress>, s: Dfs) {
    forall d: nat :: LinkedAt(progress, s, d)
  }

  predicate LinkedAt(progress: seq<Progress>, s: Dfs, d: nat) {
    d < |progress| ==> (progress[d].Done? <==> d in s.order) && (progress[d].Computing? <==> d in s.stack)
  }

  /** While no recursion was reported, the walk and the table are in order; afterwards there is
      a declaration that needs itself. */
  ghost predicate StateOk(decls: seq<Decl>, progress: seq<Progress>, t: Table, infinite: nat, s: Dfs) {
    && WellFormed(decls) && |progress| == |t.metrics| == |t.laid| == |decls|
    && (infinite > 0 ==> CycleFrom(Needs(decls), AllOf(decls)))
    && (infinite == 0 ==>
          && Ok(Needs(decls), AllOf(decls), {}, s) && s.circular == 0 && Linked(progress, s) && TableOk(decls, t, s))
  }

  lemma StateFacts(decls: seq<Decl>, progress: seq<Progress>, t: Table, infinite: nat, s: Dfs, d: nat)
    requires StateOk(decls, progress, t, infinite, s) && infinite == 0
    ensures InTable(t, s) && TableOk(decls, t, s)
    ensures d < |decls| ==> (progress[d].Done? <==> d in s.order) && (progress[d].Computing? <==> d in s.stack)
    ensures s.stack != [] ==> Top(s) < |decls| && Top(s) !in s.order && Top(s) in s.stack
  {
    hide TableOk, Needs, Followed, Judged;
    assert LinkedAt(progress, s, d);
    forall v: nat | v in s.order
      ensures v < |decls|
    {
      assert Met(s, v);
    }
    if s.stack != [] {
      assert Top(s) in s.stack;
      assert Met(s, Top(s));
    }
  }

  lemma Began(decls: seq<Decl>, progress: seq<Progress>, t: Table, s: Dfs, d: nat)
    requires StateOk(decls, progress, t, 0, s) && d < |decls| && progress[d].Fresh?
    requires Ahead(Needs(decls), AllOf(decls), s, d)
    ensures StateOk(decls, progress[d := Computing], t, 0, Enter(s, d))
  {
    hide Needs, AllOf, WellFormed, Ahead, TableOk, Ok;
    assert LinkedAt(progress, s, d);
    EnterOk(Needs(decls), AllOf(decls), {}, s, d);
    TableSame(decls, t, s, Enter(s, d));
    var progress', s' := progress[d := Computing], Enter(s, d);
    forall e: nat
      ensures LinkedAt(progress', s', e)
    {
      assert LinkedAt(progress, s, e);
    }
  }

  lemma Recursed(decls: seq<Decl>, progress: seq<Progress>, t: Table, infinite: nat, s: Dfs, d: nat)
    requires StateOk(decls, progress, t, infinite, s) && d < |decls| && progress[d].Computing?
    requires infinite == 0 ==> Ahead(Needs(decls), AllOf(decls), s, d)
    ensures StateOk(decls, progress[d := Done], t, infinite + 1, s)
  {
    hide Needs, AllOf, WellFormed, Ahead, TableOk, CycleFrom;
    if infinite == 0 {
      assert LinkedAt(progress, s, d);
      CircleOk(Needs(decls), AllOf(decls), {}, s, d);
    }
  }

  lemma Ended(decls: seq<Decl>, progress: seq<Progress>, t: Table, s: Dfs, m: Metric, fs: seq<Field>)
    requires StateOk(decls, progress, t, 0, s) && s.stack != [] && Top(s) < |decls|
    requires LayoutOf(decls[Top(s)], t, s, m, fs) && AllDone(s, Needs(decls)[Top(s)])
    ensures StateOk(decls, progress[Top(s) := Done], WithLayout(t, Top(s), m, fs), 0, Leave(s))
    ensures Extends(t, s, WithLayout(t, Top(s), m, fs), s)
  {
    hide Needs, AllOf, WellFormed, TableOk, CycleFrom, LayoutOf;
    StateFacts(decls, progress, t, 0, s, Top(s));
    LayoutKept(decls, t, s, m, fs);
    LeaveReady(decls, s);
    LeaveOk(Needs(decls), AllOf(decls), {}, s);
    LinkedLeave(decls, progress, s);
  }

  lemma LeaveReady(decls: seq<Decl>, s: Dfs)
    requires s.stack != [] && Top(s) < |decls| && AllDone(s, Needs(decls)[Top(s)]) && s.circular == 0
    ensures Exhausted(Needs(decls), {}, s)
  {
    hide Needs;
    forall w: nat | Edge(Needs(decls), Top(s), w)
      ensures Met(s, w) && w in s.order
    {
    }
  }

  lemma LinkedLeave(decls: seq<Decl>, progress: seq<Progress>, s: Dfs)
    requires Linked(progress, s) && s.stack != [] && Top(s) < |progress| && Distinct(s, |decls|)
    ensures Linked(progress[Top(s) := Done], Leave(s))
  {
    var u, s' := Top(s), Leave(s);
    assert s.stack == s'.stack + [u];
    assert u in s.stack;
    var progress' := progress[u := Done];
    forall e: nat
      ensures LinkedAt(progress', s', e)
    {
      assert LinkedAt(progress, s, e);
      assert e in s.stack <==> e in s'.stack || e == u;
      assert e in s'.order <==> e in s.order || e == u;
    }
  }

  class TypeTable {
    const decls: seq<Decl>
    var progress: seq<Progress>
    var metrics: seq<Metric>
    var laid: seq<seq<Field>>
    var arrays: map<TyExpr, Metric>
    /** Types of infinite size reported, and negative array lengths. */
    var infinite: nat
    var negative: nat
    ghost var s: Dfs

    ghost function Now(): Table
      reads this
    {
      Table(metrics, laid, arrays)
    }

    ghost predicate Valid()
      reads this
    {
      StateOk(decls, progress, Now(), infinite, s)
    }

    ghost function Left(): set<nat>
      reads this
    {
      set d: nat | d < |progress| && progress[d].Fresh?
    }

    twostate predicate Onward()
      reads this
    {
      && old(infinite) <= infinite && Left() <= old(Left())
      && (infinite == 0 ==> Extends(old(Now()), old(s), Now(), s))
    }

    constructor (ds: seq<Decl>)
      requires WellFormed(ds)
      ensures Valid() && decls == ds && infinite == 0 && s == Dfs([], [], 0, 0)
    {
      decls, infinite, negative, arrays := ds, 0, 0, map[];
      progress := seq(|ds|, d => Fresh);
      metrics := seq(|ds|, d => Metric(0, 0));
      laid := seq(|ds|, d => []);
      s := Dfs([], [], 0, 0);
      new;
      NothingYet(decls, progress, Now());
    }

    /** ST_resolve_tyexpr: the type that is written, or none if an array length is negative. */
    method Resolve(te: TyExpr) returns (r: Option<TyExpr>)
      requires Valid() && InBounds(te, |decls|) && (infinite == 0 ==> AllAhead(decls, s, ArrayNeeds(te)))
      modifies this
      ensures Valid() && Onward() && r == if Usable(te) then Some(te) else None
      ensures infinite == 0 ==> AllDone(s, ArrayNeeds(te)) && (r.Some? && te.Arr? ==> te in arrays)
      decreases Left(), 1, te, 0
    {
      hide StateOk, Extends, Ahead, Needs;
      match te
      case Prim(_, _) => r := Some(te); Stay();
      case Named(_) => r := Some(te); Stay();
      case Ptr(i) => r := Resolve(i); r := if r.Some? then Some(te) else None;
      case Slice(i) => r := Resolve(i); r := if r.Some? then Some(te) else None;
      case Dyn(i) => r := Resolve(i); r := if r.Some? then Some(te) else None;
      case Arr(i, n) => r := ResolveArray(i, n);
    }

    method ResolveArray(i: TyExpr, n: int) returns (r: Option<TyExpr>)
      requires Valid() && InBounds(i, |decls|) && (infinite == 0 ==> AllAhead(decls, s, ArrayNeeds(Arr(i, n))))
      modifies this
      ensures Valid() && Onward() && r == if Usable(Arr(i, n)) then Some(Arr(i, n)) else None
      ensures infinite == 0 ==> AllDone(s, ArrayNeeds(Arr(i, n))) && (r.Some? ==> Arr(i, n) in arrays)
      decreases Left(), 1, i, 1
    {
      hide StateOk, Extends, Ahead, Needs, AllAhead, AllDone;
      ghost var t0, s0 := Now(), s;
      if infinite == 0 {
        ArrayAhead(decls, s, i, n);
      }
      r := Resolve(i);
      ghost var t1, s1 := Now(), s;
      if infinite == 0 {
        AheadStays(decls, t0, s0, t1, s1, ArrayNeeds(Arr(i, n)));
        ArrayAhead(decls, s, i, n);
      }
      if r.None? {
        if infinite == 0 {
          NeedsOfArray(s, i, n);
        }
        return None;
      }
      CompleteTy(i);
      ghost var t2, s2 := Now(), s;
      if infinite == 0 {
        ExtendsTrans(t0, s0, t1, s1, t2, s2);
        DoneStays(t1, s1, t2, s2, ArrayNeeds(i));
        NeedsOfArray(s, i, n);
      }
      if n < 0 {
        negative := negative + 1;
        r := None;
      } else {
        Intern(i, n);
        r := Some(Arr(i, n));
        if infinite == 0 {
          ExtendsTrans(t0, s0, t2, s2, Now(), s);
        }
      }
    }

    /** ST_ty_array: the type is made, with its size, unless it exists already. */
    method Intern(i: TyExpr, n: nat)
      requires Valid() && (infinite == 0 ==> Known(arrays, s, i))
      modifies `arrays
      ensures Valid() && Arr(i, n) in arrays && (infinite == 0 ==> Extends(old(Now()), s, Now(), s))
    {
      hide Extends, Ok, Linked;
      if infinite == 0 {
        StateFacts(decls, progress, Now(), infinite, s, 0);
        InternOk(decls, Now(), s, Arr(i, n));
      }
      if Arr(i, n) !in arrays {
        var m := MetricOf(metrics, arrays, i);
        arrays := arrays[Arr(i, n) := Metric(Times(m.size, n), if m.align > 0 then m.align else 1)];
      }
    }

    /** ST_complete_ty: only declared types have a layout to compute. */
    method CompleteTy(ty: TyExpr)
      requires Valid() && InBounds(ty, |decls|)
      requires infinite == 0 && ty.Named? ==> Ahead(Needs(decls), AllOf(decls), s, ty.d)
      modifies this
      ensures Valid() && Onward()
      ensures infinite == 0 && (ty.Arr? ==> ty in old(arrays)) ==> Known(arrays, s, ty)
      decreases Left(), 0, 1
    {
      hide StateOk, Ahead, Needs;
      if ty.Named? {
        CompleteNamed(ty.d);
      } else {
        Stay();
      }
    }

    method CompleteNamed(d: nat)
      requires Valid() && d < |decls| && (infinite == 0 ==> Ahead(Needs(decls), AllOf(decls), s, d))
      modifies this
      ensures Valid() && Onward() && (infinite == 0 ==> d in s.order)
      decreases Left(), 0, 0, 1
    {
      hide StateOk, Ahead, Needs, LayoutOf, Extends;
      Lengths(decls, progress, Now(), infinite, s);
      if infinite == 0 {
        StateFacts(decls, progress, Now(), infinite, s, d);
      }
      if progress[d].Done? {
        Stay();
      } else if progress[d].Computing? {
        Recursed(decls, progress, Now(), infinite, s, d);
        infinite := infinite + 1;
        progress := progress[d := Done];
      } else {
        CompleteFresh(d);
      }
    }

    /** The rest of it, for a declaration that was not looked at before. */
    method CompleteFresh(d: nat)
      requires Valid() && d < |decls| == |progress| && progress[d].Fresh?
      requires infinite == 0 ==> Ahead(Needs(decls), AllOf(decls), s, d)
      modifies this
      ensures Valid() && Onward() && (infinite == 0 ==> d in s.order)
      decreases Left(), 0, 0, 0
    {
      hide StateOk, Ahead, Needs, LayoutOf, Extends, AllDone;
      ghost var t0, s0 := Now(), s;
      Lengths(decls, progress, Now(), infinite, s);
      assert d in Left();
      if infinite == 0 {
        Began(decls, progress, Now(), s, d);
        s := Enter(s, d);
      } else {
        Changed(decls, progress, progress[d := Computing], Now(), Now(), infinite, s);
      }
      progress := progress[d := Computing];
      ghost var t1, s1 := Now(), s;
      assert d !in Left() && Left() <= old(Left());
      var m, fs := Layout(d);
      Lengths(decls, progress, Now(), infinite, s);
      if infinite == 0 {
        StackStays(t1, s1, Now(), s);
        Ended(decls, progress, Now(), s, m, fs);
        BackOut(t0, s0, d, t1, s1, Now(), s, WithLayout(Now(), d, m, fs));
        s := Leave(s);
      } else {
        Changed(decls, progress, progress[d := Done], Now(), WithLayout(Now(), d, m, fs), infinite, s);
      }
      metrics := metrics[d := m];
      laid := laid[d := fs];
      progress := progress[d := Done];
    }

    method Layout(d: nat) returns (m: Metric, fs: seq<Field>)
      requires Valid() && d < |decls| && (infinite == 0 ==> s.stack != [] && Top(s) == d)
      modifies this
      ensures Valid() && Onward()
      ensures infinite == 0 ==> LayoutOf(decls[d], Now(), s, m, fs) && AllDone(s, Needs(decls)[d])
      decreases Left(), 3
    {
      match decls[d]
      case Struct(fields, packed) => m, fs := CompleteStruct(d, fields, packed);
      case Union(payloads) => m := CompleteUnion(d, payloads); fs := [];
    }

    /** One field or payload: its type is resolved and completed. */
    method CompletePart(d: nat, te: TyExpr) returns (r: Option<TyExpr>)
      requires Valid() && d < |decls| && te in Parts(decls[d]) && (infinite == 0 ==> s.stack != [] && Top(s) == d)
      modifies this
      ensures Valid() && Onward() && r == if Usable(te) then Some(te) else None
      ensures infinite == 0 ==> AllDone(s, FieldNeeds(te)) && (r.Some? ==> Known(arrays, s, te))
      decreases Left(), 2, 0
    {
      hide StateOk, Extends, Ahead, Needs, AllAhead, AllDone;
      Lengths(decls, progress, Now(), infinite, s);
      PartAhead(decls, s, d, te);
      ghost var t0, s0 := Now(), s;
      r := Resolve(te);
      ghost var t1, s1 := Now(), s;
      if infinite == 0 {
        AheadStays(decls, t0, s0, t1, s1, FieldNeeds(te));
        NeedsSplit(decls, s, te);
      }
      if r.Some? {
        CompleteTy(te);
        if infinite == 0 {
          ExtendsTrans(t0, s0, t1, s1, Now(), s);
          DoneStays(t1, s1, Now(), s, ArrayNeeds(te));
        }
      }
      if infinite == 0 {
        NeedsJoined(s, te);
      }
    }

    /** ST_complete_struct. */
    method CompleteStruct(d: nat, fields: seq<TyExpr>, packed: bool) returns (m: Metric, fs: seq<Field>)
      requires Valid() && d < |decls| && decls[d] == Struct(fields, packed)
      requires infinite == 0 ==> s.stack != [] && Top(s) == d
      modifies this
      ensures Valid() && Onward()
      ensures infinite == 0 ==> LayoutOf(decls[d], Now(), s, m, fs) && AllDone(s, Needs(decls)[d])
      decreases Left(), 2, 1
    {
      hide StateOk, Extends, Needs, AllDone, Running, RoundUp, Known, UsableOf, AllNeeds, FieldNeeds, LayoutOf;
      var off: nat, align: nat := 0, 1;
      fs := [];
      Stay();
      NoFields(Now(), s, packed);
      assert fields[..0] == [];
      NoneUsable();
      for i := 0 to |fields|
        invariant Valid() && Onward()
        invariant infinite == 0 ==> s.stack == old(s).stack
        invariant infinite == 0 ==> AllDone(s, AllNeeds(fields[..i]))
        invariant infinite == 0 ==> Running(Now(), s, fs, UsableOf(fields[..i]), packed, off, align)
        invariant align > 0
      {
        ghost var t0, s0 := Now(), s;
        var ft := CompletePart(d, fields[i]);
        if infinite == 0 {
          ExtendsTrans(old(Now()), old(s), t0, s0, Now(), s);
          AfterPart(decls, progress, t0, Now(), infinite, s0, s, fields, i);
          RunningStays(t0, s0, Now(), s, fs, UsableOf(fields[..i]), packed, off, align);
        }
        if ft.Some? {
          if infinite == 0 {
            FieldAdded(Now(), s, fs, UsableOf(fields[..i]), packed, off, align, fields[i]);
          }
          var fm := MetricOf(metrics, arrays, fields[i]);
          var a := FieldAlign(fm, packed);
          off := RoundUp(off, a);
          fs := fs + [Field(fields[i], off)];
          off := off + fm.size;
          if a > align {
            align := a;
          }
        }
      }
      assert fields[..|fields|] == fields;
      m := Metric(RoundUp(off, align), align);
      if infinite == 0 {
        StructDone(decls, Now(), s, d, fs, off, align);
      }
    }

    /** ST_complete_tag_union. */
    method CompleteUnion(d: nat, payloads: seq<Option<TyExpr>>) returns (m: Metric)
      requires Valid() && d < |decls| && decls[d] == Union(payloads)
      requires infinite == 0 ==> s.stack != [] && Top(s) == d
      modifies this
      ensures Valid() && Onward()
      ensures infinite == 0 ==> LayoutOf(decls[d], Now(), s, m, []) && AllDone(s, Needs(decls)[d])
      decreases Left(), 2, 1
    {
      hide StateOk, Extends, Needs, AllDone, Biggest, RoundUp, Known;
      var max: nat := 0;
      Stay();
      NoPayloads(Now(), s);
      for i := 0 to |payloads|
        invariant Valid() && Onward()
        invariant infinite == 0 ==> s.stack == old(s).stack
        invariant infinite == 0 ==> AllDone(s, AllNeeds(Payloads(payloads[..i])))
        invariant infinite == 0 ==> Biggest(Now(), s, UsableOf(Payloads(payloads[..i])), max)
      {
        ghost var t0, s0 := Now(), s;
        assert payloads[..i + 1] == payloads[..i] + [payloads[i]];
        PayloadsAppend(payloads[..i], payloads[i]);
        if payloads[i].Some? {
          var te := payloads[i].value;
          PayloadIn(payloads, i);
          var pt := CompletePart(d, te);
          if infinite == 0 {
            var ts := Payloads(payloads[..i]);
            StackStays(t0, s0, Now(), s);
            ExtendsTrans(old(Now()), old(s), t0, s0, Now(), s);
            DoneStays(t0, s0, Now(), s, AllNeeds(ts));
            NeedsAppend(s, ts, te);
            UsableAppend(ts, te);
            TableSizes(decls, progress, t0, Now(), infinite, s0, s);
            BiggestStays(t0, s0, Now(), s, UsableOf(ts), max);
          }
          if pt.Some? {
            if infinite == 0 {
              PayloadAdded(Now(), s, UsableOf(Payloads(payloads[..i])), max, te);
            }
            var size := MetricOf(metrics, arrays, te).size;
            if size > max {
              max := size;
            }
          }
        }
      }
      assert payloads[..|payloads|] == payloads;
      m := Metric(8 + RoundUp(max, 8), 8);
      if infinite == 0 {
        UnionDone(decls, Now(), s, d, max);
      }
    }

    /** The declarations are completed one after the other. A recursion is reported exactly when
        some declaration needs itself; otherwise every declaration has its layout. */
    method CompleteAll()
      requires Valid() && infinite == 0 && s.stack == [] && s.order == []
      modifies this
      ensures infinite > 0 <==> CycleFrom(Needs(decls), AllOf(decls))
      ensures infinite == 0 ==> forall d: nat :: d < |decls| ==> Final(decls, Now(), s, d)
      ensures infinite == 0 && AllPowerPrims(decls) ==> forall d: nat :: InMemory(decls, Now(), d)
      ensures infinite == 0 ==> forall ty :: ty in arrays ==> SizeRight(Now(), ty)
    {
      hide StateOk, Extends, Needs, CycleFrom, Ahead, InMemory, SizeRight, AllPowerPrims;
      Stay();
      for d := 0 to |decls|
        invariant Valid() && Onward() && (infinite == 0 ==> s.stack == [])
        invariant infinite == 0 ==> forall e: nat :: e < d ==> e in s.order
      {
        ghost var t0, s0 := Now(), s;
        RootAhead(decls, s, d);
        CompleteNamed(d);
        if infinite == 0 {
          StackStays(t0, s0, Now(), s);
          ExtendsTrans(old(Now()), old(s), t0, s0, Now(), s);
          OrderGrows(t0, s0, Now(), s);
        }
      }
      if infinite == 0 {
        AllLaidOut(decls, progress, Now(), s);
        AllInMemory(decls, progress, Now(), s);
      } else {
        CycleReported(decls, progress, Now(), infinite, s);
      }
    }

    lemma Stay()
      ensures infinite == 0 ==> Extends(Now(), s, Now(), s)
    {
      assert forall d: nat :: Unchanged(Now(), s, Now(), d);
    }
  }

  lemma ArrayAhead(decls: seq<Decl>, s: Dfs, i: TyExpr, n: int)
    requires AllAhead(decls, s, ArrayNeeds(Arr(i, n)))
    ensures AllAhead(decls, s, ArrayNeeds(i))
    ensures i.Named? ==> Ahead(Needs(decls), AllOf(decls), s, i.d)
  {
    assert forall w: nat :: w in ArrayNeeds(i) ==> w in ArrayNeeds(Arr(i, n));
  }

  lemma AheadStays(decls: seq<Decl>, t: Table, s: Dfs, t': Table, s': Dfs, ws: seq<nat>)
    requires AllAhead(decls, s, ws) && Extends(t, s, t', s')
    ensures AllAhead(decls, s', ws)
  {
  }

  lemma DoneStays(t: Table, s: Dfs, t': Table, s': Dfs, ws: seq<nat>)
    requires AllDone(s, ws) && Extends(t, s, t', s')
    ensures AllDone(s', ws)
  {
  }

  lemma NeedsOfArray(s: Dfs, i: TyExpr, n: int)
    requires AllDone(s, ArrayNeeds(i)) && (i.Named? ==> i.d in s.order)
    ensures AllDone(s, ArrayNeeds(Arr(i, n)))
  {
  }

  lemma Lengths(decls: seq<Decl>, progress: seq<Progress>, t: Table, infinite: nat, s: Dfs)
    requires StateOk(decls, progress, t, infinite, s)
    ensures |progress| == |t.metrics| == |t.laid| == |decls| && WellFormed(decls)
  {
  }

  /** Once a recursion was reported, only the sizes of the tables matter. */
  lemma Changed(decls: seq<Decl>, progress: seq<Progress>, progress': seq<Progress>, t: Table, t': Table, infinite: nat, s: Dfs)
    requires StateOk(decls, progress, t, infinite, s) && infinite > 0
    requires |progress'| == |t'.metrics| == |t'.laid| == |decls|
    ensures StateOk(decls, progress', t', infinite, s)
  {
  }

  /** Entering a declaration, going on, storing its layout and leaving it. */
  lemma BackOut(t0: Table, s0: Dfs, d: nat, t1: Table, s1: Dfs, t2: Table, s2: Dfs, t3: Table)
    requires t1 == t0 && s1 == Enter(s0, d) && Extends(t1, s1, t2, s2) && Extends(t2, s2, t3, s2)
    ensures Extends(t0, s0, t3, Leave(s2)) && Top(s2) == d && d in Leave(s2).order
  {
    ExtendsTrans(t1, s1, t2, s2, t3, s2);
    assert Leave(s2).stack == s0.stack;
    forall e: nat
      ensures Unchanged(t0, s0, t3, e)
    {
      assert Unchanged(t1, s1, t3, e);
    }
  }

  lemma PartAhead(decls: seq<Decl>, s: Dfs, d: nat, te: TyExpr)
    requires WellFormed(decls) && d < |decls| && te in Parts(decls[d])
    ensures InBounds(te, |decls|)
    ensures s.stack != [] && Top(s) == d ==> AllAhead(decls, s, FieldNeeds(te)) && AllAhead(decls, s, ArrayNeeds(te))
  {
    var k :| 0 <= k < |Parts(decls[d])| && Parts(decls[d])[k] == te;
    forall w: nat | w in FieldNeeds(te)
      ensures w in Needs(decls)[d] && w < |decls|
    {
      NeedsIn(Parts(decls[d]), k, w);
      NeedsBound(te, |decls|, w);
    }
    assert forall w: nat :: w in ArrayNeeds(te) ==> w in FieldNeeds(te);
  }

  lemma {:induction false} NeedsIn(ts: seq<TyExpr>, k: nat, w: nat)
    requires k < |ts| && w in FieldNeeds(ts[k])
    ensures w in AllNeeds(ts)
  {
    if k > 0 {
      NeedsIn(ts[1..], k - 1, w);
    }
  }

  lemma {:induction false} NeedsBound(te: TyExpr, n: nat, w: nat)
    requires InBounds(te, n) && w in FieldNeeds(te)
    ensures w < n
  {
    match te
    case Ptr(i) => NeedsBound(i, n, w);
    case Slice(i) => NeedsBound(i, n, w);
    case Dyn(i) => NeedsBound(i, n, w);
    case Arr(i, _) => NeedsBound(i, n, w);
    case _ =>
  }

  lemma NeedsSplit(decls: seq<Decl>, s: Dfs, te: TyExpr)
    requires AllAhead(decls, s, FieldNeeds(te))
    ensures te.Named? ==> Ahead(Needs(decls), AllOf(decls), s, te.d)
  {
  }

  lemma NeedsJoined(s: Dfs, te: TyExpr)
    requires AllDone(s, ArrayNeeds(te)) && (te.Named? ==> te.d in s.order)
    ensures AllDone(s, FieldNeeds(te))
  {
  }

  lemma NoneUsable()
    ensures UsableOf([]) == [] && AllNeeds([]) == []
  {
  }

  lemma NoFields(t: Table, s: Dfs, packed: bool)
    ensures Running(t, s, [], [], packed, 0, 1) && AllDone(s, [])
  {
  }

  lemma StackStays(t: Table, s: Dfs, t': Table, s': Dfs)
    requires Extends(t, s, t', s')
    ensures s'.stack == s.stack
  {
  }

  lemma {:induction false} AllNeedsAppend(ts: seq<TyExpr>, te: TyExpr)
    ensures AllNeeds(ts + [te]) == AllNeeds(ts) + FieldNeeds(te)
  {
    if ts == [] {
      assert [te][1..] == [];
    } else {
      AllNeedsAppend(ts[1..], te);
      assert (ts + [te])[1..] == ts[1..] + [te];
    }
  }

  lemma NeedsAppend(s: Dfs, ts: seq<TyExpr>, te: TyExpr)
    requires AllDone(s, AllNeeds(ts)) && AllDone(s, FieldNeeds(te))
    ensures AllDone(s, AllNeeds(ts + [te]))
  {
    AllNeedsAppend(ts, te);
  }

  lemma UsableAppend(ts: seq<TyExpr>, te: TyExpr)
    ensures UsableOf(ts + [te]) == if Usable(te) then UsableOf(ts) + [te] else UsableOf(ts)
  {
    assert (ts + [te])[..|ts|] == ts;
  }

  /** What one more part leaves of the earlier ones. */
  lemma AfterPart(decls: seq<Decl>, progress: seq<Progress>, t: Table, t': Table, infinite: nat, s: Dfs, s': Dfs,
                  ts: seq<TyExpr>, i: nat)
    requires i < |ts| && AllDone(s, AllNeeds(ts[..i])) && AllDone(s', FieldNeeds(ts[i]))
    requires Extends(t, s, t', s') && StateOk(decls, progress, t', infinite, s') && infinite == 0
    ensures s'.stack == s.stack && InTable(t, s) && AllDone(s', AllNeeds(ts[..i + 1]))
    ensures UsableOf(ts[..i + 1]) == if Usable(ts[i]) then UsableOf(ts[..i]) + [ts[i]] else UsableOf(ts[..i])
  {
    hide StateOk, AllDone;
    assert ts[..i + 1] == ts[..i] + [ts[i]];
    DoneStays(t, s, t', s', AllNeeds(ts[..i]));
    NeedsAppend(s', ts[..i], ts[i]);
    UsableAppend(ts[..i], ts[i]);
    TableSizes(decls, progress, t, t', infinite, s, s');
  }

  lemma TableSizes(decls: seq<Decl>, progress: seq<Progress>, t: Table, t': Table, infinite: nat, s: Dfs, s': Dfs)
    requires Extends(t, s, t', s') && StateOk(decls, progress, t', infinite, s') && infinite == 0
    ensures InTable(t, s)
  {
    StateFacts(decls, progress, t', infinite, s', 0);
    assert forall d: nat :: d in s.order ==> d in s'.order;
  }

  lemma StructDone(decls: seq<Decl>, t: Table, s: Dfs, d: nat, fs: seq<Field>, off: nat, align: nat)
    requires d < |decls| && decls[d].Struct?
    requires Running(t, s, fs, UsableOf(decls[d].fields), decls[d].packed, off, align)
    requires AllDone(s, AllNeeds(decls[d].fields)) && align > 0
    ensures LayoutOf(decls[d], t, s, Metric(RoundUp(off, align), align), fs) && AllDone(s, Needs(decls)[d])
  {
    hide RoundUp;
  }

  /** The running maximum of ST_complete_tag_union. */
  ghost predicate Biggest(t: Table, s: Dfs, ts: seq<TyExpr>, max: nat) {
    (forall k :: 0 <= k < |ts| ==> Known(t.arrays, s, ts[k])) && max == Largest(SizesIn(t, ts), |ts|)
  }

  lemma NoPayloads(t: Table, s: Dfs)
    ensures Biggest(t, s, [], 0) && AllDone(s, [])
  {
  }

  lemma BiggestStays(t: Table, s: Dfs, t': Table, s': Dfs, ts: seq<TyExpr>, max: nat)
    requires InTable(t, s) && Extends(t, s, t', s') && Biggest(t, s, ts, max)
    ensures Biggest(t', s', ts, max)
  {
    SizesStay(t, s, t', s', ts);
  }

  lemma {:induction false} LargestPrefix(ps: seq<Metric>, m: Metric, n: nat)
    requires n <= |ps|
    ensures Largest(ps + [m], n) == Largest(ps, n)
  {
    if n > 0 {
      LargestPrefix(ps, m, n - 1);
    }
  }

  lemma PayloadAdded(t: Table, s: Dfs, ts: seq<TyExpr>, max: nat, te: TyExpr)
    requires Biggest(t, s, ts, max) && Known(t.arrays, s, te)
    ensures Biggest(t, s, ts + [te], if SizeIn(t, te).size > max then SizeIn(t, te).size else max)
  {
    var ps := SizesIn(t, ts);
    assert SizesIn(t, ts + [te]) == ps + [SizeIn(t, te)];
    LargestPrefix(ps, SizeIn(t, te), |ps|);
  }

  lemma {:induction false} PayloadsAppend(ps: seq<Option<TyExpr>>, p: Option<TyExpr>)
    ensures Payloads(ps + [p]) == if p.Some? then Payloads(ps) + [p.value] else Payloads(ps)
  {
    if ps == [] {
      assert [p][1..] == [];
    } else {
      PayloadsAppend(ps[1..], p);
      assert (ps + [p])[1..] == ps[1..] + [p];
    }
  }

  lemma {:induction false} PayloadIn(ps: seq<Option<TyExpr>>, i: nat)
    requires i < |ps| && ps[i].Some?
    ensures ps[i].value in Payloads(ps)
  {
    if i > 0 {
      PayloadIn(ps[1..], i - 1);
    }
  }

  lemma UnionDone(decls: seq<Decl>, t: Table, s: Dfs, d: nat, max: nat)
    requires d < |decls| && decls[d].Union? && AllDone(s, AllNeeds(Payloads(decls[d].payloads)))
    requires Biggest(t, s, UsableOf(Payloads(decls[d].payloads)), max)
    ensures LayoutOf(decls[d], t, s, Metric(8 + RoundUp(max, 8), 8), []) && AllDone(s, Needs(decls)[d])
  {
    hide RoundUp;
  }

  /** Declaration `d` has its final layout. */
  ghost predicate Final(decls: seq<Decl>, t: Table, s: Dfs, d: nat) {
    d < |decls| && d < |t.metrics| && d < |t.laid| && LayoutOf(decls[d], t, s, t.metrics[d], t.laid[d])
  }

  lemma RootAhead(decls: seq<Decl>, s: Dfs, d: nat)
    requires d < |decls|
    ensures s.stack == [] ==> Ahead(Needs(decls), AllOf(decls), s, d)
  {
    assert Declared(decls, d);
  }

  lemma OrderGrows(t: Table, s: Dfs, t': Table, s': Dfs)
    requires Extends(t, s, t', s')
    ensures forall e: nat :: e in s.order ==> e in s'.order
  {
  }

  lemma AllLaidOut(decls: seq<Decl>, progress: seq<Progress>, t: Table, s: Dfs)
    requires StateOk(decls, progress, t, 0, s) && s.stack == [] && forall e: nat :: e < |decls| ==> e in s.order
    ensures !CycleFrom(Needs(decls), AllOf(decls))
    ensures forall d: nat :: d < |decls| ==> Final(decls, t, s, d)
  {
    hide Needs, CycleFrom, Followed, UsableOf, StructMetric, UnionMetric, FieldsRight;
    assert forall r :: r in AllOf(decls) ==> r in s.order;
    Verdict(Needs(decls), AllOf(decls), {}, s);
    forall d: nat | d < |decls|
      ensures Final(decls, t, s, d)
    {
      assert LaidOut(decls, t, s, d);
    }
  }

  lemma CycleReported(decls: seq<Decl>, progress: seq<Progress>, t: Table, infinite: nat, s: Dfs)
    requires StateOk(decls, progress, t, infinite, s) && infinite > 0
    ensures CycleFrom(Needs(decls), AllOf(decls))
  {
  }

  lemma NothingYet(decls: seq<Decl>, progress: seq<Progress>, t: Table)
    requires WellFormed(decls) && |progress| == |decls| && forall d :: 0 <= d < |progress| ==> progress[d].Fresh?
    requires |t.metrics| == |t.laid| == |decls| && t.arrays == map[]
    ensures StateOk(decls, progress, t, 0, Dfs([], [], 0, 0))
  {
    var s := Dfs([], [], 0, 0);
    assert forall d: nat :: LinkedAt(progress, s, d);
    assert forall d: nat :: LaidOut(decls, t, s, d);
    assert forall ty :: ArrayRight(t, s, ty);
  }

  /** A circle of what the declarations need. */
  ghost predicate Circle(decls: seq<Decl>, d: nat, p: seq<nat>) {
    d in AllOf(decls) && WalkFrom(Needs(decls), d, p) && Revisits(p)
  }

  /** One step of it that holds nothing: the next declaration is named only as the element of fixed
      arrays behind pointers or slices. */
  ghost predicate OnlyBehind(decls: seq<Decl>, v: nat, w: nat) {
    v < |decls| && w !in AllContained(Parts(decls[v])) && exists t :: t in Parts(decls[v]) && Behind(t, w)
  }

  /** Which programs are refused although all their types are of finite size: those in which something
      needs itself, and each such circle has a step that holds nothing by value. */
  lemma RefusedWrongly(decls: seq<Decl>)
    ensures CycleFrom(Needs(decls), AllOf(decls)) && !CycleFrom(ByValue(decls), AllOf(decls)) <==>
      && (exists d, p :: Circle(decls, d, p))
      && forall d, p :: Circle(decls, d, p) ==> exists i :: 0 <= i < |p| - 1 && OnlyBehind(decls, p[i], p[i + 1])
  {
    CircleIsCycle(decls);
    if !CycleFrom(ByValue(decls), AllOf(decls)) {
      forall d, p | Circle(decls, d, p)
        ensures exists i :: 0 <= i < |p| - 1 && OnlyBehind(decls, p[i], p[i + 1])
      {
        HoldsNothing(decls, d, p);
      }
    } else {
      var d: nat :| d in AllOf(decls) && Cyclic(ByValue(decls), d);
      var p :| WalkFrom(ByValue(decls), d, p) && Revisits(p);
      HoldsAll(decls, d, p);
    }
  }

  lemma CircleIsCycle(decls: seq<Decl>)
    ensures CycleFrom(Needs(decls), AllOf(decls)) <==> exists d, p :: Circle(decls, d, p)
  {
    if CycleFrom(Needs(decls), AllOf(decls)) {
      var d: nat :| d in AllOf(decls) && Cyclic(Needs(decls), d);
      var p :| WalkFrom(Needs(decls), d, p) && Revisits(p);
      assert Circle(decls, d, p);
    }
  }

  lemma HoldsNothing(decls: seq<Decl>, d: nat, p: seq<nat>)
    requires Circle(decls, d, p) && !CycleFrom(ByValue(decls), AllOf(decls))
    ensures exists i :: 0 <= i < |p| - 1 && OnlyBehind(decls, p[i], p[i + 1])
  {
    if WalkFrom(ByValue(decls), d, p) {
      HeldCycle(decls, d, p);
    }
    var i :| 0 <= i < |p| - 1 && !Edge(ByValue(decls), p[i], p[i + 1]);
    assert Edge(Needs(decls), p[i], p[i + 1]);
    AllNeededExactly(Parts(decls[p[i]]), p[i + 1]);
    assert OnlyBehind(decls, p[i], p[i + 1]);
  }

  lemma HeldCycle(decls: seq<Decl>, d: nat, p: seq<nat>)
    requires d in AllOf(decls) && WalkFrom(ByValue(decls), d, p) && Revisits(p)
    ensures CycleFrom(ByValue(decls), AllOf(decls))
  {
    assert Cyclic(ByValue(decls), d);
  }

  lemma HoldsAll(decls: seq<Decl>, d: nat, p: seq<nat>)
    requires d in AllOf(decls) && WalkFrom(ByValue(decls), d, p) && Revisits(p)
    ensures Circle(decls, d, p) && forall i :: 0 <= i < |p| - 1 ==> !OnlyBehind(decls, p[i], p[i + 1])
  {
    forall i | 0 <= i < |p| - 1
      ensures Edge(Needs(decls), p[i], p[i + 1]) && !OnlyBehind(decls, p[i], p[i + 1])
    {
      assert Edge(ByValue(decls), p[i], p[i + 1]);
      AllNeededExactly(Parts(decls[p[i]]), p[i + 1]);
    }
  }

  // ----- the result in memory -----

  /** Alignments of primitive types are powers of two. */
  ghost predicate PowerPrims(ty: TyExpr) {
    match ty
    case Prim(_, a) => a == 0 || IsPow2(a)
    case Ptr(i) => PowerPrims(i)
    case Slice(i) => PowerPrims(i)
    case Dyn(i) => PowerPrims(i)
    case Arr(i, _) => PowerPrims(i)
    case Named(_) => true
  }

  ghost predicate AllPowerPrims(decls: seq<Decl>) {
    forall d, k :: 0 <= d < |decls| && 0 <= k < |Parts(decls[d])| ==> PowerPrims(Parts(decls[d])[k])
  }

  lemma {:induction false} UsableIn(ts: seq<TyExpr>, te: TyExpr)
    requires te in UsableOf(ts)
    ensures te in ts
  {
    if te in UsableOf(ts[..|ts| - 1]) {
      UsableIn(ts[..|ts| - 1], te);
    }
  }

  lemma SmallPowersOfTwo()
    ensures IsPow2(1) && IsPow2(8)
  {
    assert Pow2(0) == 1 && Pow2(3) == 8;
  }

  /** Every final alignment is a power of two. */
  lemma {:induction false} AlignIsPower(decls: seq<Decl>, t: Table, s: Dfs, ty: TyExpr, n: nat)
    requires AllPowerPrims(decls) && TableOk(decls, t, s) && Topological(Needs(decls), s.order) && n <= |s.order|
    requires forall d: nat :: d in s.order ==> d < |decls|
    requires PowerPrims(ty) && Known(t.arrays, s, ty) && forall w: nat :: w in FieldNeeds(ty) ==> w in s.order[..n]
    ensures IsPow2(FieldAlign(SizeIn(t, ty), false))
    decreases 2 * n, ty
  {
    hide Needs, StructMetric, UnionMetric, FieldsRight, Topological;
    SmallPowersOfTwo();
    match ty
    case Arr(i, c) =>
      assert ArrayRight(t, s, ty);
      assert forall w: nat :: w in FieldNeeds(i) ==> w in FieldNeeds(ty);
      AlignIsPower(decls, t, s, i, n);
    case Named(d) =>
      assert d in s.order[..n];
      var p: nat :| p < n && s.order[p] == d;
      DeclIsPower(decls, t, s, d, p);
    case _ =>
  }

  lemma {:induction false} DeclIsPower(decls: seq<Decl>, t: Table, s: Dfs, d: nat, p: nat)
    requires AllPowerPrims(decls) && TableOk(decls, t, s) && Topological(Needs(decls), s.order)
    requires forall d: nat :: d in s.order ==> d < |decls|
    requires p < |s.order| && s.order[p] == d && d < |decls|
    ensures IsPow2(t.metrics[d].align) && Powers(SizesIn(t, UsableOf(Parts(decls[d]))))
    decreases 2 * p + 1
  {
    hide FieldsRight, UsableOf;
    assert LaidOut(decls, t, s, d);
    SmallPowersOfTwo();
    var ts := UsableOf(Parts(decls[d]));
    forall k | 0 <= k < |ts|
      ensures IsPow2(FieldAlign(SizesIn(t, ts)[k], false))
    {
      UsableIn(Parts(decls[d]), ts[k]);
      PartBefore(decls, s, d, p, ts[k]);
      AlignIsPower(decls, t, s, ts[k], p);
    }
    if decls[d].Struct? {
      AlignPower(SizesIn(t, ts), decls[d].packed, |ts|);
    }
  }

  lemma PartBefore(decls: seq<Decl>, s: Dfs, d: nat, p: nat, te: TyExpr)
    requires AllPowerPrims(decls) && Topological(Needs(decls), s.order) && p < |s.order| && s.order[p] == d < |decls|
    requires te in Parts(decls[d])
    ensures PowerPrims(te) && forall w: nat :: w in FieldNeeds(te) ==> w in s.order[..p]
  {
    var k :| 0 <= k < |Parts(decls[d])| && Parts(decls[d])[k] == te;
    forall w: nat | w in FieldNeeds(te)
      ensures w in s.order[..p]
    {
      NeedsIn(Parts(decls[d]), k, w);
      assert Edge(Needs(decls), s.order[p], w);
    }
  }

  /** Where something of this type may start: at multiples of its alignment, or anywhere if packed. */
  function Boundary(t: Table, ty: TyExpr, packed: bool): (a: nat)
    ensures a > 0
  {
    var m := SizeIn(t, ty);
    if packed || m.align == 0 then 1 else m.align
  }

  function FieldEnd(t: Table, f: Field): nat {
    f.offset + SizeIn(t, f.ty).size
  }

  /** Field `k` is at the first place behind the field before it where its type may start, and lies
      inside the struct. */
  ghost predicate FieldPlaced(t: Table, fs: seq<Field>, packed: bool, m: Metric, k: nat)
    requires k < |fs|
  {
    var a := Boundary(t, fs[k].ty, packed);
    var free := if k == 0 then 0 else FieldEnd(t, fs[k - 1]);
    && free <= fs[k].offset < free + a && fs[k].offset % a == 0
    && FieldEnd(t, fs[k]) <= m.size && m.align > 0 && m.align % a == 0
  }

  /** The strictest field gives the alignment, and the size is the next multiple of it. */
  ghost predicate StructPlaced(t: Table, fs: seq<Field>, packed: bool, m: Metric) {
    var end := if fs == [] then 0 else FieldEnd(t, fs[|fs| - 1]);
    && (forall k: nat :: k < |fs| ==> FieldPlaced(t, fs, packed, m, k))
    && (m.align == 1 || exists k :: 0 <= k < |fs| && m.align == Boundary(t, fs[k].ty, packed))
    && m.align > 0 && m.size % m.align == 0 && end <= m.size < end + m.align
  }

  /** A tag of 8 bytes, and room behind it for the largest payload. */
  ghost predicate UnionPlaced(t: Table, ts: seq<TyExpr>, m: Metric) {
    && m.align == 8 && m.size % 8 == 0 && 8 <= m.size
    && (forall k :: 0 <= k < |ts| ==> 8 + SizeIn(t, ts[k]).size <= m.size)
    && (m.size == 8 || exists k :: 0 <= k < |ts| && m.size < 8 + SizeIn(t, ts[k]).size + 8)
  }

  /** The layout of declaration `d`, from the sizes of its parts. Parts of an unusable type are left out. */
  ghost predicate InMemory(decls: seq<Decl>, t: Table, d: nat) {
    d < |decls| && d < |t.metrics| && d < |t.laid| ==>
      var ts := UsableOf(Parts(decls[d]));
      match decls[d]
      case Struct(_, packed) => TypesOf(t.laid[d]) == ts && StructPlaced(t, t.laid[d], packed, t.metrics[d])
      case Union(_) => UnionPlaced(t, ts, t.metrics[d])
  }

  /** The size of a type: elements lie one behind the other, at multiples of the size of one. */
  ghost predicate SizeRight(t: Table, ty: TyExpr) {
    var m := SizeIn(t, ty);
    match ty
    case Prim(n, a) => m.size == n && m.align == a
    case Named(d) => d < |t.metrics| ==> m == t.metrics[d]
    case Ptr(_) => m.size == 8 && m.align == 8
    case Slice(_) => m.size == 16 && m.align == 8
    case Dyn(_) => m.size == 24 && m.align == 8
    case Arr(i, n) =>
      var e := SizeIn(t, i);
      && (forall j :: 0 <= j < n ==> 0 <= j * e.size && j * e.size + e.size <= m.size)
      && m.size <= n * e.size
      && m.align == if e.align == 0 then 1 else e.align
  }

  /** Every size that is known is right, also while the walk goes on. */
  lemma KnownIsRight(decls: seq<Decl>, progress: seq<Progress>, t: Table, s: Dfs, ty: TyExpr)
    requires StateOk(decls, progress, t, 0, s) && Known(t.arrays, s, ty)
    ensures SizeRight(t, ty)
  {
    hide StateOk, ArrayMetric;
    ArrayIn(decls, progress, t, s, ty);
    if ty.Arr? {
      ElementsInside(SizeIn(t, ty.inner), ty.count);
    }
  }

  lemma ElementsInside(e: Metric, n: nat)
    ensures
      var m := ArrayMetric(e, n);
      && (forall j :: 0 <= j < n ==> 0 <= j * e.size && j * e.size + e.size <= m.size)
      && m.size <= n * e.size && m.align == if e.align == 0 then 1 else e.align
  {
    forall j | 0 <= j < n
      ensures 0 <= j * e.size && j * e.size + e.size <= e.size * n
    {
      OneInside(e.size, n, j);
    }
  }

  lemma {:induction false} OneInside(size: nat, n: nat, j: nat)
    requires j < n
    ensures 0 <= j * size && j * size + size <= size * n
  {
    assert size * n == size * (n - 1) + size;
    if j < n - 1 {
      OneInside(size, n - 1, j);
    } else {
      assert j * size == size * (n - 1);
    }
  }

  lemma ArrayIn(decls: seq<Decl>, progress: seq<Progress>, t: Table, s: Dfs, ty: TyExpr)
    requires StateOk(decls, progress, t, 0, s)
    ensures ArrayRight(t, s, ty)
  {
    hide Ok, Linked;
  }

  /** Element `l` of element `j` of an array of arrays. */
  lemma NestedElement(decls: seq<Decl>, progress: seq<Progress>, t: Table, s: Dfs, i: TyExpr, n: int, k: int, j: nat, l: nat)
    requires StateOk(decls, progress, t, 0, s) && Arr(Arr(i, n), k) in t.arrays && j < k && l < n
    ensures
      var size := SizeIn(t, i).size;
      && j * SizeIn(t, Arr(i, n)).size + l * size == (j * n + l) * size
      && (j * n + l) * size + size <= SizeIn(t, Arr(Arr(i, n), k)).size
  {
    hide StateOk;
    var size, row := SizeIn(t, i).size, SizeIn(t, Arr(i, n)).size;
    ArrayIn(decls, progress, t, s, Arr(Arr(i, n), k));
    KnownIsRight(decls, progress, t, s, Arr(Arr(i, n), k));
    KnownIsRight(decls, progress, t, s, Arr(i, n));
    ElementEnds(n, size, row, l);
    assert j * row + row <= SizeIn(t, Arr(Arr(i, n), k)).size;
    RowStarts(j, n, l, size);
  }

  lemma ElementEnds(n: int, size: nat, row: nat, l: nat)
    requires l < n && row <= n * size && forall j :: 0 <= j < n ==> j * size + size <= row
    ensures row == n * size && l * size + size <= row
  {
    assert (n - 1) * size + size == n * size;
  }

  lemma RowStarts(j: nat, n: nat, l: nat, size: nat)
    ensures j * (n * size) + l * size == (j * n + l) * size
  {
  }

  // structs and unions

  lemma {:induction false} AlignFrom(ms: seq<Metric>, packed: bool, n: nat)
    requires n <= |ms|
    ensures AlignOf(ms, packed, n) == 1 || exists k :: 0 <= k < n && AlignOf(ms, packed, n) == FieldAlign(ms[k], packed)
  {
    if n > 0 {
      AlignFrom(ms, packed, n - 1);
    }
  }

  lemma SizesAt(t: Table, ts: seq<TyExpr>)
    ensures forall k :: 0 <= k < |ts| ==> SizesIn(t, ts)[k] == SizeIn(t, ts[k])
  {
  }

  lemma StructIsPlaced(t: Table, s: Dfs, fs: seq<Field>, ts: seq<TyExpr>, packed: bool)
    requires FieldsRight(t, s, fs, ts, packed) && Powers(SizesIn(t, ts))
    ensures StructPlaced(t, fs, packed, StructMetric(SizesIn(t, ts), packed))
  {
    hide RoundUp, OffsetAt, EndOf, AlignOf, SizeIn, Known;
    var ms := SizesIn(t, ts);
    var m := StructMetric(ms, packed);
    SizesAt(t, ts);
    SizeIsNext(ms, packed);
    forall k: nat | k < |fs|
      ensures FieldPlaced(t, fs, packed, m, k)
    {
      FieldIsPlaced(t, fs, ms, packed, k);
    }
    EndIs(t, fs, ms, packed, |fs|);
    AlignFrom(ms, packed, |ms|);
    if m.align != 1 {
      var k :| 0 <= k < |ms| && AlignOf(ms, packed, |ms|) == FieldAlign(ms[k], packed);
      assert m.align == Boundary(t, fs[k].ty, packed);
    }
  }

  /** The size is the first multiple of the alignment behind the last field. */
  lemma SizeIsNext(ms: seq<Metric>, packed: bool)
    requires Powers(ms)
    ensures
      var m, end := StructMetric(ms, packed), EndOf(ms, packed, |ms|);
      m.align > 0 && m.size % m.align == 0 && end <= m.size < end + m.align
  {
    var a, end := AlignOf(ms, packed, |ms|), EndOf(ms, packed, |ms|);
    AlignPower(ms, packed, |ms|);
    RoundUpBounds(end, a);
    RoundUpAligned(end, a);
  }

  lemma EndIs(t: Table, fs: seq<Field>, ms: seq<Metric>, packed: bool, k: nat)
    requires |fs| == |ms| && k <= |fs| && forall k :: 0 <= k < |fs| ==> ms[k] == SizeIn(t, fs[k].ty)
    requires forall k :: 0 <= k < |fs| ==> fs[k].offset == OffsetAt(ms, packed, k)
    ensures EndOf(ms, packed, k) == if k == 0 then 0 else FieldEnd(t, fs[k - 1])
  {
    hide SizeIn, OffsetAt;
  }

  lemma FieldIsPlaced(t: Table, fs: seq<Field>, ms: seq<Metric>, packed: bool, k: nat)
    requires k < |fs| == |ms| && Powers(ms) && forall k :: 0 <= k < |fs| ==> ms[k] == SizeIn(t, fs[k].ty)
    requires forall k :: 0 <= k < |fs| ==> fs[k].offset == OffsetAt(ms, packed, k)
    ensures FieldPlaced(t, fs, packed, StructMetric(ms, packed), k)
  {
    hide SizeIn, RoundUp, EndOf;
    EndIs(t, fs, ms, packed, k);
    OneIsPow2();
    RoundUpBounds(EndOf(ms, packed, k), FieldAlign(ms[k], packed));
    StructRight(ms, packed, k);
    assert Boundary(t, fs[k].ty, packed) == FieldAlign(ms[k], packed);
  }

  lemma UnionIsPlaced(t: Table, ts: seq<TyExpr>)
    ensures UnionPlaced(t, ts, UnionMetric(SizesIn(t, ts)))
  {
    hide RoundUp, SizeIn;
    var ps := SizesIn(t, ts);
    SizesAt(t, ts);
    if ts == [] {
      RoundUpBounds(0, 8);
      NoneIsAligned();
    } else {
      UnionRight(ps, 0);
      forall k | 0 <= k < |ts|
        ensures 8 + SizeIn(t, ts[k]).size <= UnionMetric(ps).size
      {
        UnionRight(ps, k);
      }
      var k :| 0 <= k < |ps| && UnionMetric(ps).size < 8 + ps[k].size + 8;
      assert UnionMetric(ps).size < 8 + SizeIn(t, ts[k]).size + 8;
    }
  }

  lemma NoneIsAligned()
    ensures RoundUp(0, 8) == 0
  {
    SmallPowersOfTwo();
    RoundUpBounds(0, 8);
    RoundUpAligned(0, 8);
  }

  /** Every finished declaration is laid out so: the fields of a struct in order, each at the first
      place where it may start, and no byte longer than the alignment asks for. */
  lemma FinishedInMemory(decls: seq<Decl>, progress: seq<Progress>, t: Table, s: Dfs, d: nat)
    requires StateOk(decls, progress, t, 0, s) && AllPowerPrims(decls) && d in s.order
    ensures InMemory(decls, t, d)
  {
    hide Needs, RoundUp, UsableOf, Followed, Distinct, StructMetric, UnionMetric, StructPlaced, UnionPlaced;
    StateFacts(decls, progress, t, 0, s, d);
    assert LaidOut(decls, t, s, d);
    var p: nat :| p < |s.order| && s.order[p] == d;
    DeclIsPower(decls, t, s, d, p);
    var ts := UsableOf(Parts(decls[d]));
    if decls[d].Struct? {
      StructIsPlaced(t, s, t.laid[d], ts, decls[d].packed);
    } else {
      UnionIsPlaced(t, ts);
    }
  }

  /** A type is usable if and only if no array that occurs in it has a negative length. */
  lemma {:induction false} UsableExactly(t: TyExpr)
    ensures Usable(t) <==> forall u :: Inside(t, u) && u.Arr? ==> u.count >= 0
  {
    match t
    case Ptr(i) => UsableExactly(i); assert forall u :: Inside(t, u) <==> t == u || Inside(i, u);
    case Slice(i) => UsableExactly(i); assert forall u :: Inside(t, u) <==> t == u || Inside(i, u);
    case Dyn(i) => UsableExactly(i); assert forall u :: Inside(t, u) <==> t == u || Inside(i, u);
    case Arr(i, n) => UsableExactly(i); assert Inside(t, t) && forall u :: Inside(t, u) <==> t == u || Inside(i, u);
    case _ =>
  }

  /** All parts of usable types are there. */
  lemma {:induction false} AllUsable(ts: seq<TyExpr>)
    requires forall k :: 0 <= k < |ts| ==> Usable(ts[k])
    ensures UsableOf(ts) == ts
  {
    if ts != [] {
      AllUsable(ts[..|ts| - 1]);
    }
  }

  lemma AllInMemory(decls: seq<Decl>, progress: seq<Progress>, t: Table, s: Dfs)
    requires StateOk(decls, progress, t, 0, s) && forall e: nat :: e < |decls| ==> e in s.order
    ensures AllPowerPrims(decls) ==> forall d: nat :: InMemory(decls, t, d)
    ensures forall ty :: ty in t.arrays ==> SizeRight(t, ty)
  {
    hide StateOk, AllPowerPrims, InMemory, SizeRight;
    if AllPowerPrims(decls) {
      forall d: nat
        ensures InMemory(decls, t, d)
      {
        if d < |decls| {
          FinishedInMemory(decls, progress, t, s, d);
        } else {
          NotThere(decls, t, d);
        }
      }
    }
    forall ty | ty in t.arrays
      ensures SizeRight(t, ty)
    {
      ArrayIn(decls, progress, t, s, ty);
      KnownIsRight(decls, progress, t, s, ty);
    }
  }

  lemma NotThere(decls: seq<Decl>, t: Table, d: nat)
    requires d >= |decls|
    ensures InMemory(decls, t, d)
  {
  }
}
