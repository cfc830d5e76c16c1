/** The two halves together: a function built by the SSA construction, compiled by the back
    end. When the machine enters a block, the slot that ST_slot finds for what the block
    answers for a variable holds the variable's value, however far and however lazily trivial
    phis were forwarded. */
module Compose {
  import opened Cfg
  import opened Ir
  import opened Wrappers
  import opened Word
  import opened Asm
  import opened SsaInv
  import SsaRead
  import opened SsaMeaning
  import opened SsaBuilder
  import opened IrSem
  import opened Codegen
  import opened Simulation
  import opened SimulationRun
  import opened Emitter

  /** A finished construction whose entry block is block 0; `types` are the types of the variables. */
  ghost predicate Built(g: Graph, f: Fn, s: Shadow) {
    && Complete(g, f, s) && JumpsAreEdges(f)
    && f.blocks != [] && g.preds[0] == [] && 0 !in s.early
    && exists types :: SsaRead.Typed(f, types)
  }

  /** All operands of a phi have its type: they are values of one variable. */
  ghost predicate PhiTyped(f: Fn, root: seq<Id>, p: Id) {
    p < |f.insts| && f.insts[p].op.Phi? && !f.insts[p].removed ==>
      forall k :: 0 <= k < |f.insts[p].args| ==> TypeOf(f, root, f.insts[p].args[k]) == f.insts[p].ty
  }

  /** What an instruction was replaced by has its type. */
  lemma {:induction false} RootTyped(g: Graph, f: Fn, s: Shadow, types: Var -> Ty, v: Id)
    requires Inv(g, f, s) && SsaRead.Typed(f, types) && v < |f.insts|
    ensures SsaRead.HasTy(f, s.root[v], f.insts[v].ty)
    decreases s.height[v]
  {
    assert ChainOk(f, s, v) && SsaRead.InstTyped(f, v);
    if f.insts[v].repl.Some? {
      RootTyped(g, f, s, types, f.insts[v].repl.value);
    }
  }

  lemma BuiltIsTyped(g: Graph, f: Fn, s: Shadow, p: Id)
    requires Built(g, f, s)
    ensures PhiTyped(f, s.root, p)
  {
    var types :| SsaRead.Typed(f, types);
    if p < |f.insts| && f.insts[p].op.Phi? {
      assert SsaRead.InstTyped(f, p);
      forall k | 0 <= k < |f.insts[p].args|
        ensures TypeOf(f, s.root, f.insts[p].args[k]) == f.insts[p].ty
      {
        RootTyped(g, f, s, types, f.insts[p].args[k]);
      }
    }
  }

  lemma BuiltIsWellFormed(g: Graph, f: Fn, s: Shadow)
    requires Built(g, f, s)
    ensures WellFormed(f, s.root)
  {
    forall v | 0 <= v < |s.root|
      ensures s.root[v] < |s.root| && s.root[s.root[v]] == s.root[v] && (s.root[v] == v <==> !f.insts[v].removed)
    {
      assert ChainOk(f, s, v);
      assert ChainOk(f, s, s.root[v]);
    }
    forall b: BlockId
      ensures ListedOk(f, b)
    {
      assert ListOk(f, b);
    }
    forall from: BlockId, v: Id | v < |f.insts|
      ensures IncomingOk(f, s.root, from, v)
    {
      assert InstOk(f, v);
      if Copied(f, from, v) {
        IncomingIsOperand(f.insts[v].args, f.insts[v].from, from);
      }
    }
  }

  // ----- the IR's run as a run of the graph -----

  function Start0(f: Fn, root: seq<Id>, n: nat): State {
    Run(f, root, At(0, map[]), n)
  }

  /** The blocks entered during the first `n` steps. */
  function Trail(f: Fn, root: seq<Id>, n: nat): seq<BlockId>
    decreases n
  {
    var st := Start0(f, root, n);
    if !st.At? then [] else (if n == 0 then [] else Trail(f, root, n - 1)) + [st.b]
  }

  /** The values at the end of the block entered last. */
  function EndEnv(f: Fn, root: seq<Id>, n: nat): Env {
    match Start0(f, root, n)
    case At(b, env) =>
      if b < |f.blocks| then
        (match RunInsts(f, root, env, f.blocks[b].list) case Some(env') => env' case None => map[])
      else map[]
    case _ => map[]
  }

  /** What the ordinary instructions delivered. */
  function Delivered(f: Fn, root: seq<Id>): Outcome {
    (k: nat, v: Id) => if k > 0 && v in EndEnv(f, root, k - 1) then EndEnv(f, root, k - 1)[v] else 0
  }

  function NoJunk(): Id -> int {
    _ => 0
  }

  function Value(f: Fn, s: Shadow, p: seq<BlockId>, v: Id): int {
    Slot(f, s.root, NoJunk(), Delivered(f, s.root), p, v)
  }

  predicate Ordinary(f: Fn, v: Id, b: BlockId) {
    v < |f.insts| && f.insts[v].block == b && !f.insts[v].op.Phi?
  }

  /** On entering a block: its own instructions still have their old values. */
  ghost predicate AtStart(f: Fn, s: Shadow, n: nat) {
    var st := Start0(f, s.root, n);
    st.At? ==>
      var p := Trail(f, s.root, n);
      && p != [] && |p| == n + 1 && Last(p) == st.b
      && forall v :: v in st.env ==>
           && v < |f.insts| && !f.insts[v].removed
           && st.env[v] == if Ordinary(f, v, st.b) then Value(f, s, Init(p), v) else Value(f, s, p, v)
  }

  ghost predicate AtEnd(f: Fn, s: Shadow, n: nat) {
    forall v :: v in EndEnv(f, s.root, n) ==>
      && v < |f.insts| && !f.insts[v].removed
      && EndEnv(f, s.root, n)[v] == Value(f, s, Trail(f, s.root, n), v)
  }

  lemma {:induction false} RunInstsValues(f: Fn, root: seq<Id>, env: Env, list: seq<Id>, v: Id)
    requires RunInsts(f, root, env, list).Some?
    ensures
      var env' := RunInsts(f, root, env, list).value;
      && (v in list && v < |f.insts| && !f.insts[v].op.Phi? ==>
            v in env' && (f.insts[v].op.ConstInt? ==> env'[v] == f.insts[v].op.value))
      && (!(v in list && v < |f.insts| && !f.insts[v].op.Phi?) ==>
            (v in env' <==> v in env) && (v in env ==> env'[v] == env[v]))
    decreases |list|
  {
    if list != [] {
      assert list == [list[0]] + list[1..];
      RunInstsValues(f, root, RunInst(f, root, env, list[0]).value, list[1..], v);
    }
  }

  /** A step of the run follows an edge. */
  lemma StepIsEdge(g: Graph, f: Fn, s: Shadow, n: nat)
    requires Built(g, f, s) && n > 0 && Start0(f, s.root, n).At?
    ensures
      var before := Start0(f, s.root, n - 1);
      && before.At? && before.b < |f.blocks| && Start0(f, s.root, n).b < |f.blocks|
      && RunInsts(f, s.root, before.env, f.blocks[before.b].list).Some?
      && before.b in g.preds[Start0(f, s.root, n).b]
      && Start0(f, s.root, n).env == Enter(f, s.root, EndEnv(f, s.root, n - 1), before.b, Start0(f, s.root, n).b)
  {
    var before := Start0(f, s.root, n - 1);
    var b := before.b;
    var t := Start0(f, s.root, n).b;
    assert JumpOk(f, b);
    assert t in Targets(f.blocks[b].term);
    assert EdgesOk(g, f, t);
  }

  lemma {:induction false} TrailIsPath(g: Graph, f: Fn, s: Shadow, n: nat)
    requires Built(g, f, s) && Start0(f, s.root, n).At?
    ensures
      var p := Trail(f, s.root, n);
      |p| == n + 1 && IsPath(g, p) && p[0] == 0 && Last(p) == Start0(f, s.root, n).b && (n > 0 ==> Init(p) == Trail(f, s.root, n - 1))
  {
    if n > 0 {
      StepIsEdge(g, f, s, n);
      hide Run, Start0, Enter, RunInsts;
      TrailIsPath(g, f, s, n - 1);
      assert Init(Trail(f, s.root, n)) == Trail(f, s.root, n - 1);
    }
  }

  lemma IncomingIsFirst(args: seq<Id>, preds: seq<BlockId>, q: BlockId)
    requires |args| == |preds| && q in preds
    ensures IncomingAt(args, preds, q) == Some(args[IndexOf(preds, q)])
  {
    if preds[0] != q {
      IncomingIsFirst(args[1..], preds[1..], q);
    }
  }

  /** A phi of the block that an edge leads to is copied on that edge. */
  lemma PhiIsCopied(g: Graph, f: Fn, s: Shadow, v: Id, q: BlockId)
    requires Built(g, f, s) && v < |f.insts| && f.insts[v].op.Phi? && !f.insts[v].removed
    requires f.insts[v].block < |g.preds| && q in g.preds[f.insts[v].block]
    ensures v in f.blocks[f.insts[v].block].list && Copied(f, q, v) && q in f.insts[v].from
    ensures
      var k := IndexOf(f.insts[v].from, q);
      k < |f.insts[v].args| && Incoming(f.insts[v], q).value == f.insts[v].args[k]
      && Answers(f, s, q, s.phiVar[v], f.insts[v].args[k])
  {
    var b := f.insts[v].block;
    assert PhiOk(f, s, v) && EdgesOk(g, f, b) && ListOk(f, b);
    IncomingIsFirst(f.insts[v].args, f.insts[v].from, q);
    var k := IndexOf(f.insts[v].from, q);
    assert Answers(f, s, f.insts[v].from[k], s.phiVar[v], f.insts[v].args[k]);
  }

  lemma StartFromEnd(g: Graph, f: Fn, s: Shadow, n: nat)
    requires Built(g, f, s) && n > 0 && Start0(f, s.root, n).At? && AtEnd(f, s, n - 1)
    ensures AtStart(f, s, n)
  {
    StepIsEdge(g, f, s, n);
    TrailIsPath(g, f, s, n);
    var st := Start0(f, s.root, n);
    var q := Start0(f, s.root, n - 1).b;
    var p := Trail(f, s.root, n);
    forall v | v in st.env
      ensures v < |f.insts| && !f.insts[v].removed
      ensures st.env[v] == if Ordinary(f, v, st.b) then Value(f, s, Init(p), v) else Value(f, s, p, v)
    {
      EnteredValue(g, f, s, n, v, q);
    }
  }

  lemma EnteredValue(g: Graph, f: Fn, s: Shadow, n: nat, v: Id, q: BlockId)
    requires Built(g, f, s) && n > 0 && Start0(f, s.root, n).At? && AtEnd(f, s, n - 1)
    requires q == Last(Trail(f, s.root, n - 1)) && |Trail(f, s.root, n)| == n + 1 > 1
    requires Init(Trail(f, s.root, n)) == Trail(f, s.root, n - 1) && Last(Trail(f, s.root, n)) == Start0(f, s.root, n).b
    requires Start0(f, s.root, n).b < |f.blocks| && q in g.preds[Start0(f, s.root, n).b]
    requires Start0(f, s.root, n).env == Enter(f, s.root, EndEnv(f, s.root, n - 1), q, Start0(f, s.root, n).b)
    requires v in Start0(f, s.root, n).env
    ensures v < |f.insts| && !f.insts[v].removed
    ensures
      var st, p := Start0(f, s.root, n), Trail(f, s.root, n);
      st.env[v] == if Ordinary(f, v, st.b) then Value(f, s, Init(p), v) else Value(f, s, p, v)
  {
    hide Start0, Trail, EndEnv, Delivered;
    var st, p := Start0(f, s.root, n), Trail(f, s.root, n);
    var list := f.blocks[st.b].list;
    var before := EndEnv(f, s.root, n - 1);
    EnterPhisValues(f, s.root, before, before, q, list, v);
    assert ListOk(f, st.b);
    if v in list && Copied(f, q, v) {
      PhiIsCopied(g, f, s, v, q);
    } else if f.insts[v].block == st.b && f.insts[v].op.Phi? {
      PhiIsCopied(g, f, s, v, q);
      assert false;
    }
  }

  lemma EndFromStart(g: Graph, f: Fn, s: Shadow, n: nat)
    requires Built(g, f, s) && AtStart(f, s, n) && Start0(f, s.root, n).At?
    ensures AtEnd(f, s, n)
  {
    TrailIsPath(g, f, s, n);
    var e := EndEnv(f, s.root, n);
    forall v | v in e
      ensures v < |f.insts| && !f.insts[v].removed && e[v] == Value(f, s, Trail(f, s.root, n), v)
    {
      EndValue(g, f, s, n, v);
    }
  }

  lemma EndValue(g: Graph, f: Fn, s: Shadow, n: nat, v: Id)
    requires Built(g, f, s) && AtStart(f, s, n) && Start0(f, s.root, n).At? && v in EndEnv(f, s.root, n)
    requires Trail(f, s.root, n) != [] && Last(Trail(f, s.root, n)) == Start0(f, s.root, n).b
    ensures v < |f.insts| && !f.insts[v].removed && EndEnv(f, s.root, n)[v] == Value(f, s, Trail(f, s.root, n), v)
  {
    hide Start0, Trail, Enter;
    var st := Start0(f, s.root, n);
    assert ListOk(f, st.b);
    RunInstsValues(f, s.root, st.env, f.blocks[st.b].list, v);
  }

  lemma {:induction false} Agrees(g: Graph, f: Fn, s: Shadow, n: nat)
    requires Built(g, f, s) && Start0(f, s.root, n).At?
    ensures AtStart(f, s, n) && AtEnd(f, s, n)
  {
    if n == 0 {
      TrailIsPath(g, f, s, 0);
    } else {
      StepIsEdge(g, f, s, n);
      Agrees(g, f, s, n - 1);
      StartFromEnd(g, f, s, n);
    }
    EndFromStart(g, f, s, n);
  }

  // ----- nothing that is needed is missing -----

  lemma {:induction false} EnterPhisKeys(f: Fn, root: seq<Id>, before: Env, env: Env, from: BlockId, list: seq<Id>, v: Id)
    requires
      if v in list && Copied(f, from, v) then
        var u := Incoming(f.insts[v], from).value;
        Known(f, root, before, u) && TypeOf(f, root, u) == f.insts[v].ty
      else v in env
    ensures v in EnterPhis(f, root, before, env, from, list)
    decreases |list|
  {
    if list != [] {
      var p := list[0];
      assert list == [p] + list[1..];
      if !Copied(f, from, p) {
        EnterPhisKeys(f, root, before, env, from, list[1..], v);
      } else {
        var u := Incoming(f.insts[p], from).value;
        if Known(f, root, before, u) && TypeOf(f, root, u) == f.insts[p].ty {
          EnterPhisKeys(f, root, before, env[p := ValueOf(f, root, before, u)], from, list[1..], v);
        } else {
          EnterPhisKeys(f, root, before, env - {p}, from, list[1..], v);
        }
      }
    }
  }

  /** Everything in the blocks passed so far has a value. */
  ghost predicate AllComputed(f: Fn, s: Shadow, n: nat) {
    forall v :: 0 <= v < |f.insts| && !f.insts[v].removed && f.insts[v].block in Trail(f, s.root, n) ==> v in EndEnv(f, s.root, n)
  }

  lemma EnteredKnown(g: Graph, f: Fn, s: Shadow, n: nat, v: Id)
    requires Built(g, f, s) && n > 0 && Start0(f, s.root, n).At? && AllComputed(f, s, n - 1)
    requires v < |f.insts| && !f.insts[v].removed
    requires f.insts[v].block in Trail(f, s.root, n - 1) || f.insts[v].op.Phi?
    requires f.insts[v].block in Trail(f, s.root, n)
    ensures v in Start0(f, s.root, n).env
  {
    StepIsEdge(g, f, s, n);
    TrailIsPath(g, f, s, n);
    TrailIsPath(g, f, s, n - 1);
    hide Start0, Trail, EndEnv;
    var st := Start0(f, s.root, n);
    var p := Trail(f, s.root, n - 1);
    var q := Last(p);
    var list := f.blocks[st.b].list;
    var before := EndEnv(f, s.root, n - 1);
    assert Trail(f, s.root, n) == p + [st.b];
    assert ListOk(f, st.b);
    if v in list && Copied(f, q, v) {
      PhiIsCopied(g, f, s, v, q);
      OperandKnown(g, f, s, p, before, v, q);
    } else if f.insts[v].block == st.b && f.insts[v].op.Phi? {
      PhiIsCopied(g, f, s, v, q);
      assert false;
    }
    EnterPhisKeys(f, s.root, before, before, q, list, v);
  }

  lemma OperandKnown(g: Graph, f: Fn, s: Shadow, p: seq<BlockId>, env: Env, v: Id, q: BlockId)
    requires Built(g, f, s) && IsPath(g, p) && q == Last(p)
    requires v < |f.insts| && f.insts[v].op.Phi? && !f.insts[v].removed
    requires f.insts[v].block < |g.preds| && q in g.preds[f.insts[v].block]
    requires forall u :: 0 <= u < |f.insts| && !f.insts[u].removed && f.insts[u].block in p ==> u in env
    ensures Incoming(f.insts[v], q).Some?
    ensures Known(f, s.root, env, Incoming(f.insts[v], q).value)
    ensures TypeOf(f, s.root, Incoming(f.insts[v], q).value) == f.insts[v].ty
  {
    PhiIsCopied(g, f, s, v, q);
    var k := IndexOf(f.insts[v].from, q);
    var u := f.insts[v].args[k];
    Available(g, f, s, p);
    assert !Isolated(g, q);
    assert Answers(f, s, q, s.phiVar[v], u);
    assert Passed(f, s, p, f.blocks[q].varDefs[s.phiVar[v]]);
    assert ChainOk(f, s, u) && ChainOk(f, s, s.root[u]);
    BuiltIsTyped(g, f, s, v);
  }

  lemma {:induction false} ComputedAtEnd(g: Graph, f: Fn, s: Shadow, n: nat)
    requires Built(g, f, s) && Start0(f, s.root, n + 1).At?
    ensures AllComputed(f, s, n)
  {
    hide Built, Start0, Trail, EndEnv, RunInsts;
    StepIsEdge(g, f, s, n + 1);
    TrailIsPath(g, f, s, n);
    if n > 0 {
      ComputedAtEnd(g, f, s, n - 1);
    }
    forall v | 0 <= v < |f.insts| && !f.insts[v].removed && f.insts[v].block in Trail(f, s.root, n)
      ensures v in EndEnv(f, s.root, n)
    {
      ComputedHere(g, f, s, n, v);
    }
  }

  lemma NoPhiInEntry(g: Graph, f: Fn, s: Shadow, v: Id)
    requires Built(g, f, s) && v < |f.insts| && f.insts[v].op.Phi?
    ensures f.insts[v].block != 0
  {
    assert PhiIn(f, f.insts[v].block);
    assert EarlyOk(g, f, s, 0);
  }

  lemma ComputedHere(g: Graph, f: Fn, s: Shadow, n: nat, v: Id)
    requires Built(g, f, s) && Start0(f, s.root, n).At? && Start0(f, s.root, n).b < |f.blocks|
    requires RunInsts(f, s.root, Start0(f, s.root, n).env, f.blocks[Start0(f, s.root, n).b].list).Some?
    requires n > 0 ==> AllComputed(f, s, n - 1)
    requires v < |f.insts| && !f.insts[v].removed && f.insts[v].block in Trail(f, s.root, n)
    ensures v in EndEnv(f, s.root, n)
  {
    TrailIsPath(g, f, s, n);
    var st := Start0(f, s.root, n);
    var p := Trail(f, s.root, n);
    assert ListOk(f, st.b);
    assert p == Init(p) + [st.b];
    RunInstsValues(f, s.root, st.env, f.blocks[st.b].list, v);
    if n == 0 && f.insts[v].op.Phi? {
      NoPhiInEntry(g, f, s, v);
    } else if n > 0 && !(f.insts[v].block == st.b && !f.insts[v].op.Phi?) {
      EnteredKnown(g, f, s, n, v);
    }
  }

  /** On entering a block after at least one step, what the block answers for a variable has a
      value, and it is the variable's. */
  lemma EntryAnswer(g: Graph, f: Fn, s: Shadow, n: nat, x: Var)
    requires Built(g, f, s) && n > 0 && Start0(f, s.root, n).At?
    requires Start0(f, s.root, n).b < |f.blocks| && x in s.inDefs[Start0(f, s.root, n).b]
    ensures
      var st := Start0(f, s.root, n);
      var d := s.inDefs[st.b][x];
      && d < |f.insts| && s.root[d] in st.env
      && st.env[s.root[d]] == Source(f, s, NoJunk(), Delivered(f, s.root), Trail(f, s.root, n - 1), x)
  {
    hide Built, Start0, Trail, EndEnv, RunInsts, Source, Delivered;
    StepIsEdge(g, f, s, n);
    TrailIsPath(g, f, s, n);
    ComputedAtEnd(g, f, s, n - 1);
    Agrees(g, f, s, n);
    EntryValue(g, f, s, n, x);
  }

  lemma EntryValue(g: Graph, f: Fn, s: Shadow, n: nat, x: Var)
    requires Built(g, f, s) && n > 0 && Start0(f, s.root, n).At? && AtStart(f, s, n) && AllComputed(f, s, n - 1)
    requires Start0(f, s.root, n).b < |f.blocks| && x in s.inDefs[Start0(f, s.root, n).b]
    requires IsPath(g, Trail(f, s.root, n)) && |Trail(f, s.root, n)| == n + 1 && g.preds[Start0(f, s.root, n).b] != []
    requires Trail(f, s.root, n)[0] == 0 && Last(Trail(f, s.root, n)) == Start0(f, s.root, n).b
    requires Init(Trail(f, s.root, n)) == Trail(f, s.root, n - 1)
    ensures
      var st := Start0(f, s.root, n);
      var d := s.inDefs[st.b][x];
      && d < |f.insts| && s.root[d] in st.env
      && st.env[s.root[d]] == Source(f, s, NoJunk(), Delivered(f, s.root), Trail(f, s.root, n - 1), x)
  {
    hide Start0, Trail, EndEnv, Delivered, Source;
    var st := Start0(f, s.root, n);
    var p := Trail(f, s.root, n);
    var d := s.inDefs[st.b][x];
    VariablesRight(g, f, s, NoJunk(), Delivered(f, s.root), p, x);
    EntryAvailable(g, f, s, p, x);
    EntryNotOrdinary(g, f, s, st.b, x);
    assert ChainOk(f, s, d) && ChainOk(f, s, s.root[d]);
    assert p == Init(p) + [st.b];
    EnteredKnown(g, f, s, n, s.root[d]);
  }

  /** The answer on entry is a phi of the block or comes from elsewhere. */
  lemma EntryNotOrdinary(g: Graph, f: Fn, s: Shadow, b: BlockId, x: Var)
    requires Built(g, f, s) && b < |f.blocks| && g.preds[b] != [] && x in s.inDefs[b]
    ensures s.inDefs[b][x] < |f.insts| && !Ordinary(f, s.root[s.inDefs[b][x]], b)
  {
    var d := s.inDefs[b][x];
    assert DefOk(f, s, b, x) && InDefOk(f, s, b, x, d) && EdgesOk(g, f, b) && ChainOk(f, s, d);
    if f.insts[d].op.Phi? && f.insts[d].block == b {
      if f.insts[d].removed {
        ReplacedFromElsewhere(g, f, s, d);
      }
    } else {
      AnswerFromElsewhere(g, f, s, b, x, d);
    }
  }

  /** From source variables to machine words: whenever the compiled function stands at the
      start of a block, after any number of blocks, the word that ST_slot addresses for the
      block's answer for `x` is the word of what the program last wrote to `x`, or of 0. */
  lemma SourceToMachine(g: Graph, f: Fn, s: Shadow, m0: Cpu, room: nat, n: nat, x: Var) returns (c: Conf, m: Cpu, fr: Frame)
    requires Built(g, f, s) && (forall t :: TermTargetsFit(f, t, room))
    requires 8 + FrameSize(f) + 8 * room <= m0.Get(Rsp) && m0.Get(Rsp) + 8 < W
    requires n > 0 && Start0(f, s.root, n).At? && Start0(f, s.root, n).b < |f.blocks|
    requires x in s.inDefs[Start0(f, s.root, n).b]
    ensures Reaches(FnCode(f, s.root), Running(0, m0), c) && c.Running?
    ensures c.pc == Start(f, s.root, Start0(f, s.root, n).b)
    ensures
      var d := s.inDefs[Start0(f, s.root, n).b][x];
      c.m.At(c.m.Get(Rbp) + SlotOff(s.root, d))
        == U(Source(f, s, NoJunk(), Delivered(f, s.root), Trail(f, s.root, n - 1), x))
  {
    hide Source, Trail, Rel, FnCode, Start, Run, FrameSize, U, Reaches;
    BuiltIsWellFormed(g, f, s);
    EntryAnswer(g, f, s, n, x);
    RootingOf(f, s.root);
    c, m, fr := FunctionRight(f, s.root, m0, room, n);
    var st := Start0(f, s.root, n);
    SlotHolds(f, s.root, st.env, c.m, fr, s.inDefs[st.b][x]);
  }

  lemma SlotHolds(f: Fn, root: seq<Id>, env: Env, m: Cpu, fr: Frame, d: Id)
    requires Rooting(f, root) && Rel(f, env, m, fr) && d < |root| && root[d] in env
    ensures m.At(m.Get(Rbp) + SlotOff(root, d)) == U(env[root[d]])
  {
    assert m.Get(Rbp) + SlotOff(root, d) == SlotAddr(fr, root[d]);
  }
}
