/** Loading a program's modules: a depth-first walk over the imports that reads each file once,
    reports circular imports, and puts every module behind the modules it imports. */
module Modules {
  import opened Wrappers
  import opened Digraph
  import opened Search

  /** A declaration; an import has been resolved to a canonical path or not. */
  datatype Decl =
    | Import(name: string, target: Option<nat>)
    | Def(name: string, isPub: bool, isExtern: bool, body: nat)

  /** What is at a canonical path. */
  datatype File = Unreadable | Readable(decls: seq<Decl>)

  datatype Entry = Entry(prefix: string, inProgress: bool, ok: bool, exports: map<string, string>)

  /** A bare name that imports make visible: whose it is, or that it is nobody's. */
  datatype Exposed = One(dep: nat) | Ambiguous

  function Targets(decls: seq<Decl>): seq<nat> {
    if decls == [] then []
    else (if decls[0].Import? && decls[0].target.Some? then [decls[0].target.value] else []) + Targets(decls[1..])
  }

  function Imports(f: File): seq<nat> {
    match f
    case Unreadable => []
    case Readable(decls) => Targets(decls)
  }

  function Graph(files: seq<File>): (g: seq<seq<nat>>)
    ensures |g| == |files| && forall v :: 0 <= v < |g| ==> g[v] == Imports(files[v])
  {
    seq(|files|, v requires 0 <= v < |files| => Imports(files[v]))
  }

  lemma {:induction false} TargetIn(decls: seq<Decl>, w: nat)
    ensures w in Targets(decls) <==> exists i :: 0 <= i < |decls| && decls[i].Import? && decls[i].target == Some(w)
  {
    if decls != [] {
      TargetIn(decls[1..], w);
      if i :| 0 <= i < |decls| && decls[i].Import? && decls[i].target == Some(w) {
        assert i > 0 ==> decls[1..][i - 1] == decls[i];
      }
      if i :| 0 <= i < |decls[1..]| && decls[1..][i].Import? && decls[1..][i].target == Some(w) {
        assert decls[i + 1] == decls[1..][i];
      }
    }
  }

  /** A file that cannot be read, or imports something that cannot be found. */
  predicate Faulty(f: File) {
    match f
    case Unreadable => true
    case Readable(decls) => exists i :: 0 <= i < |decls| && decls[i].Import? && decls[i].target.None?
  }

  predicate Closed(files: seq<File>) {
    forall v, i :: 0 <= v < |files| && files[v].Readable? && 0 <= i < |files[v].decls| ==> InRange(files[v].decls[i], |files|)
  }

  predicate InRange(d: Decl, n: nat) {
    d.Import? && d.target.Some? ==> d.target.value < n
  }

  /** The declarations that a file contributes to the merged program. */
  function Defs(v: nat, decls: seq<Decl>): seq<(nat, Decl)> {
    if decls == [] then [] else (if decls[0].Import? then [] else [(v, decls[0])]) + Defs(v, decls[1..])
  }

  function DefsOf(files: seq<File>, v: nat): seq<(nat, Decl)> {
    if v < |files| && files[v].Readable? then Defs(v, files[v].decls) else []
  }

  function Blocks(files: seq<File>, order: seq<nat>): seq<(nat, Decl)> {
    if order == [] then []
    else Blocks(files, order[..|order| - 1]) + DefsOf(files, order[|order| - 1])
  }

  lemma BlocksOneMore(files: seq<File>, order: seq<nat>, v: nat)
    ensures Blocks(files, order + [v]) == Blocks(files, order) + DefsOf(files, v)
  {
    assert (order + [v])[..|order|] == order;
  }

  // ----- exports -----

  /** Declaration `i` is a public definition of `x`. */
  predicate PublicAt(decls: seq<Decl>, i: nat, x: string) {
    i < |decls| && decls[i].Def? && decls[i].isPub && decls[i].name == x
  }

  ghost predicate LastPublic(decls: seq<Decl>, i: nat, x: string) {
    PublicAt(decls, i, x) && forall j :: i < j < |decls| ==> !PublicAt(decls, j, x)
  }

  ghost predicate IsPublic(decls: seq<Decl>, x: string) {
    exists i: nat :: PublicAt(decls, i, x)
  }

  /** The names that have a public definition are exported; the last one counts. What is extern keeps
      its name, and everything else gets the prefix of the module. */
  ghost predicate ExportsName(exports: map<string, string>, prefix: string, decls: seq<Decl>, x: string) {
    && (x in exports <==> IsPublic(decls, x))
    && forall i: nat :: LastPublic(decls, i, x) ==>
         x in exports && exports[x] == if decls[i].isExtern then x else prefix + "__" + x
  }

  ghost predicate ExportsDecls(exports: map<string, string>, prefix: string, decls: seq<Decl>) {
    forall x :: ExportsName(exports, prefix, decls, x)
  }

  /** Some import of `v` has the name `prefix`. */
  ghost predicate ImportedAs(files: seq<File>, program: seq<Decl>, v: nat, prefix: string) {
    || Import(prefix, Some(v)) in program
    || exists u :: 0 <= u < |files| && files[u].Readable? && Import(prefix, Some(v)) in files[u].decls
  }

  /** The entry of a module that is done: its exports are those of its file. */
  ghost predicate EntryRight(files: seq<File>, program: seq<Decl>, ms: map<nat, Entry>, v: nat) {
    v in ms ==>
      && ImportedAs(files, program, v, ms[v].prefix)
      && (!ms[v].inProgress && v < |files| ==>
            match files[v]
            case Unreadable => ms[v].exports == map[]
            case Readable(decls) => ExportsDecls(ms[v].exports, ms[v].prefix, decls))
  }

  ghost predicate Ledger(files: seq<File>, program: seq<Decl>, ms: map<nat, Entry>) {
    forall v: nat :: EntryRight(files, program, ms, v)
  }

  lemma LedgerPut(files: seq<File>, program: seq<Decl>, ms: map<nat, Entry>, u: nat, e: Entry)
    requires Ledger(files, program, ms) && EntryRight(files, program, ms[u := e], u)
    ensures Ledger(files, program, ms[u := e])
  {
    var ms' := ms[u := e];
    forall v: nat
      ensures EntryRight(files, program, ms', v)
    {
      assert EntryRight(files, program, ms, v);
    }
  }

  lemma NothingExported(prefix: string)
    ensures ExportsDecls(map[], prefix, [])
  {
    assert forall x :: ExportsName(map[], prefix, [], x);
  }

  /** One more declaration of a file. */
  lemma OneMoreExport(exports: map<string, string>, prefix: string, decls: seq<Decl>, i: nat)
    requires i < |decls| && ExportsDecls(exports, prefix, decls[..i])
    ensures
      var d := decls[i];
      ExportsDecls(if d.Def? && d.isPub then exports[d.name := if d.isExtern then d.name else prefix + "__" + d.name] else exports,
                   prefix, decls[..i + 1])
  {
    var d := decls[i];
    var exports' := if d.Def? && d.isPub then exports[d.name := if d.isExtern then d.name else prefix + "__" + d.name] else exports;
    var before, after := decls[..i], decls[..i + 1];
    forall x
      ensures ExportsName(exports', prefix, after, x)
    {
      assert ExportsName(exports, prefix, before, x);
      assert forall j: nat :: j < i ==> (PublicAt(after, j, x) <==> PublicAt(before, j, x));
      if PublicAt(after, i, x) {
        assert x in exports';
      } else {
        assert forall j: nat :: LastPublic(after, j, x) ==> LastPublic(before, j, x);
      }
    }
  }

  // ----- bare names -----

  /** What the exports of the modules in `ds` make of a bare name. It depends on the set of
      modules only, not on the order of the imports or on how often one is repeated. */
  ghost predicate ExposedRight(auto: map<string, Exposed>, ds: set<nat>, ms: map<nat, Entry>, x: string) {
    && (x in auto <==> exists d :: Exports(ds, ms, d, x))
    && (x in auto && auto[x].One? ==> Exports(ds, ms, auto[x].dep, x) && forall d :: Exports(ds, ms, d, x) ==> d == auto[x].dep)
    && (x in auto && auto[x].Ambiguous? ==> exists d, e :: Exports(ds, ms, d, x) && Exports(ds, ms, e, x) && d != e)
  }

  predicate Exports(ds: set<nat>, ms: map<nat, Entry>, d: nat, x: string) {
    d in ds && d in ms && x in ms[d].exports
  }

  ghost predicate ExposureRight(auto: map<string, Exposed>, ds: set<nat>, ms: map<nat, Entry>) {
    forall x :: ExposedRight(auto, ds, ms, x)
  }

  /** ST_mod_merge_exports: the slots of the table are visited in some order. */
  method MergeExports(auto0: map<string, Exposed>, d: nat, ghost ds: set<nat>, ms: map<nat, Entry>)
    returns (auto: map<string, Exposed>)
    requires d in ms && ExposureRight(auto0, ds, ms)
    ensures ExposureRight(auto, ds + {d}, ms)
  {
    auto := auto0;
    var keys := ms[d].exports.Keys;
    ghost var seen: set<string> := {};
    while keys != {}
      invariant keys + seen == ms[d].exports.Keys && keys * seen == {}
      invariant forall x :: MergedName(auto0, auto, d, x, x in seen)
      decreases keys
    {
      var x :| x in keys;
      keys := keys - {x};
      seen := seen + {x};
      if x !in auto {
        auto := auto[x := One(d)];
      } else if auto[x].One? && auto[x].dep != d {
        auto := auto[x := Ambiguous];
      }
    }
    forall x
      ensures ExposedRight(auto, ds + {d}, ms, x)
    {
      assert MergedName(auto0, auto, d, x, x in ms[d].exports);
      assert ExposedRight(auto0, ds, ms, x);
      MergedRight(auto0, auto, d, ds, ms, x);
    }
  }

  /** One name before and after the exports of `d` are merged in. */
  predicate MergedName(auto0: map<string, Exposed>, auto: map<string, Exposed>, d: nat, x: string, exported: bool) {
    if !exported then (x in auto <==> x in auto0) && (x in auto ==> auto[x] == auto0[x])
    else x in auto && auto[x] == (if x !in auto0 || auto0[x] == One(d) then One(d) else Ambiguous)
  }

  lemma MergedRight(auto0: map<string, Exposed>, auto: map<string, Exposed>, d: nat, ds: set<nat>, ms: map<nat, Entry>, x: string)
    requires d in ms && ExposedRight(auto0, ds, ms, x) && MergedName(auto0, auto, d, x, x in ms[d].exports)
    ensures ExposedRight(auto, ds + {d}, ms, x)
  {
    forall e: nat
      ensures Exports(ds + {d}, ms, e, x) <==> Exports(ds, ms, e, x) || (e == d && x in ms[d].exports)
    {
    }
    if x in ms[d].exports {
      assert Exports(ds + {d}, ms, d, x);
    }
  }

  /** `v` is imported by these declarations, and its file has a public definition of `x`. */
  ghost predicate Offers(files: seq<File>, decls: seq<Decl>, v: nat, x: string) {
    && v < |files| && files[v].Readable? && IsPublic(files[v].decls, x)
    && exists k :: 0 <= k < |decls| && decls[k].Import? && decls[k].target == Some(v)
  }

  /** The bare name `x` is visible if an imported module offers it: as that of the module if there
      is only one, and otherwise as nobody's. */
  ghost predicate VisibleRight(files: seq<File>, decls: seq<Decl>, auto: map<string, Exposed>, x: string) {
    && (x in auto <==> exists v :: Offers(files, decls, v, x))
    && (x in auto && auto[x].One? ==>
          Offers(files, decls, auto[x].dep, x) && forall v :: Offers(files, decls, v, x) ==> v == auto[x].dep)
    && (x in auto && auto[x].Ambiguous? ==> exists v, w :: Offers(files, decls, v, x) && Offers(files, decls, w, x) && v != w)
  }

  /** Modules that are done export what their files define. */
  lemma ExportsAreOffers(files: seq<File>, program: seq<Decl>, decls: seq<Decl>, ds: set<nat>, ms: map<nat, Entry>, v: nat, x: string)
    requires Ledger(files, program, ms) && forall w: nat :: w in ds ==> w in ms && !ms[w].inProgress && w < |files|
    requires v in ds <==> exists k :: 0 <= k < |decls| && decls[k].Import? && decls[k].target == Some(v)
    ensures Exports(ds, ms, v, x) <==> Offers(files, decls, v, x)
  {
    assert EntryRight(files, program, ms, v);
    if v in ds && files[v].Readable? {
      assert ExportsName(ms[v].exports, ms[v].prefix, files[v].decls, x);
    }
  }

  lemma ExposureIsVisible(files: seq<File>, program: seq<Decl>, decls: seq<Decl>, auto: map<string, Exposed>, ds: set<nat>, ms: map<nat, Entry>)
    requires Ledger(files, program, ms) && forall w: nat :: w in ds ==> w in ms && !ms[w].inProgress && w < |files|
    requires forall v: nat :: v in ds <==> exists k :: 0 <= k < |decls| && decls[k].Import? && decls[k].target == Some(v)
    requires ExposureRight(auto, ds, ms)
    ensures forall x :: VisibleRight(files, decls, auto, x)
  {
    hide Ledger, Offers, Exports;
    forall x
      ensures VisibleRight(files, decls, auto, x)
    {
      assert ExposedRight(auto, ds, ms, x);
      forall v: nat
        ensures Exports(ds, ms, v, x) <==> Offers(files, decls, v, x)
      {
        ExportsAreOffers(files, program, decls, ds, ms, v, x);
      }
    }
  }

  lemma ModuleSees(files: seq<File>, program: seq<Decl>, path: nat, auto: map<string, Exposed>, ds: set<nat>, ms: map<nat, Entry>)
    requires path < |files| && files[path].Readable? && Closed(files)
    requires Ledger(files, program, ms) && ExposureRight(auto, ds, ms) && MergedFrom(files, path, ds, ms)
    requires forall w: nat :: Edge(Graph(files), path, w) ==> w in ds
    ensures forall x :: VisibleRight(files, files[path].decls, auto, x)
  {
    hide Ledger, ExposureRight;
    var decls := files[path].decls;
    forall w: nat
      ensures w in ds <==> exists k :: 0 <= k < |decls| && decls[k].Import? && decls[k].target == Some(w)
      ensures w in ds ==> w < |files|
    {
      TargetIn(decls, w);
      if w in ds {
        var k :| 0 <= k < |decls| && decls[k].Import? && decls[k].target == Some(w);
        assert InRange(decls[k], |files|);
      }
    }
    ExposureIsVisible(files, program, decls, auto, ds, ms);
  }

  // ----- the walk -----

  lemma EntryOf(files: seq<File>, program: seq<Decl>, ms: map<nat, Entry>, v: nat)
    requires Ledger(files, program, ms)
    ensures EntryRight(files, program, ms, v)
  {
  }

  lemma GraphEdge(files: seq<File>, u: nat, i: nat)
    requires u < |files| && files[u].Readable? && i < |files[u].decls|
    requires files[u].decls[i].Import? && files[u].decls[i].target.Some?
    ensures Edge(Graph(files), u, files[u].decls[i].target.value)
  {
    TargetIn(files[u].decls, files[u].decls[i].target.value);
  }

  /** The imports among the first `n` declarations have been looked at. */
  ghost predicate Looked(files: seq<File>, u: nat, n: nat, s: Dfs) {
    u < |files| && files[u].Readable? && n <= |files[u].decls| && forall i: nat :: LookedAt(files[u].decls, n, s, i)
  }

  predicate LookedAt(decls: seq<Decl>, n: nat, s: Dfs, i: nat)
    requires n <= |decls|
  {
    i < n && decls[i].Import? ==>
      match decls[i].target
      case None => s.faults > 0
      case Some(w) => Met(s, w) && (s.circular == 0 ==> w in s.order)
  }

  function BadFiles(files: seq<File>): (b: set<nat>)
    ensures forall v: nat :: v in b <==> v < |files| && Faulty(files[v])
  {
    set v: nat | v < |files| && Faulty(files[v])
  }

  lemma LookedAtAll(files: seq<File>, s: Dfs)
    requires s.stack != [] && Top(s) < |files|
    requires if files[Top(s)].Unreadable? then s.faults > 0 else Looked(files, Top(s), |files[Top(s)].decls|, s)
    ensures Exhausted(Graph(files), BadFiles(files), s)
  {
    var u := Top(s);
    forall w: nat | Edge(Graph(files), u, w)
      ensures Met(s, w) && (s.circular == 0 ==> w in s.order)
    {
      TargetIn(files[u].decls, w);
      var i: nat :| i < |files[u].decls| && files[u].decls[i].Import? && files[u].decls[i].target == Some(w);
      assert LookedAt(files[u].decls, |files[u].decls|, s, i);
    }
    if files[u].Readable? && Faulty(files[u]) {
      var i: nat :| i < |files[u].decls| && files[u].decls[i].Import? && files[u].decls[i].target.None?;
      assert LookedAt(files[u].decls, |files[u].decls|, s, i);
    }
  }

  /** What was found stays found. */
  ghost predicate Later(s: Dfs, s': Dfs) {
    && s'.stack == s.stack && s.order <= s'.order && s.circular <= s'.circular && s.faults <= s'.faults
    && forall v: nat :: Met(s, v) ==> Met(s', v)
  }

  /** The table of modules follows the search; a clean search has only good modules. */
  ghost predicate Book(ms: map<nat, Entry>, loads: seq<nat>, early: nat, s: Dfs) {
    && (forall v: nat :: Listed(ms, loads, s, v)) && NoRepeats(loads)
    && (Clean(s, early) ==> forall v: nat :: GoodIfDone(ms, s, v))
  }

  /** No error was reported; `early` counts those about the root's own imports. */
  predicate Clean(s: Dfs, early: nat) {
    s.circular == 0 && s.faults == 0 && early == 0
  }

  predicate Listed(ms: map<nat, Entry>, loads: seq<nat>, s: Dfs, v: nat) {
    (v in ms <==> Met(s, v)) && (v in ms <==> v in loads) && (v in ms ==> (ms[v].inProgress <==> v in s.stack))
  }

  predicate GoodIfDone(ms: map<nat, Entry>, s: Dfs, v: nat) {
    v in s.order && v in ms ==> ms[v].ok
  }

  lemma BookOpened(ms: map<nat, Entry>, loads: seq<nat>, early: nat, s: Dfs, v: nat, prefix: string)
    requires Book(ms, loads, early, s) && v !in ms
    ensures Book(ms[v := Entry(prefix, true, false, map[])], loads + [v], early, Enter(s, v))
  {
    var ms', loads', s' := ms[v := Entry(prefix, true, false, map[])], loads + [v], Enter(s, v);
    assert Listed(ms, loads, s, v);
    forall w: nat
      ensures Listed(ms', loads', s', w)
    {
      assert Listed(ms, loads, s, w);
    }
    if Clean(s, early) {
      forall w: nat
        ensures GoodIfDone(ms', s', w)
      {
        assert Listed(ms, loads, s, w) && GoodIfDone(ms, s, w);
      }
    }
    assert forall i :: 0 <= i < |loads| ==> loads[i] in loads;
  }

  lemma BookClosed(ms: map<nat, Entry>, loads: seq<nat>, early: nat, s: Dfs, e: Entry)
    requires Book(ms, loads, early, s) && s.stack != [] && Top(s) !in s.order && NoRepeats(s.stack) && !e.inProgress
    requires Clean(s, early) ==> e.ok
    ensures Book(ms[Top(s) := e], loads, early, Leave(s))
  {
    var u, s' := Top(s), Leave(s);
    assert s.stack == s'.stack + [u];
    var ms' := ms[u := e];
    assert forall w: nat :: w in s.stack <==> w in s'.stack || w == u;
    assert forall w: nat :: w in s'.order <==> w in s.order || w == u;
    assert Listed(ms, loads, s, u);
    forall w: nat
      ensures Listed(ms', loads, s', w)
    {
      assert Listed(ms, loads, s, w);
    }
    if Clean(s, early) {
      forall w: nat
        ensures GoodIfDone(ms', s', w)
      {
        assert GoodIfDone(ms, s, w);
      }
    }
  }

  lemma BookSame(ms: map<nat, Entry>, loads: seq<nat>, early: nat, s: Dfs, s': Dfs)
    requires Book(ms, loads, early, s) && s'.stack == s.stack && s'.order == s.order
    requires s'.circular > 0 || s'.faults > 0
    ensures Book(ms, loads, early, s')
  {
    forall w: nat
      ensures Listed(ms, loads, s', w)
    {
      assert Listed(ms, loads, s, w);
    }
  }

  lemma NotMet(ms: map<nat, Entry>, loads: seq<nat>, early: nat, s: Dfs, v: nat)
    requires Book(ms, loads, early, s)
    ensures v in ms <==> Met(s, v)
    ensures v in ms ==> (ms[v].inProgress <==> v in s.stack)
    ensures v in ms && v in s.order && Clean(s, early) ==> ms[v].ok
  {
    assert Listed(ms, loads, s, v);
    assert Clean(s, early) ==> GoodIfDone(ms, s, v);
  }

  lemma TopListed(g: seq<seq<nat>>, roots: set<nat>, bad: set<nat>, ms: map<nat, Entry>, loads: seq<nat>, early: nat, s: Dfs)
    requires Ok(g, roots, bad, s) && Book(ms, loads, early, s) && s.stack != []
    ensures Top(s) in ms && Top(s) !in s.order && NoRepeats(s.stack) && Top(s) < |g|
  {
    assert Top(s) in s.stack;
    assert Met(s, Top(s));
    assert Listed(ms, loads, s, Top(s));
  }

  /** The whole state: the search, the table, and the merged declarations. */
  ghost predicate StateOk(files: seq<File>, roots: set<nat>, ms: map<nat, Entry>, merged: seq<(nat, Decl)>, loads: seq<nat>, early: nat, s: Dfs) {
    && Closed(files) && Ok(Graph(files), roots, BadFiles(files), s)
    && Book(ms, loads, early, s) && merged == Blocks(files, s.order)
  }

  lemma Opened(files: seq<File>, roots: set<nat>, ms: map<nat, Entry>, merged: seq<(nat, Decl)>, loads: seq<nat>, early: nat, s: Dfs,
               v: nat, prefix: string)
    requires StateOk(files, roots, ms, merged, loads, early, s) && v !in ms && Ahead(Graph(files), roots, s, v)
    ensures StateOk(files, roots, ms[v := Entry(prefix, true, false, map[])], merged, loads + [v], early, Enter(s, v))
  {
    hide Ok, Book, Closed, Graph, BadFiles, Blocks, Ahead;
    NotMet(ms, loads, early, s, v);
    EnterOk(Graph(files), roots, BadFiles(files), s, v);
    BookOpened(ms, loads, early, s, v, prefix);
  }

  lemma Circled(files: seq<File>, roots: set<nat>, ms: map<nat, Entry>, merged: seq<(nat, Decl)>, loads: seq<nat>, early: nat, s: Dfs, v: nat)
    requires StateOk(files, roots, ms, merged, loads, early, s) && v in s.stack && Ahead(Graph(files), roots, s, v)
    ensures StateOk(files, roots, ms, merged, loads, early, s.(circular := s.circular + 1))
  {
    hide Ok, Book, Closed, Graph, BadFiles, Blocks, Ahead;
    CircleOk(Graph(files), roots, BadFiles(files), s, v);
    BookSame(ms, loads, early, s, s.(circular := s.circular + 1));
  }

  lemma Faulted(files: seq<File>, roots: set<nat>, ms: map<nat, Entry>, merged: seq<(nat, Decl)>, loads: seq<nat>, early: nat, s: Dfs)
    requires StateOk(files, roots, ms, merged, loads, early, s) && s.stack != [] && Top(s) in BadFiles(files)
    ensures StateOk(files, roots, ms, merged, loads, early, s.(faults := s.faults + 1))
  {
    hide Ok, Book, Closed, Graph, BadFiles, Blocks;
    FaultOk(Graph(files), roots, BadFiles(files), s);
    BookSame(ms, loads, early, s, s.(faults := s.faults + 1));
  }

  lemma Finished(files: seq<File>, roots: set<nat>, ms: map<nat, Entry>, merged: seq<(nat, Decl)>, loads: seq<nat>, early: nat, s: Dfs,
                 e: Entry)
    requires StateOk(files, roots, ms, merged, loads, early, s) && s.stack != [] && Exhausted(Graph(files), BadFiles(files), s)
    requires !e.inProgress && (Clean(s, early) ==> e.ok)
    ensures StateOk(files, roots, ms[Top(s) := e], merged + DefsOf(files, Top(s)), loads, early, Leave(s))
  {
    hide Ok, Book, Closed, Graph, BadFiles, Blocks, DefsOf, Exhausted;
    TopListed(Graph(files), roots, BadFiles(files), ms, loads, early, s);
    LeaveOk(Graph(files), roots, BadFiles(files), s);
    BlocksOneMore(files, s.order, Top(s));
    BookClosed(ms, loads, early, s, e);
  }

  lemma StateFacts(files: seq<File>, roots: set<nat>, ms: map<nat, Entry>, merged: seq<(nat, Decl)>, loads: seq<nat>, early: nat, s: Dfs, v: nat)
    requires StateOk(files, roots, ms, merged, loads, early, s)
    ensures v in ms <==> Met(s, v)
    ensures v in ms ==> v < |files| && (ms[v].inProgress <==> v in s.stack)
    ensures v in ms && v in s.order && Clean(s, early) ==> ms[v].ok
    ensures s.stack != [] ==> Top(s) in ms && Top(s) in s.stack
  {
    hide Book, Graph, BadFiles, Blocks, Followed, Judged;
    NotMet(ms, loads, early, s, v);
    if s.stack != [] {
      TopListed(Graph(files), roots, BadFiles(files), ms, loads, early, s);
    }
  }

  lemma AheadInRange(files: seq<File>, roots: set<nat>, s: Dfs, v: nat)
    requires Ahead(Graph(files), roots, s, v)
    ensures v < |files|
  {
  }

  lemma AheadOnEdge(files: seq<File>, roots: set<nat>, s: Dfs, v: nat)
    requires s.stack != [] && Edge(Graph(files), Top(s), v) && v < |files|
    ensures Ahead(Graph(files), roots, s, v)
  {
  }

  lemma TargetInRange(files: seq<File>, u: nat, i: nat)
    requires Closed(files) && u < |files| && files[u].Readable? && i < |files[u].decls|
    requires files[u].decls[i].Import? && files[u].decls[i].target.Some?
    ensures files[u].decls[i].target.value < |files|
  {
    assert InRange(files[u].decls[i], |files|);
  }

  lemma StateClosed(files: seq<File>, roots: set<nat>, ms: map<nat, Entry>, merged: seq<(nat, Decl)>, loads: seq<nat>, early: nat, s: Dfs)
    requires StateOk(files, roots, ms, merged, loads, early, s)
    ensures Closed(files)
  {
  }

  lemma NothingYet(files: seq<File>, u: nat, s: Dfs, ms: map<nat, Entry>)
    requires u < |files| && files[u].Readable?
    ensures Looked(files, u, 0, s) && ExposureRight(map[], {}, ms)
  {
    forall x
      ensures ExposedRight(map[], {}, ms, x)
    {
    }
  }

  lemma Unread(files: seq<File>, s: Dfs)
    requires s.stack != [] && Top(s) < |files| && files[Top(s)].Unreadable?
    ensures Top(s) in BadFiles(files)
  {
  }

  class Context {
    const files: seq<File>
    ghost const roots: set<nat>
    ghost const program: seq<Decl>
    var modules: map<nat, Entry>
    var merged: seq<(nat, Decl)>
    var circular: nat
    var faults: nat
    /** Errors about the imports of the root program itself. */
    var early: nat
    ghost var s: Dfs
    /** The files read, in order. */
    ghost var loads: seq<nat>

    constructor (fs: seq<File>, ghost rs: set<nat>, ghost ds: seq<Decl>)
      requires Closed(fs)
      ensures Valid() && files == fs && roots == rs && program == ds && s == Dfs([], [], 0, 0) && modules == map[] && early == 0
      ensures loads == [] && merged == []
    {
      files, roots, program, modules, merged, circular, faults, early := fs, rs, ds, map[], [], 0, 0, 0;
      s, loads := Dfs([], [], 0, 0), [];
    }

    ghost predicate Valid()
      reads this
    {
      && StateOk(files, roots, modules, merged, loads, early, s) && s.circular == circular && s.faults == faults
      && Ledger(files, program, modules)
    }

    predicate NoErrors()
      reads this
    {
      circular == 0 && faults == 0 && early == 0
    }

    ghost function Left(): set<nat>
      reads this
    {
      set v: nat | v < |files| && v !in modules
    }

    twostate predicate Onward()
      reads this
    {
      && Later(old(s), s) && early == old(early)
      && forall v: nat :: v in old(modules) ==> v in modules && modules[v] == old(modules)[v]
    }

    /** A file met for the first time. */
    method Open(path: nat, prefix: string)
      requires Valid() && path !in modules && Ahead(Graph(files), roots, s, path) && ImportedAs(files, program, path, prefix)
      modifies this
      ensures Valid() && s == Enter(old(s), path) && early == old(early)
      ensures modules == old(modules)[path := Entry(prefix, true, false, map[])]
    {
      hide StateOk, Ahead, Graph, ImportedAs, Ledger;
      Opened(files, roots, modules, merged, loads, early, s, path, prefix);
      LedgerPut(files, program, modules, path, Entry(prefix, true, false, map[]));
      modules := modules[path := Entry(prefix, true, false, map[])];
      s := Enter(s, path);
      loads := loads + [path];
    }

    method ReportCircle(path: nat)
      requires Valid() && path in s.stack && Ahead(Graph(files), roots, s, path)
      modifies this
      ensures Valid() && modules == old(modules) && s == old(s).(circular := circular) && circular == old(circular) + 1 && early == old(early)
    {
      hide StateOk, Ahead, Graph, Ledger;
      Circled(files, roots, modules, merged, loads, early, s, path);
      circular := circular + 1;
      s := s.(circular := s.circular + 1);
    }

    method ReportFault()
      requires Valid() && s.stack != [] && Top(s) in BadFiles(files)
      modifies this
      ensures Valid() && modules == old(modules) && s == old(s).(faults := faults) && faults == old(faults) + 1 && early == old(early)
    {
      hide StateOk, BadFiles, Ledger;
      Faulted(files, roots, modules, merged, loads, early, s);
      faults := faults + 1;
      s := s.(faults := s.faults + 1);
    }

    method ReportUnfound()
      requires Valid()
      modifies `early
      ensures Valid() && early == old(early) + 1
    {
      hide Ok, Blocks, Ledger;
      assert Book(modules, loads, early + 1, s);
      early := early + 1;
    }

    /** A file is done: its declarations follow those of all that it imports. */
    method Close(u: nat, good: bool, exports: map<string, string>)
      requires Valid() && s.stack != [] && u == Top(s) && Exhausted(Graph(files), BadFiles(files), s)
      requires u < |files| && (NoErrors() ==> good) && u in modules
      requires match files[u] case Unreadable => exports == map[] case Readable(decls) => ExportsDecls(exports, modules[u].prefix, decls)
      modifies this
      ensures Valid() && s == Leave(old(s)) && circular == old(circular) && faults == old(faults) && early == old(early)
      ensures modules == old(modules)[u := Entry(old(modules)[u].prefix, false, good && NoErrors(), exports)]
    {
      hide StateOk, Exhausted, Graph, BadFiles, Defs, Ledger, ExportsDecls, ImportedAs;
      var e := Entry(modules[u].prefix, false, good && NoErrors(), exports);
      Finished(files, roots, modules, merged, loads, early, s, e);
      EntryOf(files, program, modules, u);
      LedgerPut(files, program, modules, u, e);
      if files[u].Readable? {
        AppendDefs(u, files[u].decls);
      }
      assert merged == old(merged) + DefsOf(files, u);
      modules := modules[u := e];
      s := Leave(s);
    }

    method AppendDefs(u: nat, decls: seq<Decl>)
      modifies `merged
      ensures merged == old(merged) + Defs(u, decls)
    {
      for i := 0 to |decls|
        invariant merged + Defs(u, decls[i..]) == old(merged) + Defs(u, decls)
      {
        assert decls[i..][0] == decls[i] && decls[i..][1..] == decls[i + 1..];
        if !decls[i].Import? {
          assert merged + ([(u, decls[i])] + Defs(u, decls[i + 1..])) == (merged + [(u, decls[i])]) + Defs(u, decls[i + 1..]);
          merged := merged + [(u, decls[i])];
        }
      }
    }

    /** ST_module_process_file. */
    method ProcessFile(path: nat, prefix: string) returns (ok: bool)
      requires Valid() && Ahead(Graph(files), roots, s, path) && ImportedAs(files, program, path, prefix)
      modifies this
      ensures Valid() && Onward() && Met(s, path)
      ensures circular == 0 ==> path in s.order
      ensures ok ==> path in s.order && path in modules && modules[path].ok && !modules[path].inProgress
      ensures NoErrors() ==> ok
      ensures ok ==> (NoErrors() <==> old(NoErrors()))
      decreases Left(), 0, 1
    {
      hide StateOk, Ahead, Graph, BadFiles, Ledger, ImportedAs;
      StateFacts(files, roots, modules, merged, loads, early, s, path);
      AheadInRange(files, roots, s, path);
      if path !in modules {
        ok := LoadFile(path, prefix);
      } else if modules[path].inProgress {
        ReportCircle(path);
        ok := false;
      } else {
        ok := modules[path].ok;
      }
    }

    /** The rest of it, for a file that was not met before. */
    method LoadFile(path: nat, prefix: string) returns (ok: bool)
      requires Valid() && Ahead(Graph(files), roots, s, path) && path !in modules && path < |files|
      requires ImportedAs(files, program, path, prefix)
      modifies this
      ensures Valid() && Onward() && path in s.order && path in modules && !modules[path].inProgress
      ensures modules[path].prefix == prefix
      ensures match files[path]
              case Unreadable => modules[path].exports == map[]
              case Readable(decls) => ExportsDecls(modules[path].exports, prefix, decls)
      ensures ok == modules[path].ok && (NoErrors() <==> ok)
      decreases Left(), 0, 0
    {
      hide StateOk, Ahead, Graph, BadFiles, Looked, Exhausted, Ledger, ExportsDecls, ImportedAs, VisibleRight;
      ghost var left := Left();
      ghost var s0 := s;
      Open(path, prefix);
      ghost var s1 := s;
      var good, exports := false, map[];
      if files[path].Unreadable? {
        Unread(files, s);
        ReportFault();
      } else {
        assert path in left && path !in Left() && Left() <= left;
        var auto;
        ghost var ds;
        good, exports, auto, ds := ProcessDecls(path, prefix);
      }
      LookedAtAll(files, s);
      EnterAndLeave(s0, path, s1, s);
      Close(path, good, exports);
      ok := modules[path].ok;
    }

    /** The first loop over the declarations of a file. */
    method ProcessDecls(path: nat, prefix: string)
      returns (good: bool, exports: map<string, string>, auto: map<string, Exposed>, ghost ds: set<nat>)
      requires Valid() && s.stack != [] && Top(s) == path && path < |files| && files[path].Readable?
      modifies this
      ensures Valid() && Onward() && Looked(files, path, |files[path].decls|, s)
      ensures NoErrors() ==> good
      ensures ExportsDecls(exports, prefix, files[path].decls)
      ensures ExposureRight(auto, ds, modules)
      ensures NoErrors() ==> forall x :: VisibleRight(files, files[path].decls, auto, x)
      decreases Left(), 2, 0
    {
      hide StateOk, Graph, BadFiles, Looked, ExposureRight, Ahead, ExportsDecls, Ledger, VisibleRight;
      NothingYet(files, path, s, modules);
      NothingExported(prefix);
      var decls := files[path].decls;
      good, exports, auto, ds := true, map[], map[], {};
      for i := 0 to |decls|
        invariant Valid() && Onward() && Looked(files, path, i, s)
        invariant NoErrors() ==> good
        invariant ExportsDecls(exports, prefix, decls[..i])
        invariant ExposureRight(auto, ds, modules) && MergedFrom(files, path, ds, modules)
        invariant NoErrors() ==> forall j: nat :: j < i ==> MergedDecl(decls[j], ds)
      {
        OneMoreExport(exports, prefix, decls, i);
        if decls[i].Import? {
          var depOk;
          depOk, auto, ds := ProcessImport(path, i, auto, ds);
          good := good && depOk;
        } else {
          LookedMore(files, path, i, s, s);
          if decls[i].isPub {
            exports := exports[decls[i].name := if decls[i].isExtern then decls[i].name else prefix + "__" + decls[i].name];
          }
        }
      }
      assert decls[..|decls|] == decls;
      if NoErrors() {
        AllMerged(files, path, ds);
        StateClosed(files, roots, modules, merged, loads, early, s);
        ModuleSees(files, program, path, auto, ds, modules);
      }
    }

    /** One import: what it names is processed, and if that went well its exports are merged. */
    method ProcessImport(path: nat, i: nat, auto0: map<string, Exposed>, ghost ds0: set<nat>)
      returns (depOk: bool, auto: map<string, Exposed>, ghost ds: set<nat>)
      requires Valid() && s.stack != [] && Top(s) == path && path < |files| && files[path].Readable?
      requires i < |files[path].decls| && files[path].decls[i].Import? && Looked(files, path, i, s)
      requires ExposureRight(auto0, ds0, modules) && MergedFrom(files, path, ds0, modules)
      modifies this
      ensures Valid() && Onward() && Looked(files, path, i + 1, s)
      ensures NoErrors() ==> depOk
      ensures ExposureRight(auto, ds, modules) && MergedFrom(files, path, ds, modules) && ds0 <= ds
      ensures depOk ==> MergedDecl(files[path].decls[i], ds)
      decreases Left(), 1, 0
    {
      hide StateOk, Graph, BadFiles, Looked, ExposureRight, Ahead, Ledger;
      auto, ds := auto0, ds0;
      ghost var s0 := s;
      match files[path].decls[i].target
      case None =>
        Unfound(files, path, i, s);
        ReportFault();
        LookedMore(files, path, i, s0, s);
        depOk := false;
      case Some(w) =>
        StateClosed(files, roots, modules, merged, loads, early, s);
        GraphEdge(files, path, i);
        TargetInRange(files, path, i);
        AheadOnEdge(files, roots, s, w);
        assert files[path].decls[i] == Import(files[path].decls[i].name, Some(w));
        ghost var ms := modules;
        depOk := ProcessFile(w, files[path].decls[i].name);
        LookedMore(files, path, i, s0, s);
        ExposureKept(auto, ds, ms, modules);
        if depOk {
          auto := MergeExports(auto, w, ds, modules);
          ds := ds + {w};
        }
    }
  }

  /** The modules whose exports were merged are imports, and known. */
  ghost predicate MergedFrom(files: seq<File>, path: nat, ds: set<nat>, ms: map<nat, Entry>) {
    forall w: nat :: w in ds ==> w in ms && !ms[w].inProgress && Edge(Graph(files), path, w)
  }

  lemma Unfound(files: seq<File>, u: nat, i: nat, s: Dfs)
    requires u < |files| && files[u].Readable? && i < |files[u].decls| && s.stack != [] && Top(s) == u
    requires files[u].decls[i].Import? && files[u].decls[i].target.None?
    ensures Top(s) in BadFiles(files)
  {
  }

  predicate MergedDecl(d: Decl, ds: set<nat>) {
    d.Import? && d.target.Some? ==> d.target.value in ds
  }

  lemma AllMerged(files: seq<File>, u: nat, ds: set<nat>)
    requires u < |files| && files[u].Readable?
    requires forall j: nat :: j < |files[u].decls| ==> MergedDecl(files[u].decls[j], ds)
    ensures forall w: nat :: Edge(Graph(files), u, w) ==> w in ds
  {
    forall w: nat | Edge(Graph(files), u, w)
      ensures w in ds
    {
      TargetIn(files[u].decls, w);
    }
  }

  lemma ExposureKept(auto: map<string, Exposed>, ds: set<nat>, ms: map<nat, Entry>, ms': map<nat, Entry>)
    requires ExposureRight(auto, ds, ms) && forall d :: d in ds ==> d in ms && d in ms' && ms'[d] == ms[d]
    ensures ExposureRight(auto, ds, ms')
  {
    forall x
      ensures ExposedRight(auto, ds, ms', x)
    {
      assert ExposedRight(auto, ds, ms, x);
      assert forall d: nat :: Exports(ds, ms', d, x) <==> Exports(ds, ms, d, x);
    }
  }

  lemma LookedMore(files: seq<File>, u: nat, i: nat, s0: Dfs, s: Dfs)
    requires Looked(files, u, i, s0) && Later(s0, s) && i < |files[u].decls| && LookedAt(files[u].decls, i + 1, s, i)
    ensures Looked(files, u, i + 1, s)
  {
    var n := i + 1;
    forall j: nat
      ensures LookedAt(files[u].decls, n, s, j)
    {
      assert LookedAt(files[u].decls, i, s0, j);
    }
  }

  /** Entering a node, going on, and leaving it. */
  lemma EnterAndLeave(s0: Dfs, v: nat, s1: Dfs, s2: Dfs)
    requires s1 == Enter(s0, v) && Later(s1, s2)
    ensures Later(s0, Leave(s2)) && v in Leave(s2).order && Top(s2) == v
  {
    assert Leave(s2).stack == s0.stack;
    assert forall w: nat :: Met(s0, w) ==> Met(s1, w);
    assert forall w: nat :: w in s2.stack <==> w in s0.stack || w == v;
  }

  // ----- the result -----

  /** The files that the root program imports. */
  function RootsOf(decls: seq<Decl>): set<nat> {
    set v: nat | v in Targets(decls)
  }

  predicate AllFound(decls: seq<Decl>) {
    forall i :: 0 <= i < |decls| && decls[i].Import? ==> decls[i].target.Some?
  }

  /** The modules whose exports were merged are imported by the program, and done. */
  ghost predicate RootMerged(decls: seq<Decl>, ds: set<nat>, ms: map<nat, Entry>) {
    forall w: nat :: w in ds ==> w in ms && !ms[w].inProgress && w in RootsOf(decls)
  }

  /** One import of the root program. */
  method ProcessRootImport(c: Context, decls: seq<Decl>, i: nat, auto0: map<string, Exposed>, ghost ds0: set<nat>)
    returns (depOk: bool, auto: map<string, Exposed>, ghost ds: set<nat>)
    requires c.Valid() && c.roots == RootsOf(decls) && c.program == decls && c.s.stack == []
    requires i < |decls| && decls[i].Import? && InRange(decls[i], |c.files|)
    requires ExposureRight(auto0, ds0, c.modules) && RootMerged(decls, ds0, c.modules)
    modifies c
    ensures c.Valid() && Later(old(c.s), c.s) && RootLooked(decls[i], c.s)
    ensures c.early == old(c.early) + (if decls[i].target.None? then 1 else 0)
    ensures old(c.NoErrors()) ==> (c.NoErrors() <==> depOk)
    ensures !old(c.NoErrors()) ==> !c.NoErrors()
    ensures ExposureRight(auto, ds, c.modules) && RootMerged(decls, ds, c.modules) && ds0 <= ds
    ensures depOk ==> MergedDecl(decls[i], ds)
  {
    hide ExposureRight, Ledger, ImportedAs, Graph, BadFiles, StateOk, Ahead;
    auto, ds := auto0, ds0;
    match decls[i].target
    case None =>
      c.ReportUnfound();
      depOk := false;
    case Some(w) =>
      RootAhead(c.files, decls, i, c.s);
      ghost var ms := c.modules;
      RootImported(c.files, decls, i);
      depOk := c.ProcessFile(w, decls[i].name);
      ExposureKept(auto, ds, ms, c.modules);
      if depOk {
        TargetIn(decls, w);
        auto := MergeExports(auto, w, ds, c.modules);
        ds := ds + {w};
      }
  }

  /** ST_modules_process: the imports of the root program are processed one by one; its own
      declarations come last. The root is not itself a module. The bare names that it may use are
      those that the modules it imports export. */
  method Process(files: seq<File>, decls: seq<Decl>) returns (ok: bool, c: Context, auto: map<string, Exposed>)
    requires Closed(files) && forall i :: 0 <= i < |decls| ==> InRange(decls[i], |files|)
    ensures fresh(c) && c.files == files
    ensures c.circular > 0 <==> CycleFrom(Graph(files), RootsOf(decls))
    ensures c.faults > 0 <==> FaultFrom(Graph(files), RootsOf(decls), BadFiles(files))
    ensures ok <==> c.circular == 0 && c.faults == 0 && AllFound(decls)
    ensures NoRepeats(c.loads) && forall v: nat :: v in c.loads <==> ReachedFrom(Graph(files), RootsOf(decls), v)
    ensures NoRepeats(c.s.order) && forall v: nat :: v in c.s.order <==> ReachedFrom(Graph(files), RootsOf(decls), v)
    ensures c.merged == Blocks(files, c.s.order) + Defs(|files|, decls)
    ensures c.circular == 0 ==> Topological(Graph(files), c.s.order)
    ensures forall v: nat, d :: (v, d) in c.merged <==> Contributes(files, decls, c.modules, v, d)
    ensures c.circular == 0 ==> DefinedFirst(files, c.merged)
    ensures forall v: nat :: v in c.modules <==> ReachedFrom(Graph(files), RootsOf(decls), v)
    ensures forall v: nat :: ProcessedRight(files, decls, c.modules, v)
    ensures ok ==> forall x :: VisibleRight(files, decls, auto, x)
  {
    hide ExposureRight, Ledger, VisibleRight, ProcessedRight, ImportedAs, Contributes, DefinedFirst, Blocks;
    hide Graph, BadFiles, StateOk, Topological, Cyclic, Reaches, CycleFrom, FaultFrom, ReachedFrom, Defs, Ahead;
    c := new Context(files, RootsOf(decls), decls);
    ghost var ds: set<nat> := {};
    ok, auto := true, map[];
    NothingExposed(c.modules);
    for i := 0 to |decls|
      invariant fresh(c) && c.Valid() && c.files == files && c.roots == RootsOf(decls) && c.program == decls && c.s.stack == []
      invariant (c.early > 0 <==> !AllFound(decls[..i])) && (c.NoErrors() <==> ok)
      invariant forall j: nat :: j < i ==> RootLooked(decls[j], c.s)
      invariant ExposureRight(auto, ds, c.modules) && RootMerged(decls, ds, c.modules)
      invariant ok ==> forall j: nat :: j < i ==> MergedDecl(decls[j], ds)
    {
      assert decls[..i + 1] == decls[..i] + [decls[i]];
      ghost var s0 := c.s;
      if decls[i].Import? {
        var depOk;
        depOk, auto, ds := ProcessRootImport(c, decls, i, auto, ds);
        ok := ok && depOk;
      }
      assert forall j: nat :: j < i ==> RootLooked(decls[j], s0);
    }
    assert decls[..|decls|] == decls;
    RootsMet(decls, c.s);
    if ok {
      AllRootsMerged(decls, ds);
      ProgramSees(files, decls, auto, ds, c.modules);
    }
    EndOfRun(files, RootsOf(decls), c.modules, c.merged, c.loads, c.early, c.s);
    EndOfProgram(files, decls, c.modules, c.merged, c.loads, c.early, c.s);
    c.AppendDefs(|files|, decls);
  }

  /** What is in the table and in the merged program when all imports of the program were processed. */
  lemma EndOfProgram(files: seq<File>, program: seq<Decl>, ms: map<nat, Entry>, merged: seq<(nat, Decl)>, loads: seq<nat>, early: nat, s: Dfs)
    requires StateOk(files, RootsOf(program), ms, merged, loads, early, s) && s.stack == [] && Ledger(files, program, ms)
    requires forall r :: r in RootsOf(program) ==> Met(s, r)
    ensures forall v: nat :: v in ms <==> v in s.order
    ensures forall v: nat :: ProcessedRight(files, program, ms, v)
    ensures forall v: nat, d :: (v, d) in merged + Defs(|files|, program) <==> Contributes(files, program, ms, v, d)
    ensures s.circular == 0 ==> DefinedFirst(files, merged + Defs(|files|, program))
  {
    hide Ledger, ImportedAs, ExportsDecls, Contributes, DefinedFirst, Graph, BadFiles, Topological, StateOk, Defs, Blocks;
    AllProcessed(files, RootsOf(program), program, ms, merged, loads, early, s);
    EndOfRun(files, RootsOf(program), ms, merged, loads, early, s);
    assert forall v: nat :: ProcessedRight(files, program, ms, v) && v in ms ==> v < |files|;
    MergedExactly(files, program, ms, s.order);
    if s.circular == 0 {
      ImportsFirst(files, program, s.order);
    }
  }

  /** `d` is a definition in a file that the program reaches, or one of the program itself, which
      counts as file number |files|. */
  predicate Contributes(files: seq<File>, program: seq<Decl>, ms: map<nat, Entry>, v: nat, d: Decl) {
    && !d.Import?
    && if v < |files| then v in ms && files[v].Readable? && d in files[v].decls else v == |files| && d in program
  }

  /** What a file imports stands before it, and everything before the program. */
  ghost predicate DefinedFirst(files: seq<File>, merged: seq<(nat, Decl)>) {
    forall i, j :: 0 <= i < |merged| && 0 <= j < |merged| && Behind(files, merged[i].0, merged[j].0) ==> j < i
  }

  predicate Behind(files: seq<File>, u: nat, w: nat) {
    w < |files| && if u < |files| then w in Imports(files[u]) else u == |files|
  }

  lemma {:induction false} InDefs(v: nat, decls: seq<Decl>, x: (nat, Decl))
    ensures x in Defs(v, decls) <==> x.0 == v && !x.1.Import? && x.1 in decls
  {
    if decls != [] {
      InDefs(v, decls[1..], x);
      assert decls == [decls[0]] + decls[1..];
    }
  }

  lemma {:induction false} InBlocks(files: seq<File>, order: seq<nat>, x: (nat, Decl))
    ensures x in Blocks(files, order) <==>
      x.0 in order && x.0 < |files| && files[x.0].Readable? && !x.1.Import? && x.1 in files[x.0].decls
  {
    if order != [] {
      var v := order[|order| - 1];
      InBlocks(files, order[..|order| - 1], x);
      if v < |files| && files[v].Readable? {
        InDefs(v, files[v].decls, x);
      }
      assert order == order[..|order| - 1] + [v];
    }
  }

  lemma MergedExactly(files: seq<File>, program: seq<Decl>, ms: map<nat, Entry>, order: seq<nat>)
    requires forall v: nat :: v in ms ==> v < |files|
    requires forall v: nat :: v in ms <==> v in order
    ensures forall v: nat, d ::
      (v, d) in Blocks(files, order) + Defs(|files|, program) <==> Contributes(files, program, ms, v, d)
  {
    forall v: nat, d
      ensures (v, d) in Blocks(files, order) + Defs(|files|, program) <==> Contributes(files, program, ms, v, d)
    {
      InBlocks(files, order, (v, d));
      InDefs(|files|, program, (v, d));
    }
  }

  lemma {:induction false} BlocksFirst(files: seq<File>, order: seq<nat>)
    requires Topological(Graph(files), order) && NoRepeats(order)
    ensures DefinedFirst(files, Blocks(files, order))
  {
    if order != [] {
      var n := |order| - 1;
      var v, a, b := order[n], Blocks(files, order[..n]), DefsOf(files, order[n]);
      assert Topological(Graph(files), order[..n]) by {
        forall i, w: nat | 0 <= i < n && Edge(Graph(files), order[..n][i], w)
          ensures w in order[..n][..i]
        {
          assert order[..n][..i] == order[..i];
        }
      }
      BlocksFirst(files, order[..n]);
      var ab: seq<(nat, Decl)> := a + b;
      forall i, j | 0 <= i < |ab| && 0 <= j < |ab| && Behind(files, ab[i].0, ab[j].0)
        ensures j < i
      {
        if j >= |a| {
          InLastBlock(files, v, ab[j]);
          if i < |a| {
            InBlocks(files, order[..n], a[i]);
            NotBehindLast(files, order, a[i].0);
          } else {
            InLastBlock(files, v, ab[i]);
            NotBehindLast(files, order, v);
          }
        } else if i < |a| {
          assert a[i] == ab[i] && a[j] == ab[j];
        }
      }
    }
  }

  lemma InLastBlock(files: seq<File>, v: nat, x: (nat, Decl))
    requires x in DefsOf(files, v)
    ensures x.0 == v < |files|
  {
    InDefs(v, files[v].decls, x);
  }

  lemma NotBehindLast(files: seq<File>, order: seq<nat>, u: nat)
    requires Topological(Graph(files), order) && NoRepeats(order) && u in order && u < |files|
    ensures !Behind(files, u, order[|order| - 1])
  {
    var i :| 0 <= i < |order| && order[i] == u;
    var w := order[|order| - 1];
    if Behind(files, u, w) {
      assert Edge(Graph(files), order[i], w);
    }
  }

  lemma ImportsFirst(files: seq<File>, program: seq<Decl>, order: seq<nat>)
    requires Topological(Graph(files), order) && NoRepeats(order)
    ensures DefinedFirst(files, Blocks(files, order) + Defs(|files|, program))
  {
    var a, b := Blocks(files, order), Defs(|files|, program);
    BlocksFirst(files, order);
    var ab: seq<(nat, Decl)> := a + b;
    forall i, j | 0 <= i < |ab| && 0 <= j < |ab| && Behind(files, ab[i].0, ab[j].0)
      ensures j < i
    {
      if j >= |a| {
        InDefs(|files|, program, ab[j]);
      } else if i < |a| {
        assert a[i] == ab[i] && a[j] == ab[j];
      }
    }
  }

  /** What is known of a module that the program reaches: where its prefix comes from, and what it exports. */
  ghost predicate ProcessedRight(files: seq<File>, program: seq<Decl>, ms: map<nat, Entry>, v: nat) {
    v in ms ==>
      && v < |files| && !ms[v].inProgress && ImportedAs(files, program, v, ms[v].prefix)
      && match files[v]
         case Unreadable => ms[v].exports == map[]
         case Readable(decls) => ExportsDecls(ms[v].exports, ms[v].prefix, decls)
  }

  lemma AllProcessed(files: seq<File>, roots: set<nat>, program: seq<Decl>, ms: map<nat, Entry>, merged: seq<(nat, Decl)>,
                     loads: seq<nat>, early: nat, s: Dfs)
    requires StateOk(files, roots, ms, merged, loads, early, s) && s.stack == [] && Ledger(files, program, ms)
    ensures forall v: nat :: ProcessedRight(files, program, ms, v) && (v in ms <==> v in s.order)
  {
    hide StateOk, Ledger, ImportedAs, ExportsDecls;
    forall v: nat
      ensures ProcessedRight(files, program, ms, v) && (v in ms <==> v in s.order)
    {
      StateFacts(files, roots, ms, merged, loads, early, s, v);
      EntryOf(files, program, ms, v);
    }
  }

  lemma RootImported(files: seq<File>, decls: seq<Decl>, i: nat)
    requires i < |decls| && decls[i].Import? && decls[i].target.Some?
    ensures ImportedAs(files, decls, decls[i].target.value, decls[i].name)
  {
    assert decls[i] == Import(decls[i].name, Some(decls[i].target.value));
  }

  lemma ProgramSees(files: seq<File>, decls: seq<Decl>, auto: map<string, Exposed>, ds: set<nat>, ms: map<nat, Entry>)
    requires Ledger(files, decls, ms) && ExposureRight(auto, ds, ms) && ds == RootsOf(decls)
    requires forall i :: 0 <= i < |decls| ==> InRange(decls[i], |files|)
    requires forall w: nat :: w in ds ==> w in ms && !ms[w].inProgress
    ensures forall x :: VisibleRight(files, decls, auto, x)
  {
    hide Ledger, ExposureRight, VisibleRight;
    forall w: nat
      ensures w in ds <==> exists k :: 0 <= k < |decls| && decls[k].Import? && decls[k].target == Some(w)
      ensures w in ds ==> w < |files|
    {
      TargetIn(decls, w);
      if w in ds {
        var k :| 0 <= k < |decls| && decls[k].Import? && decls[k].target == Some(w);
        assert InRange(decls[k], |files|);
      }
    }
    ExposureIsVisible(files, decls, decls, auto, ds, ms);
  }

  lemma NothingExposed(ms: map<nat, Entry>)
    ensures ExposureRight(map[], {}, ms)
  {
    forall x
      ensures ExposedRight(map[], {}, ms, x)
    {
    }
  }

  lemma AllRootsMerged(decls: seq<Decl>, ds: set<nat>)
    requires forall j: nat :: j < |decls| ==> MergedDecl(decls[j], ds)
    requires forall w: nat :: w in ds ==> w in RootsOf(decls)
    ensures ds == RootsOf(decls)
  {
    forall w: nat | w in RootsOf(decls)
      ensures w in ds
    {
      TargetIn(decls, w);
      var j: nat :| j < |decls| && decls[j].Import? && decls[j].target == Some(w);
      assert MergedDecl(decls[j], ds);
    }
  }

  predicate RootLooked(d: Decl, s: Dfs) {
    d.Import? && d.target.Some? ==> Met(s, d.target.value)
  }

  lemma RootAhead(files: seq<File>, decls: seq<Decl>, i: nat, s: Dfs)
    requires i < |decls| && decls[i].Import? && decls[i].target.Some? && InRange(decls[i], |files|) && s.stack == []
    ensures Ahead(Graph(files), RootsOf(decls), s, decls[i].target.value)
  {
    TargetIn(decls, decls[i].target.value);
  }

  lemma RootsMet(decls: seq<Decl>, s: Dfs)
    requires forall j: nat :: j < |decls| ==> RootLooked(decls[j], s)
    ensures forall r :: r in RootsOf(decls) ==> Met(s, r)
  {
    forall r | r in RootsOf(decls)
      ensures Met(s, r)
    {
      TargetIn(decls, r);
      var j: nat :| j < |decls| && decls[j].Import? && decls[j].target == Some(r);
      assert RootLooked(decls[j], s);
    }
  }

  /** Every file that the program needs is read once; circular imports and faults are reported
      exactly when there are any; without a cycle, modules stand behind what they import. */
  lemma EndOfRun(files: seq<File>, roots: set<nat>, ms: map<nat, Entry>, merged: seq<(nat, Decl)>, loads: seq<nat>,
                 early: nat, s: Dfs)
    requires StateOk(files, roots, ms, merged, loads, early, s) && s.stack == [] && forall r :: r in roots ==> Met(s, r)
    ensures s.circular > 0 <==> CycleFrom(Graph(files), roots)
    ensures s.faults > 0 <==> FaultFrom(Graph(files), roots, BadFiles(files))
    ensures NoRepeats(loads) && forall v: nat :: v in loads <==> ReachedFrom(Graph(files), roots, v)
    ensures NoRepeats(s.order) && forall v: nat :: v in s.order <==> ReachedFrom(Graph(files), roots, v)
    ensures merged == Blocks(files, s.order)
    ensures s.circular == 0 ==> Topological(Graph(files), s.order)
  {
    hide Graph, BadFiles, Topological, Cyclic, Reaches, ReachedFrom;
    Verdict(Graph(files), roots, BadFiles(files), s);
    forall v: nat
      ensures v in loads <==> v in s.order
    {
      assert Listed(ms, loads, s, v);
    }
  }
}
