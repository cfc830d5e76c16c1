/** `#load`: a file is replaced by its tokens, once, however often and in whatever circle it is
    loaded. */
module Loads {
  import opened Scanner
  import Lexer

  /** The files by canonical path, and the canonical path of a name used in a file. */
  datatype Disk = Disk(files: map<string, string>, resolve: (string, string) -> string)

  /** The tokens of a source that can be cut into tokens. */
  ghost function Cut(src: string): seq<Token>
    requires Lexes(src)
  {
    var parts :| Tiles(src, 0, parts, |src|);
    Tokens(parts)
  }

  datatype Item = Plain(t: Token) | Load(rel: string) | Bad

  predicate IsText(t: Token, text: string) {
    t.kind.Symbol? && t.text == text
  }

  /** Behind `#load`, its string, and a semicolon if there is one. */
  function Behind(toks: seq<Token>, i: nat): (n: nat)
    requires i + 1 < |toks|
    ensures i + 2 <= n <= |toks|
  {
    if i + 2 < |toks| && IsText(toks[i + 2], ";") then i + 3 else i + 2
  }

  function Items(toks: seq<Token>, i: nat): seq<Item>
    requires i <= |toks|
    decreases |toks| - i
  {
    if i == |toks| then []
    else if !IsText(toks[i], "#load") then [Plain(toks[i])] + Items(toks, i + 1)
    else if i + 1 >= |toks| || !toks[i + 1].kind.Str? then [Bad]
    else [Load(toks[i + 1].kind.value)] + Items(toks, Behind(toks, i))
  }

  /** What is in front does not matter. */
  lemma {:induction false} ItemsShift(a: seq<Token>, b: seq<Token>, i: nat)
    requires i <= |b|
    ensures Items(a + b, |a| + i) == Items(b, i)
    decreases |b| - i
  {
    hide IsText;
    if i < |b| {
      var ab := a + b;
      assert ab[|a| + i] == b[i];
      if IsText(b[i], "#load") && i + 1 < |b| {
        assert ab[|a| + i + 1] == b[i + 1] && (i + 2 < |b| ==> ab[|a| + i + 2] == b[i + 2]);
        assert Behind(ab, |a| + i) == |a| + Behind(b, i);
        ItemsShift(a, b, Behind(b, i));
      } else {
        ItemsShift(a, b, i + 1);
      }
    }
  }

  /** `#load "f"` is one item, with the semicolon behind it or without; a second semicolon stays. */
  lemma LoadSpelled(load: Token, name: Token, semi: Token, rest: seq<Token>)
    requires IsText(load, "#load") && name.kind.Str? && IsText(semi, ";")
    ensures Items([load, name, semi] + rest, 0) == [Load(name.kind.value)] + Items(rest, 0)
    ensures rest == [] || !IsText(rest[0], ";") ==> Items([load, name] + rest, 0) == [Load(name.kind.value)] + Items(rest, 0)
  {
    ItemsShift([load, name, semi], rest, 0);
    ItemsShift([load, name], rest, 0);
  }

  /** Any other token is an item of its own, and `#load` without a name is an error. */
  lemma OtherSpelled(t: Token, rest: seq<Token>)
    ensures !IsText(t, "#load") ==> Items([t] + rest, 0) == [Plain(t)] + Items(rest, 0)
    ensures IsText(t, "#load") && (rest == [] || !rest[0].kind.Str?) ==> Items([t] + rest, 0) == [Bad]
  {
    ItemsShift([t], rest, 0);
  }

  ghost predicate Readable(d: Disk, f: string) {
    f in d.files && Lexes(d.files[f])
  }

  ghost function ItemsOf(d: Disk, f: string): seq<Item> {
    if Readable(d, f) then Items(Cut(d.files[f]), 0) else []
  }

  ghost predicate Sound(d: Disk, f: string) {
    Readable(d, f) && Bad !in ItemsOf(d, f)
  }

  ghost predicate LoadsAt(d: Disk, f: string, k: nat, g: string) {
    k < |ItemsOf(d, f)| && ItemsOf(d, f)[k].Load? && d.resolve(f, ItemsOf(d, f)[k].rel) == g
  }

  ghost predicate Edge(d: Disk, f: string, g: string) {
    exists k: nat :: LoadsAt(d, f, k, g)
  }

  ghost predicate ReachIn(d: Disk, f: string, g: string, n: nat)
    decreases n
  {
    if n == 0 then f == g else exists h :: ReachIn(d, f, h, n - 1) && Edge(d, h, g)
  }

  ghost predicate Reach(d: Disk, f: string, g: string) {
    exists n: nat :: ReachIn(d, f, g, n)
  }

  lemma ReachSelf(d: Disk, f: string)
    ensures Reach(d, f, f)
  {
    assert ReachIn(d, f, f, 0);
  }

  lemma ReachOn(d: Disk, f: string, g: string, h: string)
    requires Reach(d, f, g) && Edge(d, g, h)
    ensures Reach(d, f, h)
  {
    hide Edge;
    var n: nat :| ReachIn(d, f, g, n);
    assert ReachIn(d, f, h, n + 1);
  }

  lemma {:induction false} ReachJoin(d: Disk, f: string, g: string, h: string, n: nat)
    requires Reach(d, f, g) && ReachIn(d, g, h, n)
    ensures Reach(d, f, h)
    decreases n
  {
    hide Edge;
    if n > 0 {
      var m :| ReachIn(d, g, m, n - 1) && Edge(d, m, h);
      ReachJoin(d, f, g, m, n - 1);
      ReachOn(d, f, m, h);
    }
  }

  lemma {:induction false} ReachStays(d: Disk, f: string, g: string, n: nat, within: set<string>)
    requires f in within && ReachIn(d, f, g, n)
    requires forall a, b :: a in within && Edge(d, a, b) ==> b in within
    ensures g in within
    decreases n
  {
    hide Edge;
    if n > 0 {
      var h :| ReachIn(d, f, h, n - 1) && Edge(d, h, g);
      ReachStays(d, f, h, n - 1, within);
    }
  }

  // ----- the output -----

  datatype Entry = Entry(file: string, t: Token)

  /** What a file has contributed, in order. */
  function Of(out: seq<Entry>, f: string): seq<Token> {
    if out == [] then []
    else
      var last := out[|out| - 1];
      Of(out[..|out| - 1], f) + (if last.file == f then [last.t] else [])
  }

  function Plains(items: seq<Item>): seq<Token> {
    if items == [] then []
    else
      var last := items[|items| - 1];
      Plains(items[..|items| - 1]) + (if last.Plain? then [last.t] else [])
  }

  /** Everything of `g` comes before what `f` contributes behind its first `n` tokens. */
  ghost predicate Before(out: seq<Entry>, f: string, n: nat, g: string) {
    forall p, q :: 0 <= p < |out| && 0 <= q < |out| && out[p].file == g && Late(out, q, f, n) ==> p < q
  }

  predicate Late(out: seq<Entry>, q: nat, f: string, n: nat)
    requires q < |out|
  {
    out[q].file == f && |Of(out[..q], f)| >= n
  }

  predicate Foreign(more: seq<Entry>, f: string) {
    forall i :: 0 <= i < |more| ==> more[i].file != f
  }

  lemma OfOne(out: seq<Entry>, x: Entry, f: string)
    ensures Of(out + [x], f) == Of(out, f) + (if x.file == f then [x.t] else [])
  {
    assert (out + [x])[..|out|] == out;
  }

  lemma PlainsOne(items: seq<Item>, x: Item)
    ensures Plains(items + [x]) == Plains(items) + (if x.Plain? then [x.t] else [])
  {
    assert (items + [x])[..|items|] == items;
  }

  lemma {:induction false} OfForeign(out: seq<Entry>, more: seq<Entry>, f: string)
    requires Foreign(more, f)
    ensures Of(out + more, f) == Of(out, f)
    decreases |more|
  {
    if more == [] {
      assert out + more == out;
    } else {
      var k := |more| - 1;
      OfForeign(out, more[..k], f);
      assert (out + more[..k]) + [more[k]] == out + more;
      OfOne(out + more[..k], more[k], f);
    }
  }

  lemma {:induction false} OfGrows(out: seq<Entry>, q: nat, f: string)
    requires q <= |out|
    ensures |Of(out[..q], f)| <= |Of(out, f)|
    decreases |out|
  {
    if q < |out| {
      OfGrows(out[..|out| - 1], q, f);
      assert out[..|out| - 1][..q] == out[..q];
    } else {
      assert out[..q] == out;
    }
  }

  lemma OfBelow(out: seq<Entry>, q: nat, f: string)
    requires q < |out| && out[q].file == f
    ensures |Of(out[..q], f)| < |Of(out, f)|
  {
    OfGrows(out, q + 1, f);
    assert out[..q + 1] == out[..q] + [out[q]];
    OfOne(out[..q], out[q], f);
  }

  /** A file that has contributed `n` tokens so far has no late ones. */
  lemma BeforeStarts(out: seq<Entry>, f: string, g: string)
    ensures Before(out, f, |Of(out, f)|, g)
  {
    forall q | 0 <= q < |out| && out[q].file == f
      ensures !Late(out, q, f, |Of(out, f)|)
    {
      OfBelow(out, q, f);
    }
  }

  lemma BeforeForeign(out: seq<Entry>, more: seq<Entry>, f: string, n: nat, g: string)
    requires Before(out, f, n, g) && Foreign(more, f) && Foreign(more, g)
    ensures Before(out + more, f, n, g)
  {
    var all := out + more;
    forall p, q | 0 <= p < |all| && 0 <= q < |all| && all[p].file == g && Late(all, q, f, n)
      ensures p < q
    {
      assert p < |out| && q < |out|;
      assert all[..q] == out[..q];
      assert Late(out, q, f, n);
    }
  }

  lemma BeforeOne(out: seq<Entry>, x: Entry, n: nat, g: string)
    requires Before(out, x.file, n, g) && g != x.file
    ensures Before(out + [x], x.file, n, g)
  {
    var all := out + [x];
    forall p, q | 0 <= p < |all| && 0 <= q < |all| && all[p].file == g && Late(all, q, x.file, n)
      ensures p < q
    {
      assert p < |out|;
      if q < |out| {
        assert all[..q] == out[..q];
        assert Late(out, q, x.file, n);
      }
    }
  }

  /** A `#load` of `g` as item `k` of `f` has been dealt with: `g` is there, and before everything
      behind the `#load`, unless `g` itself leads to `f`. */
  ghost predicate Settled(d: Disk, seen: set<string>, out: seq<Entry>, f: string, k: nat, g: string)
    requires k <= |ItemsOf(d, f)|
  {
    g in seen && (Reach(d, g, f) || Before(out, f, |Plains(ItemsOf(d, f)[..k])|, g))
  }

  /** Everything a file contributes is there. */
  ghost predicate Done(d: Disk, seen: set<string>, out: seq<Entry>, f: string) {
    && Sound(d, f) && Of(out, f) == Plains(ItemsOf(d, f))
    && forall k: nat, g :: LoadsAt(d, f, k, g) ==> Settled(d, seen, out, f, k, g)
  }

  lemma SettledStays(d: Disk, seen: set<string>, out: seq<Entry>, f: string, k: nat, g: string, seen': set<string>, more: seq<Entry>)
    requires k <= |ItemsOf(d, f)| && Settled(d, seen, out, f, k, g) && seen <= seen'
    requires Foreign(more, f) && (Reach(d, g, f) || Foreign(more, g))
    ensures Settled(d, seen', out + more, f, k, g)
  {
    hide Before, Of, Foreign, Plains, ItemsOf, Reach;
    if !Reach(d, g, f) {
      BeforeForeign(out, more, f, |Plains(ItemsOf(d, f)[..k])|, g);
    }
  }

  /** Later tokens are those of new files and of `path`, whose expansion is under way. */
  ghost predicate Later(seen: set<string>, more: seq<Entry>, path: string) {
    forall h :: h in seen && h != path ==> Foreign(more, h)
  }

  lemma DoneStays(d: Disk, seen: set<string>, out: seq<Entry>, f: string, seen': set<string>, more: seq<Entry>, path: string)
    requires Done(d, seen, out, f) && f in seen && f != path && Reach(d, path, f) && seen <= seen' && Later(seen, more, path)
    ensures Done(d, seen', out + more, f)
  {
    hide Before, Of, Foreign, Plains, ItemsOf, Sound, Reach, LoadsAt;
    OfForeign(out, more, f);
    forall k: nat, g | LoadsAt(d, f, k, g)
      ensures k < |ItemsOf(d, f)| && Settled(d, seen', out + more, f, k, g)
    {
      LoadIsItem(d, f, k, g);
      SettledStays(d, seen, out, f, k, g, seen', more);
    }
  }

  lemma LoadIsItem(d: Disk, f: string, k: nat, g: string)
    requires LoadsAt(d, f, k, g)
    ensures k < |ItemsOf(d, f)|
  {
  }

  /** The first `n` items of a file have been dealt with. */
  ghost predicate SoFar(d: Disk, seen: set<string>, out: seq<Entry>, f: string, n: nat) {
    && n <= |ItemsOf(d, f)| && Of(out, f) == Plains(ItemsOf(d, f)[..n])
    && forall k: nat, g :: k < n && LoadsAt(d, f, k, g) ==> Settled(d, seen, out, f, k, g)
  }

  /** A token of the file itself. */
  lemma TokenAdded(d: Disk, seen: set<string>, out: seq<Entry>, f: string, n: nat, t: Token)
    requires SoFar(d, seen, out, f, n) && n < |ItemsOf(d, f)| && ItemsOf(d, f)[n] == Plain(t)
    ensures SoFar(d, seen, out + [Entry(f, t)], f, n + 1)
  {
    hide Before, Of, Plains, ItemsOf, Reach;
    var items, x := ItemsOf(d, f), Entry(f, t);
    assert items[..n + 1] == items[..n] + [items[n]];
    PlainsOne(items[..n], items[n]);
    OfOne(out, x, f);
    forall k: nat, g | k < n && LoadsAt(d, f, k, g)
      ensures Settled(d, seen, out + [x], f, k, g)
    {
      assert Settled(d, seen, out, f, k, g);
      ReachSelf(d, f);
      if !Reach(d, g, f) {
        BeforeOne(out, x, |Plains(items[..k])|, g);
      }
    }
  }

  /** A file that it loads. */
  lemma FileAdded(d: Disk, seen: set<string>, out: seq<Entry>, f: string, n: nat, seen': set<string>, more: seq<Entry>)
    requires SoFar(d, seen, out, f, n) && n < |ItemsOf(d, f)| && ItemsOf(d, f)[n].Load?
    requires seen <= seen' && f in seen && (forall h :: h in seen ==> Foreign(more, h)) && d.resolve(f, ItemsOf(d, f)[n].rel) in seen'
    ensures SoFar(d, seen', out + more, f, n + 1)
  {
    hide Before, Of, Plains, ItemsOf, Reach, Foreign;
    var items, all := ItemsOf(d, f), out + more;
    assert items[..n + 1] == items[..n] + [items[n]];
    PlainsOne(items[..n], items[n]);
    OfForeign(out, more, f);
    forall k: nat, g | k < n + 1 && LoadsAt(d, f, k, g)
      ensures Settled(d, seen', all, f, k, g)
    {
      if k < n {
        assert Settled(d, seen, out, f, k, g);
        SettledStays(d, seen, out, f, k, g, seen', more);
      } else {
        BeforeStarts(all, f, g);
      }
    }
  }

  /** What has been added comes from files seen since. */
  ghost predicate Added(seen: set<string>, seen': set<string>, out: seq<Entry>, out': seq<Entry>) {
    && |out| <= |out'| && out'[..|out|] == out
    && forall i :: |out| <= i < |out'| ==> out'[i].file in seen' && out'[i].file !in seen
  }

  predicate Tagged(seen: set<string>, out: seq<Entry>) {
    forall i :: 0 <= i < |out| ==> out[i].file in seen
  }

  /** While the file `path` is expanded: what is new is complete, but for the file itself. */
  ghost predicate Within(d: Disk, path: string, seen0: set<string>, out0: seq<Entry>, seen: set<string>, out: seq<Entry>) {
    && seen0 <= seen && Added(seen0 - {path}, seen, out0, out)
    && Tagged(seen, out)
    && forall f :: f in seen && f !in seen0 ==> Reach(d, path, f) && Done(d, seen, out, f)
  }

  lemma WalkStarts(d: Disk, seen: set<string>, out: seq<Entry>, path: string)
    requires Foreign(out, path) && path in seen && Tagged(seen, out)
    requires Readable(d, path)
    ensures SoFar(d, seen, out, path, 0) && Within(d, path, seen, out, seen, out)
    ensures ItemsOf(d, path)[0..] == Items(Cut(d.files[path]), 0)
  {
    OfForeign([], out, path);
    assert [] + out == out;
  }

  lemma ItemIs(d: Disk, path: string, toks: seq<Token>, i: nat, n: nat)
    requires i < |toks| && n <= |ItemsOf(d, path)| && ItemsOf(d, path)[n..] == Items(toks, i)
    ensures n < |ItemsOf(d, path)|
    ensures
      var items := ItemsOf(d, path);
      items[..n + 1] == items[..n] + [items[n]]
    ensures
      var items := ItemsOf(d, path);
      if !IsText(toks[i], "#load") then items[n] == Plain(toks[i]) && items[n + 1..] == Items(toks, i + 1)
      else if i + 1 >= |toks| || !toks[i + 1].kind.Str? then items[n] == Bad
      else items[n] == Load(toks[i + 1].kind.value) && items[n + 1..] == Items(toks, Behind(toks, i))
  {
    hide ItemsOf;
    var items := ItemsOf(d, path);
    assert items[n] == items[n..][0];
    assert items[n + 1..] == items[n..][1..];
  }

  lemma TokenStep(d: Disk, path: string, seen0: set<string>, out0: seq<Entry>, seen: set<string>, out: seq<Entry>, n: nat, t: Token)
    requires Within(d, path, seen0, out0, seen, out) && SoFar(d, seen, out, path, n) && path in seen0
    requires n < |ItemsOf(d, path)| && ItemsOf(d, path)[n] == Plain(t)
    ensures Within(d, path, seen0, out0, seen, out + [Entry(path, t)]) && SoFar(d, seen, out + [Entry(path, t)], path, n + 1)
  {
    hide Done, SoFar, ItemsOf, Reach;
    var more := [Entry(path, t)];
    TokenAdded(d, seen, out, path, n, t);
    assert Later(seen, more, path);
    forall f | f in seen && f !in seen0
      ensures Done(d, seen, out + more, f)
    {
      DoneStays(d, seen, out, f, seen, more, path);
    }
  }

  lemma FileStep(d: Disk, path: string, seen0: set<string>, out0: seq<Entry>, seen1: set<string>, out1: seq<Entry>, n: nat,
                 seen: set<string>, out: seq<Entry>)
    requires Within(d, path, seen0, out0, seen1, out1) && SoFar(d, seen1, out1, path, n) && path in seen0
    requires n < |ItemsOf(d, path)| && ItemsOf(d, path)[n].Load?
    requires seen1 <= seen && d.resolve(path, ItemsOf(d, path)[n].rel) in seen && Added(seen1, seen, out1, out)
    requires Reach(d, path, d.resolve(path, ItemsOf(d, path)[n].rel))
    requires forall f :: f in seen && f !in seen1 ==> Reach(d, d.resolve(path, ItemsOf(d, path)[n].rel), f) && Done(d, seen, out, f)
    ensures Within(d, path, seen0, out0, seen, out) && SoFar(d, seen, out, path, n + 1)
  {
    hide Done, SoFar, ItemsOf, Reach;
    var more := out[|out1|..];
    var g := d.resolve(path, ItemsOf(d, path)[n].rel);
    assert out == out1 + more;
    assert forall h :: h in seen1 ==> Foreign(more, h);
    FileAdded(d, seen1, out1, path, n, seen, more);
    forall f | f in seen && f !in seen0
      ensures Reach(d, path, f) && Done(d, seen, out, f)
    {
      if f in seen1 {
        DoneStays(d, seen1, out1, f, seen, more, path);
      } else {
        Joined(d, path, g, f);
      }
    }
  }

  lemma Joined(d: Disk, f: string, g: string, h: string)
    requires Reach(d, f, g) && Reach(d, g, h)
    ensures Reach(d, f, h)
  {
    var n: nat :| ReachIn(d, g, h, n);
    ReachJoin(d, f, g, h, n);
  }

  lemma WalkEnds(d: Disk, path: string, seen0: set<string>, out0: seq<Entry>, seen: set<string>, out: seq<Entry>)
    requires Within(d, path, seen0, out0, seen, out) && SoFar(d, seen, out, path, |ItemsOf(d, path)|)
    requires Bad !in ItemsOf(d, path) && Readable(d, path) && path in seen0
    ensures seen0 <= seen && Added(seen0 - {path}, seen, out0, out)
    ensures forall f :: f in seen && f !in seen0 - {path} ==> Reach(d, path, f) && Done(d, seen, out, f)
  {
    var items := ItemsOf(d, path);
    assert items[..|items|] == items;
    ReachSelf(d, path);
    forall k: nat, g | LoadsAt(d, path, k, g)
      ensures k < |items| && Settled(d, seen, out, path, k, g)
    {
      LoadIsItem(d, path, k, g);
    }
  }

  lemma BadNotSound(d: Disk, f: string)
    requires Bad in ItemsOf(d, f)
    ensures !Sound(d, f)
  {
  }

  lemma EdgeIs(d: Disk, f: string, n: nat)
    requires n < |ItemsOf(d, f)| && ItemsOf(d, f)[n].Load?
    ensures Edge(d, f, d.resolve(f, ItemsOf(d, f)[n].rel))
  {
    assert LoadsAt(d, f, n, d.resolve(f, ItemsOf(d, f)[n].rel));
  }

  class Loader {
    const d: Disk
    var seen: set<string>
    var out: seq<Entry>

    constructor (disk: Disk)
      ensures d == disk && seen == {} && out == []
    {
      d, seen, out := disk, {}, [];
    }

    /** ST_load_expand: a file not seen before is read, and its tokens are added. */
    method Expand(from: string, rel: string) returns (ok: bool)
      requires Tagged(seen, out)
      modifies this
      ensures !ok ==> exists f :: Reach(d, d.resolve(from, rel), f) && !Sound(d, f)
      ensures ok ==> old(seen) <= seen && d.resolve(from, rel) in seen && Added(old(seen), seen, old(out), out)
      ensures ok ==> forall f :: f in seen && f !in old(seen) ==> Reach(d, d.resolve(from, rel), f) && Done(d, seen, out, f)
      decreases |d.files.Keys - seen|, 1
    {
      hide Sound, Done, Reach, Lexes;
      var path := d.resolve(from, rel);
      ReachSelf(d, path);
      if path in seen {
        assert out == out + [];
        return true;
      }
      ghost var before := seen;
      seen := seen + {path};
      if path !in d.files {
        NotSound(d, path);
        return false;
      }
      var toks, lexed, parts := Lexer.Lex(d.files[path]);
      if !lexed {
        NotSound(d, path);
        return false;
      }
      CutIs(d.files[path], parts);
      FewerLeft(d.files.Keys, before, path);
      ok := Walk(path, toks);
    }

    /** The loop over the tokens of a file. */
    method Walk(path: string, toks: seq<Token>) returns (ok: bool)
      requires Readable(d, path) && toks == Cut(d.files[path]) && path in seen
      requires Foreign(out, path) && Tagged(seen, out)
      modifies this
      ensures !ok ==> exists f :: Reach(d, path, f) && !Sound(d, f)
      ensures ok ==> old(seen) <= seen && Added(old(seen) - {path}, seen, old(out), out)
      ensures ok ==> forall f :: f in seen && f !in old(seen) - {path} ==> Reach(d, path, f) && Done(d, seen, out, f)
      decreases |d.files.Keys - seen|, 2
    {
      hide Sound, Done, Reach, Lexes, Cut, Items, SoFar, Added, Foreign, Edge, Readable, ItemsOf, IsText, Behind, Within, Tagged;
      ReachSelf(d, path);
      WalkStarts(d, seen, out, path);
      ghost var n := 0;
      var i := 0;
      while i < |toks|
        invariant i <= |toks| && n <= |ItemsOf(d, path)| && ItemsOf(d, path)[n..] == Items(toks, i)
        invariant Bad !in ItemsOf(d, path)[..n] && SoFar(d, seen, out, path, n)
        invariant Within(d, path, old(seen), old(out), seen, out)
        decreases |toks| - i
      {
        ItemIs(d, path, toks, i, n);
        TagsOf(d, path, old(seen), old(out), seen, out);
        NoMoreLeft(d.files.Keys, old(seen), seen);
        if !IsText(toks[i], "#load") {
          TokenStep(d, path, old(seen), old(out), seen, out, n, toks[i]);
          out := out + [Entry(path, toks[i])];
          i := i + 1;
        } else {
          if i + 1 >= |toks| || !toks[i + 1].kind.Str? {
            BadNotSound(d, path);
            return false;
          }
          var rel := toks[i + 1].kind.value;
          ghost var seen1, out1 := seen, out;
          EdgeIs(d, path, n);
          ReachOn(d, path, path, d.resolve(path, rel));
          ok := Expand(path, rel);
          if !ok {
            ghost var f :| Reach(d, d.resolve(path, rel), f) && !Sound(d, f);
            Joined(d, path, d.resolve(path, rel), f);
            return;
          }
          FileStep(d, path, old(seen), old(out), seen1, out1, n, seen, out);
          i := Behind(toks, i);
        }
        n := n + 1;
      }
      NoItems(toks);
      assert ItemsOf(d, path)[..n] == ItemsOf(d, path);
      WalkEnds(d, path, old(seen), old(out), seen, out);
      ok := true;
    }
  }

  lemma TagsOf(d: Disk, path: string, seen0: set<string>, out0: seq<Entry>, seen: set<string>, out: seq<Entry>)
    requires Within(d, path, seen0, out0, seen, out)
    ensures Tagged(seen, out) && seen0 <= seen
  {
  }

  lemma NotSound(d: Disk, f: string)
    requires !Readable(d, f)
    ensures !Sound(d, f)
  {
  }

  lemma CutIs(src: string, parts: seq<Part>)
    requires Tiles(src, 0, parts, |src|)
    ensures Lexes(src) && Cut(src) == Tokens(parts)
  {
    var other :| Tiles(src, 0, other, |src|) && Cut(src) == Tokens(other);
    TilesUnique(src, 0, parts, other);
  }

  lemma NoItems(toks: seq<Token>)
    ensures Items(toks, |toks|) == []
  {
  }

  lemma NoMoreLeft(files: set<string>, seen: set<string>, seen': set<string>)
    requires seen <= seen'
    ensures |files - seen'| <= |files - seen|
  {
    var a, b := files - seen', files - seen;
    assert a <= b;
    assert b == a + (b - a);
  }

  lemma FewerLeft(files: set<string>, seen: set<string>, f: string)
    requires f in files && f !in seen
    ensures |files - (seen + {f})| < |files - seen|
  {
    assert files - (seen + {f}) == (files - seen) - {f};
  }

  /** ST_load_file: it succeeds exactly when every file that the entry leads to can be read and
      parsed into items. Then exactly those files contribute, each its own tokens, once and in
      order; and what a file loads comes before everything behind the `#load`, unless it leads back
      to that file. */
  method LoadFile(d: Disk, entry: string) returns (ok: bool, out: seq<Entry>)
    ensures ok <==> forall f :: Reach(d, d.resolve("", entry), f) ==> Sound(d, f)
    ensures ok ==> forall i :: 0 <= i < |out| ==> Reach(d, d.resolve("", entry), out[i].file)
    ensures ok ==> forall f :: Reach(d, d.resolve("", entry), f) ==> Of(out, f) == Plains(ItemsOf(d, f))
    ensures ok ==> forall f, k: nat, g :: Reach(d, d.resolve("", entry), f) && LoadsAt(d, f, k, g) && k < |ItemsOf(d, f)| ==>
      Reach(d, g, f) || Before(out, f, |Plains(ItemsOf(d, f)[..k])|, g)
  {
    hide Reach, Sound, LoadsAt, Before, Plains, Of, ItemsOf;
    var l := new Loader(d);
    ok := l.Expand("", entry);
    out := l.out;
    if ok {
      AllReached(d, d.resolve("", entry), l.seen, out);
    }
  }

  lemma AllReached(d: Disk, root: string, seen: set<string>, out: seq<Entry>)
    requires root in seen && Added({}, seen, [], out) && forall f :: f in seen ==> Reach(d, root, f) && Done(d, seen, out, f)
    ensures forall f :: Reach(d, root, f) ==> f in seen && Done(d, seen, out, f) && Sound(d, f)
    ensures forall i :: 0 <= i < |out| ==> Reach(d, root, out[i].file)
    ensures forall f, k: nat, g :: Reach(d, root, f) && LoadsAt(d, f, k, g) && k < |ItemsOf(d, f)| ==>
      Settled(d, seen, out, f, k, g)
  {
    hide ItemsOf, Before, Of, Plains, Sound;
    forall a, b | a in seen && Edge(d, a, b)
      ensures b in seen
    {
      var k: nat :| LoadsAt(d, a, k, b);
      LoadIsItem(d, a, k, b);
      assert Done(d, seen, out, a);
      assert Settled(d, seen, out, a, k, b);
    }
    forall f | Reach(d, root, f)
      ensures f in seen
    {
      var n: nat :| ReachIn(d, root, f, n);
      ReachStays(d, root, f, n, seen);
    }
  }
}
