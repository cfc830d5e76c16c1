/** The heap of the address sanitizer runtime: every allocation gets pages of its own between two
    guard pages and a record in a table, which frees, faults and the leak report look up. */
module Asan {
  import opened Word

  const TABLE: nat := 65536

  datatype Loc = Loc(line: nat, col: nat, file: nat)

  datatype Record = Record(ptr: nat, size: nat, len: nat, base: nat, at: Loc, live: bool, freedAt: Loc)

  datatype Outcome = Freed(i: nat) | DoubleFree(i: nat) | InvalidFree

  datatype Verdict = Overflow(i: nat) | UseAfterFree(i: nat) | NullDeref | Untracked

  // ----- what the code computes, in 64-bit words -----

  /** The size rounded up to pages. */
  function Rounded(size: nat): nat {
    var x := (size + 4095) % 0x1_0000_0000_0000_0000;
    x - x % 4096
  }

  /** The length asked of the kernel: both guard pages are part of it. */
  function Asked(size: nat): nat {
    (Rounded(size) + 8192) % 0x1_0000_0000_0000_0000
  }

  function UserPtr(base: nat, size: nat): nat {
    (base + 4096 + Rounded(size) - size) % 0x1_0000_0000_0000_0000
  }

  function NewRecord(base: nat, size: nat, at: Loc): Record {
    Record(UserPtr(base, size), size, Asked(size), base, at, true, Loc(0, 0, 0))
  }

  predicate PageFrom(base: nat, p: nat) {
    base / 4096 <= p
  }

  /** The pages from `base` on that hold `len` bytes. */
  function Pages(base: nat, len: nat): set<nat> {
    set p: nat | p < (base + len) / 4096 && PageFrom(base, p)
  }

  /** The first record with this pointer. */
  function Lookup(records: seq<Record>, ptr: nat, k: nat): (i: nat)
    requires k <= |records|
    ensures k <= i <= |records| && (i < |records| ==> records[i].ptr == ptr)
    ensures forall j :: k <= j < i ==> records[j].ptr != ptr
    decreases |records| - k
  {
    if k == |records| || records[k].ptr == ptr then k else Lookup(records, ptr, k + 1)
  }

  /** The addresses that are held against a record; the comparisons are signed. */
  predicate Covers(r: Record, a: nat) {
    S((r.ptr - 4096) % 0x1_0000_0000_0000_0000) <= S(a) < S((r.ptr + r.size + 4096) % 0x1_0000_0000_0000_0000)
  }

  function FindRecord(records: seq<Record>, a: nat, k: nat): (i: nat)
    requires k <= |records|
    ensures k <= i <= |records| && (i < |records| ==> Covers(records[i], a))
    ensures forall j :: k <= j < i ==> !Covers(records[j], a)
    decreases |records| - k
  {
    if k == |records| || Covers(records[k], a) then k else FindRecord(records, a, k + 1)
  }

  function Reported(records: seq<Record>, a: nat): Verdict {
    var i := FindRecord(records, a, 0);
    if i < |records| then (if records[i].live then Overflow(i) else UseAfterFree(i))
    else if S(a) < 65536 then NullDeref
    else Untracked
  }

  // ----- what is to be true of it -----

  /** An allocation that was granted: `n` pages between two guard pages, from `page` on. */
  datatype Allocation = Allocation(page: nat, n: nat, size: nat, at: Loc)

  /** The user bytes end where the second guard page begins. */
  function Ptr(b: Allocation): int {
    4096 * (b.page + 1 + b.n) - b.size
  }

  predicate Whole(b: Allocation) {
    b.size <= 4096 * b.n < b.size + 4096 && 4096 * (b.page + b.n + 2) <= 0x8000_0000_0000
  }

  predicate Apart(a: Allocation, b: Allocation) {
    a.page + a.n + 2 <= b.page || b.page + b.n + 2 <= a.page
  }

  predicate Matches(r: Record, b: Allocation, frees: seq<nat>) {
    && r.ptr == Ptr(b) && r.size == b.size && r.len == 4096 * b.n + 8192 && r.base == 4096 * b.page && r.at == b.at
    && (r.live <==> r.ptr !in frees)
  }

  /** Of the pages of an allocation, those of the user are open while it is live, the others never. */
  predicate Shown(open: set<nat>, b: Allocation, live: bool) {
    forall p: nat :: b.page <= p < b.page + b.n + 2 ==> (p in open <==> live && b.page < p <= b.page + b.n)
  }

  predicate Distinct(frees: seq<nat>) {
    forall i, j :: 0 <= i < j < |frees| ==> frees[i] != frees[j]
  }

  /** One of the first 65536 allocations has this pointer. */
  predicate Recorded(allocs: seq<Allocation>, ptr: nat) {
    exists i :: 0 <= i < |allocs| && i < 65536 && Ptr(allocs[i]) == ptr
  }

  predicate Isolated(allocs: seq<Allocation>) {
    && (forall i :: 0 <= i < |allocs| ==> Whole(allocs[i]))
    && (forall i, j :: 0 <= i < j < |allocs| ==> Apart(allocs[i], allocs[j]))
  }

  /** The table and the pages tell the history: `allocs` in order, and the pointers freed since. */
  ghost predicate Sane(records: seq<Record>, open: set<nat>, allocs: seq<Allocation>, frees: seq<nat>) {
    && |records| == (if |allocs| < 65536 then |allocs| else 65536)
    && Isolated(allocs)
    && Distinct(frees)
    && (forall p :: p in frees ==> Recorded(allocs, p))
    && (forall i :: 0 <= i < |records| ==> Matches(records[i], allocs[i], frees))
    && (forall i :: 0 <= i < |allocs| ==> Shown(open, allocs[i], i >= 65536 || Ptr(allocs[i]) !in frees))
  }

  /** What the kernel promises when it grants `len` bytes at `base`. */
  predicate Granted(base: nat, len: nat, allocs: seq<Allocation>) {
    && base % 4096 == 0 && base + len <= 0x8000_0000_0000
    && forall i :: 0 <= i < |allocs| ==> base + len <= 4096 * allocs[i].page || 4096 * (allocs[i].page + allocs[i].n + 2) <= base
  }

  /** Sizes that can be rounded up and guarded without wrapping around. */
  predicate Fits(size: nat) {
    size <= 0xffff_ffff_ffff_d000
  }

  /** The block has room for the guard, the user bytes and the guard behind them exactly when the
      size does not wrap around; a larger one is granted a block that is too small. */
  lemma RoomExactly(base: nat, size: nat)
    requires size < W && base % 4096 == 0 && base + Asked(size) <= W
    ensures Fits(size) <==> UserPtr(base, size) >= base + 4096 && UserPtr(base, size) + size + 4096 == base + Asked(size)
  {
  }

  /** The kernel answers an error with its negated code. Only code 1 is taken for a failure; any
      other is taken for a block, and the pointer handed out lies in the first two pages. */
  lemma ErrorTakenForBlock(answer: nat, size: nat)
    requires W - 4095 <= answer < W - 1 && Fits(size)
    ensures UserPtr(answer, size) < 8192
  {
  }

  predicate Accessible(open: set<nat>, a: nat) {
    a / 4096 in open
  }

  /** Where an allocation is, from its first guard page to its last. */
  predicate Inside(b: Allocation, a: nat) {
    4096 * b.page <= a < 4096 * (b.page + b.n + 2)
  }

  // ----- one step keeps it -----

  function AllocOf(base: nat, size: nat, at: Loc): Allocation {
    Allocation(base / 4096, Rounded(size) / 4096, size, at)
  }

  lemma NewFigures(base: nat, size: nat)
    requires size < W && Fits(size) && base % 4096 == 0 && base + Asked(size) <= 0x8000_0000_0000
    ensures base == 4096 * (base / 4096) && Rounded(size) == 4096 * (Rounded(size) / 4096)
    ensures size <= Rounded(size) < size + 4096 && Asked(size) == Rounded(size) + 8192
    ensures UserPtr(base, size) == base + 4096 + Rounded(size) - size
  {
  }

  lemma NewIsWhole(base: nat, size: nat, at: Loc, allocs: seq<Allocation>)
    requires size < W && Fits(size) && Granted(base, Asked(size), allocs)
    ensures Whole(AllocOf(base, size, at)) && NewRecord(base, size, at).ptr == Ptr(AllocOf(base, size, at))
    ensures Asked(size) == 4096 * AllocOf(base, size, at).n + 8192 && base == 4096 * AllocOf(base, size, at).page
    ensures forall i :: 0 <= i < |allocs| ==> Apart(allocs[i], AllocOf(base, size, at))
  {
    NewFigures(base, size);
    hide Rounded, Asked, UserPtr;
    var b := AllocOf(base, size, at);
    forall i | 0 <= i < |allocs|
      ensures Apart(allocs[i], b)
    {
      var a := allocs[i];
      assert base + Asked(size) <= 4096 * a.page || 4096 * (a.page + a.n + 2) <= base;
    }
  }

  lemma PtrsDiffer(allocs: seq<Allocation>, i: nat, j: nat)
    requires Isolated(allocs) && i < |allocs| && j < |allocs| && i != j
    ensures Ptr(allocs[i]) != Ptr(allocs[j])
  {
    var a, b := allocs[i], allocs[j];
    assert Whole(a) && Whole(b);
    assert if i < j then Apart(a, b) else Apart(b, a);
  }

  /** What the kernel and both calls of mprotect leave open after a grant. */
  function Opened(open: set<nat>, base: nat, size: nat): set<nat> {
    open + Pages(base, Asked(size)) - Pages(base, 4096) -
      Pages((base + 4096 + Rounded(size)) % 0x1_0000_0000_0000_0000, 4096)
  }

  lemma OpenedPages(open: set<nat>, base: nat, size: nat, at: Loc, p: nat)
    requires size < W && Fits(size) && base % 4096 == 0 && base + Asked(size) <= 0x8000_0000_0000
    ensures
      var b := AllocOf(base, size, at);
      p in Opened(open, base, size) <==>
        (p in open || b.page <= p < b.page + b.n + 2) && p != b.page && p != b.page + 1 + b.n
  {
    var b := AllocOf(base, size, at);
    assert Rounded(size) == 4096 * b.n;
    var second := (base + 4096 + Rounded(size)) % 0x1_0000_0000_0000_0000;
    assert second == 4096 * (b.page + 1 + b.n);
    PagesExactly(base, b.page, b.n + 2, p);
    PagesExactly(base, b.page, 1, p);
    PagesExactly(second, b.page + 1 + b.n, 1, p);
  }

  lemma PagesExactly(base: nat, page: nat, n: nat, p: nat)
    requires base == 4096 * page
    ensures p in Pages(base, 4096 * n) <==> page <= p < page + n
  {
    assert PageFrom(base, p) <==> page <= p;
  }

  lemma OpenedShows(open: set<nat>, base: nat, size: nat, at: Loc, allocs: seq<Allocation>)
    requires size < W && Fits(size) && Granted(base, Asked(size), allocs)
    ensures Shown(Opened(open, base, size), AllocOf(base, size, at), true)
    ensures forall i, live: bool :: 0 <= i < |allocs| && Shown(open, allocs[i], live) ==>
      Shown(Opened(open, base, size), allocs[i], live)
  {
    hide Rounded, Asked, Opened, AllocOf, Fits;
    NewIsWhole(base, size, at, allocs);
    var b := AllocOf(base, size, at);
    forall p: nat
      ensures p in Opened(open, base, size) <==>
        (p in open || b.page <= p < b.page + b.n + 2) && p != b.page && p != b.page + 1 + b.n
    {
      OpenedPages(open, base, size, at, p);
    }
    forall i, live: bool | 0 <= i < |allocs| && Shown(open, allocs[i], live)
      ensures Shown(Opened(open, base, size), allocs[i], live)
    {
      assert Apart(allocs[i], b);
    }
  }

  lemma AllocSane(records: seq<Record>, open: set<nat>, allocs: seq<Allocation>, frees: seq<nat>, base: nat, size: nat, at: Loc)
    requires size < W && Fits(size) && Granted(base, Asked(size), allocs) && Sane(records, open, allocs, frees)
    ensures
      var more := if |records| < TABLE then records + [NewRecord(base, size, at)] else records;
      Sane(more, Opened(open, base, size), allocs + [AllocOf(base, size, at)], frees)
  {
    var b := AllocOf(base, size, at);
    var all := allocs + [b];
    NewIsWhole(base, size, at, allocs);
    OpenedShows(open, base, size, at, allocs);
    NotFreed(allocs, frees, b);
    var more := if |records| < TABLE then records + [NewRecord(base, size, at)] else records;
    assert Matches(NewRecord(base, size, at), b, frees);
    hide Opened, Shown, Whole, Apart, Ptr, Asked, Rounded, UserPtr, Fits, Granted, Distinct, Matches, NewRecord, AllocOf;
    assert forall i :: 0 <= i < |allocs| ==> all[i] == allocs[i];
    forall p | p in frees
      ensures Recorded(all, p)
    {
      var i :| 0 <= i < |allocs| && i < TABLE && Ptr(allocs[i]) == p;
      assert Ptr(all[i]) == p;
    }
  }

  lemma NotFreed(allocs: seq<Allocation>, frees: seq<nat>, b: Allocation)
    requires Isolated(allocs + [b]) && (forall p :: p in frees ==> Recorded(allocs, p))
    ensures Ptr(b) !in frees
  {
    var all := allocs + [b];
    if Ptr(b) in frees {
      var i :| 0 <= i < |allocs| && i < TABLE && Ptr(allocs[i]) == Ptr(b);
      assert all[i] == allocs[i];
      PtrsDiffer(all, i, |allocs|);
    }
  }

  /** What __asan_free does to a live record and its pages. */
  function Closed(records: seq<Record>, i: nat, at: Loc): seq<Record>
    requires i < |records|
  {
    records[i := records[i].(live := false, freedAt := at)]
  }

  lemma FreeSane(records: seq<Record>, open: set<nat>, allocs: seq<Allocation>, frees: seq<nat>, i: nat, at: Loc)
    requires Sane(records, open, allocs, frees) && i < |records| && records[i].live
    ensures
      var r := records[i];
      Sane(Closed(records, i, at), open - Pages(r.base, r.len), allocs, frees + [r.ptr])
  {
    var r, b := records[i], allocs[i];
    assert Matches(r, b, frees);
    var less := open - Pages(r.base, r.len);
    forall p: nat
      ensures p in less <==> p in open && !(b.page <= p < b.page + b.n + 2)
    {
      assert PageFrom(r.base, p) <==> b.page <= p;
    }
    assert Recorded(allocs, r.ptr);
    forall j | 0 <= j < |allocs|
      ensures Shown(less, allocs[j], j >= TABLE || Ptr(allocs[j]) !in frees + [r.ptr])
    {
      if j != i {
        PtrsDiffer(allocs, i, j);
        assert if i < j then Apart(b, allocs[j]) else Apart(allocs[j], b);
      }
    }
    forall j | 0 <= j < |records|
      ensures Matches(Closed(records, i, at)[j], allocs[j], frees + [r.ptr])
    {
      assert Matches(records[j], allocs[j], frees);
      if j != i {
        PtrsDiffer(allocs, i, j);
      }
    }
  }

  // ----- what the table tells -----

  /** A pointer is found exactly when it was handed out while there was room in the table. */
  lemma LookupFinds(records: seq<Record>, open: set<nat>, allocs: seq<Allocation>, frees: seq<nat>, ptr: nat)
    requires Sane(records, open, allocs, frees)
    ensures Lookup(records, ptr, 0) < |records| <==> Recorded(allocs, ptr)
    ensures forall i :: 0 <= i < |records| && records[i].ptr == ptr ==> Lookup(records, ptr, 0) == i
  {
    var k := Lookup(records, ptr, 0);
    if k < |records| {
      assert Matches(records[k], allocs[k], frees);
      forall i | 0 <= i < |records| && records[i].ptr == ptr
        ensures k == i
      {
        assert Matches(records[i], allocs[i], frees);
        if k != i {
          PtrsDiffer(allocs, i, k);
        }
      }
    }
    if Recorded(allocs, ptr) {
      var i :| 0 <= i < |allocs| && i < TABLE && Ptr(allocs[i]) == ptr;
      assert Matches(records[i], allocs[i], frees);
    }
  }

  lemma CoversExactly(r: Record, b: Allocation, frees: seq<nat>, a: nat)
    requires Matches(r, b, frees) && Whole(b) && a < W
    ensures Covers(r, a) <==> Ptr(b) - 4096 <= a < 4096 * (b.page + b.n + 2)
  {
  }

  lemma InsideOne(allocs: seq<Allocation>, i: nat, k: nat, a: nat)
    requires Isolated(allocs) && i < |allocs| && k < |allocs| && i != k && Inside(allocs[i], a)
    ensures !Inside(allocs[k], a)
  {
    assert if i < k then Apart(allocs[i], allocs[k]) else Apart(allocs[k], allocs[i]);
  }

  /** No two allocations claim the same address, so the first record found is the only one. */
  lemma FindsExactly(records: seq<Record>, open: set<nat>, allocs: seq<Allocation>, frees: seq<nat>, i: nat, a: nat)
    requires Sane(records, open, allocs, frees) && i < |records| && Inside(allocs[i], a)
    ensures FindRecord(records, a, 0) == if Ptr(allocs[i]) - 4096 <= a then i else |records|
  {
    var k := FindRecord(records, a, 0);
    assert Whole(allocs[i]) && Matches(records[i], allocs[i], frees);
    CoversExactly(records[i], allocs[i], frees, a);
    if k < |records| {
      assert Whole(allocs[k]) && Matches(records[k], allocs[k], frees);
      CoversExactly(records[k], allocs[k], frees, a);
      if k != i {
        InsideOne(allocs, i, k, a);
      }
    }
  }

  /** In any state a run can reach: exactly the pages of the user bytes of live allocations can be
      touched. A fault from 4096 bytes before the pointer to the end of the second guard page is
      held against the allocation, and told apart by whether it has been freed; a fault before that,
      still in its first guard page, is not. */
  lemma FaultsTold(records: seq<Record>, open: set<nat>, allocs: seq<Allocation>, frees: seq<nat>, i: nat, a: nat)
    requires Sane(records, open, allocs, frees) && i < |records| && Inside(allocs[i], a)
    ensures
      var b := allocs[i];
      Accessible(open, a) <==> Ptr(b) !in frees && 4096 * (b.page + 1) <= a < Ptr(b) + b.size
    ensures
      var b := allocs[i];
      Reported(records, a) ==
        if Ptr(b) - 4096 <= a then (if Ptr(b) in frees then UseAfterFree(i) else Overflow(i))
        else if a < 65536 then NullDeref
        else Untracked
  {
    var b := allocs[i];
    assert Whole(b) && Matches(records[i], b, frees);
    assert Shown(open, b, Ptr(b) !in frees);
    FindsExactly(records, open, allocs, frees, i, a);
  }

  /** The allocations that have not been freed. */
  function Leaks(allocs: seq<Allocation>, frees: seq<nat>): seq<(Loc, nat)> {
    if allocs == [] then []
    else
      var b := allocs[|allocs| - 1];
      Leaks(allocs[..|allocs| - 1], frees) + (if Ptr(b) in frees then [] else [(b.at, b.size)])
  }

  lemma LeaksMore(allocs: seq<Allocation>, frees: seq<nat>, k: nat)
    requires k < |allocs|
    ensures Leaks(allocs[..k + 1], frees) ==
      Leaks(allocs[..k], frees) + (if Ptr(allocs[k]) in frees then [] else [(allocs[k].at, allocs[k].size)])
  {
    assert allocs[..k + 1][..k] == allocs[..k];
  }

  // ----- the runtime -----

  class Heap {
    /** __asan_records, the used part. */
    var records: seq<Record>
    /** The pages the kernel lets the program touch. */
    var open: set<nat>
    ghost var allocs: seq<Allocation>
    ghost var frees: seq<nat>

    constructor ()
      ensures Valid() && records == [] && open == {} && allocs == [] && frees == []
    {
      records, open, allocs, frees := [], {}, [], [];
    }

    ghost predicate Valid()
      reads this
    {
      Sane(records, open, allocs, frees)
    }

    /** __asan_alloc, with what the kernel answers. */
    method Alloc(size: nat, at: Loc, answer: nat) returns (ptr: nat, failed: bool)
      requires size < W && answer < W
      modifies this
      ensures failed <==> answer == W - 1
      ensures failed ==> records == old(records) && open == old(open) && allocs == old(allocs) && frees == old(frees)
      ensures !failed ==> ptr == UserPtr(answer, size) && open == Opened(old(open), answer, size)
      ensures !failed ==> records == old(records) + (if |old(records)| < TABLE then [NewRecord(answer, size, at)] else [])
      ensures !failed && old(Valid()) && Fits(size) && Granted(answer, Asked(size), old(allocs)) ==>
        Valid() && allocs == old(allocs) + [AllocOf(answer, size, at)] && frees == old(frees) && Ptr(allocs[|allocs| - 1]) == ptr
    {
      hide Sane, Granted, Opened, Pages, AllocOf;
      failed := answer == W - 1;
      ptr := 0;
      if failed {
        return;
      }
      ghost var fit := Valid() && Fits(size) && Granted(answer, Asked(size), allocs);
      if fit {
        AllocSane(records, open, allocs, frees, answer, size, at);
        NewIsWhole(answer, size, at, allocs);
      }
      var rounded := Rounded(size);
      open := open + Pages(answer, (rounded + 8192) % 0x1_0000_0000_0000_0000) - Pages(answer, 4096) -
        Pages((answer + 4096 + rounded) % 0x1_0000_0000_0000_0000, 4096);
      OpenedIs(old(open), answer, size);
      ptr := (answer + 4096 + rounded - size) % 0x1_0000_0000_0000_0000;
      if |records| < TABLE {
        records := records + [Record(ptr, size, (rounded + 8192) % 0x1_0000_0000_0000_0000, answer, at, true, Loc(0, 0, 0))];
      }
      allocs := allocs + [AllocOf(answer, size, at)];
    }

    /** __asan_find_record_by_ptr. */
    method FindByPtr(ptr: nat) returns (i: nat)
      ensures i == Lookup(records, ptr, 0)
    {
      i := 0;
      while i < |records|
        invariant i <= |records| && Lookup(records, ptr, i) == Lookup(records, ptr, 0)
      {
        if records[i].ptr == ptr {
          return;
        }
        i := i + 1;
      }
    }

    /** __asan_free: every pointer handed out is freed once; after that it is a double free, and any
        other pointer is invalid. The process ends on both. */
    method Free(ptr: nat, at: Loc) returns (r: Outcome)
      requires Valid()
      modifies this
      ensures Valid() && allocs == old(allocs)
      ensures r.InvalidFree? <==> !Recorded(allocs, ptr)
      ensures r.DoubleFree? <==> ptr in old(frees)
      ensures frees == old(frees) + (if r.Freed? then [ptr] else [])
      ensures !r.Freed? ==> records == old(records) && open == old(open)
      ensures !r.InvalidFree? ==> r.i < |records| && Ptr(allocs[r.i]) == ptr
      ensures r.Freed? ==> records == Closed(old(records), r.i, at)
    {
      LookupFinds(records, open, allocs, frees, ptr);
      var i := FindByPtr(ptr);
      if i >= |records| {
        return InvalidFree;
      }
      assert Matches(records[i], allocs[i], frees);
      if !records[i].live {
        return DoubleFree(i);
      }
      FreeSane(records, open, allocs, frees, i, at);
      var rec := records[i];
      records := records[i := rec.(live := false, freedAt := at)];
      open := open - Pages(rec.base, rec.len);
      frees := frees + [ptr];
      r := Freed(i);
    }

    /** __asan_find_record and the verdict of __asan_report. */
    method Report(a: nat) returns (v: Verdict)
      ensures v == Reported(records, a)
    {
      var i := 0;
      while i < |records|
        invariant i <= |records| && FindRecord(records, a, i) == FindRecord(records, a, 0)
      {
        var low := (records[i].ptr - 4096) % 0x1_0000_0000_0000_0000;
        var high := (records[i].ptr + records[i].size + 4096) % 0x1_0000_0000_0000_0000;
        if !(S(a) < S(low)) && !(S(a) >= S(high)) {
          if records[i].live {
            return Overflow(i);
          } else {
            return UseAfterFree(i);
          }
        }
        i := i + 1;
      }
      v := if S(a) < 65536 then NullDeref else Untracked;
    }

    /** __asan_report_leaks: the recorded allocations that were not freed, in order. */
    method ReportLeaks() returns (out: seq<(Loc, nat)>)
      requires Valid()
      ensures out == Leaks(allocs[..|records|], frees)
    {
      out := [];
      for i := 0 to |records|
        invariant out == Leaks(allocs[..i], frees)
      {
        assert Matches(records[i], allocs[i], frees);
        LeaksMore(allocs, frees, i);
        if records[i].live {
          out := out + [(records[i].at, records[i].size)];
        }
      }
    }
  }

  lemma OpenedIs(open: set<nat>, base: nat, size: nat)
    ensures Opened(open, base, size) ==
      open + Pages(base, (Rounded(size) + 8192) % 0x1_0000_0000_0000_0000) - Pages(base, 4096) -
        Pages((base + 4096 + Rounded(size)) % 0x1_0000_0000_0000_0000, 4096)
  {
  }
}
