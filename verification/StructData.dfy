/** The data of an initialised struct global: the initialisers are sorted in place by offset and
    written out with zero bytes between them. */
module StructData {
  import opened Leb
  import opened LineProgram
  import opened Word

  /** One initialised field: an integer, a float given by its bits, or the address of a function. */
  datatype Init =
    | IntInit(offset: nat, size: nat, i: int)
    | FloatInit(offset: nat, size: nat, single: nat, double: nat)
    | FnInit(offset: nat, size: nat, address: nat)

  /** A field as the type checker makes it. */
  predicate Sized(f: Init) {
    match f
    case IntInit(_, n, _) => n in {1, 2, 4, 8}
    case FloatInit(_, n, _, _) => n in {4, 8}
    case FnInit(_, n, _) => n == 8
  }

  /** The low `n` bytes of an integer, in two's complement, lowest first. */
  function IntBytes(n: nat, v: int): (s: seq<Byte>)
    ensures |s| == n
  {
    if n == 0 then [] else [v % 256] + IntBytes(n - 1, v / 256)
  }

  /** ST_gen_scalar_data, and the `dq` of a function's address. */
  function Data(f: Init): (s: seq<Byte>)
    ensures Sized(f) ==> |s| == f.size
  {
    match f
    case IntInit(_, n, v) => IntBytes(if n in {1, 2, 4} then n else 8, v)
    case FloatInit(_, n, s, d) => if n == 4 then Bytes(4, s) else Bytes(8, d)
    case FnInit(_, _, a) => Bytes(8, a)
  }

  function Zeros(n: int): (s: seq<Byte>)
    ensures |s| == if n > 0 then n else 0
  {
    if n <= 0 then [] else seq(n, _ => 0)
  }

  // ----- what ought to be written -----

  predicate Covers(f: Init, p: int) {
    f.offset <= p < f.offset + f.size
  }

  predicate Apart(f: Init, g: Init) {
    f.offset + f.size <= g.offset || g.offset + g.size <= f.offset
  }

  predicate AllApart(fs: seq<Init>) {
    forall i, j :: 0 <= i < j < |fs| ==> Apart(fs[i], fs[j])
  }

  predicate AllSized(fs: seq<Init>) {
    forall i :: 0 <= i < |fs| ==> Sized(fs[i])
  }

  predicate AllWithin(fs: seq<Init>, total: nat) {
    forall i :: 0 <= i < |fs| ==> fs[i].offset + fs[i].size <= total
  }

  /** `s` holds every field at its offset, and zero elsewhere. */
  ghost predicate IsImage(s: seq<Byte>, fs: seq<Init>, total: nat) {
    && |s| == total
    && (forall f :: f in fs ==> f.offset + f.size <= total && s[f.offset..f.offset + f.size] == Data(f))
    && forall p :: 0 <= p < total && (forall f :: f in fs ==> !Covers(f, p)) ==> s[p] == 0
  }

  // ----- what is written -----

  /** From field `i` on, when everything before `cursor` is written. */
  function Written(fs: seq<Init>, i: nat, cursor: nat, total: nat): seq<Byte>
    requires i <= |fs|
    decreases |fs| - i
  {
    if i == |fs| then Zeros(total - cursor)
    else Zeros(fs[i].offset - cursor) + Data(fs[i]) + Written(fs, i + 1, fs[i].offset + fs[i].size, total)
  }

  predicate Ordered(fs: seq<Init>) {
    forall i, j :: 0 <= i < j < |fs| ==> fs[i].offset <= fs[j].offset
  }

  /** The fields from `i` on are apart, start at or after `cursor` and end within `total`. */
  predicate Fit(fs: seq<Init>, i: nat, cursor: nat, total: nat)
    requires i <= |fs|
    decreases |fs| - i
  {
    if i == |fs| then cursor <= total
    else cursor <= fs[i].offset && Fit(fs, i + 1, fs[i].offset + fs[i].size, total)
  }

  /** Too many bytes are written exactly when two fields overlap or one sticks out. */
  lemma {:induction false} LengthExact(fs: seq<Init>, i: nat, cursor: nat, total: nat)
    requires i <= |fs| && AllSized(fs)
    ensures |Written(fs, i, cursor, total)| >= total - cursor
    ensures |Written(fs, i, cursor, total)| == total - cursor <==> Fit(fs, i, cursor, total)
    decreases |fs| - i
  {
    hide Data, Sized;
    if i < |fs| {
      SizedData(fs[i]);
      LengthExact(fs, i + 1, fs[i].offset + fs[i].size, total);
    }
  }

  /** Of sorted fields, neighbours apart means all apart. */
  lemma {:induction false} FitIsApart(fs: seq<Init>, i: nat, cursor: nat, total: nat)
    requires i <= |fs| && AllSized(fs) && Ordered(fs)
    ensures Fit(fs, i, cursor, total) <==>
      && cursor <= total && AllWithin(fs[i..], total) && AllApart(fs[i..])
      && forall k :: i <= k < |fs| ==> cursor <= fs[k].offset
    decreases |fs| - i
  {
    if i < |fs| {
      FitIsApart(fs, i + 1, fs[i].offset + fs[i].size, total);
      assert fs[i..][1..] == fs[i + 1..];
      var s := fs[i..];
      assert forall k :: 0 <= k < |s| ==> s[k] == fs[i + k];
      assert AllWithin(s, total) <==> s[0].offset + s[0].size <= total && AllWithin(s[1..], total);
      ApartSplit(s);
    }
  }

  lemma ApartSplit(s: seq<Init>)
    requires |s| > 0
    ensures AllApart(s) <==> AllApart(s[1..]) && forall k :: 0 < k < |s| ==> Apart(s[0], s[k])
  {
  }

  /** What is written from `cursor` on is the image from there on. */
  ghost predicate ImageFrom(w: seq<Byte>, fs: seq<Init>, i: nat, cursor: nat, total: nat) {
    && cursor <= total && |w| == total - cursor
    && (forall k :: i <= k < |fs| ==> FieldAt(w, fs[k], cursor))
    && forall p: int :: GapAt(w, fs, i, cursor, p)
  }

  /** The byte for position `p` is zero unless a field covers it. */
  ghost predicate GapAt(w: seq<Byte>, fs: seq<Init>, i: nat, cursor: nat, p: int) {
    cursor <= p < cursor + |w| ==> w[p - cursor] == 0 || exists k :: i <= k < |fs| && Covers(fs[k], p)
  }

  predicate FieldAt(w: seq<Byte>, f: Init, cursor: nat) {
    cursor <= f.offset && f.offset + f.size - cursor <= |w| && w[f.offset - cursor..f.offset + f.size - cursor] == Data(f)
  }

  lemma FieldLater(z: seq<Byte>, d: seq<Byte>, w: seq<Byte>, f: Init, cursor: nat)
    requires FieldAt(w, f, cursor + |z| + |d|)
    ensures FieldAt(z + d + w, f, cursor)
  {
    var a := f.offset - cursor - |z| - |d|;
    var b := a + f.size;
    var n := |z| + |d|;
    assert (z + d + w)[n + a..n + b] == w[a..b];
  }

  lemma {:induction false} WrittenIsImage(fs: seq<Init>, i: nat, cursor: nat, total: nat)
    requires i <= |fs| && AllSized(fs) && Fit(fs, i, cursor, total)
    ensures ImageFrom(Written(fs, i, cursor, total), fs, i, cursor, total)
    decreases |fs| - i
  {
    hide Data, Sized, ImageFrom, Zeros;
    if i == |fs| {
      ImageEnds(fs, cursor, total);
    } else {
      var f := fs[i];
      SizedData(f);
      WrittenIsImage(fs, i + 1, f.offset + f.size, total);
      ImageGrows(fs, i, cursor, total, Zeros(f.offset - cursor), Data(f), Written(fs, i + 1, f.offset + f.size, total));
    }
  }

  lemma ImageEnds(fs: seq<Init>, cursor: nat, total: nat)
    requires cursor <= total
    ensures ImageFrom(Zeros(total - cursor), fs, |fs|, cursor, total)
  {
  }

  /** A gap and a field before an image make an image. */
  lemma ImageGrows(fs: seq<Init>, i: nat, cursor: nat, total: nat, z: seq<Byte>, d: seq<Byte>, more: seq<Byte>)
    requires i < |fs| && cursor <= fs[i].offset && z == Zeros(fs[i].offset - cursor)
    requires d == Data(fs[i]) && |d| == fs[i].size
    requires ImageFrom(more, fs, i + 1, fs[i].offset + fs[i].size, total)
    ensures ImageFrom(z + d + more, fs, i, cursor, total)
  {
    hide Data;
    var w := z + d + more;
    forall k | i <= k < |fs|
      ensures FieldAt(w, fs[k], cursor)
    {
      if k == i {
        assert w[|z|..|z| + |d|] == d;
      } else {
        FieldLater(z, d, more, fs[k], cursor);
      }
    }
    forall p: int
      ensures GapAt(w, fs, i, cursor, p)
    {
      GapGrows(fs, i, cursor, z, d, more, p);
    }
  }

  lemma GapGrows(fs: seq<Init>, i: nat, cursor: nat, z: seq<Byte>, d: seq<Byte>, more: seq<Byte>, p: int)
    requires i < |fs| && cursor <= fs[i].offset && z == Zeros(fs[i].offset - cursor) && |d| == fs[i].size
    requires GapAt(more, fs, i + 1, fs[i].offset + fs[i].size, p)
    ensures GapAt(z + d + more, fs, i, cursor, p)
  {
    var w := z + d + more;
    if cursor <= p < fs[i].offset {
      assert w[p - cursor] == z[p - cursor];
    } else if fs[i].offset <= p < fs[i].offset + fs[i].size {
      assert Covers(fs[i], p);
    } else if p < cursor + |w| && p >= cursor {
      assert w[p - cursor] == more[p - (fs[i].offset + fs[i].size)];
    }
  }

  lemma SizedData(f: Init)
    requires Sized(f)
    ensures |Data(f)| == f.size > 0
  {
  }

  // ----- sorting -----

  /** The same fields, perhaps in another order. */
  ghost predicate SameFields(a: seq<Init>, b: seq<Init>) {
    multiset(a) == multiset(b) && (AllApart(a) <==> AllApart(b))
  }

  lemma SwapKeepsApart(s: seq<Init>, i: nat, j: nat)
    requires i < |s| && j < |s| && AllApart(s)
    ensures AllApart(s[i := s[j]][j := s[i]])
  {
  }

  lemma SameTrans(a: seq<Init>, b: seq<Init>, c: seq<Init>)
    requires SameFields(a, b) && SameFields(b, c)
    ensures SameFields(a, c)
  {
  }

  lemma SwapSame(s: seq<Init>, i: nat, j: nat)
    requires i < |s| && j < |s|
    ensures SameFields(s[i := s[j]][j := s[i]], s)
  {
    var t := s[i := s[j]][j := s[i]];
    assert t[i := t[j]][j := t[i]] == s;
    if AllApart(s) {
      SwapKeepsApart(s, i, j);
    }
    if AllApart(t) {
      SwapKeepsApart(t, i, j);
    }
  }

  /** The first `i` fields are in order, and no later one comes before them. */
  ghost predicate SortedTo(s: seq<Init>, i: nat) {
    forall p, q :: 0 <= p < q < |s| && p < i ==> s[p].offset <= s[q].offset
  }

  /** The inner loop: the first of the smallest offsets from `i` on. */
  method Smallest(a: array<Init>, i: nat, n: nat) returns (min: nat)
    requires i < n <= a.Length
    ensures i <= min < n && forall k :: i <= k < n ==> a[min].offset <= a[k].offset
  {
    min := i;
    for j := i + 1 to n
      invariant i <= min < n && forall k :: i <= k < j ==> a[min].offset <= a[k].offset
    {
      if a[j].offset < a[min].offset {
        min := j;
      }
    }
  }

  lemma SortedOneMore(s: seq<Init>, i: nat, min: nat)
    requires SortedTo(s, i) && i <= min < |s| && forall k :: i <= k < |s| ==> s[min].offset <= s[k].offset
    ensures SortedTo(s[i := s[min]][min := s[i]], i + 1)
  {
  }

  /** The selection sort, in place. */
  method Sort(a: array<Init>, n: nat)
    requires n <= a.Length
    modifies a
    ensures Ordered(a[..n]) && SameFields(a[..n], old(a[..n]))
    ensures a[n..] == old(a[n..])
  {
    hide AllApart, SameFields, SortedTo;
    SortStarts(a[..n]);
    for i := 0 to n
      invariant SortedTo(a[..n], i) && SameFields(a[..n], old(a[..n]))
      invariant a[n..] == old(a[n..])
    {
      ghost var s := a[..n];
      var min := MoveSmallest(a, i, n);
      SwapSame(s, i, min);
      SameTrans(a[..n], s, old(a[..n]));
      assert a[..n] == s[i := s[min]][min := s[i]];
      SortedOneMore(s, i, min);
    }
    SortEnds(a[..n]);
  }

  lemma SortStarts(s: seq<Init>)
    ensures SortedTo(s, 0) && SameFields(s, s)
  {
  }

  lemma SortEnds(s: seq<Init>)
    requires SortedTo(s, |s|)
    ensures Ordered(s)
  {
  }

  /** The outer loop's body: the smallest of the rest changes places with element `i`. */
  method MoveSmallest(a: array<Init>, i: nat, n: nat) returns (min: nat)
    requires i < n <= a.Length
    modifies a
    ensures i <= min < n && a[..n] == old(a[..n])[i := old(a[min])][min := old(a[i])] && a[n..] == old(a[n..])
    ensures forall k :: i <= k < n ==> old(a[min]).offset <= old(a[k]).offset
  {
    min := Smallest(a, i, n);
    if min != i {
      a[i], a[min] := a[min], a[i];
    }
  }

  class Output {
    var out: seq<Byte>

    constructor ()
      ensures out == []
    {
      out := [];
    }

    /** ST_gen_struct_global_data. `size` is the size of the type, 0 if it is not known; then
        the data ends with the last field. Whatever the order of the fields, if they lie apart
        and within the type, exactly their image is written, and `size` bytes. */
    method StructGlobal(fields: seq<Init>, size: nat)
      requires |fields| <= 256 && AllSized(fields)
      modifies this
      ensures |out| >= |old(out)| && out[..|old(out)|] == old(out)
      ensures size > 0 && AllApart(fields) && AllWithin(fields, size) ==> IsImage(out[|old(out)|..], fields, size)
      ensures size > 0 && |out| == |old(out)| + size ==> AllApart(fields) && AllWithin(fields, size)
    {
      hide AllApart, AllWithin, IsImage, Data;
      var n := |fields|;
      var sorted := Copied(fields);
      Sort(sorted, n);
      ghost var fs := sorted[..n];
      StillSized(fields, fs);
      var cursor := WriteFields(sorted, n, size);
      var total := if size > 0 then size else cursor;
      if total > cursor {
        out := out + Zeros(total - cursor);
      } else {
        assert out + Zeros(size - cursor) == out || size == 0 by {
          assert size > 0 ==> Zeros(size - cursor) == [];
        }
      }
      if size > 0 {
        ImageOfSorted(fields, fs, size);
        assert out == old(out) + Written(fs, 0, 0, size);
        assert out[|old(out)|..] == Written(fs, 0, 0, size);
      }
    }

    method Copied(fields: seq<Init>) returns (sorted: array<Init>)
      requires |fields| <= 256
      ensures fresh(sorted) && sorted.Length == 256 && sorted[..|fields|] == fields
    {
      sorted := new Init[256];
      for i := 0 to |fields|
        invariant sorted[..i] == fields[..i]
      {
        sorted[i] := fields[i];
      }
    }

    /** The loop over the sorted fields. */
    method WriteFields(sorted: array<Init>, n: nat, ghost total: nat) returns (cursor: nat)
      requires n <= sorted.Length
      modifies this
      ensures out + Zeros(total - cursor) == old(out) + Written(sorted[..n], 0, 0, total)
      ensures |out| >= |old(out)| && out[..|old(out)|] == old(out)
    {
      hide Data, Zeros;
      cursor := 0;
      ghost var fs := sorted[..n];
      for i := 0 to n
        invariant fs == sorted[..n]
        invariant out + Written(fs, i, cursor, total) == old(out) + Written(fs, 0, 0, total)
        invariant |out| >= |old(out)| && out[..|old(out)|] == old(out)
      {
        var f := sorted[i];
        ghost var more := Written(fs, i + 1, f.offset + f.size, total);
        Regroup(out, Zeros(f.offset - cursor), Data(f), more);
        out := out + Zeros(f.offset - cursor) + Data(f);
        cursor := f.offset + f.size;
      }
    }
  }

  lemma Regroup(a: seq<Byte>, b: seq<Byte>, c: seq<Byte>, d: seq<Byte>)
    ensures a + (b + c + d) == (a + b + c) + d
  {
  }

  lemma StillSized(fields: seq<Init>, fs: seq<Init>)
    requires AllSized(fields) && multiset(fs) == multiset(fields)
    ensures AllSized(fs) && (forall f :: f in fs <==> f in fields) && |fs| == |fields|
  {
    forall f
      ensures f in fs <==> f in fields
    {
      assert f in fs <==> f in multiset(fs);
      assert f in fields <==> f in multiset(fields);
    }
    forall i | 0 <= i < |fs|
      ensures Sized(fs[i])
    {
      assert fs[i] in fields;
    }
    assert |multiset(fs)| == |multiset(fields)|;
  }

  lemma WithinSame(fields: seq<Init>, fs: seq<Init>, total: nat)
    requires (forall f :: f in fs <==> f in fields) && AllWithin(fields, total)
    ensures AllWithin(fs, total)
  {
    forall i | 0 <= i < |fs|
      ensures fs[i].offset + fs[i].size <= total
    {
      assert fs[i] in fields;
    }
  }

  lemma ImageOfSorted(fields: seq<Init>, fs: seq<Init>, total: nat)
    requires AllSized(fields) && Ordered(fs) && SameFields(fs, fields)
    ensures AllApart(fields) && AllWithin(fields, total) ==> IsImage(Written(fs, 0, 0, total), fields, total)
    ensures |Written(fs, 0, 0, total)| == total ==> AllApart(fields) && AllWithin(fields, total)
  {
    StillSized(fields, fs);
    FitIsApart(fs, 0, 0, total);
    LengthExact(fs, 0, 0, total);
    assert fs[0..] == fs;
    if AllApart(fields) && AllWithin(fields, total) {
      WithinSame(fields, fs, total);
      WrittenIsImage(fs, 0, 0, total);
      ImageWhole(fields, fs, total, Written(fs, 0, 0, total));
    }
    if |Written(fs, 0, 0, total)| == total {
      WithinSame(fs, fields, total);
    }
  }

  lemma ImageWhole(fields: seq<Init>, fs: seq<Init>, total: nat, w: seq<Byte>)
    requires ImageFrom(w, fs, 0, 0, total) && forall f :: f in fs <==> f in fields
    ensures IsImage(w, fields, total)
  {
    forall f | f in fields
      ensures f.offset + f.size <= total && w[f.offset..f.offset + f.size] == Data(f)
    {
      var k :| 0 <= k < |fs| && fs[k] == f;
      assert FieldAt(w, fs[k], 0);
    }
    forall p | 0 <= p < total && (forall f :: f in fields ==> !Covers(f, p))
      ensures w[p] == 0
    {
      assert GapAt(w, fs, 0, 0, p);
      assert forall k :: 0 <= k < |fs| ==> fs[k] in fields;
    }
  }

  lemma CoveredByte(s: seq<Byte>, fs: seq<Init>, total: nat, f: Init, p: nat)
    requires AllSized(fs) && IsImage(s, fs, total) && f in fs && Covers(f, p)
    ensures p < total && p - f.offset < |Data(f)| && s[p] == Data(f)[p - f.offset]
  {
    hide Data, Covers;
    var k :| 0 <= k < |fs| && fs[k] == f;
    SizedData(fs[k]);
    CoversRange(f, p);
    var d := s[f.offset..f.offset + f.size];
    assert d == Data(f);
    assert d[p - f.offset] == s[p];
  }

  lemma CoversRange(f: Init, p: int)
    ensures Covers(f, p) <==> 0 <= p - f.offset < f.size
  {
  }

  /** There is only one image. */
  lemma ImageUnique(s: seq<Byte>, t: seq<Byte>, fs: seq<Init>, total: nat)
    requires AllSized(fs) && IsImage(s, fs, total) && IsImage(t, fs, total)
    ensures s == t
  {
    forall p: nat | p < total
      ensures s[p] == t[p]
    {
      if exists f :: f in fs && Covers(f, p) {
        var f :| f in fs && Covers(f, p);
        CoveredByte(s, fs, total, f, p);
        CoveredByte(t, fs, total, f, p);
      }
    }
  }

  // ----- what the machine finds in the image -----

  lemma {:induction false} IntLittle(n: nat, v: int)
    ensures Little(IntBytes(n, v)) == v % Pow256(n)
  {
    if n > 0 {
      var p, q, r := Pow256(n - 1), v / 256 / Pow256(n - 1), Little(IntBytes(n - 1, v / 256));
      IntLittle(n - 1, v / 256);
      assert IntBytes(n, v)[1..] == IntBytes(n - 1, v / 256);
      assert v == 256 * (q * p + r) + v % 256;
      assert 256 * (q * p) == q * (256 * p);
      DivModUnique(v, Pow256(n), q, 256 * r + v % 256);
    }
  }

  lemma {:induction false} NatBytes(n: nat, v: nat)
    ensures Bytes(n, v) == IntBytes(n, v)
  {
    if n > 0 {
      NatBytes(n - 1, v / 256);
    }
  }

  /** Read as a number with the lowest byte first, the bytes of an initialised field are its integer,
      its bits or its address, modulo the size of the field. */
  lemma FieldHolds(s: seq<Byte>, fs: seq<Init>, total: nat, f: Init)
    requires IsImage(s, fs, total) && f in fs && Sized(f)
    ensures
      var v := match f case IntInit(_, _, i) => i case FloatInit(_, n, single, double) => (if n == 4 then single else double) case FnInit(_, _, a) => a;
      Little(s[f.offset..f.offset + f.size]) ==
        if f.size == 1 then v % 0x100
        else if f.size == 2 then v % 0x1_0000
        else if f.size == 4 then v % 0x1_0000_0000
        else v % 0x1_0000_0000_0000_0000
  {
    hide IntBytes, Bytes, Little;
    Rooms();
    match f
    case IntInit(_, n, i) => IntLittle(n, i);
    case FloatInit(_, n, single, double) =>
      NatBytes(n, if n == 4 then single else double);
      IntLittle(n, if n == 4 then single else double);
    case FnInit(_, n, a) =>
      NatBytes(n, a);
      IntLittle(n, a);
  }

  lemma Rooms()
    ensures Pow256(1) == 0x100 && Pow256(2) == 0x1_0000 && Pow256(4) == 0x1_0000_0000 && Pow256(8) == 0x1_0000_0000_0000_0000
  {
    assert Pow256(0) == 1;
    assert Pow256(4) == 256 * Pow256(3) && Pow256(3) == 256 * Pow256(2);
    assert Pow256(8) == 256 * Pow256(7) && Pow256(7) == 256 * Pow256(6) && Pow256(6) == 256 * Pow256(5) && Pow256(5) == 256 * Pow256(4);
  }
}
