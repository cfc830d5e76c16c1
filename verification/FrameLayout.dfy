/** The frame of a function: below the value slots come the hidden return pointer, the local
    variables and the buffers for several results. */
module FrameLayout {
  import opened Rounding
  import opened Word

  /** An instruction as the layout sees it. */
  datatype Item = Alloca(size: nat, align: nat) | Call(results: nat) | Plain

  /** Bytes that an item owns; a size of 0 counts as 8. */
  function Length(it: Item): nat {
    match it
    case Alloca(n, _) => if n > 0 then n else 8
    case Call(rc) => if rc >= 2 then 8 * rc else 0
    case Plain => 0
  }

  function Alignment(it: Item): (a: nat)
    ensures a > 0
  {
    match it
    case Alloca(_, a) => if a > 0 then a else 8
    case _ => 8
  }

  /** The frame below rbp that is in use after the item. */
  function After(cur: nat, it: Item): nat {
    if Length(it) == 0 then cur else RoundUp(cur, Alignment(it)) + Length(it)
  }

  function Used(base: nat, items: seq<Item>, n: nat): nat
    requires n <= |items|
  {
    if n == 0 then base else After(Used(base, items, n - 1), items[n - 1])
  }

  lemma {:induction false} UsedGrows(base: nat, items: seq<Item>, i: nat, j: nat)
    requires i <= j <= |items|
    ensures Used(base, items, i) <= Used(base, items, j)
    ensures i < j ==> Used(base, items, i) + Length(items[i]) <= Used(base, items, j)
    decreases j
  {
    if i < j {
      RoundUpBounds(Used(base, items, j - 1), Alignment(items[j - 1]));
      UsedGrows(base, items, i, j - 1);
    }
  }

  /** The byte at rbp - d belongs to an item at rbp - off. */
  predicate Owns(it: Item, off: nat, d: nat) {
    off < d + Length(it) && d <= off
  }

  /** Where the values and the hidden pointer lie. */
  function Base(values: nat, hidden: bool): nat {
    8 * values + if hidden then 8 else 0
  }

  /** No byte of the frame has two owners, and all of them are inside, below the values. */
  ghost predicate Sound(values: nat, hidden: bool, items: seq<Item>, offs: seq<nat>, frame: nat) {
    && |offs| == |items| && frame % 16 == 0 && Base(values, hidden) <= frame
    && (forall k: nat, d: nat :: Within(Base(values, hidden), items, offs, frame, k, d))
    && forall j: nat, k: nat, d: nat :: OneOwner(items, offs, j, k, d)
  }

  ghost predicate Within(base: nat, items: seq<Item>, offs: seq<nat>, frame: nat, k: nat, d: nat)
    requires |offs| == |items|
  {
    k < |items| && Owns(items[k], offs[k], d) ==> base < d <= frame
  }

  ghost predicate OneOwner(items: seq<Item>, offs: seq<nat>, j: nat, k: nat, d: nat)
    requires |offs| == |items|
  {
    j < k < |items| && Owns(items[j], offs[j], d) ==> !Owns(items[k], offs[k], d)
  }

  /** A variable is aligned exactly when its size is a multiple of its alignment. */
  ghost predicate Aligned(items: seq<Item>, offs: seq<nat>) {
    |offs| == |items| && forall k :: 0 <= k < |items| ==> AlignedItem(items[k], offs[k])
  }

  ghost predicate AlignedItem(it: Item, off: nat) {
    Length(it) > 0 && IsPow2(Alignment(it)) ==> off % Alignment(it) == Length(it) % Alignment(it)
  }

  lemma ItemAligned(cur: nat, it: Item)
    ensures AlignedItem(it, After(cur, it))
  {
    if Length(it) > 0 && IsPow2(Alignment(it)) {
      RoundUpAligned(cur, Alignment(it));
      SumRemainder(RoundUp(cur, Alignment(it)), Length(it), Alignment(it));
    }
  }

  /** A variable's place, as the layout loop stores it. */
  ghost predicate Placed(base: nat, items: seq<Item>, offs: seq<nat>, n: nat) {
    n <= |items| == |offs| && forall k :: 0 <= k < n ==> offs[k] == Used(base, items, k + 1)
  }

  lemma PlacedSound(values: nat, hidden: bool, items: seq<Item>, offs: seq<nat>, frame: nat)
    requires Placed(Base(values, hidden), items, offs, |items|)
    requires frame % 16 == 0 && frame >= Used(Base(values, hidden), items, |items|)
    ensures Sound(values, hidden, items, offs, frame) && Aligned(items, offs)
  {
    var base := Base(values, hidden);
    UsedGrows(base, items, 0, |items|);
    forall k: nat, d: nat
      ensures Within(base, items, offs, frame, k, d)
    {
      if k < |items| {
        UsedGrows(base, items, 0, k);
        UsedGrows(base, items, k, k + 1);
        UsedGrows(base, items, k + 1, |items|);
      }
    }
    forall j: nat, k: nat, d: nat
      ensures OneOwner(items, offs, j, k, d)
    {
      if j < k < |items| {
        UsedGrows(base, items, j + 1, k);
        UsedGrows(base, items, k, k + 1);
      }
    }
    forall k | 0 <= k < |items|
      ensures AlignedItem(items[k], offs[k])
    {
      ItemAligned(Used(base, items, k), items[k]);
    }
  }

  class Frame {
    const items: seq<Item>
    /** frame_off and ret_buf_offset of each instruction. */
    const offs: array<nat>
    var hiddenOff: nat

    constructor (its: seq<Item>)
      ensures items == its && offs.Length == |its| && fresh(offs)
    {
      items, offs := its, new nat[|its|];
      hiddenOff := 0;
    }

    /** ST_layout_fn, and the rounding of the frame in ST_generate_fn. */
    method Layout(values: nat, hidden: bool) returns (frame: nat)
      requires offs.Length == |items|
      modifies this, offs
      ensures Sound(values, hidden, items, offs[..], frame) && Aligned(items, offs[..])
      ensures hiddenOff == if hidden then 8 * values + 8 else 0
    {
      var cur := 8 * values;
      hiddenOff := 0;
      if hidden {
        cur := cur + 8;
        hiddenOff := cur;
      }
      ghost var base := cur;
      for i := 0 to |items|
        invariant cur == Used(base, items, i) && Placed(base, items, offs[..], i)
        invariant hiddenOff == if hidden then 8 * values + 8 else 0
      {
        match items[i] {
          case Alloca(n, a) =>
            var align, size := if a > 0 then a else 8, if n > 0 then n else 8;
            cur := RoundUp(cur, align);
            cur := cur + size;
          case Call(rc) =>
            if rc >= 2 {
              cur := RoundUp(cur, 8);
              cur := cur + rc * 8;
            }
          case Plain =>
        }
        offs[i] := cur;
      }
      frame := RoundUp(cur, 16);
      RoundUpBounds(cur, 16);
      assert Pow2(4) == 16;
      RoundUpAligned(cur, 16);
      PlacedSound(values, hidden, items, offs[..], frame);
    }
  }

  // ----- ST_ir_alloca -----

  function AllocaSize(size: nat): nat {
    if size < 8 then 8 else if size > 8 then RoundUp(size, 8) else size
  }

  /** A variable has room for its type and for the eight bytes that a widened store writes. */
  lemma AllocaRoom(size: nat)
    ensures AllocaSize(size) >= 8 && AllocaSize(size) >= size && AllocaSize(size) % 8 == 0
    ensures AllocaSize(size) < size + 8 || size == 0
  {
    RoundUpBounds(size, 8);
    assert Pow2(3) == 8;
    RoundUpAligned(size, 8);
  }

  /** The variable of a laid-out type is aligned, unless the type is empty but wants more than 8. */
  lemma AllocaAligned(size: nat, align: nat)
    requires IsPow2(align) && size % align == 0
    ensures AllocaSize(size) % align == 0 <==> size > 0 || align <= 8
  {
    var k: nat :| align == Pow2(k);
    SmallPowers(k);
    AllocaRoom(size);
    if align <= 8 {
      EightDivides(AllocaSize(size), align);
    } else if size > 0 {
      BigPowers(k);
      BigMultiple(size, align, Pow2(k - 3));
      assert Pow2(3) == 8;
      RoundUpAligned(size, 8);
    }
  }

  lemma BigMultiple(size: nat, align: nat, p: nat)
    requires align > 8 && align == p * 8 && size % align == 0 && size > 0
    ensures size >= align && size % 8 == 0
  {
    var q := size / align;
    Quotient(size, align, q);
    Regroup(q, p);
    assert size == Times(q, p) * 8;
    Multiple(Times(q, p), 8);
  }

  lemma Quotient(size: nat, align: nat, q: nat)
    requires align > 0 && size % align == 0 && q == size / align && size > 0
    ensures size == q * align && q > 0 && size >= align
  {
    assert size == q * align + size % align;
    if q > 0 {
      Scaled(q, align);
    }
  }

  lemma Regroup(q: nat, p: nat)
    ensures q * (p * 8) == Times(q, p) * 8
  {
  }

  lemma SmallPowers(k: nat)
    ensures Pow2(k) <= 8 ==> Pow2(k) in {1, 2, 4, 8}
    ensures Pow2(k) > 8 ==> k > 3 && Pow2(k) >= 16
  {
    if k > 4 {
      BigPowers(k);
    }
  }

  lemma {:induction false} BigPowers(k: nat)
    requires k >= 3
    ensures Pow2(k) == Pow2(k - 3) * 8 && (k >= 4 ==> Pow2(k) >= 16)
  {
    if k > 3 {
      BigPowers(k - 1);
    }
  }

  lemma EightDivides(n: nat, a: nat)
    requires n % 8 == 0 && a in {1, 2, 4, 8}
    ensures n % a == 0
  {
    var q := n / 8;
    assert n == 8 * q;
    match a
    case 1 => assert n == n * 1;
    case 2 => assert n == 4 * q * 2;
    case 4 => assert n == 2 * q * 4;
    case 8 =>
  }
}
