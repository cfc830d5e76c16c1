/** The bump arena: a list of chunks, of which the last is filled, and the regions handed out. All
    sizes are 64-bit words, and so are the sums. */
module Arena {
  import opened Word
  import opened Rounding

  /** `cap` is what the chunk says of itself, `room` what was allocated behind its header. */
  datatype Chunk = Chunk(cap: nat, room: int, pos: nat)

  datatype Region = Region(chunk: nat, off: nat, len: nat)

  const DEFAULT: nat := 4096

  /** The bytes of a chunk's header. */
  const HEADER: nat := 24

  /** ST_allign_mem, for sizes that need not be powers of two. */
  function Aligned(pos: nat, size: nat): nat
    requires size > 0
  {
    if Masked(pos, size - 1) == 0 then pos
    else
      var x := (pos + size - 1) % 0x1_0000_0000_0000_0000;
      MaskedAtMost(x, size - 1);
      x - Masked(x, size - 1)
  }

  /** Rounding keeps at or above the position exactly when there is nothing to round or the sum does
      not wrap around. */
  lemma AlignedExactly(pos: nat, size: nat)
    requires 0 < size < W && pos < W
    ensures pos <= Aligned(pos, size) <==> Masked(pos, size - 1) == 0 || pos + size - 1 < W
  {
    if Masked(pos, size - 1) != 0 {
      var x := (pos + size - 1) % 0x1_0000_0000_0000_0000;
      MaskedAtMost(x, size - 1);
      if pos + size - 1 >= W {
        assert x == pos + size - 1 - W;
      }
    }
  }

  /** Then the position rises by less than the size, and for a power of two it is a multiple. */
  lemma AlignedRight(pos: nat, size: nat)
    requires 0 < size < W && pos < W && pos <= Aligned(pos, size)
    ensures Aligned(pos, size) < pos + size
    ensures IsPow2(size) ==> Aligned(pos, size) % size == 0
  {
    AlignedExactly(pos, size);
    RoundUpBounds(pos, size);
    if IsPow2(size) {
      var k: nat :| size == Pow2(k);
      MaskIsRemainder(pos, k);
      RoundUpAligned(pos, size);
    }
  }

  // ----- what is to be true of it -----

  predicate Overlap(r: Region, s: Region) {
    r.chunk == s.chunk && r.off < s.off + s.len && s.off < r.off + r.len
  }

  predicate Held(chunks: seq<Chunk>, r: Region) {
    r.chunk < |chunks| && r.off + r.len <= chunks[r.chunk].pos
  }

  predicate ChunkOk(c: Chunk) {
    c.pos <= c.cap <= c.room && c.cap < 0x1_0000_0000_0000_0000
  }

  ghost predicate Sound(chunks: seq<Chunk>, regions: seq<Region>) {
    && |chunks| > 0
    && (forall c :: 0 <= c < |chunks| ==> ChunkOk(chunks[c]))
    && (forall i :: 0 <= i < |regions| ==> Held(chunks, regions[i]))
    && (forall i, j :: 0 <= i < j < |regions| ==> !Overlap(regions[i], regions[j]))
  }

  // ----- a push, for every size -----

  /** The end that ST_arena_push compares with the capacity. */
  function EndOf(pos: nat, size: nat): nat
    requires size > 0
  {
    (Aligned(pos, size) + size) % 0x1_0000_0000_0000_0000
  }

  /** ST_arena_chunk_alloc: the header and the capacity are added in 64 bits, too. */
  function NewChunk(size: nat): Chunk {
    var cap := if size > DEFAULT then size else DEFAULT;
    Chunk(cap, (HEADER + cap) % 0x1_0000_0000_0000_0000 - HEADER, 0)
  }

  function Pushed(chunks: seq<Chunk>, size: nat): (seq<Chunk>, Region)
    requires chunks != [] && size > 0
  {
    var c := |chunks| - 1;
    var last := chunks[c];
    if EndOf(last.pos, size) > last.cap then
      (chunks + [NewChunk(size).(pos := size)], Region(c + 1, 0, size))
    else (chunks[c := last.(pos := EndOf(last.pos, size))], Region(c, Aligned(last.pos, size), size))
  }

  /** What a push must meet: in the last chunk, neither the rounding nor the end may wrap around; in
      a new one, the header and the size may not. */
  predicate PushFine(c: Chunk, size: nat) {
    size > 0 ==>
      if EndOf(c.pos, size) > c.cap then size + 24 < 0x1_0000_0000_0000_0000
      else
        && (Masked(c.pos, size - 1) == 0 || c.pos + size - 1 < 0x1_0000_0000_0000_0000)
        && Aligned(c.pos, size) + size < 0x1_0000_0000_0000_0000
  }

  lemma PlacedSound(chunks: seq<Chunk>, regions: seq<Region>, more: seq<Chunk>, c: nat, off: nat, size: nat)
    requires Sound(chunks, regions) && size > 0
    requires |more| >= |chunks| && (forall k :: 0 <= k < |chunks| && k != c ==> more[k] == chunks[k])
    requires c < |more| <= c + 1 && c <= |chunks| && ChunkOk(more[c]) && more[c].pos == off + size
    requires c < |chunks| ==> chunks[c].pos <= off
    ensures Sound(more, regions + [Region(c, off, size)])
  {
    var r := Region(c, off, size);
    var all := regions + [r];
    forall i | 0 <= i < |all|
      ensures Held(more, all[i]) && (i < |regions| ==> !Overlap(all[i], r))
    {
      if i < |regions| {
        assert Held(chunks, regions[i]);
      }
    }
  }

  /** For all sizes and all histories. */
  lemma PushSound(chunks: seq<Chunk>, regions: seq<Region>, size: nat)
    requires Sound(chunks, regions) && 0 < size < W && PushFine(chunks[|chunks| - 1], size)
    ensures Sound(Pushed(chunks, size).0, regions + [Pushed(chunks, size).1])
    ensures IsPow2(size) ==> Pushed(chunks, size).1.off % size == 0
  {
    hide Aligned, Masked, IsPow2, Sound;
    LastOk(chunks, regions);
    var last := chunks[|chunks| - 1];
    var (more, r) := Pushed(chunks, size);
    if EndOf(last.pos, size) > last.cap {
      Multiple(0, size);
    } else {
      AlignedExactly(last.pos, size);
      AlignedRight(last.pos, size);
    }
    PlacedSound(chunks, regions, more, r.chunk, r.off, size);
  }

  lemma LastOk(chunks: seq<Chunk>, regions: seq<Region>)
    requires Sound(chunks, regions)
    ensures chunks != [] && ChunkOk(chunks[|chunks| - 1])
  {
  }

  /** The condition is exact: whenever it fails, the bytes below the position being in use, the new
      region overlaps them, or lies outside its chunk. */
  lemma PushExactly(chunks: seq<Chunk>, size: nat)
    requires chunks != [] && 0 < size < W && Sound(chunks, [Region(|chunks| - 1, 0, chunks[|chunks| - 1].pos)])
    ensures PushFine(chunks[|chunks| - 1], size) <==>
      Sound(Pushed(chunks, size).0, [Region(|chunks| - 1, 0, chunks[|chunks| - 1].pos), Pushed(chunks, size).1])
  {
    var c := |chunks| - 1;
    var last, used := chunks[c], Region(c, 0, chunks[c].pos);
    var (more, r) := Pushed(chunks, size);
    assert [used] + [r] == [used, r];
    assert ChunkOk(last);
    if PushFine(last, size) {
      PushSound(chunks, [used], size);
    } else if EndOf(last.pos, size) > last.cap {
      assert !ChunkOk(more[c + 1]);
    } else {
      AlignedExactly(last.pos, size);
      if Aligned(last.pos, size) >= last.pos {
        assert !Held(more, [used, r][1]);
      } else {
        assert Overlap([used, r][0], [used, r][1]);
      }
    }
  }

  /** For example, at position 17 a push of 2^64 - 8 bytes rounds to 8, ends at 0, and takes the whole
      chunk back: the next push gets bytes in use. */
  lemma PushWraps()
    ensures
      var chunks := [Chunk(DEFAULT, DEFAULT, 17)];
      var (more, r) := Pushed(chunks, 0xffff_ffff_ffff_fff8);
      && r == Region(0, 8, 0xffff_ffff_ffff_fff8) && more == [Chunk(DEFAULT, DEFAULT, 0)]
      && Pushed(more, 16).1 == Region(0, 0, 16) && Overlap(Pushed(more, 16).1, Region(0, 0, 17))
  {
    hide Masked;
    MaskOfSeven();
    NothingBelow(15);
  }

  lemma NothingBelow(m: nat)
    ensures Masked(0, m) == 0
  {
  }

  lemma MaskOfSeven()
    ensures Masked(17, 0xffff_ffff_ffff_fff7) == 17 && Masked(8, 0xffff_ffff_ffff_fff7) == 0
  {
    var m := 0xffff_ffff_ffff_fff7;
    assert Masked(1, m / 16) == 1 + 2 * Masked(0, m / 32);
    assert Masked(2, m / 8) == 2 * Masked(1, m / 16);
    assert Masked(4, m / 4) == 2 * Masked(2, m / 8);
    assert Masked(8, m / 2) == 2 * Masked(4, m / 4);
    assert Masked(17, m) == 1 + 2 * Masked(8, m / 2);
    assert Masked(1, m / 8) == 2 * Masked(0, m / 16);
    assert Masked(2, m / 4) == 2 * Masked(1, m / 8);
    assert Masked(4, m / 2) == 2 * Masked(2, m / 4);
    assert Masked(8, m) == 2 * Masked(4, m / 2);
  }

  // ----- pops -----

  /** The regions that a shorter last chunk still holds. */
  function Kept(chunks: seq<Chunk>, regions: seq<Region>): seq<Region> {
    if regions == [] then []
    else
      var last := regions[|regions| - 1];
      Kept(chunks, regions[..|regions| - 1]) + (if Held(chunks, last) then [last] else [])
  }

  lemma {:induction false} KeptApart(chunks: seq<Chunk>, regions: seq<Region>)
    requires forall i, j :: 0 <= i < j < |regions| ==> !Overlap(regions[i], regions[j])
    ensures forall i :: 0 <= i < |Kept(chunks, regions)| ==>
      Held(chunks, Kept(chunks, regions)[i]) && Kept(chunks, regions)[i] in regions
    ensures forall i, j :: 0 <= i < j < |Kept(chunks, regions)| ==>
      !Overlap(Kept(chunks, regions)[i], Kept(chunks, regions)[j])
  {
    if regions != [] {
      var front, last := regions[..|regions| - 1], regions[|regions| - 1];
      KeptApart(chunks, front);
      forall i | 0 <= i < |Kept(chunks, front)|
        ensures !Overlap(Kept(chunks, front)[i], last)
      {
        var j :| 0 <= j < |front| && front[j] == Kept(chunks, front)[i];
        assert regions[j] == front[j];
      }
    }
  }

  class Bump {
    var chunks: seq<Chunk>
    /** What has been handed out and not taken back. */
    ghost var regions: seq<Region>

    ghost predicate Valid()
      reads this
    {
      Sound(chunks, regions)
    }

    constructor ()
      ensures Valid() && chunks == [Chunk(DEFAULT, DEFAULT, 0)] && regions == []
    {
      chunks, regions := [Chunk(DEFAULT, DEFAULT, 0)], [];
    }

    /** ST_arena_push, for every size: nothing for no bytes; otherwise bytes of a chunk, which no
        other region has if the push is fine. */
    method Push(size: nat) returns (chunk: nat, off: nat)
      requires chunks != [] && size < W
      modifies this
      ensures size == 0 ==> chunks == old(chunks) && regions == old(regions)
      ensures size == 0 ==> chunk == |chunks| - 1 && off == chunks[chunk].pos
      ensures size > 0 ==> (chunks, Region(chunk, off, size)) == Pushed(old(chunks), size)
      ensures size > 0 ==> regions == old(regions) + [Region(chunk, off, size)]
      ensures old(Valid()) && PushFine(old(chunks[|chunks| - 1]), size) ==> Valid() && (IsPow2(size) ==> off % size == 0)
    {
      hide Sound, Aligned, Masked, IsPow2, PushFine;
      chunk := |chunks| - 1;
      off := chunks[chunk].pos;
      if size == 0 {
        assert !IsPow2(0) by { NoPow2IsZero(); }
        return;
      }
      if Sound(chunks, regions) && PushFine(chunks[chunk], size) {
        PushSound(chunks, regions, size);
      }
      off := Aligned(chunks[chunk].pos, size);
      if (off + size) % 0x1_0000_0000_0000_0000 > chunks[chunk].cap {
        var cap := if size > DEFAULT then size else DEFAULT;
        chunks := chunks + [Chunk(cap, (HEADER + cap) % 0x1_0000_0000_0000_0000 - HEADER, 0)];
        chunk := chunk + 1;
        off := 0;
      }
      ghost var end := chunks[chunk].(pos := (off + size) % 0x1_0000_0000_0000_0000);
      assert chunk == |old(chunks)| ==> chunks[chunk := end] == old(chunks) + [end];
      chunks := chunks[chunk := chunks[chunk].(pos := (off + size) % 0x1_0000_0000_0000_0000)];
      regions := regions + [Region(chunk, off, size)];
    }

    /** ST_arena_pop takes bytes back from the last chunk, and with them the regions they are in. */
    method Pop(n: nat)
      requires Valid()
      modifies this
      ensures Valid() && |chunks| == |old(chunks)| && regions == Kept(chunks, old(regions))
      ensures
        var c := |chunks| - 1;
        chunks == old(chunks)[c := old(chunks)[c].(pos := if old(chunks)[c].pos < n then 0 else old(chunks)[c].pos - n)]
    {
      var c := |chunks| - 1;
      var back := if chunks[c].pos < n then chunks[c].pos else n;
      assert ChunkOk(chunks[c]);
      chunks := chunks[c := chunks[c].(pos := chunks[c].pos - back)];
      KeptApart(chunks, regions);
      regions := Kept(chunks, regions);
    }
  }

  lemma NoPow2IsZero()
    ensures !IsPow2(0)
  {
  }
}
