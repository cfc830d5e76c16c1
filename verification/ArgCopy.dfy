/** The code that copies an aggregate argument to the stack, eight bytes at a time and the rest in
    pieces of four, two and one. */
module ArgCopy {
  /** `width` bytes are read at `rcx + at` and then written at `rsp + to`. */
  datatype Move = Move(width: nat, at: nat, to: nat)

  function Moved(mem: int -> nat, rcx: int, rsp: int, m: Move): int -> nat {
    a => if rsp + m.to <= a < rsp + m.to + m.width then mem(rcx + m.at + (a - rsp - m.to)) else mem(a)
  }

  function Run(mem: int -> nat, rcx: int, rsp: int, code: seq<Move>): int -> nat {
    if code == [] then mem else Moved(Run(mem, rcx, rsp, code[..|code| - 1]), rcx, rsp, code[|code| - 1])
  }

  /** Exactly the first `n` bytes have arrived; nothing else has changed. */
  ghost predicate Copied(mem: int -> nat, after: int -> nat, src: int, dst: int, n: nat) {
    forall a: int :: CopiedAt(mem, after, src, dst, n, a)
  }

  predicate CopiedAt(mem: int -> nat, after: int -> nat, src: int, dst: int, n: nat, a: int) {
    after(a) == if dst <= a < dst + n then mem(src + (a - dst)) else mem(a)
  }

  /** In every memory in which the two places are apart. */
  ghost predicate Copies(code: seq<Move>, dest: nat, size: nat, n: nat) {
    forall mem: int -> nat, rcx: int, rsp: int ::
      (rcx + size <= rsp + dest || rsp + dest + size <= rcx) ==> Copied(mem, Run(mem, rcx, rsp, code), rcx, rsp + dest, n)
  }

  lemma NextPiece(code: seq<Move>, dest: nat, size: nat, n: nat, w: nat)
    requires Copies(code, dest, size, n) && n + w <= size
    ensures Copies(code + [Move(w, n, dest + n)], dest, size, n + w)
  {
    var m := Move(w, n, dest + n);
    forall mem: int -> nat, rcx: int, rsp: int | rcx + size <= rsp + dest || rsp + dest + size <= rcx
      ensures Copied(mem, Run(mem, rcx, rsp, code + [m]), rcx, rsp + dest, n + w)
    {
      assert (code + [m])[..|code|] == code;
      PieceCopied(mem, Run(mem, rcx, rsp, code), rcx, rsp, dest, n, w);
    }
  }

  lemma PieceCopied(mem: int -> nat, was: int -> nat, rcx: int, rsp: int, dest: nat, n: nat, w: nat)
    requires Copied(mem, was, rcx, rsp + dest, n)
    requires rcx + n + w <= rsp + dest || rsp + dest + n <= rcx + n
    ensures Copied(mem, Moved(was, rcx, rsp, Move(w, n, dest + n)), rcx, rsp + dest, n + w)
  {
    var m, dst, all := Move(w, n, dest + n), rsp + dest, n + w;
    var after := Moved(was, rcx, rsp, m);
    forall a: int
      ensures CopiedAt(mem, after, rcx, dst, all, a)
    {
      var b := rcx + (a - dst);
      assert CopiedAt(mem, was, rcx, dst, n, a);
      assert CopiedAt(mem, was, rcx, dst, n, b);
      assert rcx + m.at + (a - rsp - m.to) == b;
    }
  }

  /** ST_emit_mem_arg_copy: an aggregate without a size counts as eight bytes. */
  method EmitCopy(aggSize: nat, dest: nat) returns (code: seq<Move>)
    ensures
      var size := if aggSize == 0 then 8 else aggSize;
      Copies(code, dest, size, size) && forall i :: 0 <= i < |code| ==> code[i].width in {1, 2, 4, 8}
  {
    hide Copies;
    var size := if aggSize == 0 then 8 else aggSize;
    code := [];
    NothingCopied(dest, size);
    var off := 0;
    while size - off >= 8
      invariant off <= size && Copies(code, dest, size, off) && forall i :: 0 <= i < |code| ==> code[i].width in {1, 2, 4, 8}
    {
      NextPiece(code, dest, size, off, 8);
      code := code + [Move(8, off, dest + off)];
      off := off + 8;
    }
    if size - off >= 4 {
      NextPiece(code, dest, size, off, 4);
      code := code + [Move(4, off, dest + off)];
      off := off + 4;
    }
    if size - off >= 2 {
      NextPiece(code, dest, size, off, 2);
      code := code + [Move(2, off, dest + off)];
      off := off + 2;
    }
    if size - off >= 1 {
      NextPiece(code, dest, size, off, 1);
      code := code + [Move(1, off, dest + off)];
      off := off + 1;
    }
  }

  lemma NothingCopied(dest: nat, size: nat)
    ensures Copies([], dest, size, 0)
  {
  }
}
