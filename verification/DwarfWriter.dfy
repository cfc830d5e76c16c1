/** The debug information writer as it runs: number loops, the line program with its running
    file and line, and the growing table of file names. */
module DwarfWriter {
  import opened Leb
  import opened Wrappers
  import opened LineProgram

  /** A signed number ends where the rest is the sign of the byte. */
  lemma LastByteTest(v: int)
    ensures LastByte(v) <==> (v / 128 == 0 && v % 128 < 64) || (v / 128 == -1 && v % 128 >= 64)
  {
  }

  /** ST_sleb128_len counts what ST_dwarf_write_sleb128 writes. */
  method SlebLen(v: int) returns (n: nat)
    ensures n == |Sleb(v)|
  {
    var w := v;
    var more := true;
    n := 0;
    while more
      invariant if more then n + |Sleb(w)| == |Sleb(v)| else n == |Sleb(v)|
      decreases more, if w < 0 then -w else w
    {
      LastByteTest(w);
      var b := w % 128;
      w := w / 128;
      if (w == 0 && b < 64) || (w == -1 && b >= 64) {
        more := false;
      }
      n := n + 1;
    }
  }

  class Output {
    var out: seq<Byte>

    constructor ()
      ensures out == []
    {
      out := [];
    }

    method Put(b: seq<Byte>)
      modifies this
      ensures out == old(out) + b
    {
      out := out + b;
    }

    /** ST_dwarf_write_uleb128. */
    method WriteUleb(v: nat)
      modifies this
      ensures out == old(out) + Uleb(v)
    {
      var w, more := v, true;
      while more
        invariant if more then out + Uleb(w) == old(out) + Uleb(v) else out == old(out) + Uleb(v)
        decreases more, w
      {
        var b := w % 128;
        ghost var before, u := out, w;
        w := w / 128;
        if w != 0 {
          b := b + 128;
          assert (before + [b]) + Uleb(w) == before + ([b] + Uleb(w));
        }
        out := out + [b];
        more := w != 0;
      }
    }

    /** ST_dwarf_write_sleb128. */
    method WriteSleb(v: int)
      modifies this
      ensures out == old(out) + Sleb(v)
    {
      var w, more := v, true;
      while more
        invariant if more then out + Sleb(w) == old(out) + Sleb(v) else out == old(out) + Sleb(v)
        decreases more, if w < 0 then -w else w
      {
        LastByteTest(w);
        var b := w % 128;
        var signBit := b >= 64;
        ghost var before := out;
        w := w / 128;
        if (w == 0 && !signBit) || (w == -1 && signBit) {
          more := false;
        } else {
          b := b + 128;
          assert (before + [b]) + Sleb(w) == before + ([b] + Sleb(w));
        }
        out := out + [b];
      }
    }

    /** ST_dwarf_write_fbreg_loc: a block of `len` bytes with the operation and its operand. */
    method WriteFbregLoc(offset: int)
      requires -0x8000_0000 <= offset < 0x8000_0000
      modifies this
      ensures out == old(out) + FrameLocation(offset)
    {
      var n := SlebLen(offset);
      TenBytes(0, offset);
      Put([1 + n]);
      Put([0x91]);
      WriteSleb(offset);
    }

    method WriteSetAddress(a: nat)
      modifies this
      ensures out == old(out) + SetAddress(a)
    {
      Put([0x00]);
      WriteUleb(9);
      Put([0x02]);
      Put(Bytes(8, a));
    }

    method WriteSetFile(f: nat)
      modifies this
      ensures out == old(out) + SetFile(f)
    {
      Put([0x04]);
      WriteUleb(f);
    }

    method WriteRow(d: int)
      modifies this
      ensures out == old(out) + AdvanceLine(d) + [0x01]
    {
      Put([0x03]);
      WriteSleb(d);
      Put([0x01]);
    }

    /** The loop over the rows of one function. */
    method WriteRows(rows: seq<Row>, fi: nat, file: nat, line: int)
      modifies this
      ensures out == old(out) + RowsCode(rows, fi, 0, file, line)
    {
      hide RowCode;
      var curFile, curLine := file, line;
      for ri := 0 to |rows|
        invariant out + RowsCode(rows, fi, ri, curFile, curLine) == old(out) + RowsCode(rows, fi, 0, file, line)
      {
        var r := rows[ri];
        if r.fn == fi {
          ghost var rest := RowsCode(rows, fi, ri + 1, r.file, r.line);
          assert (out + RowCode(r, curFile, curLine)) + rest == out + (RowCode(r, curFile, curLine) + rest);
          WriteOneRow(r, curFile, curLine);
          curFile, curLine := r.file, r.line;
        }
      }
    }

    method WriteOneRow(r: Row, curFile: nat, curLine: int)
      modifies this
      ensures out == old(out) + RowCode(r, curFile, curLine)
    {
      hide SetFile, SetAddress, AdvanceLine;
      if r.file != curFile {
        WriteSetFile(r.file);
      }
      WriteSetAddress(r.address);
      WriteRow(r.line - curLine);
    }

    method WriteFn(f: FnInfo, rows: seq<Row>, fi: nat)
      modifies this
      ensures out == old(out) + FnCode(f, rows, fi)
    {
      hide SetFile, SetAddress, AdvanceLine, RowsCode;
      WriteSetFile(f.declFile);
      WriteSetAddress(f.start);
      WriteRow(f.declLine - 1);
      WriteRows(rows, fi, f.declFile, f.declLine);
      WriteSetAddress(f.end);
      Put([0x00]);
      WriteUleb(1);
      Put([0x01]);
    }

    /** The line program of ST_dwarf_emit. */
    method WriteProgram(fns: seq<FnInfo>, rows: seq<Row>)
      modifies this
      ensures out == old(out) + Program(fns, rows, 0)
    {
      hide FnCode;
      for fi := 0 to |fns|
        invariant out + Program(fns, rows, fi) == old(out) + Program(fns, rows, 0)
      {
        ghost var rest := Program(fns, rows, fi + 1);
        assert (out + FnCode(fns[fi], rows, fi)) + rest == out + (FnCode(fns[fi], rows, fi) + rest);
        WriteFn(fns[fi], rows, fi);
      }
    }
  }

  function FrameLocation(offset: int): seq<Byte>
    requires -0x8000_0000 <= offset < 0x8000_0000
  {
    TenBytes(0, offset);
    [1 + |Sleb(offset)|, 0x91] + Sleb(offset)
  }

  /** The block's length covers the operation and the operand and nothing else. */
  lemma FrameLocationRight(offset: int, rest: seq<Byte>)
    requires -0x8000_0000 <= offset < 0x8000_0000
    ensures
      match ReadUleb(FrameLocation(offset) + rest)
      case None => false
      case Some(g) =>
        && 1 <= g.value <= |g.rest| && g.rest[g.value..] == rest && g.rest[0] == 0x91
        && ReadSleb(g.rest[1..g.value]) == Some(Got(offset, []))
  {
    var s := FrameLocation(offset) + rest;
    var n := 1 + |Sleb(offset)|;
    TenBytes(0, offset);
    assert s[1..] == [0x91] + Sleb(offset) + rest;
    assert s[1..][1..n] == Sleb(offset) + [] && s[1..][n..] == rest;
    SlebRoundTrip(offset, []);
  }

  class FileTable {
    var files: array<string>
    var n: nat

    ghost predicate Valid()
      reads this
    {
      n <= files.Length
    }

    ghost function Names(): seq<string>
      requires Valid()
      reads this, files
    {
      files[..n]
    }

    constructor ()
      ensures Valid() && fresh(files) && Names() == []
    {
      files := new string[0];
      n := 0;
    }

    /** ST_dbg_files_reserve: room for one more, by copying into an array twice as long. */
    method Reserve()
      requires Valid()
      modifies this
      ensures Valid() && n < files.Length && n == old(n) && Names() == old(Names())
      ensures files == old(files) || fresh(files)
    {
      if n < files.Length {
        return;
      }
      var more := new string[if files.Length > 0 then files.Length * 2 else 8];
      for i := 0 to n
        invariant forall k :: 0 <= k < i ==> more[k] == files[k]
        modifies more
      {
        more[i] := files[i];
      }
      files := more;
    }

    /** ST_dbg_intern_file: the same index for the same name, and no name twice. */
    method Intern(file: string) returns (i: nat)
      requires Valid()
      modifies this, files
      ensures Valid() && i < |Names()| && Names()[i] == file
      ensures Names() == if file in old(Names()) then old(Names()) else old(Names()) + [file]
      ensures forall k :: 0 <= k < i ==> Names()[k] != file
      ensures files == old(files) || fresh(files)
    {
      for j := 0 to n
        invariant forall k :: 0 <= k < j ==> files[k] != file
      {
        if files[j] == file {
          assert Names()[j] == file;
          return j;
        }
      }
      Reserve();
      files[n] := file;
      n := n + 1;
      i := n - 1;
    }
  }
}
