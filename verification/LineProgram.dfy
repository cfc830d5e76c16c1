/** The line-number program: the bytes that are emitted, run by the state machine of section 6.2
    of DWARF 5. */
module LineProgram {
  import opened Leb
  import opened Wrappers

  /** The registers of section 6.2.2; a row of the line table is a copy of them. */
  datatype Regs = Regs(address: nat, file: nat, line: int, column: nat, isStmt: bool, basicBlock: bool,
                       endSequence: bool, prologueEnd: bool, epilogueBegin: bool, isa: nat, discriminator: nat)

  const START: Regs := Regs(0, 1, 1, 0, true, false, false, false, false, 0, 0)

  /** The header's parameters. */
  const LINE_BASE: int := -5
  const LINE_RANGE: int := 14
  const OPCODE_BASE: int := 13

  /** After a row is appended. */
  function Appended(r: Regs): Regs {
    r.(discriminator := 0, basicBlock := false, prologueEnd := false, epilogueBegin := false)
  }

  function Little(s: seq<Byte>): nat {
    if s == [] then 0 else s[0] + 256 * Little(s[1..])
  }

  function ReadBytes(s: seq<Byte>, n: nat): Option<Got<nat>> {
    if |s| < n then None else Some(Got(Little(s[..n]), s[n..]))
  }

  /** What one opcode does: the new registers, the rows appended, and the bytes behind it. */
  datatype Effect = Effect(regs: Regs, rows: seq<Regs>, rest: seq<Byte>)

  function Special(op: Byte, r: Regs, rest: seq<Byte>): Effect
    requires op >= OPCODE_BASE
  {
    var k := op - OPCODE_BASE;
    var r' := r.(address := r.address + k / LINE_RANGE, line := r.line + LINE_BASE + k % LINE_RANGE);
    Effect(Appended(r'), [r'], rest)
  }

  function WithUleb(s: seq<Byte>, f: nat -> Regs): Option<Effect> {
    match ReadUleb(s)
    case None => None
    case Some(g) => Some(Effect(f(g.value), [], g.rest))
  }

  /** Section 6.2.5.2. */
  function Standard(op: Byte, r: Regs, s: seq<Byte>): Option<Effect> {
    match op
    case 1 => Some(Effect(Appended(r), [r], s))
    case 2 => WithUleb(s, (v: nat) => r.(address := r.address + v))
    case 3 =>
      (match ReadSleb(s)
       case None => None
       case Some(g) => Some(Effect(r.(line := r.line + g.value), [], g.rest)))
    case 4 => WithUleb(s, (v: nat) => r.(file := v))
    case 5 => WithUleb(s, (v: nat) => r.(column := v))
    case 6 => Some(Effect(r.(isStmt := !r.isStmt), [], s))
    case 7 => Some(Effect(r.(basicBlock := true), [], s))
    case 8 => Some(Effect(r.(address := r.address + (255 - 13) / 14), [], s))
    case 9 =>
      (match ReadBytes(s, 2)
       case None => None
       case Some(g) => Some(Effect(r.(address := r.address + g.value), [], g.rest)))
    case 10 => Some(Effect(r.(prologueEnd := true), [], s))
    case 11 => Some(Effect(r.(epilogueBegin := true), [], s))
    case 12 => WithUleb(s, (v: nat) => r.(isa := v))
    case _ => None
  }

  /** Section 6.2.5.3: a length, an opcode, its operand. */
  function Extended(r: Regs, s: seq<Byte>): Option<Effect> {
    match ReadUleb(s)
    case None => None
    case Some(g) =>
      if g.value == 0 || g.value > |g.rest| then None
      else
        var args, rest := g.rest[1..g.value], g.rest[g.value..];
        if g.rest[0] == 1 then
          var r' := r.(endSequence := true);
          Some(Effect(START, [r'], rest))
        else if g.rest[0] == 2 then Some(Effect(r.(address := Little(args)), [], rest))
        else if g.rest[0] == 4 then
          (match ReadUleb(args)
           case None => None
           case Some(d) => Some(Effect(r.(discriminator := d.value), [], rest)))
        else Some(Effect(r, [], rest))
  }

  function Opcode(r: Regs, s: seq<Byte>): (e: Option<Effect>)
    requires s != []
    ensures e.Some? ==> |e.value.rest| < |s|
  {
    if s[0] >= 13 then Some(Special(s[0], r, s[1..]))
    else if s[0] == 0 then Extended(r, s[1..])
    else Standard(s[0], r, s[1..])
  }

  /** The line table that a program describes; None if it is malformed. */
  function Rows(r: Regs, s: seq<Byte>): Option<seq<Regs>>
    decreases |s|
  {
    if s == [] then Some([])
    else
      match Opcode(r, s)
      case None => None
      case Some(e) =>
        match Rows(e.regs, e.rest)
        case None => None
        case Some(more) => Some(e.rows + more)
  }

  // ----- the emitted program -----

  datatype FnInfo = FnInfo(start: nat, end: nat, declFile: nat, declLine: nat)
  datatype Row = Row(address: nat, file: nat, line: nat, fn: nat)

  /** dq: eight bytes, lowest first. */
  function Bytes(n: nat, v: nat): (s: seq<Byte>)
    ensures |s| == n
  {
    if n == 0 then [] else [v % 256] + Bytes(n - 1, v / 256)
  }

  function SetAddress(a: nat): (s: seq<Byte>)
    ensures s != []
  {
    [0x00] + Uleb(9) + [0x02] + Bytes(8, a)
  }

  function SetFile(f: nat): seq<Byte> {
    [0x04] + Uleb(f)
  }

  function AdvanceLine(d: int): seq<Byte> {
    [0x03] + Sleb(d)
  }

  function EndSequence(): seq<Byte> {
    [0x00] + Uleb(1) + [0x01]
  }

  /** One row, when the registers file and line hold `file` and `line`. */
  function RowCode(r: Row, file: nat, line: int): seq<Byte> {
    (if r.file != file then SetFile(r.file) else [])
    + SetAddress(r.address) + AdvanceLine(r.line - line) + [0x01]
  }

  /** The rows of function `fi` from index `i` on. */
  function RowsCode(rows: seq<Row>, fi: nat, i: nat, file: nat, line: int): seq<Byte>
    requires i <= |rows|
    decreases |rows| - i
  {
    if i == |rows| then []
    else if rows[i].fn != fi then RowsCode(rows, fi, i + 1, file, line)
    else RowCode(rows[i], file, line) + RowsCode(rows, fi, i + 1, rows[i].file, rows[i].line)
  }

  function FnCode(f: FnInfo, rows: seq<Row>, fi: nat): seq<Byte> {
    SetFile(f.declFile) + SetAddress(f.start) + AdvanceLine(f.declLine - 1) + [0x01]
    + RowsCode(rows, fi, 0, f.declFile, f.declLine)
    + SetAddress(f.end) + EndSequence()
  }

  function Program(fns: seq<FnInfo>, rows: seq<Row>, fi: nat): seq<Byte>
    requires fi <= |fns|
    decreases |fns| - fi
  {
    if fi == |fns| then [] else FnCode(fns[fi], rows, fi) + Program(fns, rows, fi + 1)
  }

  // ----- the table it ought to describe -----

  function TableRow(address: nat, file: nat, line: int): Regs {
    START.(address := address, file := file, line := line)
  }

  function Own(rows: seq<Row>, fi: nat, i: nat): seq<Regs>
    requires i <= |rows|
    decreases |rows| - i
  {
    if i == |rows| then []
    else (if rows[i].fn == fi then [TableRow(rows[i].address, rows[i].file, rows[i].line)] else []) + Own(rows, fi, i + 1)
  }

  function LastRow(f: FnInfo, rows: seq<Row>, fi: nat, n: nat): (nat, nat)
    requires n <= |rows|
  {
    if n == 0 then (f.declFile, f.declLine)
    else if rows[n - 1].fn == fi then (rows[n - 1].file, rows[n - 1].line) else LastRow(f, rows, fi, n - 1)
  }

  /** The declaration, the function's own rows in order, and the end of the sequence. */
  function FnTable(f: FnInfo, rows: seq<Row>, fi: nat): seq<Regs> {
    [TableRow(f.start, f.declFile, f.declLine)] + Own(rows, fi, 0)
    + [TableRow(f.end, LastRow(f, rows, fi, |rows|).0, LastRow(f, rows, fi, |rows|).1).(endSequence := true)]
  }

  function Table(fns: seq<FnInfo>, rows: seq<Row>, fi: nat): seq<Regs>
    requires fi <= |fns|
    decreases |fns| - fi
  {
    if fi == |fns| then [] else FnTable(fns[fi], rows, fi) + Table(fns, rows, fi + 1)
  }

  predicate Addresses(fns: seq<FnInfo>, rows: seq<Row>) {
    && (forall i :: 0 <= i < |fns| ==> fns[i].start < 0x1_0000_0000_0000_0000 && fns[i].end < 0x1_0000_0000_0000_0000)
    && forall i :: 0 <= i < |rows| ==> rows[i].address < 0x1_0000_0000_0000_0000
  }

  // ----- one opcode at a time -----

  function Pow256(n: nat): (p: nat)
    ensures p > 0
  {
    if n == 0 then 1 else 256 * Pow256(n - 1)
  }

  lemma {:induction false} LittleBytes(n: nat, v: nat)
    requires v < Pow256(n)
    ensures Little(Bytes(n, v)) == v
  {
    if n > 0 {
      LittleBytes(n - 1, v / 256);
      assert Bytes(n, v)[1..] == Bytes(n - 1, v / 256);
    }
  }

  /** After `code`, from registers `r`, the machine is at `r'` and has appended `rows`. */
  ghost predicate Does(code: seq<Byte>, r: Regs, r': Regs, rows: seq<Regs>) {
    forall rest: seq<Byte> :: DoesBefore(code, r, r', rows, rest)
  }

  ghost predicate DoesBefore(code: seq<Byte>, r: Regs, r': Regs, rows: seq<Regs>, rest: seq<Byte>) {
    Rows(r, code + rest) == match Rows(r', rest) case None => None case Some(more) => Some(rows + more)
  }

  lemma DoesThenBefore(a: seq<Byte>, b: seq<Byte>, r: Regs, r1: Regs, r2: Regs,
                       x: seq<Regs>, y: seq<Regs>, z: seq<Regs>, rest: seq<Byte>)
    requires DoesBefore(a, r, r1, x, b + rest) && DoesBefore(b, r1, r2, y, rest) && z == x + y
    ensures DoesBefore(a + b, r, r2, z, rest)
  {
    hide Rows;
    assert (a + b) + rest == a + (b + rest);
    if Rows(r2, rest).Some? {
      assert x + (y + Rows(r2, rest).value) == z + Rows(r2, rest).value;
    }
  }

  lemma DoesThen(a: seq<Byte>, b: seq<Byte>, r: Regs, r1: Regs, r2: Regs, x: seq<Regs>, y: seq<Regs>, z: seq<Regs>)
    requires Does(a, r, r1, x) && Does(b, r1, r2, y) && z == x + y
    ensures Does(a + b, r, r2, z)
  {
    hide DoesBefore;
    forall rest: seq<Byte>
      ensures DoesBefore(a + b, r, r2, z, rest)
    {
      assert DoesBefore(a, r, r1, x, b + rest) && DoesBefore(b, r1, r2, y, rest);
      DoesThenBefore(a, b, r, r1, r2, x, y, z, rest);
    }
  }

  lemma Nothing(r: Regs)
    ensures Does([], r, r, [])
  {
    forall rest: seq<Byte>
      ensures DoesBefore([], r, r, [], rest)
    {
      assert [] + rest == rest;
      if Rows(r, rest).Some? {
        assert [] + Rows(r, rest).value == Rows(r, rest).value;
      }
    }
  }

  lemma FileSet(f: nat, r: Regs)
    ensures Does(SetFile(f), r, r.(file := f), [])
  {
    forall rest: seq<Byte>
      ensures DoesBefore(SetFile(f), r, r.(file := f), [], rest)
    {
      var s := SetFile(f) + rest;
      assert s[1..] == Uleb(f) + rest;
      UlebRoundTrip(f, rest);
      assert Opcode(r, s) == Some(Effect(r.(file := f), [], rest));
    }
  }

  lemma LineAdvanced(d: int, r: Regs)
    ensures Does(AdvanceLine(d), r, r.(line := r.line + d), [])
  {
    var r' := r.(line := r.line + d);
    forall rest: seq<Byte>
      ensures DoesBefore(AdvanceLine(d), r, r', [], rest)
    {
      var s := AdvanceLine(d) + rest;
      assert s[1..] == Sleb(d) + rest;
      SlebRoundTrip(d, rest);
      assert Opcode(r, s) == Some(Effect(r', [], rest));
    }
  }

  lemma Copied(r: Regs)
    requires Appended(r) == r
    ensures Does([0x01], r, r, [r])
  {
    forall rest: seq<Byte>
      ensures DoesBefore([0x01], r, r, [r], rest)
    {
      var s := [0x01] + rest;
      assert s[1..] == rest;
      assert Opcode(r, s) == Some(Effect(r, [r], rest));
    }
  }

  lemma ExtendedRead(n: nat, body: seq<Byte>, rest: seq<Byte>)
    requires 0 < n < 128 && |body| == n
    ensures ReadUleb(Uleb(n) + body + rest) == Some(Got(n, body + rest))
    ensures (body + rest)[0] == body[0] && (body + rest)[1..n] == body[1..] && (body + rest)[n..] == rest
  {
    UlebRoundTrip(n, body + rest);
    assert Uleb(n) + body + rest == Uleb(n) + (body + rest);
  }

  lemma EightBytes(a: nat)
    requires a < 0x1_0000_0000_0000_0000
    ensures Little(Bytes(8, a)) == a
  {
    assert Pow256(4) == 0x1_0000_0000;
    assert Pow256(8) == 0x1_0000_0000_0000_0000;
    LittleBytes(8, a);
  }

  lemma AddressOpcode(a: nat, r: Regs, rest: seq<Byte>)
    requires a < 0x1_0000_0000_0000_0000
    ensures Opcode(r, SetAddress(a) + rest) == Some(Effect(r.(address := a), [], rest))
  {
    hide Uleb, Bytes, Little, ReadUleb;
    EightBytes(a);
    var s := SetAddress(a) + rest;
    var body := [0x02] + Bytes(8, a);
    ExtendedRead(9, body, rest);
    assert s[1..] == Uleb(9) + body + rest;
    assert body[1..] == Bytes(8, a);
  }

  lemma AddressSet(a: nat, r: Regs)
    requires a < 0x1_0000_0000_0000_0000
    ensures Does(SetAddress(a), r, r.(address := a), [])
  {
    hide Opcode, SetAddress;
    forall rest: seq<Byte>
      ensures DoesBefore(SetAddress(a), r, r.(address := a), [], rest)
    {
      AddressOpcode(a, r, rest);
    }
  }

  lemma SequenceEnded(r: Regs)
    ensures Does(EndSequence(), r, START, [r.(endSequence := true)])
  {
    forall rest: seq<Byte>
      ensures DoesBefore(EndSequence(), r, START, [r.(endSequence := true)], rest)
    {
      var s := EndSequence() + rest;
      ExtendedRead(1, [0x01], rest);
      assert s[1..] == Uleb(1) + [0x01] + rest;
      assert Opcode(r, s) == Some(Effect(START, [r.(endSequence := true)], rest));
    }
  }

  // ----- the whole program -----

  /** File, address, line and copy make one row. */
  lemma RowDone(w: Row, a: nat, file: nat, line: int)
    requires w.address < 0x1_0000_0000_0000_0000
    ensures
      var end := TableRow(w.address, w.file, w.line);
      Does(RowCode(w, file, line), TableRow(a, file, line), end, [end])
  {
    hide Does, SetFile, SetAddress, AdvanceLine;
    var r := TableRow(a, file, line);
    var c0 := if w.file != file then SetFile(w.file) else [];
    var r0 := r.(file := w.file);
    if w.file != file {
      FileSet(w.file, r);
    } else {
      Nothing(r);
    }
    var r1 := r0.(address := w.address);
    AddressSet(w.address, r0);
    DoesThen(c0, SetAddress(w.address), r, r0, r1, [], [], []);
    var end := TableRow(w.address, w.file, w.line);
    LineAdvanced(w.line - line, r1);
    DoesThen(c0 + SetAddress(w.address), AdvanceLine(w.line - line), r, r1, end, [], [], []);
    Copied(end);
    DoesThen(c0 + SetAddress(w.address) + AdvanceLine(w.line - line), [0x01], r, end, end, [], [end], [end]);
  }

  /** The registers after the rows of `fi` from `i` on. */
  function AfterRows(rows: seq<Row>, fi: nat, i: nat, r: Regs): Regs
    requires i <= |rows|
    decreases |rows| - i
  {
    if i == |rows| then r
    else AfterRows(rows, fi, i + 1, if rows[i].fn == fi then TableRow(rows[i].address, rows[i].file, rows[i].line) else r)
  }

  lemma {:induction false} RowsDone(rows: seq<Row>, fi: nat, i: nat, a: nat, file: nat, line: int)
    requires i <= |rows| && Addresses([], rows)
    ensures
      var r := TableRow(a, file, line);
      Does(RowsCode(rows, fi, i, file, line), r, AfterRows(rows, fi, i, r), Own(rows, fi, i))
    decreases |rows| - i
  {
    hide Does, RowCode;
    var r := TableRow(a, file, line);
    if i == |rows| {
      Nothing(r);
    } else if rows[i].fn != fi {
      RowsDone(rows, fi, i + 1, a, file, line);
      assert Own(rows, fi, i) == Own(rows, fi, i + 1);
    } else {
      var w := rows[i];
      var r1 := TableRow(w.address, w.file, w.line);
      RowDone(w, a, file, line);
      RowsDone(rows, fi, i + 1, w.address, w.file, w.line);
      DoesThen(RowCode(w, file, line), RowsCode(rows, fi, i + 1, w.file, w.line), r, r1,
               AfterRows(rows, fi, i + 1, r1), [r1], Own(rows, fi, i + 1), Own(rows, fi, i));
    }
  }

  /** The machine ends with the file and the line of the function's last row. */
  lemma {:induction false} AfterIsLast(f: FnInfo, rows: seq<Row>, fi: nat, i: nat, a: nat)
    requires i <= |rows|
    ensures
      var r := AfterRows(rows, fi, i, TableRow(a, LastRow(f, rows, fi, i).0, LastRow(f, rows, fi, i).1));
      r == TableRow(r.address, LastRow(f, rows, fi, |rows|).0, LastRow(f, rows, fi, |rows|).1)
    decreases |rows| - i
  {
    if i < |rows| {
      AfterIsLast(f, rows, fi, i + 1, if rows[i].fn == fi then rows[i].address else a);
    }
  }

  lemma FnDone(f: FnInfo, rows: seq<Row>, fi: nat)
    requires Addresses([f], rows)
    ensures Does(FnCode(f, rows, fi), START, START, FnTable(f, rows, fi))
  {
    hide Does, SetFile, SetAddress, AdvanceLine, RowsCode, EndSequence, Own;
    assert [f][0] == f;
    var decl := TableRow(f.start, f.declFile, f.declLine);
    DeclDone(f);
    var head := SetFile(f.declFile) + SetAddress(f.start) + AdvanceLine(f.declLine - 1) + [0x01];
    RowsDone(rows, fi, 0, f.start, f.declFile, f.declLine);
    AfterIsLast(f, rows, fi, 0, f.start);
    var last := AfterRows(rows, fi, 0, decl);
    var body := RowsCode(rows, fi, 0, f.declFile, f.declLine);
    var told := [decl] + Own(rows, fi, 0);
    DoesThen(head, body, START, decl, last, [decl], Own(rows, fi, 0), told);
    var stop := last.(address := f.end);
    AddressSet(f.end, last);
    DoesThen(head + body, SetAddress(f.end), START, last, stop, told, [], told);
    SequenceEnded(stop);
    DoesThen(head + body + SetAddress(f.end), EndSequence(), START, stop, START,
             told, [stop.(endSequence := true)], FnTable(f, rows, fi));
  }

  lemma DeclDone(f: FnInfo)
    requires f.start < 0x1_0000_0000_0000_0000
    ensures
      var decl := TableRow(f.start, f.declFile, f.declLine);
      Does(SetFile(f.declFile) + SetAddress(f.start) + AdvanceLine(f.declLine - 1) + [0x01], START, decl, [decl])
  {
    hide Does, SetFile, SetAddress, AdvanceLine;
    var r0, r1 := START.(file := f.declFile), START.(file := f.declFile, address := f.start);
    var decl := TableRow(f.start, f.declFile, f.declLine);
    FileSet(f.declFile, START);
    AddressSet(f.start, r0);
    DoesThen(SetFile(f.declFile), SetAddress(f.start), START, r0, r1, [], [], []);
    LineAdvanced(f.declLine - 1, r1);
    DoesThen(SetFile(f.declFile) + SetAddress(f.start), AdvanceLine(f.declLine - 1), START, r1, decl, [], [], []);
    Copied(decl);
    DoesThen(SetFile(f.declFile) + SetAddress(f.start) + AdvanceLine(f.declLine - 1), [0x01], START, decl, decl, [], [decl], [decl]);
  }

  lemma {:induction false} ProgramDone(fns: seq<FnInfo>, rows: seq<Row>, fi: nat)
    requires fi <= |fns| && Addresses(fns, rows)
    ensures Does(Program(fns, rows, fi), START, START, Table(fns, rows, fi))
    decreases |fns| - fi
  {
    hide Does, FnCode, FnTable;
    if fi == |fns| {
      Nothing(START);
    } else {
      FnDone(fns[fi], rows, fi);
      ProgramDone(fns, rows, fi + 1);
      DoesThen(FnCode(fns[fi], rows, fi), Program(fns, rows, fi + 1), START, START, START,
               FnTable(fns[fi], rows, fi), Table(fns, rows, fi + 1), Table(fns, rows, fi));
    }
  }

  /** Run by the state machine of the standard, the emitted program gives exactly the table:
      for each function its declaration, its rows in order, and the end of its sequence. */
  lemma LineTableRight(fns: seq<FnInfo>, rows: seq<Row>)
    requires Addresses(fns, rows)
    ensures Rows(START, Program(fns, rows, 0)) == Some(Table(fns, rows, 0))
  {
    hide Program, Table;
    ProgramDone(fns, rows, 0);
    assert DoesBefore(Program(fns, rows, 0), START, START, Table(fns, rows, 0), []);
    assert Program(fns, rows, 0) + [] == Program(fns, rows, 0);
    assert Table(fns, rows, 0) + [] == Table(fns, rows, 0);
  }
}
