/** Variable-length numbers of section 7.6 of DWARF 5: the writers and an independent reader. */
module Leb {
  import opened Wrappers

  type Byte = b: int | 0 <= b < 256

  /** A value and the bytes behind it. */
  datatype Got<T> = Got(value: T, rest: seq<Byte>)

  // ----- what the reader of section 7.6 makes of the bytes -----

  function ReadUleb(s: seq<Byte>): (g: Option<Got<nat>>)
    ensures g.Some? ==> |g.value.rest| < |s|
  {
    if s == [] then None
    else if s[0] < 128 then Some(Got(s[0], s[1..]))
    else
      match ReadUleb(s[1..])
      case None => None
      case Some(g) => Some(Got(s[0] - 128 + 128 * g.value, g.rest))
  }

  /** The low seven bits as a signed number. */
  function SignedByte(b: int): int {
    if b >= 64 then b - 128 else b
  }

  function ReadSleb(s: seq<Byte>): (g: Option<Got<int>>)
    ensures g.Some? ==> |g.value.rest| < |s|
  {
    if s == [] then None
    else if s[0] < 128 then Some(Got(SignedByte(s[0]), s[1..]))
    else
      match ReadSleb(s[1..])
      case None => None
      case Some(g) => Some(Got(s[0] - 128 + 128 * g.value, g.rest))
  }

  // ----- what is written -----

  function Uleb(v: nat): (s: seq<Byte>)
    ensures |s| > 0
  {
    if v < 128 then [v] else [v % 128 + 128] + Uleb(v / 128)
  }

  /** The last byte of a signed number is the one that leaves only sign bits behind. */
  predicate LastByte(v: int) {
    -64 <= v < 64
  }

  function Sleb(v: int): (s: seq<Byte>)
    ensures |s| > 0
    decreases if v < 0 then -v else v
  {
    if LastByte(v) then [v % 128] else [v % 128 + 128] + Sleb(v / 128)
  }

  // ----- round trips -----

  lemma {:induction false} UlebRoundTrip(v: nat, rest: seq<Byte>)
    ensures ReadUleb(Uleb(v) + rest) == Some(Got(v, rest))
  {
    var s := Uleb(v) + rest;
    if v < 128 {
      assert s[1..] == rest;
    } else {
      UlebRoundTrip(v / 128, rest);
      assert s[1..] == Uleb(v / 128) + rest;
    }
  }

  lemma {:induction false} SlebRoundTrip(v: int, rest: seq<Byte>)
    ensures ReadSleb(Sleb(v) + rest) == Some(Got(v, rest))
    decreases if v < 0 then -v else v
  {
    var s := Sleb(v) + rest;
    if LastByte(v) {
      assert s[1..] == rest;
    } else {
      SlebRoundTrip(v / 128, rest);
      assert s[1..] == Sleb(v / 128) + rest;
    }
  }

  function Pow128(n: nat): nat {
    if n == 0 then 1 else 128 * Pow128(n - 1)
  }

  lemma {:induction false} UlebLength(v: nat, n: nat)
    requires n > 0 && v < Pow128(n)
    ensures |Uleb(v)| <= n
  {
    if v >= 128 {
      UlebLength(v / 128, n - 1);
    }
  }

  lemma {:induction false} SlebLength(v: int, n: nat)
    requires n > 0 && -64 * Pow128(n - 1) <= v < 64 * Pow128(n - 1)
    ensures |Sleb(v)| <= n
    decreases n
  {
    if !LastByte(v) {
      SlebLength(v / 128, n - 1);
    }
  }

  /** A 64-bit number takes at most ten bytes. */
  lemma TenBytes(u: nat, v: int)
    requires u < 0x1_0000_0000_0000_0000
    requires -0x8000_0000_0000_0000 <= v < 0x8000_0000_0000_0000
    ensures |Uleb(u)| <= 10 && |Sleb(v)| <= 10
  {
    assert Pow128(2) == 0x4000 && Pow128(4) == 0x1000_0000;
    assert Pow128(6) == 0x400_0000_0000 && Pow128(8) == 0x100_0000_0000_0000;
    assert Pow128(9) == 0x8000_0000_0000_0000 && Pow128(10) == 0x40_0000_0000_0000_0000;
    UlebLength(u, 10);
    SlebLength(v, 10);
  }

  /** No other encoding of a number is shorter. */
  lemma {:induction false} UlebShortest(s: seq<Byte>)
    requires ReadUleb(s).Some? && ReadUleb(s).value.rest == []
    ensures |Uleb(ReadUleb(s).value.value)| <= |s|
  {
    if s[0] >= 128 {
      UlebShortest(s[1..]);
      var q := ReadUleb(s[1..]).value.value;
      assert (s[0] - 128 + 128 * q) / 128 == q;
    }
  }

  lemma {:induction false} SlebShortest(s: seq<Byte>)
    requires ReadSleb(s).Some? && ReadSleb(s).value.rest == []
    ensures |Sleb(ReadSleb(s).value.value)| <= |s|
  {
    if s[0] >= 128 {
      SlebShortest(s[1..]);
      var q := ReadSleb(s[1..]).value.value;
      assert (s[0] - 128 + 128 * q) / 128 == q;
    }
  }
}
