/** Fixed-width integers in a byte string. */
module Bytes {

  type Byte = x: int | 0 <= x < 256

  const U32: nat := 0x1_0000_0000

  function ReadBE(s: seq<Byte>, at: nat): nat
    requires at + 4 <= |s|
  {
    ((s[at] as int * 0x100 + s[at + 1] as int) * 0x100 + s[at + 2] as int) * 0x100 + s[at + 3] as int
  }

  function ReadLE(s: seq<Byte>, at: nat): nat
    requires at + 4 <= |s|
  {
    ((s[at + 3] as int * 0x100 + s[at + 2] as int) * 0x100 + s[at + 1] as int) * 0x100 + s[at] as int
  }

  function BE(n: nat): (s: seq<Byte>)
    requires n < U32
    ensures |s| == 4 && ReadBE(s, 0) == n
    ensures n == s[0] as int * 0x100_0000 + s[1] as int * 0x1_0000 + s[2] as int * 0x100 + s[3] as int
  {
    var n1 := n / 0x100;
    var n2 := n1 / 0x100;
    var n3 := n2 / 0x100;
    [n3, n2 % 0x100, n1 % 0x100, n % 0x100]
  }

  function LE(n: nat): (s: seq<Byte>)
    requires n < U32
    ensures |s| == 4 && ReadLE(s, 0) == n
    ensures n == s[0] as int + s[1] as int * 0x100 + s[2] as int * 0x1_0000 + s[3] as int * 0x100_0000
  {
    var n1 := n / 0x100;
    var n2 := n1 / 0x100;
    var n3 := n2 / 0x100;
    [n % 0x100, n1 % 0x100, n2 % 0x100, n3]
  }

  function LE16(n: nat): (s: seq<Byte>)
    requires n < 0x10000
    ensures |s| == 2 && s[1] as int * 0x100 + s[0] as int == n
  {
    [n % 0x100, n / 0x100]
  }

  /** Reading depends only on the four bytes read. */
  lemma ReadSame(s: seq<Byte>, at: nat, t: seq<Byte>, from: nat)
    requires at + 4 <= |s| && from + 4 <= |t| && s[at..at + 4] == t[from..from + 4]
    ensures ReadLE(s, at) == ReadLE(t, from) && ReadBE(s, at) == ReadBE(t, from)
  {
    var u, v := s[at..at + 4], t[from..from + 4];
    assert u[0] == s[at] && u[1] == s[at + 1] && u[2] == s[at + 2] && u[3] == s[at + 3];
    assert v[0] == t[from] && v[1] == t[from + 1] && v[2] == t[from + 2] && v[3] == t[from + 3];
  }

  function Zeros(n: nat): seq<Byte> { seq(n, _ => 0) }
}
