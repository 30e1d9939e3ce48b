/**
 * Octets and the fixed-width unsigned integers that the PA-TNC attributes
 * carry in network (big-endian) byte order, as a bio_writer writes them and
 * a bio_reader reads them back.
 */
module Bytes {

  type Byte = b: int | 0 <= b < 0x100

  type Uint32 = n: int | 0 <= n < 0x1_0000_0000

  const Two24: nat := 0x100_0000
  const Two32: nat := 0x1_0000_0000

  /** The 24-bit big-endian number stored at s[i..i+3]. */
  function Uint24At(s: seq<Byte>, i: nat): (n: nat)
    requires i + 3 <= |s|
    ensures n < Two24
  {
    (s[i] as int) * 0x1_0000 + (s[i + 1] as int) * 0x100 + s[i + 2]
  }

  /** The 32-bit big-endian number stored at s[i..i+4]. */
  function Uint32At(s: seq<Byte>, i: nat): (n: Uint32)
    requires i + 4 <= |s|
  {
    (s[i] as int) * 0x100_0000 + (s[i + 1] as int) * 0x1_0000 + (s[i + 2] as int) * 0x100 + s[i + 3]
  }

  /** The three octets written for a 24-bit number: reading them back gives the number. */
  function Uint24Bytes(n: nat): (r: seq<Byte>)
    requires n < Two24
    ensures |r| == 3 && Uint24At(r, 0) == n
  {
    var n1 := n / 0x100;
    assert n == n1 * 0x100 + n % 0x100;
    assert n1 == (n1 / 0x100) * 0x100 + n1 % 0x100;
    [n1 / 0x100, n1 % 0x100, n % 0x100]
  }

  /** The four octets written for a 32-bit number: reading them back gives the number. */
  function Uint32Bytes(n: Uint32): (r: seq<Byte>)
    ensures |r| == 4 && Uint32At(r, 0) == n
  {
    var n1 := n / 0x100;
    var n2 := n1 / 0x100;
    assert n == n1 * 0x100 + n % 0x100;
    assert n1 == n2 * 0x100 + n1 % 0x100;
    assert n2 == (n2 / 0x100) * 0x100 + n2 % 0x100;
    [n2 / 0x100, n2 % 0x100, n1 % 0x100, n % 0x100]
  }

  /** Reading three octets and writing the number again reproduces the octets. */
  lemma Uint24Canonical(s: seq<Byte>, i: nat)
    requires i + 3 <= |s|
    ensures Uint24Bytes(Uint24At(s, i)) == s[i..i + 3]
  {
    var n := Uint24At(s, i);
    assert n / 0x1_0000 == s[i];
    assert n / 0x100 == (s[i] as int) * 0x100 + s[i + 1];
  }

  /** Reading four octets and writing the number again reproduces the octets. */
  lemma Uint32Canonical(s: seq<Byte>, i: nat)
    requires i + 4 <= |s|
    ensures Uint32Bytes(Uint32At(s, i)) == s[i..i + 4]
  {
    var n := Uint32At(s, i);
    assert n / 0x100_0000 == s[i];
    assert n / 0x1_0000 == (s[i] as int) * 0x100 + s[i + 1];
    assert n / 0x100 == (s[i] as int) * 0x1_0000 + (s[i + 1] as int) * 0x100 + s[i + 2];
  }

  /** A number read at position i depends only on the four octets there. */
  lemma Uint32AtSlice(s: seq<Byte>, t: seq<Byte>, i: nat)
    requires |t| >= 4 && i + |t| <= |s| && s[i..i + |t|] == t
    ensures Uint32At(s, i) == Uint32At(t, 0)
  {
    assert s[i] == t[0] && s[i + 1] == t[1] && s[i + 2] == t[2] && s[i + 3] == t[3];
  }
}
