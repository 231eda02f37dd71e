/** Bytes and the fixed-width integers that the container formats are written in. */
module Bytes {
  newtype Byte = b: int | 0 <= b < 256

  function U16BE(s: seq<Byte>, i: nat): (n: nat)
    requires i + 2 <= |s|
  {
    s[i] as int * 0x100 + s[i + 1] as int
  }

  function U16LE(s: seq<Byte>, i: nat): (n: nat)
    requires i + 2 <= |s|
  {
    s[i] as int + s[i + 1] as int * 0x100
  }

  function U32BE(s: seq<Byte>, i: nat): (n: nat)
    requires i + 4 <= |s|
  {
    U16BE(s, i) * 0x1_0000 + U16BE(s, i + 2)
  }

  function U32LE(s: seq<Byte>, i: nat): (n: nat)
    requires i + 4 <= |s|
  {
    U16LE(s, i) + U16LE(s, i + 2) * 0x1_0000
  }

  /** The two bytes of a number truncated to 16 bits, most significant first. */
  function PutU16BE(n: nat): (s: seq<Byte>)
    ensures |s| == 2 && U16BE(s, 0) == n % 0x1_0000
  {
    [(n / 0x100 % 0x100) as Byte, (n % 0x100) as Byte]
  }

  /** The four bytes of a number truncated to 32 bits, most significant first. */
  function PutU32BE(n: nat): (s: seq<Byte>)
    ensures |s| == 4 && U32BE(s, 0) == n % 0x1_0000_0000
  {
    var m := n % 0x1_0000_0000;
    var lo, hi := m % 0x1_0000, m / 0x1_0000;
    [(hi / 0x100) as Byte, (hi % 0x100) as Byte, (lo / 0x100) as Byte, (lo % 0x100) as Byte]
  }

  /** The four bytes of a number truncated to 32 bits, least significant first. */
  function PutU32LE(n: nat): (s: seq<Byte>)
    ensures |s| == 4 && U32LE(s, 0) == n % 0x1_0000_0000
  {
    var m := n % 0x1_0000_0000;
    var lo, hi := m % 0x1_0000, m / 0x1_0000;
    [(lo % 0x100) as Byte, (lo / 0x100) as Byte, (hi % 0x100) as Byte, (hi / 0x100) as Byte]
  }

  /** Two bytes are determined by the number they spell. */
  lemma U16BEIsPut(s: seq<Byte>, i: nat)
    requires i + 2 <= |s|
    ensures U16BE(s, i) < 0x1_0000 && s[i..i + 2] == PutU16BE(U16BE(s, i))
  {
  }

  lemma U32BEIsPut(s: seq<Byte>, i: nat)
    requires i + 4 <= |s|
    ensures U32BE(s, i) < 0x1_0000_0000 && s[i..i + 4] == PutU32BE(U32BE(s, i))
  {
    var hi, lo := U16BE(s, i), U16BE(s, i + 2);
    Halves(hi, lo);
    Halves8(s[i], s[i + 1]);
    Halves8(s[i + 2], s[i + 3]);
    assert s[i..i + 4] == [s[i], s[i + 1], s[i + 2], s[i + 3]];
  }

  lemma U32LEIsPut(s: seq<Byte>, i: nat)
    requires i + 4 <= |s|
    ensures U32LE(s, i) < 0x1_0000_0000 && s[i..i + 4] == PutU32LE(U32LE(s, i))
  {
    var lo, hi := U16LE(s, i), U16LE(s, i + 2);
    Halves(hi, lo);
    Halves8(s[i + 1], s[i]);
    Halves8(s[i + 3], s[i + 2]);
    assert s[i..i + 4] == [s[i], s[i + 1], s[i + 2], s[i + 3]];
  }

  lemma Halves(hi: nat, lo: nat)
    requires hi < 0x1_0000 && lo < 0x1_0000
    ensures var n := hi * 0x1_0000 + lo;
            n < 0x1_0000_0000 && n % 0x1_0000_0000 == n && n % 0x1_0000 == lo && n / 0x1_0000 == hi
  {
  }

  lemma Halves8(hi: Byte, lo: Byte)
    ensures var n := hi as int * 0x100 + lo as int; n < 0x1_0000 && n % 0x100 == lo as int && n / 0x100 == hi as int
  {
  }

  /** A word of plain characters as bytes. */
  function Ascii(word: string): seq<Byte>
    requires forall i :: 0 <= i < |word| ==> word[i] < 0x80 as char
  {
    seq(|word|, i requires 0 <= i < |word| => word[i] as int as Byte)
  }
}
