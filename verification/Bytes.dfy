/** Bytes, 32-bit little-endian words and in-place replacement of a stretch of a
    buffer: the vocabulary shared by every module that touches raw memory. */
module Bytes {
  type Byte = x: int | 0 <= x < 256

  const U32: int := 0x1_0000_0000

  type Word = x: int | 0 <= x < 0x1_0000_0000

  /** The buffer `s` after `memcpy(s + at, with, |with|)`. */
  function Splice<T>(s: seq<T>, at: nat, with: seq<T>): (r: seq<T>)
    requires at + |with| <= |s|
    ensures |r| == |s|
    ensures forall i :: 0 <= i < |s| ==> r[i] == if at <= i < at + |with| then with[i - at] else s[i]
  {
    s[..at] + with + s[at + |with|..]
  }

  function Zeros(n: nat): (z: seq<Byte>)
    ensures |z| == n && forall i :: 0 <= i < n ==> z[i] == 0
  {
    seq(n, i requires 0 <= i < n => 0)
  }

  function Load16(s: seq<Byte>, at: nat): nat
    requires at + 2 <= |s|
  {
    var b0: int, b1: int := s[at], s[at + 1];
    b0 + 0x100 * b1
  }

  /** The word stored at `s[at..at + 4]`. */
  function Load32(s: seq<Byte>, at: nat): Word
    requires at + 4 <= |s|
  {
    var b0: int, b1: int, b2: int, b3: int := s[at], s[at + 1], s[at + 2], s[at + 3];
    b0 + 0x100 * b1 + 0x1_0000 * b2 + 0x100_0000 * b3
  }

  /** The four bytes of a word, least significant first. */
  function Bytes32(v: Word): (r: seq<Byte>)
    ensures |r| == 4
  {
    [v % 0x100, v / 0x100 % 0x100, v / 0x1_0000 % 0x100, v / 0x100_0000]
  }

  function Store32(s: seq<Byte>, at: nat, v: Word): (r: seq<Byte>)
    requires at + 4 <= |s|
    ensures |r| == |s|
  {
    Splice(s, at, Bytes32(v))
  }

  lemma BytesOfWord(v: Word)
    ensures Load32(Bytes32(v), 0) == v
  {
    var q := v / 0x100;
    assert v == q * 0x100 + v % 0x100;
    var r := v / 0x1_0000;
    assert q / 0x100 == r;
    assert q == r * 0x100 + q % 0x100;
    assert r / 0x100 == v / 0x100_0000;
    assert r == (r / 0x100) * 0x100 + r % 0x100;
  }

  /** A stored word is read back, and only its own four bytes change. */
  lemma StoreThenLoad(s: seq<Byte>, at: nat, v: Word)
    requires at + 4 <= |s|
    ensures Load32(Store32(s, at, v), at) == v
    ensures forall i :: 0 <= i < |s| && !(at <= i < at + 4) ==> Store32(s, at, v)[i] == s[i]
  {
    BytesOfWord(v);
  }

  /** Words at other, non-overlapping positions survive a store. */
  lemma LoadElsewhere(s: seq<Byte>, at: nat, v: Word, other: nat)
    requires at + 4 <= |s| && other + 4 <= |s|
    requires other + 4 <= at || at + 4 <= other
    ensures Load32(Store32(s, at, v), other) == Load32(s, other)
  {
  }

  lemma SliceOfSlice(s: seq<Byte>, a: nat, b: nat, c: nat, d: nat)
    requires a <= b <= |s| && c <= d <= b - a
    ensures s[a..b][c..d] == s[a + c..a + d]
  {
    var x, y := s[a..b][c..d], s[a + c..a + d];
    forall i | 0 <= i < |x| ensures x[i] == y[i] {
      assert x[i] == s[a..b][c + i] == s[a + (c + i)];
    }
  }

  /** Where the bytes of a word stand, the word is loaded. */
  lemma LoadOf(s: seq<Byte>, at: nat, v: Word)
    requires at + 4 <= |s| && s[at..at + 4] == Bytes32(v)
    ensures Load32(s, at) == v
  {
    BytesOfWord(v);
    assert forall i :: 0 <= i < 4 ==> s[at + i] == Bytes32(v)[i];
  }

  /** memcpy(out + at, piece, |piece|). */
  method CopyTo(out: array<Byte>, at: nat, piece: seq<Byte>)
    requires at + |piece| <= out.Length
    modifies out
    ensures out[..] == Splice(old(out[..]), at, piece)
  {
    for i := 0 to |piece|
      invariant out[..] == Splice(old(out[..]), at, piece[..i])
    {
      out[at + i] := piece[i];
    }
    assert piece[..|piece|] == piece;
  }

  /** Words and half words lie in memory least significant byte first. */
  lemma LittleEndian(s: seq<Byte>, at: nat)
    ensures at + 4 <= |s| ==> Load32(s, at) == s[at] as int + 256 * (s[at + 1] as int) + 65536 * (s[at + 2] as int) + 16777216 * (s[at + 3] as int)
    ensures at + 2 <= |s| ==> Load16(s, at) == s[at] as int + 256 * (s[at + 1] as int)
    ensures Bytes32(0x1234_5678) == [0x78, 0x56, 0x34, 0x12]
  {
  }
}
