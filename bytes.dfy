/**
  Bytes, little-endian integers and NUL-terminated strings inside a flat byte
  buffer: the vocabulary the wire codec and the transport framing share.
 */
module Bytes {
  import opened Wrappers

  type byte = b: int | 0 <= b < 256

  const NUL: byte := 0

  /** The bytes of an ASCII string literal, one byte per character. */
  function Ascii(s: string): (r: seq<byte>)
    requires forall i | 0 <= i < |s| :: s[i] as int < 256
    ensures |r| == |s|
    ensures forall i | 0 <= i < |s| :: r[i] == s[i] as int
  {
    seq(|s|, i requires 0 <= i < |s| => s[i] as int as byte)
  }

  function Pow256(k: nat): (r: nat)
    ensures r >= 1
  {
    if k == 0 then 1 else 256 * Pow256(k - 1)
  }

  /** The unsigned value of `s` read little-endian: `s[0]` is the least significant byte. */
  function LittleEndian(s: seq<byte>): (r: nat)
    ensures r < Pow256(|s|)
  {
    if s == [] then 0
    else
      var rest := LittleEndian(s[1..]);
      assert rest <= Pow256(|s| - 1) - 1;
      s[0] + 256 * rest
  }

  /** The `k` low-order bytes of `n`, least significant first (a little-endian buffer of width k). */
  function ToLittleEndian(n: nat, k: nat): (r: seq<byte>)
    ensures |r| == k
  {
    if k == 0 then [] else [n % 256] + ToLittleEndian(n / 256, k - 1)
  }

  /** Writing a value that fits in k bytes and reading it back gives the value. */
  lemma {:induction false} ReadWrittenLittleEndian(n: nat, k: nat)
    requires n < Pow256(k)
    ensures LittleEndian(ToLittleEndian(n, k)) == n
  {
    if k > 0 {
      assert n / 256 < Pow256(k - 1);
      ReadWrittenLittleEndian(n / 256, k - 1);
      assert ToLittleEndian(n, k)[1..] == ToLittleEndian(n / 256, k - 1);
    }
  }

  /** Reading a buffer and writing the value back at the same width gives the buffer. */
  lemma {:induction false} WriteReadLittleEndian(s: seq<byte>)
    ensures ToLittleEndian(LittleEndian(s), |s|) == s
  {
    if s != [] {
      WriteReadLittleEndian(s[1..]);
      var n := LittleEndian(s);
      assert n % 256 == s[0];
      assert n / 256 == LittleEndian(s[1..]);
    }
  }

  /** True when no byte of `s` is NUL. */
  predicate NoNul(s: seq<byte>)
  {
    forall i | 0 <= i < |s| :: s[i] != NUL
  }

  /** `memchr(s + from, 0, |s| - from)`: the index of the first NUL at or after `from`. */
  function FindNul(s: seq<byte>, from: nat): (r: Option<nat>)
    requires from <= |s|
    ensures r.None? ==> NoNul(s[from..])
    ensures r.Some? ==> from <= r.value < |s| && s[r.value] == NUL && NoNul(s[from..r.value])
    decreases |s| - from
  {
    if from == |s| then None
    else if s[from] == NUL then Some(from)
    else
      var r := FindNul(s, from + 1);
      assert r.None? ==> s[from..] == [s[from]] + s[from + 1..];
      assert r.Some? ==> s[from..r.value] == [s[from]] + s[from + 1..r.value];
      r
  }

  /** `memchr` finds a NUL at or before any NUL it passes over. */
  lemma {:induction false} FindNulNoLater(s: seq<byte>, from: nat, i: nat)
    requires from <= i < |s| && s[i] == NUL
    ensures FindNul(s, from).Some? && FindNul(s, from).value <= i
    decreases i - from
  {
    if s[from] != NUL {
      FindNulNoLater(s, from + 1, i);
    }
  }

  /**
    The C string starting at `off` in a buffer that, like a std::string, is
    implicitly NUL-terminated one past its end: the bytes up to the first NUL.
   */
  function CStringAt(s: seq<byte>, off: nat): (r: seq<byte>)
    ensures NoNul(r)
    ensures off <= |s| ==> r <= s[off..]
    ensures off <= |s| && off + |r| < |s| ==> s[off + |r|] == NUL
  {
    if off >= |s| then []
    else match FindNul(s, off)
      case Some(j) => s[off..j]
      case None => s[off..]
  }

  /** The C string one byte further on is the tail of the C string, when that is not empty. */
  lemma CStringAtNext(s: seq<byte>, off: nat)
    requires off < |s| && s[off] != NUL
    ensures CStringAt(s, off + 1) == CStringAt(s, off)[1..]
  {
    var r := CStringAt(s, off);
    var t := CStringAt(s, off + 1);
    assert |r| >= 1 && r[0] == s[off];
    CStringPrefix(s, off + 1, r[1..]);
  }

  /** A NUL-free run ended by NUL (or by the end of the buffer) is exactly the C string there. */
  lemma CStringPrefix(s: seq<byte>, off: nat, w: seq<byte>)
    requires off + |w| <= |s| && s[off..off + |w|] == w && NoNul(w)
    requires off + |w| < |s| ==> s[off + |w|] == NUL
    ensures CStringAt(s, off) == w
  {
    if off < |s| {
      assert |CStringAt(s, off)| == |w|;
    }
  }
}
