/** Octets, C strings, and the little-endian fields of the wire format. */
module Bytes {

  datatype Option<+T> = None | Some(value: T)

  type byte = b: int | 0 <= b < 256

  type bytes = seq<byte>

  /** A C string without its terminator. */
  type CString = s: bytes | 0 !in s

  /** Where the C string at position at ends: its NUL, or the window's end if it has none. */
  function EndOfString(b: bytes, at: nat): (end: nat)
    requires at <= |b|
    ensures at <= end <= |b|
    ensures forall i | at <= i < end :: b[i] != 0
    ensures end < |b| ==> b[end] == 0
    decreases |b| - at
  {
    if at == |b| || b[at] == 0 then at else EndOfString(b, at + 1)
  }

  /** p points to a C string in memory. */
  predicate IsString(memory: bytes, p: nat) {
    p < |memory| && EndOfString(memory, p) < |memory|
  }

  function StringAt(memory: bytes, p: nat): CString
    requires p <= |memory|
  {
    var end := EndOfString(memory, p);
    assert 0 !in memory[p..end];
    memory[p..end]
  }

  /** The strings at the addresses. */
  function Texts(memory: bytes, ps: seq<nat>): (r: seq<CString>)
    requires forall i | 0 <= i < |ps| :: IsString(memory, ps[i])
    ensures |r| == |ps| && forall i | 0 <= i < |ps| :: IsString(memory, ps[i]) && r[i] == StringAt(memory, ps[i])
  {
    if ps == [] then []
    else
      assert IsString(memory, ps[0]);
      [StringAt(memory, ps[0])] + Texts(memory, ps[1..])
  }

  function Ascii(s: string): (b: bytes)
    requires forall i | 0 <= i < |s| :: s[i] as int < 256
    ensures |b| == |s|
    ensures forall i | 0 <= i < |s| :: b[i] == s[i] as int
  {
    seq(|s|, i requires 0 <= i < |s| => s[i] as int)
  }

  /** A uint16_t as it lies in memory on the modelled little-endian target. */
  function U16(n: nat): (b: bytes)
    requires n < 0x1_0000
    ensures |b| == 2
  {
    [n % 256, n / 256]
  }

  function ReadU16(b: bytes, at: nat): (n: nat)
    requires at + 2 <= |b|
    ensures n < 0x1_0000
  {
    b[at] as int + 256 * b[at + 1] as int
  }

  /** The 32-bit pattern of an int. */
  function U32(n: nat): (b: bytes)
    requires n < 0x1_0000_0000
    ensures |b| == 4
  {
    U16(n % 0x1_0000) + U16(n / 0x1_0000)
  }

  function ReadU32(b: bytes, at: nat): (n: nat)
    requires at + 4 <= |b|
    ensures n < 0x1_0000_0000
  {
    ReadU16(b, at) + 0x1_0000 * ReadU16(b, at + 2)
  }

  lemma ReadWritten16(n: nat, before: bytes, after: bytes)
    requires n < 0x1_0000
    ensures ReadU16(before + U16(n) + after, |before|) == n
  {
    var b := before + U16(n) + after;
    assert b[|before|] == n % 256 && b[|before| + 1] == n / 256;
  }

  lemma ReadWritten32(n: nat)
    requires n < 0x1_0000_0000
    ensures ReadU32(U32(n), 0) == n
  {
    ReadWritten16(n % 0x1_0000, [], U16(n / 0x1_0000));
    ReadWritten16(n / 0x1_0000, U16(n % 0x1_0000), []);
    assert U32(n) == [] + U16(n % 0x1_0000) + U16(n / 0x1_0000);
    assert U32(n) == U16(n % 0x1_0000) + U16(n / 0x1_0000) + [];
  }

  /** How much of max bytes a write(2) that answered n has written. */
  function Clamp(n: int, max: nat): (r: nat)
    ensures r <= max
  {
    if n < 0 then 0 else if n > max then max else n
  }

  /** The bytes of b that a write(2) that answered n has written. */
  function Written(b: bytes, n: int): (w: bytes)
    ensures w <= b && (n >= |b| ==> w == b)
  {
    b[..Clamp(n, |b|)]
  }
}
