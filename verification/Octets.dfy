/** Fixed-width unsigned integers and their big-endian encodings, as written and read by encoding/binary. */
module Octets {
  type byte = x: int | 0 <= x < 0x100
  type u16 = x: int | 0 <= x < 0x1_0000
  type u32 = x: int | 0 <= x < 0x1_0000_0000
  type u64 = x: int | 0 <= x < 0x1_0000_0000_0000_0000

  datatype Option<+T> = None | Some(value: T)

  function Be16(v: u16): (b: seq<byte>)
    ensures |b| == 2
  {
    [v / 0x100, v % 0x100]
  }

  function Be32(v: u32): (b: seq<byte>)
    ensures |b| == 4
  {
    Be16(v / 0x1_0000) + Be16(v % 0x1_0000)
  }

  function Be64(v: u64): (b: seq<byte>)
    ensures |b| == 8
  {
    Be32(v / 0x1_0000_0000) + Be32(v % 0x1_0000_0000)
  }

  /** The three low octets of v, most significant first. */
  function Be24(v: u32): (b: seq<byte>)
    ensures |b| == 3
  {
    [v / 0x1_0000 % 0x100] + Be16(v % 0x1_0000)
  }

  function U16At(s: seq<byte>, i: nat): (v: u16)
    requires i + 2 <= |s|
  {
    s[i] as int * 0x100 + s[i + 1]
  }

  function U24At(s: seq<byte>, i: nat): (v: u32)
    requires i + 3 <= |s|
    ensures v < 0x100_0000
  {
    s[i] as int * 0x1_0000 + U16At(s, i + 1)
  }

  function U32At(s: seq<byte>, i: nat): (v: u32)
    requires i + 4 <= |s|
  {
    U16At(s, i) as int * 0x1_0000 + U16At(s, i + 2)
  }

  function U64At(s: seq<byte>, i: nat): (v: u64)
    requires i + 8 <= |s|
  {
    U32At(s, i) as int * 0x1_0000_0000 + U32At(s, i + 4)
  }

  /** Most significant octet first. */
  lemma BigEndian(s: seq<byte>, i: nat)
    ensures i + 2 <= |s| ==> U16At(s, i) == s[i] as int * 0x100 + s[i + 1]
    ensures i + 4 <= |s| ==>
      U32At(s, i) == s[i] as int * 0x100_0000 + s[i + 1] as int * 0x1_0000 + s[i + 2] as int * 0x100 + s[i + 3]
  {
  }

  /** Reading at i gives back v whenever its encoding stands at i. */
  lemma ReadsBack16(s: seq<byte>, i: nat, v: u16)
    requires i + 2 <= |s| && s[i..i + 2] == Be16(v)
    ensures U16At(s, i) == v
  {
    assert s[i] == s[i..i + 2][0] && s[i + 1] == s[i..i + 2][1];
  }

  lemma ReadsBack24(s: seq<byte>, i: nat, v: u32)
    requires v < 0x100_0000
    requires i + 3 <= |s| && s[i..i + 3] == Be24(v)
    ensures U24At(s, i) == v
  {
    assert s[i] == s[i..i + 3][0];
    assert s[i + 1..i + 3] == s[i..i + 3][1..] == Be16(v % 0x1_0000);
    ReadsBack16(s, i + 1, v % 0x1_0000);
  }

  lemma ReadsBack32(s: seq<byte>, i: nat, v: u32)
    requires i + 4 <= |s| && s[i..i + 4] == Be32(v)
    ensures U32At(s, i) == v
  {
    var t := s[i..i + 4];
    assert s[i..i + 2] == t[..2] == Be16(v / 0x1_0000);
    assert s[i + 2..i + 4] == t[2..] == Be16(v % 0x1_0000);
    ReadsBack16(s, i, v / 0x1_0000);
    ReadsBack16(s, i + 2, v % 0x1_0000);
  }

  lemma ReadsBack64(s: seq<byte>, i: nat, v: u64)
    requires i + 8 <= |s| && s[i..i + 8] == Be64(v)
    ensures U64At(s, i) == v
  {
    var t := s[i..i + 8];
    assert s[i..i + 4] == t[..4] == Be32(v / 0x1_0000_0000);
    assert s[i + 4..i + 8] == t[4..] == Be32(v % 0x1_0000_0000);
    ReadsBack32(s, i, v / 0x1_0000_0000);
    ReadsBack32(s, i + 4, v % 0x1_0000_0000);
  }

  /** n rounded up to a multiple of four: both ((n+3)/4)*4 and (n+3)&^3 in the source. */
  function Align4(n: nat): (m: nat)
    ensures m % 4 == 0 && n <= m < n + 4
    ensures n % 4 == 0 ==> m == n
  {
    (n + 3) / 4 * 4
  }

  /** Rounding up stays below any multiple of four that is an upper bound. */
  lemma AlignWithin(n: nat, m: nat)
    requires n <= m && m % 4 == 0
    ensures Align4(n) <= m
  {
  }

  function Zeros(n: nat): (z: seq<byte>)
    ensures |z| == n
  {
    seq(n, _ => 0)
  }
}
