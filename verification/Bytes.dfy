/** Fixed-width unsigned integers as integer ranges, and their byte encodings. */
module Bytes {
  type Byte = x: int | 0 <= x < 0x100
  type U16 = x: int | 0 <= x < 0x1_0000
  type U32 = x: int | 0 <= x < 0x1_0000_0000
  type U64 = x: int | 0 <= x < 0x1_0000_0000_0000_0000

  datatype Option<+T> = None | Some(value: T)

  /** Big-endian (network order) encodings. */
  function Be16(x: U16): (b: seq<Byte>)
    ensures |b| == 2
  {
    [x / 0x100, x % 0x100]
  }

  function Be32(x: U32): (b: seq<Byte>)
    ensures |b| == 4
  {
    var hi, lo := x / 0x1_0000, x % 0x1_0000;
    [hi / 0x100, hi % 0x100, lo / 0x100, lo % 0x100]
  }

  /** Little-endian encodings, used only for the embedded send timestamp. */
  function Le32(x: U32): (b: seq<Byte>)
    ensures |b| == 4
  {
    var hi, lo := x / 0x1_0000, x % 0x1_0000;
    [lo % 0x100, lo / 0x100, hi % 0x100, hi / 0x100]
  }

  function Le64(x: U64): (b: seq<Byte>)
    ensures |b| == 8
  {
    Le32(x % 0x1_0000_0000) + Le32(x / 0x1_0000_0000)
  }

  function ReadBe16(b: seq<Byte>, i: nat): U16
    requires i + 2 <= |b|
  {
    b[i] as int * 0x100 + b[i + 1] as int
  }

  function ReadBe32(b: seq<Byte>, i: nat): U32
    requires i + 4 <= |b|
  {
    ReadBe(b, i, 4)
  }

  /** The big-endian number in n bytes from i on. */
  function ReadBe(b: seq<Byte>, i: nat, n: nat): (r: nat)
    requires i + n <= |b| && n <= 4
    ensures r < if n == 0 then 1 else if n == 1 then 0x100 else if n == 2 then 0x1_0000
                else if n == 3 then 0x100_0000 else 0x1_0000_0000
  {
    if n == 0 then 0 else ReadBe(b, i, n - 1) * 0x100 + b[i + n - 1]
  }

  /** A field read depends on its own bytes only. */
  lemma {:induction false} ReadBeSame(a: seq<Byte>, i: nat, b: seq<Byte>, j: nat, n: nat)
    requires i + n <= |a| && j + n <= |b| && n <= 4
    requires a[i..i + n] == b[j..j + n]
    ensures ReadBe(a, i, n) == ReadBe(b, j, n)
  {
    if n > 0 {
      SliceOfSlice(a, i, n, 0, n - 1);
      SliceOfSlice(b, j, n, 0, n - 1);
      assert a[i..i + n][n - 1] == a[i + n - 1] && b[j..j + n][n - 1] == b[j + n - 1];
      ReadBeSame(a, i, b, j, n - 1);
    }
  }

  lemma SliceOfSlice<T>(s: seq<T>, at: nat, n: nat, i: nat, k: nat)
    requires at + n <= |s| && i + k <= n
    ensures s[at..at + n][i..i + k] == s[at + i..at + i + k]
  {
    var a, b := s[at..at + n][i..i + k], s[at + i..at + i + k];
    assert |a| == |b|;
    forall j | 0 <= j < k ensures a[j] == b[j] {
      assert a[j] == s[at..at + n][i + j] == s[at + i + j];
    }
  }

  function ReadLe32(b: seq<Byte>, i: nat): U32
    requires i + 4 <= |b|
  {
    b[i] as int + b[i + 1] as int * 0x100 + b[i + 2] as int * 0x1_0000 + b[i + 3] as int * 0x100_0000
  }

  function ReadLe64(b: seq<Byte>, i: nat): U64
    requires i + 8 <= |b|
  {
    ReadLe32(b, i) as int + ReadLe32(b, i + 4) as int * 0x1_0000_0000
  }

  /** Reading a field back out of a larger buffer returns the number that was written. */
  lemma Be16At(b: seq<Byte>, i: nat, x: U16)
    requires i + 2 <= |b| && b[i..i + 2] == Be16(x)
    ensures ReadBe16(b, i) == x
  {
    assert b[i..i + 2][0] == b[i] && b[i..i + 2][1] == b[i + 1];
  }

  lemma Be32At(b: seq<Byte>, i: nat, x: U32)
    requires i + 4 <= |b| && b[i..i + 4] == Be32(x)
    ensures ReadBe32(b, i) == x
  {
    var s := b[i..i + 4];
    assert s[0] == b[i] && s[1] == b[i + 1] && s[2] == b[i + 2] && s[3] == b[i + 3];
    assert ReadBe(b, i, 0) == 0;
    assert ReadBe(b, i, 1) == b[i];
    assert ReadBe(b, i, 2) == b[i] as int * 0x100 + b[i + 1];
    assert ReadBe(b, i, 3) == b[i] as int * 0x1_0000 + b[i + 1] as int * 0x100 + b[i + 2];
  }

  lemma Le32At(b: seq<Byte>, i: nat, x: U32)
    requires i + 4 <= |b| && b[i..i + 4] == Le32(x)
    ensures ReadLe32(b, i) == x
  {
    var s := b[i..i + 4];
    assert s[0] == b[i] && s[1] == b[i + 1] && s[2] == b[i + 2] && s[3] == b[i + 3];
  }

  lemma Le64At(b: seq<Byte>, i: nat, x: U64)
    requires i + 8 <= |b| && b[i..i + 8] == Le64(x)
    ensures ReadLe64(b, i) == x
  {
    var lo, hi := x % 0x1_0000_0000, x / 0x1_0000_0000;
    assert b[i..i + 4] == b[i..i + 8][..4] == Le32(lo);
    assert b[i + 4..i + 8] == b[i..i + 8][4..] == Le32(hi);
    Le32At(b, i, lo);
    Le32At(b, i + 4, hi);
  }

  function Zeros(n: nat): (z: seq<Byte>)
    ensures |z| == n && forall i :: 0 <= i < n ==> z[i] == 0
  {
    seq(n, _ => 0)
  }

  /** Bytes of zero padding that bring a length up to a multiple of four. */
  function Pad4(n: nat): (p: nat)
    ensures p < 4 && (n + p) % 4 == 0
  {
    (4 - n % 4) % 4
  }
}
