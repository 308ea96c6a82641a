/** Bytes, machine integers and their fixed-width encodings. */
module Bytes {

  datatype Option<+T> = None | Some(value: T)

  const MAX_UINT16: nat := 0xFFFF
  const MAX_UINT64: nat := 0xFFFF_FFFF_FFFF_FFFF

  type byte = x: int | 0 <= x < 0x100
  type bytes = seq<byte>
  type uint16 = x: int | 0 <= x <= MAX_UINT16
  type uint32 = x: int | 0 <= x <= 0xFFFF_FFFF
  type uint64 = x: int | 0 <= x <= MAX_UINT64

  lemma TakeDrop<T>(s: seq<T>, i: nat)
    requires i <= |s|
    ensures s[..i] + s[i..] == s
  {
  }

  lemma TakeNext<T>(s: seq<T>, i: nat)
    requires i < |s|
    ensures s[..i] + [s[i]] == s[..i + 1]
  {
  }

  lemma CutInFive<T>(s: seq<T>, a: nat, b: nat, c: nat, d: nat)
    requires a <= b <= c <= d <= |s|
    ensures s == s[..a] + s[a..b] + s[b..c] + s[c..d] + s[d..]
  {
  }

  lemma Associates<T>(a: seq<T>, b: seq<T>, c: seq<T>)
    ensures a + (b + c) == (a + b) + c
  {
  }

  /** A list put in front of a parsed rest, if there is one. */
  function Prepend<T>(front: seq<T>, rest: Option<seq<T>>): Option<seq<T>> {
    if rest.None? then None else Some(front + rest.value)
  }

  lemma PrependNothing<T>(rest: Option<seq<T>>)
    ensures Prepend([], rest) == rest
  {
    if rest.Some? {
      assert [] + rest.value == rest.value;
    }
  }

  lemma PrependTwice<T>(front: seq<T>, x: T, rest: Option<seq<T>>)
    ensures Prepend(front, Prepend([x], rest)) == Prepend(front + [x], rest)
  {
    if rest.Some? {
      assert front + ([x] + rest.value) == front + [x] + rest.value;
    }
  }

  /** 256 to the power n. */
  function Places(n: nat): (p: nat)
    ensures p >= 1
  {
    if n == 0 then 1 else 256 * Places(n - 1)
  }

  /** The n-byte big-endian form of v. */
  function BigEndian(v: nat, n: nat): (b: bytes)
    ensures |b| == n
  {
    if n == 0 then [] else BigEndian(v / 256, n - 1) + [v % 256]
  }

  function Number(b: bytes): (v: nat)
    ensures v < Places(|b|)
  {
    if b == [] then 0 else 256 * Number(b[..|b| - 1]) + b[|b| - 1]
  }

  lemma {:induction false} NumberOfBigEndian(v: nat, n: nat)
    requires v < Places(n)
    ensures Number(BigEndian(v, n)) == v
  {
    if n > 0 {
      NumberOfBigEndian(v / 256, n - 1);
      assert BigEndian(v, n)[..n - 1] == BigEndian(v / 256, n - 1);
    }
  }

  lemma {:induction false} BigEndianOfNumber(b: bytes)
    ensures BigEndian(Number(b), |b|) == b
  {
    if b != [] {
      var (front, last) := (b[..|b| - 1], b[|b| - 1]);
      BigEndianOfNumber(front);
      LastByte(Number(front), last);
      assert b == front + [last];
    }
  }

  lemma LastByte(front: nat, last: byte)
    ensures (256 * front + last) / 256 == front && (256 * front + last) % 256 == last
  {
  }

  lemma WidthLimits()
    ensures Places(2) == MAX_UINT16 + 1 && Places(4) == 0x1_0000_0000 && Places(8) == MAX_UINT64 + 1
  {
    assert Places(1) == 0x100;
    assert Places(2) == 0x1_0000;
    assert Places(3) == 0x100_0000;
    assert Places(4) == 0x1_0000_0000;
    assert Places(5) == 0x100_0000_0000;
    assert Places(6) == 0x1_0000_0000_0000;
    assert Places(7) == 0x100_0000_0000_0000;
  }

  function Be16(v: uint16): (b: bytes)
    ensures |b| == 2 && U16(b) == v
  {
    [v / 256, v % 256]
  }

  /** The low sixteen bits of a length; a length that fits is kept. */
  function Low16(n: nat): (v: uint16)
    ensures n <= MAX_UINT16 ==> v == n
  {
    n % 0x10000
  }

  function U16(b: bytes): uint16
    requires |b| == 2
  {
    256 * (b[0] as int) + b[1] as int
  }

  lemma Be16OfU16(b: bytes)
    requires |b| == 2
    ensures Be16(U16(b)) == b
  {
  }

  function Be64(v: uint64): (b: bytes)
    ensures |b| == 8 && U64(b) == v
  {
    WidthLimits();
    NumberOfBigEndian(v, 8);
    BigEndian(v, 8)
  }

  function U64(b: bytes): uint64
    requires |b| == 8
  {
    WidthLimits();
    Number(b)
  }

  lemma Be64OfU64(b: bytes)
    requires |b| == 8
    ensures Be64(U64(b)) == b
  {
    BigEndianOfNumber(b);
  }

  function Be32(v: uint32): (b: bytes)
    ensures |b| == 4 && U32(b) == v
  {
    WidthLimits();
    NumberOfBigEndian(v, 4);
    BigEndian(v, 4)
  }

  function U32(b: bytes): uint32
    requires |b| == 4
  {
    WidthLimits();
    Number(b)
  }

  /** The n-byte little-endian form of v, used by the transport nonce. */
  function LittleEndian(v: nat, n: nat): (b: bytes)
    ensures |b| == n
  {
    if n == 0 then [] else [v % 256] + LittleEndian(v / 256, n - 1)
  }

  lemma {:induction false} LittleEndianInjective(v: nat, w: nat, n: nat)
    requires v < Places(n) && w < Places(n)
    requires LittleEndian(v, n) == LittleEndian(w, n)
    ensures v == w
  {
    if n > 0 {
      var (a, b) := (LittleEndian(v, n), LittleEndian(w, n));
      assert v % 256 == a[0] == b[0] == w % 256;
      assert a[1..] == LittleEndian(v / 256, n - 1) && b[1..] == LittleEndian(w / 256, n - 1);
      LittleEndianInjective(v / 256, w / 256, n - 1);
    }
  }

  /** Buffers are filled from the front: store `src` behind what has been written so far. */
  method Put(data: array<byte>, at: nat, src: bytes)
    requires at + |src| <= data.Length
    modifies data
    ensures data[..at + |src|] == old(data[..at]) + src
  {
    forall i | 0 <= i < |src| {
      data[at + i] := src[i];
    }
  }

  /** The same, with what has been written given by name; returns where the next part goes. */
  method Append(data: array<byte>, at: nat, src: bytes, ghost written: bytes) returns (next: nat)
    requires at + |src| <= data.Length && data[..at] == written
    modifies data
    ensures next == at + |src| && data[..next] == written + src
  {
    Put(data, at, src);
    next := at + |src|;
  }

  /** Cutting a concatenation where its parts meet. */
  lemma CutConcat<T>(a: seq<T>, b: seq<T>)
    ensures (a + b)[..|a|] == a && (a + b)[|a|..] == b
  {
  }

  lemma CutThree<T>(a: seq<T>, b: seq<T>, c: seq<T>)
    ensures var d := a + b + c; var i := |a|; var j := |a| + |b|; |d| == j + |c| && d[..i] == a && d[i..j] == b && d[j..] == c
  {
  }

  /** A slice of a suffix is a slice of the whole. */
  lemma SliceOfSuffix<T>(s: seq<T>, at: nat, i: nat, j: nat)
    requires at <= |s| && i <= j <= |s| - at
    ensures s[at..][i..j] == s[at + i..at + j] && s[at..][j..] == s[at + j..]
  {
  }
}
