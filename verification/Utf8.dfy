/**
 The diagnostic text of a CLOSE frame is well-formed UTF-8: exactly the encodings of sequences of Unicode scalar
 values.
 */
module Utf8 {
  import opened Bytes
  import opened Frames

  type Scalar = u: int | 0 <= u <= 0x10FFFF && !(0xD800 <= u <= 0xDFFF)

  function EncodeScalar(u: Scalar): bytes {
    if u < 0x80 then [u]
    else if u < 0x800 then [0xC0 + u / 64, 0x80 + u % 64]
    else if u < 0x10000 then [0xE0 + u / 4096, 0x80 + u / 64 % 64, 0x80 + u % 64]
    else [0xF0 + u / 262144, 0x80 + u / 4096 % 64, 0x80 + u / 64 % 64, 0x80 + u % 64]
  }

  function EncodeText(us: seq<Scalar>): bytes {
    if us == [] then [] else EncodeScalar(us[0]) + EncodeText(us[1..])
  }

  /** One encoded scalar value in front is skipped. */
  lemma FrontIsValid(u: Scalar, rest: bytes)
    ensures ValidUtf8(EncodeScalar(u) + rest) <==> ValidUtf8(rest)
  {
    var b := EncodeScalar(u) + rest;
    if u < 0x80 {
      assert b[1..] == rest;
    } else if u < 0x800 {
      assert 2 <= u / 64 <= 31;
      assert b[2..] == rest;
    } else if u < 0x10000 {
      assert b[0] == 0xE0 ==> b[1] >= 0xA0;
      assert b[0] == 0xED ==> b[1] <= 0x9F;
      assert b[3..] == rest;
    } else {
      assert 0 <= u / 262144 <= 4;
      assert b[0] == 0xF0 ==> b[1] >= 0x90;
      assert b[0] == 0xF4 ==> b[1] <= 0x8F;
      assert b[4..] == rest;
    }
  }

  function Two(a: int, b: int): int {
    64 * (a - 0xC0) + (b - 0x80)
  }

  function Three(a: int, b: int, c: int): int {
    4096 * (a - 0xE0) + 64 * (b - 0x80) + (c - 0x80)
  }

  function Four(a: int, b: int, c: int, d: int): int {
    262144 * (a - 0xF0) + 4096 * (b - 0x80) + 64 * (c - 0x80) + (d - 0x80)
  }

  lemma TwoBytes(a: byte, b: byte)
    requires 0xC2 <= a <= 0xDF && Trailing(b)
    ensures var u := Two(a, b); 0x80 <= u < 0x800 && EncodeScalar(u) == [a, b]
  {
  }

  lemma ThreeBytes(a: byte, b: byte, c: byte)
    requires 0xE0 <= a <= 0xEF && Trailing(b) && Trailing(c) && (a == 0xE0 ==> b >= 0xA0) && (a == 0xED ==> b <= 0x9F)
    ensures var u := Three(a, b, c);
      0x800 <= u < 0x10000 && !(0xD800 <= u <= 0xDFFF) && EncodeScalar(u) == [a, b, c]
  {
    var (u, x, y) := (Three(a, b, c), a as int, b as int);
    assert u / 64 == 64 * (x - 0xE0) + (y - 0x80);
    assert u / 4096 == x - 0xE0;
  }

  lemma FourBytes(a: byte, b: byte, c: byte, d: byte)
    requires 0xF0 <= a <= 0xF4 && Trailing(b) && Trailing(c) && Trailing(d) && (a == 0xF0 ==> b >= 0x90) && (a == 0xF4 ==> b <= 0x8F)
    ensures var u := Four(a, b, c, d);
      0x10000 <= u <= 0x10FFFF && EncodeScalar(u) == [a, b, c, d]
  {
    var (u, x, y, z) := (Four(a, b, c, d), a as int, b as int, c as int);
    assert u / 64 == 4096 * (x - 0xF0) + 64 * (y - 0x80) + (z - 0x80);
    assert u / 4096 == 64 * (x - 0xF0) + (y - 0x80);
    assert u / 262144 == x - 0xF0;
  }

  /** Valid text starts with an encoded scalar value. */
  lemma FirstScalar(b: bytes) returns (u: Scalar, k: nat)
    requires b != [] && ValidUtf8(b)
    ensures 0 < k <= |b| && EncodeScalar(u) == b[..k] && ValidUtf8(b[k..])
  {
    if b[0] < 0x80 {
      u, k := b[0], 1;
      assert b[..1] == [b[0]];
    } else if b[0] <= 0xDF {
      TwoBytes(b[0], b[1]);
      u, k := Two(b[0], b[1]), 2;
      assert b[..2] == [b[0], b[1]];
    } else if b[0] <= 0xEF {
      ThreeBytes(b[0], b[1], b[2]);
      u, k := Three(b[0], b[1], b[2]), 3;
      assert b[..3] == [b[0], b[1], b[2]];
    } else {
      FourBytes(b[0], b[1], b[2], b[3]);
      u, k := Four(b[0], b[1], b[2], b[3]), 4;
      assert b[..4] == [b[0], b[1], b[2], b[3]];
    }
  }

  lemma {:induction false} EncodedIsValid(us: seq<Scalar>)
    ensures ValidUtf8(EncodeText(us))
  {
    if us != [] {
      EncodedIsValid(us[1..]);
      FrontIsValid(us[0], EncodeText(us[1..]));
    }
  }

  lemma {:induction false} ValidIsEncoded(b: bytes) returns (us: seq<Scalar>)
    requires ValidUtf8(b)
    ensures EncodeText(us) == b
    decreases |b|
  {
    if b == [] {
      us := [];
    } else {
      var u, k := FirstScalar(b);
      var rest := ValidIsEncoded(b[k..]);
      us := [u] + rest;
      assert us[1..] == rest && b == b[..k] + b[k..];
    }
  }

  /** Bytes are valid exactly when they encode some text. */
  lemma Utf8Exactly(b: bytes)
    ensures ValidUtf8(b) <==> exists us :: EncodeText(us) == b
  {
    if ValidUtf8(b) {
      var us := ValidIsEncoded(b);
    }
    if us :| EncodeText(us) == b {
      EncodedIsValid(us);
    }
  }
}
