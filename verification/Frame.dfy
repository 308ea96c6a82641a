/**
 The inner frames of codec/frame.go: the plaintext of a TRANSPORT packet.

 Printing and parsing are proved to be one relation read in two directions, limits and
 combination rules included.
 */
module Frames {
  import opened Bytes

  datatype Frame = Frame(kind: byte, flags: byte, body: bytes)

  const IP_PACKET: byte := 0x01
  const CONFIRM: byte := 0x02
  const PING: byte := 0x03
  const PONG: byte := 0x04
  const CLOSE: byte := 0x08

  const HEADER_SIZE: nat := 4
  const DEFAULT_MAX_PLAINTEXT: nat := 1400 - 32 - 16
  const MAX_CLOSE_TEXT: nat := 256

  // ---------------------------------------------------------------------------------------------
  // One frame
  // ---------------------------------------------------------------------------------------------

  predicate Trailing(b: byte) {
    0x80 <= b <= 0xBF
  }

  /** Well-formed UTF-8: no overlong form, no surrogate, nothing above U+10FFFF. */
  predicate ValidUtf8(b: bytes) {
    if b == [] then true
    else if b[0] < 0x80 then ValidUtf8(b[1..])
    else if 0xC2 <= b[0] <= 0xDF then |b| >= 2 && Trailing(b[1]) && ValidUtf8(b[2..])
    else if 0xE0 <= b[0] <= 0xEF then
      && |b| >= 3 && Trailing(b[1]) && Trailing(b[2])
      && (b[0] == 0xE0 ==> b[1] >= 0xA0) && (b[0] == 0xED ==> b[1] <= 0x9F)
      && ValidUtf8(b[3..])
    else if 0xF0 <= b[0] <= 0xF4 then
      && |b| >= 4 && Trailing(b[1]) && Trailing(b[2]) && Trailing(b[3])
      && (b[0] == 0xF0 ==> b[1] >= 0x90) && (b[0] == 0xF4 ==> b[1] <= 0x8F)
      && ValidUtf8(b[4..])
    else false
  }

  /** A whole IPv4 or IPv6 packet whose own length fields agree with the frame. */
  predicate ValidIpPacket(p: bytes) {
    && p != []
    && match p[0] / 16
       case 4 => |p| >= 20 && 20 <= p[0] % 16 * 4 <= |p| && U16(p[2..4]) == |p|
       case 6 => |p| >= 40 && 40 + U16(p[4..6]) == |p|
       case _ => false
  }

  predicate ValidClose(body: bytes) {
    2 <= |body| <= 2 + MAX_CLOSE_TEXT && ValidUtf8(body[2..])
  }

  predicate ValidFrame(f: Frame) {
    && IP_PACKET <= f.kind <= CLOSE && f.flags == 0
    && (f.kind == IP_PACKET ==> ValidIpPacket(f.body))
    && (f.kind == CONFIRM ==> |f.body| == 32)
    && (f.kind == PING || f.kind == PONG ==> |f.body| == 8)
    && (f.kind == CLOSE ==> ValidClose(f.body))
  }

  // ---------------------------------------------------------------------------------------------
  // The rules for a whole plaintext
  // ---------------------------------------------------------------------------------------------

  ghost predicate Contains(fs: seq<Frame>, kind: byte) {
    exists i :: 0 <= i < |fs| && fs[i].kind == kind
  }

  /** An IP packet travels alone; CONFIRM is followed by PING and by nothing else. */
  ghost predicate ValidCombination(fs: seq<Frame>) {
    && (Contains(fs, IP_PACKET) ==> |fs| == 1)
    && (Contains(fs, CONFIRM) ==> |fs| == 2 && fs[0].kind == CONFIRM && fs[1].kind == PING)
  }

  function Limit(maxPlaintext: int): Option<nat> {
    if maxPlaintext == 0 then Some(DEFAULT_MAX_PLAINTEXT)
    else if maxPlaintext < HEADER_SIZE || maxPlaintext > MAX_UINT16 then None
    else Some(maxPlaintext)
  }

  function EncodeFrame(f: Frame): bytes {
    [f.kind, 0] + Be16(Low16(|f.body|)) + f.body
  }

  function Encode(fs: seq<Frame>): bytes {
    if fs == [] then [] else EncodeFrame(fs[0]) + Encode(fs[1..])
  }

  predicate Sendable(fs: seq<Frame>) {
    forall f :: f in fs ==> ValidFrame(f) && |f.body| <= MAX_UINT16
  }

  ghost function Marshal(fs: seq<Frame>, maxPlaintext: int): Option<bytes> {
    var limit := Limit(maxPlaintext);
    if limit.Some? && fs != [] && ValidCombination(fs) && Sendable(fs) && |Encode(fs)| <= limit.value
    then Some(Encode(fs))
    else None
  }

  function Decode(data: bytes): Option<seq<Frame>>
    decreases |data|
  {
    if data == [] then Some([])
    else if |data| < 4 then None
    else
      var length := U16(data[2..4]);
      if data[1] != 0 || length > |data| - 4 then None
      else
        var f := Frame(data[0], 0, data[4..4 + length]);
        if !ValidFrame(f) then None else Prepend([f], Decode(data[4 + length..]))
  }

  ghost function Parse(data: bytes, maxPlaintext: int): Option<seq<Frame>> {
    var limit := Limit(maxPlaintext);
    if limit.None? || data == [] || |data| > limit.value then None
    else
      var fs := Decode(data);
      if fs.Some? && ValidCombination(fs.value) then fs else None
  }

  // ---------------------------------------------------------------------------------------------
  // Exact inverses
  // ---------------------------------------------------------------------------------------------

  lemma FrameAtFront(data: bytes, length: nat)
    requires |data| >= 4 + length && data[1] == 0 && length == U16(data[2..4])
    ensures EncodeFrame(Frame(data[0], 0, data[4..4 + length])) + data[4 + length..] == data
  {
    Be16OfU16(data[2..4]);
    assert data == [data[0], data[1]] + data[2..4] + data[4..4 + length] + data[4 + length..];
  }

  lemma EncodedFront(f: Frame, rest: bytes)
    requires |f.body| <= MAX_UINT16
    ensures var data := EncodeFrame(f) + rest;
      && |data| == 4 + |f.body| + |rest|
      && data[0] == f.kind && data[1] == 0 && U16(data[2..4]) == |f.body|
      && data[4..4 + |f.body|] == f.body && data[4 + |f.body|..] == rest
  {
    var data := EncodeFrame(f) + rest;
    assert data[2..4] == Be16(|f.body|);
  }

  lemma EncodeCons(f: Frame, rest: seq<Frame>)
    ensures Encode([f] + rest) == EncodeFrame(f) + Encode(rest)
  {
    hide EncodeFrame;
    assert ([f] + rest)[1..] == rest;
  }

  lemma {:induction false} DecodeSound(data: bytes)
    ensures var r := Decode(data); r.Some? ==> Sendable(r.value) && Encode(r.value) == data
    decreases |data|
  {
    hide ValidFrame, EncodeFrame;
    var r := Decode(data);
    if r.Some? && data != [] {
      var length := U16(data[2..4]);
      DecodeSound(data[4 + length..]);
      EncodeCons(Frame(data[0], 0, data[4..4 + length]), Decode(data[4 + length..]).value);
      FrameAtFront(data, length);
    }
  }

  lemma {:induction false} DecodeComplete(fs: seq<Frame>)
    requires Sendable(fs)
    ensures Decode(Encode(fs)) == Some(fs)
  {
    if fs != [] {
      var (f, rest) := (fs[0], fs[1..]);
      DecodeComplete(rest);
      assert fs == [f] + rest;
      EncodedFront(f, Encode(rest));
      FlagsAreZero(f);
      hide ValidFrame, EncodeFrame;
    }
  }

  lemma FlagsAreZero(f: Frame)
    requires ValidFrame(f)
    ensures Frame(f.kind, 0, f.body) == f
  {
  }

  lemma {:induction false} EncodedSize(fs: seq<Frame>)
    requires fs != []
    ensures |Encode(fs)| >= HEADER_SIZE
  {
  }

  /**
   Under one limit, printing and parsing are the same relation: a plaintext is accepted with the
   frames fs exactly when fs is accepted with that plaintext.
   */
  lemma ParseInvertsMarshal(data: bytes, fs: seq<Frame>, maxPlaintext: int)
    ensures Parse(data, maxPlaintext) == Some(fs) <==> Marshal(fs, maxPlaintext) == Some(data)
  {
    hide ValidCombination;
    DecodeSound(data);
    if Sendable(fs) {
      DecodeComplete(fs);
      if fs != [] {
        EncodedSize(fs);
      }
    }
  }

  // ---------------------------------------------------------------------------------------------
  // The loops of the source
  // ---------------------------------------------------------------------------------------------

  method ValidateCombination(frames: seq<Frame>) returns (ok: bool)
    ensures ok <==> ValidCombination(frames)
  {
    var ipPackets, confirmIndex := 0, -1;
    for n := 0 to |frames|
      invariant ipPackets >= 0 && (ipPackets > 0 <==> Contains(frames[..n], IP_PACKET)) && ipPackets <= n
    {
      TakeNext(frames, n);
      assert Contains(frames[..n + 1], IP_PACKET) <==> Contains(frames[..n], IP_PACKET) || frames[n].kind == IP_PACKET by {
        ContainsNext(frames, n, IP_PACKET);
      }
      if frames[n].kind == IP_PACKET {
        ipPackets := ipPackets + 1;
      }
    }
    assert frames[..|frames|] == frames;
    for index := 0 to |frames|
      invariant confirmIndex >= 0 ==> confirmIndex < index && frames[confirmIndex].kind == CONFIRM
      invariant confirmIndex < 0 ==> forall i :: 0 <= i < index ==> frames[i].kind != CONFIRM
    {
      if frames[index].kind == CONFIRM {
        if confirmIndex >= 0 {
          return false;
        }
        confirmIndex := index;
      }
    }
    if ipPackets > 1 {
      return false;
    }
    if ipPackets == 1 && |frames| != 1 {
      return false;
    }
    if confirmIndex >= 0 && (|frames| != 2 || confirmIndex != 0 || frames[1].kind != PING) {
      return false;
    }
    ok := true;
  }

  lemma ContainsNext(fs: seq<Frame>, n: nat, kind: byte)
    requires n < |fs|
    ensures Contains(fs[..n + 1], kind) <==> Contains(fs[..n], kind) || fs[n].kind == kind
  {
    var (a, b) := (fs[..n], fs[..n + 1]);
    if Contains(a, kind) {
      var i :| 0 <= i < |a| && a[i].kind == kind;
      assert b[i].kind == kind;
    }
    if fs[n].kind == kind {
      assert b[n].kind == kind;
    }
    if Contains(b, kind) {
      var i :| 0 <= i < |b| && b[i].kind == kind;
      assert i < n ==> a[i].kind == kind;
    }
  }

  /** What decoding from an offset comes to, said about the whole data. */
  lemma DecodeAt(data: bytes, offset: nat)
    requires offset <= |data|
    ensures offset == |data| ==> Decode(data[offset..]) == Some([])
    ensures 0 < |data| - offset < HEADER_SIZE ==> Decode(data[offset..]) == None
    ensures |data| - offset >= HEADER_SIZE ==>
      var (length, at) := (U16(data[offset + 2..offset + 4]), offset + HEADER_SIZE);
      Decode(data[offset..]) ==
        if data[offset + 1] != 0 || length > |data| - at then None
        else
          var f := Frame(data[offset], 0, data[at..at + length]);
          if !ValidFrame(f) then None else Prepend([f], Decode(data[at + length..]))
  {
    hide ValidFrame, Prepend, U16;
    if |data| - offset >= HEADER_SIZE {
      SliceOfSuffix(data, offset, 2, 4);
      var length := U16(data[offset + 2..offset + 4]);
      if length <= |data| - offset - HEADER_SIZE {
        SliceOfSuffix(data, offset, 4, 4 + length);
      }
    }
  }

  method ParseFrames(data: bytes, maxPlaintext: int) returns (r: Option<seq<Frame>>)
    ensures r == Parse(data, maxPlaintext)
  {
    hide ValidFrame, ValidCombination, Decode, U16;
    var limit := Limit(maxPlaintext);
    if limit.None? || |data| == 0 || |data| > limit.value {
      return None;
    }
    var frames: seq<Frame> := [];
    var offset := 0;
    PrependNothing(Decode(data));
    assert data[offset..] == data;
    while offset < |data|
      invariant 0 <= offset <= |data|
      invariant Decode(data) == Prepend(frames, Decode(data[offset..]))
    {
      DecodeAt(data, offset);
      if |data| - offset < HEADER_SIZE {
        return None;
      }
      var kind, flags := data[offset], data[offset + 1];
      var length := U16(data[offset + 2..offset + 4]);
      if flags != 0 {
        return None;
      }
      var bodyOffset := offset + HEADER_SIZE;
      if length > |data| - bodyOffset {
        return None;
      }
      var frame := Frame(kind, 0, data[bodyOffset..bodyOffset + length]);
      if !ValidFrame(frame) {
        return None;
      }
      PrependTwice(frames, frame, Decode(data[bodyOffset + length..]));
      frames := frames + [frame];
      offset := bodyOffset + length;
    }
    DecodeAt(data, offset);
    assert frames + [] == frames;
    var ok := ValidateCombination(frames);
    r := if ok then Some(frames) else None;
  }

  lemma {:induction false} EncodeConcat(a: seq<Frame>, b: seq<Frame>)
    ensures Encode(a + b) == Encode(a) + Encode(b)
  {
    hide EncodeFrame;
    if a == [] {
      assert a + b == b;
    } else {
      EncodeConcat(a[1..], b);
      assert (a + b)[1..] == a[1..] + b;
      Associates(EncodeFrame(a[0]), Encode(a[1..]), Encode(b));
    }
  }

  lemma EncodeNext(s: seq<Frame>, i: nat)
    requires i < |s|
    ensures Encode(s[..i + 1]) == Encode(s[..i]) + EncodeFrame(s[i])
    ensures |Encode(s[..i + 1])| == |Encode(s[..i])| + 4 + |s[i].body|
    ensures |Encode(s[..i + 1])| <= |Encode(s)|
  {
    EncodeConcat(s[..i], [s[i]]);
    TakeNext(s, i);
    EncodeCons(s[i], []);
    assert [s[i]] + [] == [s[i]] && EncodeFrame(s[i]) + [] == EncodeFrame(s[i]);
    EncodeConcat(s[..i + 1], s[i + 1..]);
    TakeDrop(s, i + 1);
  }

  method MarshalFrames(frames: seq<Frame>, maxPlaintext: int) returns (r: Option<bytes>)
    ensures r == Marshal(frames, maxPlaintext)
  {
    hide ValidFrame, ValidCombination, EncodeFrame;
    var limit := Limit(maxPlaintext);
    if limit.None? || |frames| == 0 {
      return None;
    }
    var ok := ValidateCombination(frames);
    if !ok {
      return None;
    }
    var total := 0;
    for n := 0 to |frames|
      invariant forall i :: 0 <= i < n ==> ValidFrame(frames[i]) && |frames[i].body| <= MAX_UINT16
      invariant total == |Encode(frames[..n])| <= limit.value
    {
      var frame := frames[n];
      assert frame in frames;
      EncodeNext(frames, n);
      if !ValidFrame(frame) || |frame.body| > MAX_UINT16 || total > limit.value - HEADER_SIZE - |frame.body| {
        return None;
      }
      total := total + HEADER_SIZE + |frame.body|;
    }
    assert frames[..|frames|] == frames;
    var data := new byte[total];
    var offset := 0;
    for n := 0 to |frames|
      invariant offset == |Encode(frames[..n])| <= total
      invariant data[..offset] == Encode(frames[..n])
    {
      var frame := frames[n];
      EncodeNext(frames, n);
      Put(data, offset, EncodeFrame(frame));
      offset := offset + HEADER_SIZE + |frame.body|;
    }
    r := Some(data[..]);
    assert data[..] == data[..offset];
  }
}
