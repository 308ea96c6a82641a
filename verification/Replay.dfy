/**
 Packet numbers: the sender's allocator and the receiver's sliding replay window.

 The window of session/replay.go keeps 2048 bits in 32 machine words. `Window` is what those bits
 stand for, `ReplayWindow` is the class over the words, and the history lemmas say what any
 sequence of calls answers.
 */
module Replay {
  import opened Bytes
  import opened Words

  const WINDOW_SIZE: nat := 2048
  const WORD_COUNT: nat := 32

  // ---------------------------------------------------------------------------------------------
  // Allocation
  // ---------------------------------------------------------------------------------------------

  /** The allocator as a value, and one call of Next on it. */
  datatype Allocator = Allocator(next: uint64, exhausted: bool)

  function Allocate(a: Allocator): (Allocator, Option<uint64>) {
    if a.exhausted then (a, None)
    else if a.next == MAX_UINT64 then (a.(exhausted := true), Some(a.next))
    else (a.(next := a.next + 1), Some(a.next))
  }

  function AllocateMany(a: Allocator, calls: nat): (Allocator, seq<Option<uint64>>) {
    if calls == 0 then (a, [])
    else
      var (b, out) := AllocateMany(a, calls - 1);
      var (c, r) := Allocate(b);
      (c, out + [r])
  }

  /**
   The n-th call answers exactly `first + n` while that fits 64 bits and refuses ever after; so
   numbers strictly increase, the largest one is emitted once, and no number is emitted twice.
   */
  lemma {:induction false} AllocationRun(first: uint64, calls: nat)
    ensures var (a, out) := AllocateMany(Allocator(first, false), calls);
      && |out| == calls
      && (forall n :: 0 <= n < calls ==>
            out[n] == if first + n <= MAX_UINT64 then Some(first + n) else None)
      && a == (if first + calls <= MAX_UINT64 then Allocator(first + calls, false)
               else Allocator(MAX_UINT64, true))
  {
    if calls > 0 {
      AllocationRun(first, calls - 1);
    }
  }

  class PacketNumbers {
    var next: uint64
    var exhausted: bool

    constructor (first: uint64)
      ensures View() == Allocator(first, false)
    {
      next, exhausted := first, false;
    }

    function View(): Allocator
      reads this
    {
      Allocator(next, exhausted)
    }

    method Next() returns (packetNumber: Option<uint64>)
      modifies this
      ensures (View(), packetNumber) == Allocate(old(View()))
    {
      if exhausted {
        return None;
      }
      packetNumber := Some(next);
      if next == MAX_UINT64 {
        exhausted := true;
      } else {
        next := next + 1;
      }
    }
  }

  // ---------------------------------------------------------------------------------------------
  // The window as a set of numbers
  // ---------------------------------------------------------------------------------------------

  datatype Verdict = Accepted | Duplicate | TooOld

  /** `seen` are the claimed numbers that are still inside the window. */
  datatype Window = Window(initialized: bool, highest: nat, seen: set<nat>)

  const FRESH: Window := Window(false, 0, {})

  predicate PassesPrecheck(w: Window, pn: nat) {
    !w.initialized || pn > w.highest || w.highest - pn < WINDOW_SIZE
  }

  function Judge(w: Window, pn: nat): Verdict {
    if !w.initialized || pn > w.highest then Accepted
    else if w.highest - pn >= WINDOW_SIZE then TooOld
    else if pn in w.seen then Duplicate
    else Accepted
  }

  function Claim(w: Window, pn: nat): Window {
    if Judge(w, pn) != Accepted then w
    else if !w.initialized then Window(true, pn, {pn})
    else if pn > w.highest then Window(true, pn, {pn} + set x | x in w.seen && pn - x < WINDOW_SIZE)
    else w.(seen := w.seen + {pn})
  }

  function ClaimAll(w: Window, pns: seq<nat>): Window {
    if pns == [] then w else Claim(ClaimAll(w, pns[..|pns| - 1]), pns[|pns| - 1])
  }

  /** Every number accepted in the run, whether or not it has left the window since. */
  ghost function Claimed(pns: seq<nat>): set<nat> {
    if pns == [] then {}
    else
      var (before, pn) := (pns[..|pns| - 1], pns[|pns| - 1]);
      Claimed(before) + if Judge(ClaimAll(FRESH, before), pn) == Accepted then {pn} else {}
  }

  /** What a window remembers of the numbers claimed so far. */
  ghost predicate Remembers(w: Window, claimed: set<nat>) {
    && (w.initialized <==> claimed != {})
    && (w.initialized ==> w.highest in claimed && forall x :: x in claimed ==> x <= w.highest)
    && w.seen == set x | x in claimed && w.highest - x < WINDOW_SIZE
  }

  lemma {:induction false} WindowRemembers(pns: seq<nat>)
    ensures Remembers(ClaimAll(FRESH, pns), Claimed(pns))
  {
    if pns != [] {
      WindowRemembers(pns[..|pns| - 1]);
    }
  }

  /**
   The answer to the next number, after any run, in terms of the history alone: it is accepted
   exactly when it was never accepted before and no accepted number is 2048 or more ahead of it.
   */
  lemma RunVerdict(pns: seq<nat>, pn: nat)
    ensures var v := Judge(ClaimAll(FRESH, pns), pn);
      && (v == Accepted <==>
            pn !in Claimed(pns) && forall x :: x in Claimed(pns) ==> x < pn + WINDOW_SIZE)
      && (v == TooOld <==> exists x :: x in Claimed(pns) && x >= pn + WINDOW_SIZE)
      && (v == Duplicate ==> pn in Claimed(pns))
  {
    WindowRemembers(pns);
    var w := ClaimAll(FRESH, pns);
    if w.initialized {
      assert w.highest in Claimed(pns);
    }
  }

  /** The cheap test before authentication refuses exactly what the full test would call too old. */
  lemma PrecheckIsTooOld(w: Window, pn: nat)
    ensures PassesPrecheck(w, pn) <==> Judge(w, pn) != TooOld
  {
  }

  lemma {:induction false} ClaimedGrows(pns: seq<nat>, i: nat)
    requires i <= |pns|
    ensures Claimed(pns[..i]) <= Claimed(pns)
  {
    if i == |pns| {
      assert pns[..i] == pns;
    } else {
      var before := pns[..|pns| - 1];
      ClaimedGrows(before, i);
      assert before[..i] == pns[..i];
    }
  }

  /** In no run is one number accepted at two places. */
  lemma AcceptedOnce(pns: seq<nat>, i: nat, j: nat)
    requires i < j < |pns| && pns[i] == pns[j]
    requires Judge(ClaimAll(FRESH, pns[..i]), pns[i]) == Accepted
    ensures Judge(ClaimAll(FRESH, pns[..j]), pns[j]) != Accepted
  {
    var upTo := pns[..i + 1];
    assert upTo[..|upTo| - 1] == pns[..i];
    assert pns[i] in Claimed(upTo);
    ClaimedGrows(pns[..j], i + 1);
    assert pns[..j][..i + 1] == upTo;
    RunVerdict(pns[..j], pns[j]);
  }

  // ---------------------------------------------------------------------------------------------
  // The window as bits
  // ---------------------------------------------------------------------------------------------

  predicate BitAt(words: seq<bv64>, i: nat)
    requires |words| == WORD_COUNT && i < WINDOW_SIZE
  {
    TestBit(words[i / 64], i % 64)
  }

  /** Word `d` of the bitmap moved up by `64 * whole + partial` places. */
  function ShiftedWord(words: seq<bv64>, whole: nat, partial: nat, d: nat): bv64
    requires |words| == WORD_COUNT && d < WORD_COUNT && partial < 64
  {
    if d < whole then 0
    else
      var source := d - whole;
      var value := ShiftLeft(words[source], partial);
      if partial != 0 && source > 0 then Or(value, ShiftRight(words[source - 1], 64 - partial)) else value
  }

  /** Bit b of word d comes from the place 64 * whole + partial below it, or from nowhere. */
  lemma ShiftedWordBit(words: seq<bv64>, whole: nat, partial: nat, d: nat, b: nat)
    requires |words| == WORD_COUNT && d < WORD_COUNT && partial < 64 && b < 64
    ensures TestBit(ShiftedWord(words, whole, partial, d), b) ==
      (if partial <= b then whole <= d && TestBit(words[d - whole], b - partial)
       else whole < d && TestBit(words[d - whole - 1], b + 64 - partial))
  {
    hide TestBit, Or, ShiftLeft, ShiftRight;
    if d < whole {
      TestZero(b);
    } else {
      var source := d - whole;
      TestShiftLeft(words[source], partial, b);
      if partial != 0 && source > 0 {
        TestShiftRight(words[source - 1], 64 - partial, b);
        TestOr(ShiftLeft(words[source], partial), ShiftRight(words[source - 1], 64 - partial), b);
      }
    }
  }

  lemma Split(p: nat)
    ensures p == 64 * (p / 64) + p % 64 && p % 64 < 64
  {
  }

  lemma Join(p: int, word: int, bit: nat)
    requires p == 64 * word + bit && bit < 64
    ensures p / 64 == word && p % 64 == bit
  {
  }

  /** Word-wise shifting moves every bit up by the whole distance. */
  lemma ShiftMovesBits(words: seq<bv64>, shifted: seq<bv64>, advance: nat, p: nat)
    requires |words| == |shifted| == WORD_COUNT && p < WINDOW_SIZE
    requires forall d :: 0 <= d < WORD_COUNT ==>
      shifted[d] == ShiftedWord(words, advance / 64, advance % 64, d)
    ensures BitAt(shifted, p) == (advance <= p && BitAt(words, p - advance))
  {
    hide TestBit, ShiftedWord;
    var (whole, partial, d, b) := (advance / 64, advance % 64, p / 64, p % 64);
    Split(p);
    Split(advance);
    ShiftedWordBit(words, whole, partial, d, b);
    if partial <= b {
      if whole <= d {
        Join(p - advance, d - whole, b - partial);
      }
    } else if whole < d {
      Join(p - advance, d - whole - 1, b + 64 - partial);
    }
  }

  /** Setting one bit of one word sets that bit of the bitmap and no other. */
  lemma SetBit(words: seq<bv64>, i: nat, p: nat)
    requires |words| == WORD_COUNT && i < WINDOW_SIZE && p < WINDOW_SIZE
    ensures BitAt(words[i / 64 := Or(words[i / 64], Mask(i % 64))], p) == (p == i || BitAt(words, p))
  {
    hide TestBit, Or, Mask;
    Split(i);
    Split(p);
    if p / 64 == i / 64 {
      TestOr(words[i / 64], Mask(i % 64), p % 64);
      TestMask(i % 64, p % 64);
    }
  }

  class ReplayWindow {
    var initialized: bool
    var highest: uint64
    const bitmap: array<bv64>

    ghost predicate Valid()
      reads this, bitmap
    {
      && bitmap.Length == WORD_COUNT
      && (!initialized ==> highest == 0 && forall d :: 0 <= d < WORD_COUNT ==> bitmap[d] == 0)
      && (forall p :: 0 <= p < WINDOW_SIZE && BitAt(bitmap[..], p) ==> p <= highest)
    }

    /** Bit p of the bitmap stands for the number `highest - p`. */
    ghost function Model(): (w: Window)
      requires Valid()
      reads this, bitmap
    {
      Window(initialized, highest, SeenBits(initialized, highest, bitmap[..]))
    }

    static ghost predicate Recorded(highest: nat, words: seq<bv64>, x: nat)
      requires |words| == WORD_COUNT
    {
      0 <= highest - x < WINDOW_SIZE && BitAt(words, highest - x)
    }

    static ghost function SeenBits(initialized: bool, highest: nat, words: seq<bv64>): set<nat>
      requires |words| == WORD_COUNT
    {
      set x: nat | x <= highest && initialized && Recorded(highest, words, x)
    }

    constructor ()
      ensures Valid() && fresh(bitmap)
      ensures Model() == FRESH
    {
      initialized, highest := false, 0;
      bitmap := new bv64[WORD_COUNT](_ => 0);
      new;
      hide TestBit;
      forall p: nat | p < WINDOW_SIZE ensures !BitAt(bitmap[..], p) {
        TestZero(p % 64);
      }
    }

    method Precheck(packetNumber: uint64) returns (ok: bool)
      requires Valid()
      ensures ok == PassesPrecheck(Model(), packetNumber)
    {
      if !initialized || packetNumber > highest {
        return true;
      }
      var delta := highest - packetNumber;
      ok := delta < WINDOW_SIZE;
    }

    method AcceptAuthenticated(packetNumber: uint64) returns (verdict: Verdict)
      requires Valid()
      modifies this, bitmap
      ensures Valid()
      ensures verdict == Judge(old(Model()), packetNumber)
      ensures Model() == Claim(old(Model()), packetNumber)
    {
      hide BitAt, Or, Mask, Meets;
      if !initialized {
        ghost var before := bitmap[..];
        initialized, highest := true, packetNumber;
        bitmap[0] := 1;
        FirstBit(before, bitmap[..]);
        FirstModel(packetNumber, bitmap[..]);
        return Accepted;
      }
      if packetNumber > highest {
        Advance(packetNumber);
        return Accepted;
      }
      var delta := highest - packetNumber;
      if delta >= WINDOW_SIZE {
        return TooOld;
      }
      var isNew := MarkNew(delta);
      verdict := if isNew then Accepted else Duplicate;
    }

    /** The branch for a number above the highest. */
    method Advance(packetNumber: uint64)
      requires Valid() && initialized && packetNumber > highest
      modifies this, bitmap
      ensures Valid()
      ensures Model() == Claim(old(Model()), packetNumber)
    {
      hide BitAt, Or, Mask, Meets, Moved;
      ghost var before := bitmap[..];
      var advance := packetNumber - highest;
      ShiftLocked(advance);
      ghost var moved := bitmap[..];
      bitmap[0] := Or(bitmap[0], Mask(0));
      ghost var after := bitmap[..];
      SetBits(moved, 0, after);
      AdvanceModel(before, highest, moved, after, packetNumber);
      highest := packetNumber;
      assert bitmap[..] == after;
    }

    /** The branch for a number inside the window, `delta` places below the highest. */
    method MarkNew(delta: nat) returns (isNew: bool)
      requires Valid() && initialized && delta <= highest && delta < WINDOW_SIZE
      modifies bitmap
      ensures Valid()
      ensures isNew == (highest - delta !in old(Model()).seen)
      ensures Model() == old(Model()).(seen := old(Model()).seen + {highest - delta})
    {
      hide BitAt, Or, Mask, Meets;
      ghost var before := bitmap[..];
      var word, bit := delta / 64, delta % 64;
      ReadBit(before, delta);
      assert Recorded(highest, before, highest - delta) == BitAt(before, delta);
      isNew := !Meets(bitmap[word], Mask(bit));
      if isNew {
        bitmap[word] := Or(bitmap[word], Mask(bit));
        SetBits(before, delta, bitmap[..]);
        InsertModel(before, highest, bitmap[..], highest - delta);
      }
    }

    static lemma ReadBit(words: seq<bv64>, i: nat)
      requires |words| == WORD_COUNT && i < WINDOW_SIZE
      ensures Meets(words[i / 64], Mask(i % 64)) == BitAt(words, i)
    {
      hide Mask, Meets;
    }

    static lemma SetBits(words: seq<bv64>, i: nat, after: seq<bv64>)
      requires |words| == WORD_COUNT && i < WINDOW_SIZE
      requires after == words[i / 64 := Or(words[i / 64], Mask(i % 64))]
      ensures forall p: nat :: p < WINDOW_SIZE ==> BitAt(after, p) == (p == i || BitAt(words, p))
    {
      hide BitAt, Or, Mask;
      forall p: nat | p < WINDOW_SIZE ensures BitAt(after, p) == (p == i || BitAt(words, p)) {
        SetBit(words, i, p);
      }
    }

    static lemma FirstModel(pn: nat, after: seq<bv64>)
      requires |after| == WORD_COUNT
      requires forall p: nat :: p < WINDOW_SIZE ==> BitAt(after, p) == (p == 0)
      ensures SeenBits(true, pn, after) == {pn}
    {
      hide BitAt;
      forall x: nat ensures x in SeenBits(true, pn, after) <==> x == pn {
        assert Recorded(pn, after, x) == (x == pn);
      }
    }

    /** Moving the window up drops exactly the numbers that fall 2048 or more behind. */
    static lemma AdvanceModel(before: seq<bv64>, highest: nat, moved: seq<bv64>, after: seq<bv64>, pn: nat)
      requires |before| == |moved| == |after| == WORD_COUNT && highest < pn
      requires forall p: nat :: p < WINDOW_SIZE && BitAt(before, p) ==> p <= highest
      requires Moved(before, moved, pn - highest)
      requires forall p: nat :: p < WINDOW_SIZE ==> BitAt(after, p) == (p == 0 || BitAt(moved, p))
      ensures forall p: nat :: p < WINDOW_SIZE && BitAt(after, p) ==> p <= pn
      ensures SeenBits(true, pn, after) ==
        {pn} + set x | x in SeenBits(true, highest, before) && pn - x < WINDOW_SIZE
    {
      hide BitAt;
      var kept := set x | x in SeenBits(true, highest, before) && pn - x < WINDOW_SIZE;
      forall x: nat ensures x in SeenBits(true, pn, after) <==> x == pn || x in kept {
        if x <= pn && pn - x < WINDOW_SIZE {
          assert BitAt(after, pn - x) == (x == pn || BitAt(moved, pn - x));
        }
        assert Recorded(pn, after, x) == (x == pn || (pn - x < WINDOW_SIZE && Recorded(highest, before, x)));
      }
    }

    static ghost predicate Moved(words: seq<bv64>, shifted: seq<bv64>, advance: nat)
      requires |words| == |shifted| == WORD_COUNT
    {
      forall p: nat :: p < WINDOW_SIZE ==>
        BitAt(shifted, p) == (advance <= p && BitAt(words, p - advance))
    }

    static lemma InsertModel(before: seq<bv64>, highest: nat, after: seq<bv64>, pn: nat)
      requires |before| == |after| == WORD_COUNT && 0 <= highest - pn < WINDOW_SIZE
      requires forall p: nat :: p < WINDOW_SIZE ==> BitAt(after, p) == (p == highest - pn || BitAt(before, p))
      ensures SeenBits(true, highest, after) == SeenBits(true, highest, before) + {pn}
    {
      hide BitAt;
      forall x: nat ensures x in SeenBits(true, highest, after) <==> x == pn || x in SeenBits(true, highest, before) {
        assert Recorded(highest, after, x) == (x == pn || Recorded(highest, before, x));
      }
    }

    /** The very first number sets bit 0 of an all-zero bitmap. */
    static lemma FirstBit(before: seq<bv64>, after: seq<bv64>)
      requires |before| == |after| == WORD_COUNT
      requires forall d :: 0 <= d < WORD_COUNT ==> before[d] == 0
      requires after == before[0 := 1]
      ensures forall p: nat :: p < WINDOW_SIZE ==> BitAt(after, p) == (p == 0)
    {
      hide TestBit;
      forall p: nat | p < WINDOW_SIZE ensures BitAt(after, p) == (p == 0) {
        Split(p);
        if p / 64 == 0 {
          TestMask(0, p % 64);
        } else {
          TestZero(p % 64);
        }
      }
    }

    method ShiftLocked(advance: nat)
      requires bitmap.Length == WORD_COUNT
      modifies bitmap
      ensures Moved(old(bitmap[..]), bitmap[..], advance)
    {
      hide Moved, ShiftLeft, ShiftRight, Or;
      if advance >= WINDOW_SIZE {
        forall d | 0 <= d < WORD_COUNT {
          bitmap[d] := 0;
        }
        AllGone(old(bitmap[..]), bitmap[..], advance);
        return;
      }
      var previous := bitmap[..];
      forall d | 0 <= d < WORD_COUNT {
        bitmap[d] := 0;
      }
      var wholeWords, partialBits := advance / 64, advance % 64;
      var destination := WORD_COUNT - 1;
      while destination >= 0
        invariant -1 <= destination < WORD_COUNT
        invariant forall d :: 0 <= d <= destination ==> bitmap[d] == 0
        invariant forall d :: destination < d < WORD_COUNT ==>
          bitmap[d] == ShiftedWord(previous, wholeWords, partialBits, d)
      {
        var source := destination - wholeWords;
        if source >= 0 {
          var value := ShiftLeft(previous[source], partialBits);
          if partialBits != 0 && source > 0 {
            value := Or(value, ShiftRight(previous[source - 1], 64 - partialBits));
          }
          bitmap[destination] := value;
        }
        destination := destination - 1;
      }
      AllMoved(previous, bitmap[..], advance);
    }

    static lemma AllGone(words: seq<bv64>, cleared: seq<bv64>, advance: nat)
      requires |words| == |cleared| == WORD_COUNT && advance >= WINDOW_SIZE
      requires forall d :: 0 <= d < WORD_COUNT ==> cleared[d] == 0
      ensures Moved(words, cleared, advance)
    {
      hide TestBit;
      forall p: nat | p < WINDOW_SIZE ensures !BitAt(cleared, p) {
        TestZero(p % 64);
      }
    }

    static lemma AllMoved(words: seq<bv64>, shifted: seq<bv64>, advance: nat)
      requires |words| == |shifted| == WORD_COUNT
      requires forall d :: 0 <= d < WORD_COUNT ==>
        shifted[d] == ShiftedWord(words, advance / 64, advance % 64, d)
      ensures Moved(words, shifted, advance)
    {
      hide BitAt, ShiftedWord;
      forall p: nat | p < WINDOW_SIZE
        ensures BitAt(shifted, p) == (advance <= p && BitAt(words, p - advance))
      {
        ShiftMovesBits(words, shifted, advance, p);
      }
    }
  }
}
