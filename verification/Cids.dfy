/**
 Choosing a connection identifier (handshake/wire.go, reserveServerCIDLocked in server.go).

 The random source is the sequence of 64-bit words it will still deliver; reading past its end fails.
 */
module Cids {
  import opened Bytes

  const TRIES: nat := 32

  /** The identifiers in use, updated in place. */
  class Registry {
    var active: set<uint64>
    var random: seq<uint64>

    constructor (random: seq<uint64>)
      ensures active == {} && this.random == random
    {
      active, this.random := {}, random;
    }

    /** The next word that is not zero, unless the source ends or gives TRIES zeros in a row. */
    method NextNonZeroCid() returns (cid: Option<uint64>)
      modifies this`random
      ensures exists k: nat :: k <= |old(random)| && random == old(random)[k..] && NonZeroAfter(old(random), k, cid)
    {
      var attempt := 0;
      while attempt < TRIES
        invariant attempt <= TRIES && attempt <= |old(random)| && random == old(random)[attempt..]
        invariant forall i :: 0 <= i < attempt ==> old(random)[i] == 0
      {
        if random == [] {
          assert NonZeroAfter(old(random), attempt, None);
          return None;
        }
        var word := random[0];
        random := random[1..];
        if word != 0 {
          assert NonZeroAfter(old(random), attempt + 1, Some(word));
          return Some(word);
        }
        attempt := attempt + 1;
      }
      assert NonZeroAfter(old(random), TRIES, None);
      return None;
    }

    method ReleaseCid(cid: uint64)
      modifies this`active
      ensures active == old(active) - {cid}
    {
      active := active - {cid};
    }

    /** Claims the first word that is neither zero nor in use; a failure claims nothing. */
    method ReserveServerCid() returns (cid: Option<uint64>)
      modifies this
      ensures exists k: nat :: k <= |old(random)| && random == old(random)[k..] && ReservedAfter(old(random), old(active), k, cid)
      ensures active == if cid.Some? then old(active) + {cid.value} else old(active)
    {
      var attempt := 0;
      ghost var words, read := random, 0;
      while attempt < TRIES
        invariant attempt <= TRIES && 0 <= read <= |words| && random == words[read..] && active == old(active)
        invariant AllTaken(words[..read], active) && NonZeros(words[..read]) == attempt
      {
        var next := NextNonZeroCid();
        ghost var k: nat :| k <= |words[read..]| && random == words[read..][k..] && NonZeroAfter(words[read..], k, next);
        ReadOn(words, read, k);
        Judged(words, read, k, next, active);
        if next.None? {
          return None;
        }
        read := read + k;
        if next.value !in active {
          active := active + {next.value};
          return next;
        }
        attempt := attempt + 1;
      }
      assert ReservedAfter(words, active, read, None);
      return None;
    }
  }

  lemma ReadOn(words: seq<uint64>, read: nat, k: nat)
    requires read + k <= |words|
    ensures words[read..][k..] == words[read + k..] && words[..read + k] == words[..read] + words[read..][..k]
  {
  }

  /** What one more non-zero word, or its absence, means for the search so far. */
  lemma Judged(words: seq<uint64>, read: nat, k: nat, next: Option<uint64>, active: set<uint64>)
    requires read + k <= |words| && AllTaken(words[..read], active) && NonZeros(words[..read]) < TRIES
    requires NonZeroAfter(words[read..], k, next)
    ensures next.None? ==> ReservedAfter(words, active, read + k, None)
    ensures next.Some? && next.value !in active ==> ReservedAfter(words, active, read + k, next)
    ensures next.Some? && next.value in active ==>
      AllTaken(words[..read + k], active) && NonZeros(words[..read + k]) == NonZeros(words[..read]) + 1
  {
    var (seen, rest) := (words[..read], words[read..][..k]);
    if next.None? {
      assert words[..read + k] == seen + rest;
      AllZeros(rest);
      CountJoins(seen, rest);
      if k == TRIES {
        assert words[read + k - TRIES..read + k] == rest;
      }
    } else {
      var zeros := words[read..][..k - 1];
      AllZeros(zeros);
      assert words[..read + k - 1] == seen + zeros;
      CountJoins(seen, zeros);
      assert words[..read + k] == words[..read + k - 1] + [next.value];
      CountJoins(words[..read + k - 1], [next.value]);
    }
  }

  predicate AllTaken(words: seq<uint64>, active: set<uint64>) {
    forall i :: 0 <= i < |words| ==> words[i] == 0 || words[i] in active
  }

  function NonZeros(words: seq<uint64>): nat {
    if words == [] then 0 else NonZeros(words[1..]) + if words[0] != 0 then 1 else 0
  }

  lemma {:induction false} CountJoins(left: seq<uint64>, right: seq<uint64>)
    ensures NonZeros(left + right) == NonZeros(left) + NonZeros(right)
  {
    if left == [] {
      assert left + right == right;
    } else {
      assert (left + right)[1..] == left[1..] + right;
      CountJoins(left[1..], right);
    }
  }

  lemma {:induction false} AllZeros(words: seq<uint64>)
    requires forall i :: 0 <= i < |words| ==> words[i] == 0
    ensures NonZeros(words) == 0
  {
    if words != [] {
      AllZeros(words[1..]);
    }
  }

  /** Having read `k` words, this is the answer: TRIES words were in use, or the source ended or gave TRIES zeros. */
  predicate ReservedAfter(words: seq<uint64>, active: set<uint64>, k: nat, cid: Option<uint64>)
    requires k <= |words|
  {
    match cid
    case Some(c) =>
      0 < k && c == words[k - 1] && c != 0 && c !in active && AllTaken(words[..k - 1], active) && NonZeros(words[..k - 1]) < TRIES
    case None =>
      AllTaken(words[..k], active) && (NonZeros(words[..k]) == TRIES || k == |words| || (k >= TRIES && NonZeros(words[k - TRIES..k]) == 0))
  }

  /** Having read `k` words, this is the answer. */
  predicate NonZeroAfter(words: seq<uint64>, k: nat, cid: Option<uint64>)
    requires k <= |words|
  {
    match cid
    case Some(c) => 0 < k <= TRIES && c == words[k - 1] && c != 0 && forall i :: 0 <= i < k - 1 ==> words[i] == 0
    case None => (k == |words| < TRIES || k == TRIES) && forall i :: 0 <= i < k ==> words[i] == 0
  }
}
