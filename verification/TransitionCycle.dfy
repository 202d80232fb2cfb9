/** Detection of a repeated suffix in the window of recent transition digests. */
module TransitionCycle {
  import opened Wrappers
  import opened Lexicographic

  /** A SHA-256 digest, read as the number its hexadecimal text spells; both are ordered alike. */
  type Digest = nat

  const MAX_RECENT_TRANSITIONS := 16

  /** The last `period` digests and the `period` before them are the same word of at least two digests. */
  predicate RepeatsWithPeriod(d: seq<Digest>, period: nat) {
    && 2 <= period && 2 * period <= |d|
    && d[|d| - 2 * period..|d| - period] == d[|d| - period..]
    && exists i | |d| - period <= i < |d| :: d[i] != d[|d| - period]
  }

  /** The first repeating period from `period` on, if the window holds one. */
  function PeriodFrom(d: seq<Digest>, period: nat): Option<nat>
    decreases |d| - period
  {
    if period > |d| / 2 then None
    else if RepeatsWithPeriod(d, period) then Some(period)
    else PeriodFrom(d, period + 1)
  }

  function Rotate(w: seq<Digest>, k: nat): seq<Digest>
    requires k <= |w|
  {
    w[k..] + w[..k]
  }

  function Smaller(a: seq<Digest>, b: seq<Digest>): seq<Digest> {
    if NatsLess(b, a) then b else a
  }

  function LeastOfFirst(w: seq<Digest>, n: nat): seq<Digest>
    requires n < |w|
  {
    if n == 0 then Rotate(w, 0) else Smaller(LeastOfFirst(w, n - 1), Rotate(w, n))
  }

  /** `min(rotations)`. */
  function Canonical(w: seq<Digest>): seq<Digest>
    requires w != []
  {
    LeastOfFirst(w, |w| - 1)
  }

  /** The period word of the shortest repeated suffix, as the source searches for it. */
  method ShortestRepeat(d: seq<Digest>) returns (word: Option<seq<Digest>>)
    ensures word == RepeatedWord(d)
  {
    var period := 2;
    while period <= |d| / 2
      invariant PeriodFrom(d, 2) == PeriodFrom(d, period)
    {
      if RepeatsWithPeriod(d, period) {
        return Some(d[|d| - period..]);
      }
      period := period + 1;
    }
    return None;
  }

  function RepeatedWord(d: seq<Digest>): Option<seq<Digest>> {
    match PeriodFrom(d, 2)
    case Some(period) => if period <= |d| then Some(d[|d| - period..]) else None
    case None => None
  }

  lemma {:induction false} PeriodFromIsLeast(d: seq<Digest>, from: nat)
    ensures match PeriodFrom(d, from)
            case Some(p) => p >= from && RepeatsWithPeriod(d, p) && forall q | from <= q < p :: !RepeatsWithPeriod(d, q)
            case None => forall q | from <= q :: !RepeatsWithPeriod(d, q)
    decreases |d| - from
  {
    if from > |d| / 2 {
      TooLongToRepeat(d, from);
    } else if !RepeatsWithPeriod(d, from) {
      PeriodFromIsLeast(d, from + 1);
    }
  }

  lemma TooLongToRepeat(d: seq<Digest>, from: nat)
    requires from > |d| / 2
    ensures forall q | from <= q :: !RepeatsWithPeriod(d, q)
  {
  }

  /** A word is found exactly when the window ends in a repetition, and it has the least period. */
  lemma ShortestRepeatIsLeast(d: seq<Digest>)
    ensures RepeatedWord(d).None? <==> forall p :: !RepeatsWithPeriod(d, p)
    ensures RepeatedWord(d).Some? ==>
              && RepeatsWithPeriod(d, |RepeatedWord(d).value|)
              && RepeatedWord(d).value == d[|d| - |RepeatedWord(d).value|..]
              && forall q: nat | q < |RepeatedWord(d).value| :: !RepeatsWithPeriod(d, q)
  {
    PeriodFromIsLeast(d, 2);
  }

  // ---- the canonical form of a cycle ----

  ghost predicate AreRotations(u: seq<Digest>, w: seq<Digest>) {
    exists k | 0 <= k <= |u| :: Rotate(u, k) == w
  }

  lemma RotateTwice(w: seq<Digest>, i: nat, j: nat)
    requires i <= |w| && j <= |w|
    ensures Rotate(Rotate(w, i), j) == Rotate(w, if i + j <= |w| then i + j else i + j - |w|)
  {
    var r := w[i..] + w[..i];
    assert r == Rotate(w, i);
    if i + j <= |w| {
      assert r[j..] == w[i + j..] + w[..i];
      assert r[..j] == w[i..i + j];
      assert w[..i] + w[i..i + j] == w[..i + j];
    } else {
      var k := i + j - |w|;
      assert r[j..] == w[k..i];
      assert r[..j] == w[i..] + w[..k];
      assert w[k..i] + w[i..] == w[k..];
    }
  }

  lemma {:induction false} LeastOfFirstIs(w: seq<Digest>, n: nat)
    requires n < |w|
    ensures exists k | 0 <= k <= n :: LeastOfFirst(w, n) == Rotate(w, k)
    ensures forall k | 0 <= k <= n :: !NatsLess(Rotate(w, k), LeastOfFirst(w, n))
  {
    NatsAreOrdered();
    if n == 0 {
      assert LeastOfFirst(w, n) == Rotate(w, 0);
    } else {
      LeastOfFirstIs(w, n - 1);
      var i :| 0 <= i <= n - 1 && LeastOfFirst(w, n - 1) == Rotate(w, i);
      var least := if NatsLess(Rotate(w, n), LeastOfFirst(w, n - 1)) then n else i;
      assert 0 <= least <= n && LeastOfFirst(w, n) == Rotate(w, least);
      forall k | 0 <= k <= n ensures !NatsLess(Rotate(w, k), LeastOfFirst(w, n)) {
        if k < n {
          assert !NatsLess(Rotate(w, k), LeastOfFirst(w, n - 1));
        }
      }
    }
  }

  /** The canonical form is a rotation of the word that no rotation precedes. */
  lemma CanonicalIsLeastRotation(w: seq<Digest>)
    requires w != []
    ensures AreRotations(w, Canonical(w))
    ensures forall k | 0 <= k <= |w| :: !NatsLess(Rotate(w, k), Canonical(w))
  {
    LeastOfFirstIs(w, |w| - 1);
    var k :| 0 <= k <= |w| - 1 && LeastOfFirst(w, |w| - 1) == Rotate(w, k);
    assert Rotate(w, |w|) == Rotate(w, 0);
  }

  /** A rotation of a rotation is a rotation, so nothing precedes the canonical form of the first word. */
  lemma RotationsDoNotPrecede(u: seq<Digest>, w: seq<Digest>)
    requires u != [] && AreRotations(u, w)
    ensures !NatsLess(Canonical(w), Canonical(u))
  {
    var k :| 0 <= k <= |u| && Rotate(u, k) == w;
    CanonicalIsLeastRotation(u);
    CanonicalIsLeastRotation(w);
    var j :| 0 <= j <= |w| && Rotate(w, j) == Canonical(w);
    RotateTwice(u, k, j);
  }

  lemma RotationIsSymmetric(u: seq<Digest>, w: seq<Digest>)
    requires AreRotations(u, w)
    ensures AreRotations(w, u)
  {
    var k :| 0 <= k <= |u| && Rotate(u, k) == w;
    RotateTwice(u, k, |u| - k);
    assert Rotate(w, |u| - k) == u;
  }

  lemma RotationsShareCanonical(u: seq<Digest>, w: seq<Digest>)
    requires u != [] && AreRotations(u, w)
    ensures Canonical(u) == Canonical(w)
  {
    NatsAreOrdered();
    RotationIsSymmetric(u, w);
    RotationsDoNotPrecede(u, w);
    RotationsDoNotPrecede(w, u);
  }

  lemma RotationsCompose(u: seq<Digest>, v: seq<Digest>, w: seq<Digest>)
    requires AreRotations(u, v) && AreRotations(v, w)
    ensures AreRotations(u, w)
  {
    var i :| 0 <= i <= |u| && Rotate(u, i) == v;
    var j :| 0 <= j <= |v| && Rotate(v, j) == w;
    RotateTwice(u, i, j);
  }

  /** Two cycles get the same identity exactly when one is a rotation of the other. */
  lemma CanonicalIdentifiesRotations(u: seq<Digest>, w: seq<Digest>)
    requires u != [] && w != []
    ensures Canonical(u) == Canonical(w) <==> AreRotations(u, w)
  {
    if AreRotations(u, w) {
      RotationsShareCanonical(u, w);
    }
    if Canonical(u) == Canonical(w) {
      CanonicalIsLeastRotation(u);
      CanonicalIsLeastRotation(w);
      RotationIsSymmetric(w, Canonical(w));
      RotationsCompose(u, Canonical(u), w);
    }
  }
}
