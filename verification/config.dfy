/** The three tunables of the collab builder (squadify/make_collab.py, lines 4-12). */
module Config {

  /** The largest number of tracks a collab may hold. */
  const MaxCollabSize: nat := 50

  /** A track is eligible for the collab only if at least this many members own it. */
  const MinFrequency: nat := 2

  /** The guaranteed share of each member: `MAX_COLLAB_SIZE / (2 n)` in integers.
      The bound on all shares together is what keeps the first phase of the
      allocator inside the collab size. */
  function MinTracksPerMember(members: nat): (m: nat)
    requires members >= 1
    ensures (members + 1) * m <= MaxCollabSize
  {
    var m := MaxCollabSize / (2 * members);
    SharesFit(members, m);
    m
  }

  /** The source computes `int(MAX_COLLAB_SIZE / members * MIN_SHARE_FACTOR)` in
      floating point with the factor one half; the integer share is the
      truncation of that exact value. */
  lemma ShareIsTruncation(members: nat)
    requires members >= 1
    ensures var m := MinTracksPerMember(members);
            (m as real) <= (MaxCollabSize as real) / (members as real) * 0.5 < (m as real) + 1.0
  {
    SharesFit(members, MaxCollabSize / (2 * members));
  }

  lemma SharesFit(n: nat, m: nat)
    requires n >= 1 && m == MaxCollabSize / (2 * n)
    ensures (m as real) <= (MaxCollabSize as real) / (n as real) * 0.5 < (m as real) + 1.0
    ensures (n + 1) * m <= MaxCollabSize
  {
    assert m * (2 * n) <= MaxCollabSize < (m + 1) * (2 * n);
    assert m * n <= 25 < (m + 1) * n;
    assert m <= m * n;
    var q := (MaxCollabSize as real) / (n as real) * 0.5;
    assert q == 25.0 / (n as real);
    assert q * (n as real) == 25.0;
    assert (m as real) * (n as real) <= 25.0;
    assert 25.0 < ((m + 1) as real) * (n as real);
  }
}
