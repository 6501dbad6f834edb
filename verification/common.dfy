/** Small shared vocabulary: optional values, results, and facts about sequences
    of indices that the linked index and the allocator both rely on. */
module Common {

  /** A value that may be absent; plays the part of Python's `None`. */
  datatype Option<+T> = None | Some(value: T)

  /** The outcome of an operation that can fail. */
  datatype Result<+R, +E> = Success(value: R) | Failure(error: E)

  /** No element occurs twice. */
  predicate Distinct<T(==)>(s: seq<T>) {
    forall a, b :: 0 <= a < b < |s| ==> s[a] != s[b]
  }

  /** Strictly increasing: sorted and free of duplicates. */
  predicate Increasing(s: seq<nat>) {
    forall a, b :: 0 <= a < b < |s| ==> s[a] < s[b]
  }

  /** The last element, if there is one. */
  function LastOf(s: seq<nat>): (r: Option<nat>)
    ensures r.None? <==> s == []
    ensures r.Some? ==> r.value in s && (Increasing(s) ==> forall x :: x in s ==> x <= r.value)
  {
    if s == [] then None else Some(s[|s| - 1])
  }

  /** The elements of a sequence, as a set. */
  function Elements<T>(s: seq<T>): set<T> {
    set x | x in s
  }

  /** A duplicate-free sequence has as many elements as its set. */
  lemma {:induction false} DistinctCardinality<T>(s: seq<T>)
    requires Distinct(s)
    ensures |Elements(s)| == |s|
  {
    if s != [] {
      var t := s[..|s| - 1];
      assert Distinct(t);
      DistinctCardinality(t);
      assert Elements(s) == Elements(t) + {s[|s| - 1]};
      assert s[|s| - 1] !in Elements(t) by {
        forall x | x in t ensures x != s[|s| - 1] {
          var k :| 0 <= k < |t| && t[k] == x;
        }
      }
    }
  }

  /** Two increasing sequences with the same elements are the same sequence. */
  lemma {:induction false} IncreasingUnique(a: seq<nat>, b: seq<nat>)
    requires Increasing(a) && Increasing(b)
    requires forall x :: x in a <==> x in b
    ensures a == b
  {
    assert Distinct(a) && Distinct(b);
    DistinctCardinality(a);
    DistinctCardinality(b);
    assert Elements(a) == Elements(b);
    if |a| > 0 {
      assert a[0] in b;
      assert b[0] in a;
      assert a[0] == b[0] by {
        var i :| 0 <= i < |b| && b[i] == a[0];
        var j :| 0 <= j < |a| && a[j] == b[0];
        assert b[0] <= b[i];
        assert a[0] <= a[j];
      }
      forall x ensures x in a[1..] <==> x in b[1..] {
        InTail(a, x);
        InTail(b, x);
      }
      IncreasingUnique(a[1..], b[1..]);
    }
  }

  /** In an increasing sequence, the tail holds exactly the elements other than the first. */
  lemma InTail(s: seq<nat>, x: nat)
    requires Increasing(s) && s != []
    ensures x in s[1..] <==> x in s && x != s[0]
  {
    if x in s && x != s[0] {
      var k :| 0 <= k < |s| && s[k] == x;
      assert s[1..][k - 1] == x;
    }
  }

  /** Removing one position from an increasing sequence keeps it increasing and
      removes exactly that element. */
  lemma RemoveAt(s: seq<nat>, k: nat)
    requires Increasing(s) && k < |s|
    ensures Increasing(s[..k] + s[k + 1..])
    ensures forall x :: x in s[..k] + s[k + 1..] <==> x in s && x != s[k]
  {
    var t := s[..k] + s[k + 1..];
    assert forall a :: 0 <= a < |t| ==> t[a] == (if a < k then s[a] else s[a + 1]);
    forall x | x in s && x != s[k] ensures x in t {
      var p :| 0 <= p < |s| && s[p] == x;
      if p < k { assert t[p] == x; } else { assert t[p - 1] == x; }
    }
  }

  /** Appending an element adds it to the set of elements. */
  lemma ElementsSnoc<T>(s: seq<T>, x: T)
    ensures Elements(s + [x]) == Elements(s) + {x}
  {
    assert forall y :: y in s + [x] <==> y in s || y == x;
  }

  /** Appending a new element keeps a sequence duplicate-free. */
  lemma DistinctSnoc<T>(s: seq<T>, x: T)
    requires Distinct(s) && x !in s
    ensures Distinct(s + [x])
  {
    var t := s + [x];
    forall a, b | 0 <= a < b < |t| ensures t[a] != t[b] {
      if b == |s| { assert t[a] in s; }
    }
  }

  /** A prefix has no elements the whole sequence lacks. */
  lemma PrefixElements<T>(s: seq<T>, t: seq<T>)
    requires s <= t
    ensures Elements(s) <= Elements(t)
  {
    forall x | x in s ensures x in t {
      var k :| 0 <= k < |s| && s[k] == x;
      assert t[k] == x;
    }
  }

  /** A subset that misses an element of the superset is smaller. */
  lemma SubsetSmaller<T>(a: set<T>, b: set<T>, x: T)
    requires a <= b && x in b && x !in a
    ensures |a| < |b|
  {
    assert b == a + (b - a);
    assert x in b - a;
  }

  /** Removing one position keeps every element held at another position. */
  lemma RemoveKeeps<T>(s: seq<T>, k: nat, x: T)
    requires k < |s| && x in s && s[k] != x
    ensures x in s[..k] + s[k + 1..]
  {
    var p :| 0 <= p < |s| && s[p] == x;
    if p < k {
      assert (s[..k] + s[k + 1..])[p] == x;
    } else {
      assert (s[..k] + s[k + 1..])[p - 1] == x;
    }
  }

  /** Taking one more element of `s` onto a prefix. */
  lemma PrefixStep<T>(c: seq<T>, s: seq<T>, t: nat)
    requires t < |s|
    ensures c + s[..t] + [s[t]] == c + s[..t + 1]
    ensures s[t..][1..] == s[t + 1..]
  {
    assert s[..t + 1] == s[..t] + [s[t]];
  }

  /** Taking the same element out of two permutations of each other leaves two
      permutations of each other. */
  lemma RemoveMatching<T>(a: seq<T>, b: seq<T>, p: nat)
    requires multiset(a) == multiset(b) && b != [] && p < |a| && a[p] == b[0]
    ensures multiset(b[1..]) == multiset(a[..p] + a[p + 1..])
  {
    assert a == a[..p] + [a[p]] + a[p + 1..];
    assert b == [b[0]] + b[1..];
    assert multiset(a) == multiset(a[..p]) + multiset([a[p]]) + multiset(a[p + 1..]);
    assert multiset(a[..p] + a[p + 1..]) == multiset(a[..p]) + multiset(a[p + 1..]);
    assert multiset(b) == multiset([b[0]]) + multiset(b[1..]);
    assert multiset(b[1..]) == multiset(b) - multiset([b[0]]);
  }
}
