/** The ownership index: one doubly linked list per owner, threaded through the
    same tracks in track-list order (squadify/make_collab.py, lines 15-52 and
    127-181). Tracks live in an arena, the track list itself; a link is the
    arena position of the neighbouring track, so a node is a pair of optional
    positions and an owner's list is its head plus its node in each track. */
module LinkedIndex {
  import opened Common
  import opened Tracks

  /** `Node`: the previous and the next track in one owner's list. */
  datatype Node = Node(prev: Option<nat>, next: Option<nat>)

  /** One owner's list: the head (`most_popular_track_of_member[owner]`) and the
      owner's node in each track, by arena position. */
  datatype Chain = Chain(head: Option<nat>, nodes: map<nat, Node>)

  /** The chain is a doubly linked rendering of the list `L`: the head is its first
      element, and each element's node points to its neighbours in `L`, with no
      link before the first or after the last. */
  predicate Represents(c: Chain, L: seq<nat>) {
    && c.head == (if L == [] then None else Some(L[0]))
    && (forall k :: 0 <= k < |L| ==> L[k] in c.nodes)
    && forall k {:trigger c.nodes[L[k]]} :: 0 <= k < |L| ==>
         L[k] in c.nodes && c.nodes[L[k]] == Node(Before(L, k), After(L, k))
  }

  /** The element before position `k` of `L`, if any. */
  function Before(L: seq<nat>, k: nat): Option<nat>
    requires k < |L|
  {
    if k == 0 then None else Some(L[k - 1])
  }

  /** The element after position `k` of `L`, if any. */
  function After(L: seq<nat>, k: nat): Option<nat>
    requires k < |L|
  {
    if k == |L| - 1 then None else Some(L[k + 1])
  }

  /** The abstract list of owner `o`: the positions below `n` of the tracks it owns
      that are not in `gone`, in track-list order. */
  function OwnedBelow(ts: seq<Track>, o: Owner, gone: set<nat>, n: nat): (L: seq<nat>)
    requires n <= |ts|
    ensures Increasing(L)
    ensures forall k :: 0 <= k < |L| ==> L[k] < n
    ensures forall j: nat {:trigger j in L} :: j in L <==> j < n && Owns(ts[j], o) && j !in gone
  {
    if n == 0 then []
    else
      var L := OwnedBelow(ts, o, gone, n - 1);
      assert forall a :: 0 <= a < |L| ==> L[a] < n - 1 by {
        forall a | 0 <= a < |L| ensures L[a] < n - 1 { assert L[a] in L; }
      }
      if Owns(ts[n - 1], o) && n - 1 !in gone then L + [n - 1] else L
  }

  // ---------------------------------------------------------------------------
  // Reading a list

  /** Follows `next` links from `from`, for at most `fuel` steps. */
  function Walk(c: Chain, from: Option<nat>, fuel: nat): seq<nat>
    decreases fuel
  {
    if fuel == 0 || from.None? || from.value !in c.nodes then []
    else [from.value] + Walk(c, c.nodes[from.value].next, fuel - 1)
  }

  /** Following `next` from the head visits exactly the list, in order, and stops
      at its end however much longer the walk is allowed to run. */
  lemma WalkVisitsList(c: Chain, L: seq<nat>, fuel: nat)
    requires Represents(c, L) && fuel >= |L|
    ensures Walk(c, c.head, fuel) == L
  {
    if L != [] {
      WalkFrom(c, L, 0, fuel);
    }
  }

  lemma {:induction false} WalkFrom(c: Chain, L: seq<nat>, k: nat, fuel: nat)
    requires Represents(c, L) && k < |L| && fuel >= |L| - k
    ensures Walk(c, Some(L[k]), fuel) == L[k..]
    decreases |L| - k
  {
    if k + 1 < |L| {
      WalkFrom(c, L, k + 1, fuel - 1);
      assert L[k..] == [L[k]] + L[k + 1..];
    } else {
      assert Walk(c, None, fuel - 1) == [];
    }
  }

  /** In a list without repetitions, `prev` undoes `next` and `next` undoes `prev`. */
  lemma PrevInvertsNext(c: Chain, L: seq<nat>)
    requires Represents(c, L) && Distinct(L)
    ensures forall a :: a in L && c.nodes[a].next.Some? ==>
              c.nodes[a].next.value in L && c.nodes[c.nodes[a].next.value].prev == Some(a)
    ensures forall b :: b in L && c.nodes[b].prev.Some? ==>
              c.nodes[b].prev.value in L && c.nodes[c.nodes[b].prev.value].next == Some(b)
  {
    forall a | a in L && c.nodes[a].next.Some?
      ensures c.nodes[a].next.value in L && c.nodes[c.nodes[a].next.value].prev == Some(a)
    {
      var k :| 0 <= k < |L| && L[k] == a;
      assert c.nodes[a].next == Some(L[k + 1]);
    }
    forall b | b in L && c.nodes[b].prev.Some?
      ensures c.nodes[b].prev.value in L && c.nodes[c.nodes[b].prev.value].next == Some(b)
    {
      var k :| 0 <= k < |L| && L[k] == b;
      assert c.nodes[b].prev == Some(L[k - 1]);
    }
  }

  // ---------------------------------------------------------------------------
  // Building the lists (`__populate_linkedness`, lines 130-152)

  /** The pointer updates of one linking step: the new node points back to
      `tail`, and `tail` (or the head, for an empty list) points to `i`. */
  function Attach(c: Chain, tail: Option<nat>, i: nat): Chain
    requires tail.Some? ==> tail.value in c.nodes
  {
    var nodes := if tail.Some? then c.nodes[tail.value := c.nodes[tail.value].(next := Some(i))] else c.nodes;
    Chain(if tail.None? then Some(i) else c.head, nodes[i := Node(tail, None)])
  }

  /** Appends track `i` behind `tail`, the last track of the owner's list `L`
      (`last_track_of_member`): when `i` comes after every track of `L`, the chain
      then represents `L` followed by `i`. Only the new node and the old last
      one are touched. */
  function Link(c: Chain, tail: Option<nat>, i: nat, ghost L: seq<nat>): (r: Chain)
    requires Represents(c, L) && Increasing(L) && tail == LastOf(L)
    requires forall x :: x in L ==> x < i
    ensures Represents(r, L + [i])
    ensures r.nodes.Keys == c.nodes.Keys + {i}
    ensures forall j :: j in c.nodes && j != i && Some(j) != tail ==> r.nodes[j] == c.nodes[j]
  {
    LinkAppends(c, L, i);
    Attach(c, tail, i)
  }

  lemma LinkAppends(c: Chain, L: seq<nat>, i: nat)
    requires Represents(c, L) && Increasing(L)
    requires forall x :: x in L ==> x < i
    ensures LastOf(L).Some? ==> LastOf(L).value in c.nodes
    ensures Represents(Attach(c, LastOf(L), i), L + [i])
  {
    var L' := L + [i];
    var r := Attach(c, LastOf(L), i);
    if L == [] {
      assert r.nodes[i] == Node(None, None);
    } else {
      var t := L[|L| - 1];
      assert t in c.nodes;
      var mid := c.nodes[t := c.nodes[t].(next := Some(i))];
      assert r.nodes == mid[i := Node(Some(t), None)];
      forall k | 0 <= k < |L'|
        ensures L'[k] in r.nodes
        ensures r.nodes[L'[k]] == Node(Before(L', k), After(L', k))
      {
        if k < |L| - 1 {
          assert L'[k] == L[k] && L[k] < t < i;
          assert r.nodes[L[k]] == c.nodes[L[k]];
          assert L'[k + 1] == L[k + 1];
        } else if k == |L| - 1 {
          assert L'[k] == t && t < i;
          assert r.nodes[t] == c.nodes[t].(next := Some(i));
        } else {
          assert L'[k] == i && L'[k - 1] == t;
        }
      }
      assert r.head == c.head == Some(L'[0]);
      assert Represents(r, L');
    }
  }

  /** Every owner's list holds exactly its tracks below `k`, and `tail` remembers
      the last of them (`last_track_of_member`). */
  predicate PopulatedBelow(ts: seq<Track>, index: map<Owner, Chain>, tail: map<Owner, Option<nat>>, k: nat)
    requires k <= |ts|
  {
    && index.Keys == tail.Keys
    && forall o :: o in index ==>
         Represents(index[o], OwnedBelow(ts, o, {}, k)) && tail[o] == LastOf(OwnedBelow(ts, o, {}, k))
  }

  /** Appends track `k` to the list of each of its owners. */
  method LinkTrack(ts: seq<Track>, index: map<Owner, Chain>, tail: map<Owner, Option<nat>>, k: nat)
    returns (index': map<Owner, Chain>, tail': map<Owner, Option<nat>>)
    requires k < |ts| && PopulatedBelow(ts, index, tail, k)
    ensures index'.Keys == index.Keys && PopulatedBelow(ts, index', tail', k + 1)
  {
    index' := map o | o in index :: if Owns(ts[k], o) then Link(index[o], tail[o], k, OwnedBelow(ts, o, {}, k)) else index[o];
    tail' := map o | o in tail :: if Owns(ts[k], o) then Some(k) else tail[o];
    forall o | o in index'
      ensures Represents(index'[o], OwnedBelow(ts, o, {}, k + 1))
      ensures tail'[o] == LastOf(OwnedBelow(ts, o, {}, k + 1))
    {
      OwnedStep(ts, o, k);
    }
  }

  lemma OwnedStep(ts: seq<Track>, o: Owner, k: nat)
    requires k < |ts|
    ensures OwnedBelow(ts, o, {}, k + 1) ==
              (if Owns(ts[k], o) then OwnedBelow(ts, o, {}, k) + [k] else OwnedBelow(ts, o, {}, k))
  {
  }

  /** Fills in every owner's list from the track list: each track is appended, in
      order, to the list of each of its owners that `members` names. Owners with
      no track keep an empty list. */
  method Populate(ts: seq<Track>, members: set<Owner>) returns (index: map<Owner, Chain>)
    ensures index.Keys == members
    ensures forall o :: o in index ==> Represents(index[o], OwnedBelow(ts, o, {}, |ts|))
  {
    var tail: map<Owner, Option<nat>> := map o | o in members :: None;
    index := map o | o in members :: Chain(None, map[]);
    for k := 0 to |ts|
      invariant index.Keys == members
      invariant PopulatedBelow(ts, index, tail, k)
    {
      index, tail := LinkTrack(ts, index, tail, k);
    }
  }

  // ---------------------------------------------------------------------------
  // Removing a track from one list (`__consume_track`, lines 171-181)

  /** Track `i` has a node in the chain and so do its neighbours. */
  predicate Unlinkable(c: Chain, i: nat) {
    && i in c.nodes
    && (c.nodes[i].prev.Some? ==> c.nodes[i].prev.value in c.nodes)
    && (c.nodes[i].next.Some? ==> c.nodes[i].next.value in c.nodes)
  }

  /** The pointer updates of unlinking track `i`: its predecessor (or the head)
      skips to its successor, and its successor points back to its predecessor.
      The node of `i` itself is left as it was. */
  function Bypass(c: Chain, i: nat): Chain
    requires Unlinkable(c, i)
  {
    var n := c.nodes[i];
    var head := if n.prev.None? then n.next else c.head;
    var nodes := if n.prev.Some? then c.nodes[n.prev.value := c.nodes[n.prev.value].(next := n.next)] else c.nodes;
    var nodes := if n.next.Some? then nodes[n.next.value := nodes[n.next.value].(prev := n.prev)] else nodes;
    Chain(head, nodes)
  }

  /** The position of `i` in `L`. */
  ghost function PositionOf(L: seq<nat>, i: nat): (k: nat)
    requires i in L
    ensures k < |L| && L[k] == i
  {
    var k :| 0 <= k < |L| && L[k] == i; k
  }

  /** Unlinks track `i`, the `k`-th of the owner's list `L`: the chain then
      represents `L` without it, the head advancing when `i` was the head. Only
      the two neighbours of `i` are touched. */
  function Unlink(c: Chain, i: nat, ghost L: seq<nat>, ghost k: nat): (r: Chain)
    requires Represents(c, L) && Increasing(L) && k < |L| && L[k] == i
    ensures Represents(r, L[..k] + L[k + 1..])
    ensures r.nodes.Keys == c.nodes.Keys
    ensures forall j :: j in c.nodes && Some(j) != Before(L, k) && Some(j) != After(L, k) ==> r.nodes[j] == c.nodes[j]
  {
    UnlinkRemoves(c, L, k);
    Bypass(c, i)
  }

  /** Unlinking the `k`-th track of a represented list represents the list without
      it: the head advances when the track was the head, and the links of every
      other track stay intact. */
  lemma UnlinkRemoves(c: Chain, L: seq<nat>, k: nat)
    requires Represents(c, L) && Increasing(L) && k < |L|
    ensures Unlinkable(c, L[k])
    ensures Represents(Bypass(c, L[k]), L[..k] + L[k + 1..])
  {
    var i := L[k];
    assert c.nodes[i] == Node(Before(L, k), After(L, k));
    if k > 0 { assert L[k - 1] in c.nodes; }
    if k + 1 < |L| { assert L[k + 1] in c.nodes; }
    var L' := L[..k] + L[k + 1..];
    var r := Bypass(c, i);
    if 0 < k < |L| - 1 { assert L[k - 1] < L[k + 1]; }
    forall p | 0 <= p < |L'|
      ensures L'[p] in r.nodes && r.nodes[L'[p]] == Node(Before(L', p), After(L', p))
    {
      var q := if p < k then p else p + 1;
      assert L'[p] == L[q];
      UnlinkElsewhere(c, L, k, q);
      assert c.nodes[L[q]] == Node(Before(L, q), After(L, q));
      if p > 0 { assert L'[p - 1] == (if p - 1 < k then L[p - 1] else L[p]); }
      if p + 1 < |L'| { assert L'[p + 1] == (if p + 1 < k then L[p + 1] else L[p + 2]); }
    }
    assert r.head == (if L' == [] then None else Some(L'[0]));
    assert Represents(r, L');
  }

  /** Unlinking position `k` leaves every other node of the list unchanged, except
      that the predecessor now skips to the successor and back. */
  lemma UnlinkElsewhere(c: Chain, L: seq<nat>, k: nat, q: nat)
    requires Represents(c, L) && Increasing(L) && k < |L| && q < |L| && q != k
    requires Unlinkable(c, L[k]) && c.nodes[L[k]] == Node(Before(L, k), After(L, k))
    ensures L[q] in Bypass(c, L[k]).nodes
    ensures Bypass(c, L[k]).nodes[L[q]] ==
              if q + 1 == k then c.nodes[L[q]].(next := After(L, k))
              else if q == k + 1 then c.nodes[L[q]].(prev := Before(L, k))
              else c.nodes[L[q]]
  {
    assert L[q] in c.nodes;
    if q + 1 == k {
      if k + 1 < |L| { assert L[q] < L[k + 1]; }
    } else if q == k + 1 {
      if k > 0 { assert L[k - 1] < L[q]; }
    } else {
      if k > 0 { assert L[k - 1] != L[q]; }
      if k + 1 < |L| { assert L[k + 1] != L[q]; }
    }
  }

  // ---------------------------------------------------------------------------
  // Removing a track from every list that holds it

  /** Every chain of `index` represents its owner's tracks outside `gone`. */
  ghost predicate Indexes(ts: seq<Track>, gone: set<nat>, index: map<Owner, Chain>) {
    forall o :: o in index ==> Represents(index[o], OwnedBelow(ts, o, gone, |ts|))
  }

  /** Unlinks track `i` from the chain of each of its owners, as the loop over
      `track.members` in `__consume_track` does. */
  function UnlinkTrack(ts: seq<Track>, gone: set<nat>, index: map<Owner, Chain>, i: nat): (r: map<Owner, Chain>)
    requires i < |ts| && i !in gone && Indexes(ts, gone, index)
    ensures r.Keys == index.Keys
    ensures forall o :: o in index && !Owns(ts[i], o) ==> r[o] == index[o]
    ensures Indexes(ts, gone + {i}, r)
  {
    UnlinkTrackIndexes(ts, gone, index, i);
    map o | o in index :: UnlinkOwner(ts, gone, index, o, i)
  }

  /** Owner `o`'s chain once track `i` has left it. */
  function UnlinkOwner(ts: seq<Track>, gone: set<nat>, index: map<Owner, Chain>, o: Owner, i: nat): Chain
    requires i < |ts| && i !in gone && Indexes(ts, gone, index) && o in index
  {
    if Owns(ts[i], o) then
      Unlink(index[o], i, OwnedBelow(ts, o, gone, |ts|), PositionOf(OwnedBelow(ts, o, gone, |ts|), i))
    else index[o]
  }

  lemma UnlinkTrackIndexes(ts: seq<Track>, gone: set<nat>, index: map<Owner, Chain>, i: nat)
    requires i < |ts| && i !in gone && Indexes(ts, gone, index)
    ensures Indexes(ts, gone + {i}, map o | o in index :: UnlinkOwner(ts, gone, index, o, i))
  {
    var r := map o | o in index :: UnlinkOwner(ts, gone, index, o, i);
    forall o | o in r ensures Represents(r[o], OwnedBelow(ts, o, gone + {i}, |ts|)) {
      if Owns(ts[i], o) {
        UnlinkOwned(index[o], ts, o, gone, i);
      } else {
        OwnedUntouched(ts, o, gone, i);
      }
    }
  }

  /** Removing a track that `o` does not own leaves `o`'s list as it was. */
  lemma OwnedUntouched(ts: seq<Track>, o: Owner, gone: set<nat>, i: nat)
    requires i < |ts| && !Owns(ts[i], o)
    ensures OwnedBelow(ts, o, gone + {i}, |ts|) == OwnedBelow(ts, o, gone, |ts|)
  {
    var L := OwnedBelow(ts, o, gone, |ts|);
    var M := OwnedBelow(ts, o, gone + {i}, |ts|);
    forall x: nat ensures x in L <==> x in M {
    }
    IncreasingUnique(L, M);
  }

  /** Unlinking a remaining track from its owner's chain leaves the chain
      representing the owner's list without that track. */
  lemma UnlinkOwned(c: Chain, ts: seq<Track>, o: Owner, gone: set<nat>, i: nat)
    requires i < |ts| && i !in gone && Owns(ts[i], o)
    requires Represents(c, OwnedBelow(ts, o, gone, |ts|))
    ensures var L := OwnedBelow(ts, o, gone, |ts|);
      Represents(Unlink(c, i, L, PositionOf(L, i)), OwnedBelow(ts, o, gone + {i}, |ts|))
  {
    var L := OwnedBelow(ts, o, gone, |ts|);
    assert i in L;
    var k := PositionOf(L, i);
    var L' := L[..k] + L[k + 1..];
    var M := OwnedBelow(ts, o, gone + {i}, |ts|);
    RemoveAt(L, k);
    forall x: nat ensures x in L' <==> x in M {
      assert x in L' <==> x in L && x != i;
    }
    IncreasingUnique(L', M);
  }
}
