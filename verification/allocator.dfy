/** The allocator: the mutable state of `CollabBuilder` after the track list and
    the ownership index are built, the operation that moves one track into the
    collab, and the three phases that choose which tracks move
    (squadify/make_collab.py, lines 154-280). */
module Allocator {
  import opened Common
  import opened Tracks
  import opened Config
  import opened LinkedIndex

  /** The builder's state. `tracks` is the sorted track list (the arena),
      `index` holds one chain per member and the dummy, `left` counts the tracks
      still available at each frequency (`num_tracks_left_for_freq`), `added`
      counts the tracks each member has in the collab
      (`num_tracks_added_for_member`), and `collab` lists the positions of the
      chosen tracks in the order they were chosen. */
  datatype State = State(
    tracks: seq<Track>,
    index: map<Owner, Chain>,
    left: map<nat, nat>,
    added: map<Owner, nat>,
    collab: seq<nat>)

  /** Positions already moved into the collab. */
  function Consumed(st: State): set<nat> {
    Elements(st.collab)
  }

  /** The abstract list of owner `o`: its tracks not yet in the collab, in order. */
  function Remaining(st: State, o: Owner): seq<nat> {
    OwnedBelow(st.tracks, o, Consumed(st), |st.tracks|)
  }

  /** How many of the chosen positions `collab` are tracks that `o` owns. */
  function Taken(ts: seq<Track>, collab: seq<nat>, o: Owner): nat
    requires forall k :: 0 <= k < |collab| ==> collab[k] < |ts|
  {
    if collab == [] then 0
    else Taken(ts, collab[..|collab| - 1], o) + (if Owns(ts[collab[|collab| - 1]], o) then 1 else 0)
  }

  /** The shape of the state: sorted tracks, the dummy's chain present, one
      counter per chain, every owner of a track known, and a duplicate-free collab
      of valid positions. */
  ghost predicate WellFormed(st: State) {
    && ByFrequency(st.tracks)
    && Dummy in st.index
    && st.index.Keys == st.added.Keys
    && (forall j, name :: 0 <= j < |st.tracks| && name in st.tracks[j].members ==> Member(name) in st.index)
    && Distinct(st.collab)
    && (forall k :: 0 <= k < |st.collab| ==> st.collab[k] < |st.tracks|)
  }

  /** Each chain is a linked rendering of its owner's remaining tracks. */
  ghost predicate ListsAccurate(st: State) {
    Indexes(st.tracks, Consumed(st), st.index)
  }

  /** `left` has an entry exactly for the frequencies that still have tracks, and
      that entry is their number. */
  ghost predicate HistogramAccurate(st: State) {
    Histogram(st.tracks, Consumed(st), st.left)
  }

  /** `left` counts the positions outside `gone` at each frequency, and holds no
      entry for a frequency with none. */
  ghost predicate Histogram(ts: seq<Track>, gone: set<nat>, left: map<nat, nat>) {
    && (forall f :: f in left <==> Tier(ts, gone, f) != {})
    && (forall f :: f in left ==> left[f] == |Tier(ts, gone, f)|)
  }

  /** `added` counts, for each owner, its tracks in the collab. */
  ghost predicate CountsAccurate(st: State)
    requires WellFormed(st)
  {
    Counts(st.tracks, st.collab, st.added)
  }

  ghost predicate Counts(ts: seq<Track>, collab: seq<nat>, added: map<Owner, nat>)
    requires forall k :: 0 <= k < |collab| ==> collab[k] < |ts|
  {
    forall o :: o in added ==> added[o] == Taken(ts, collab, o)
  }

  /** The invariant of the builder between operations. */
  ghost predicate Valid(st: State) {
    WellFormed(st) && ListsAccurate(st) && HistogramAccurate(st) && CountsAccurate(st)
  }

  /** `r` is a later state of the same build: same tracks and owners, and a
      collab that extends the earlier one. */
  ghost predicate Follows(st: State, r: State) {
    r.tracks == st.tracks && r.index.Keys == st.index.Keys && st.collab <= r.collab
  }

  // ---------------------------------------------------------------------------
  // Reading the state

  /** `most_popular_track_of_member[o]`: the first remaining track of `o`, which
      is a track `o` owns that is not yet in the collab. */
  function MostPopularTrackOf(st: State, o: Owner): (h: Option<nat>)
    requires Valid(st) && o in st.index
    ensures h.None? <==> Remaining(st, o) == []
    ensures h.Some? ==> h.value == Remaining(st, o)[0]
    ensures h.Some? ==> h.value < |st.tracks| && h.value !in Consumed(st) && Owns(st.tracks[h.value], o)
  {
    FirstRemaining(st, o);
    st.index[o].head
  }

  lemma FirstRemaining(st: State, o: Owner)
    requires Valid(st) && o in st.index
    ensures Remaining(st, o) != [] ==>
              var h := Remaining(st, o)[0];
              h < |st.tracks| && h !in Consumed(st) && Owns(st.tracks[h], o)
  {
    var L := Remaining(st, o);
    if L != [] { assert L[0] in L; }
  }

  /** `__no_more_tracks`: the histogram is empty exactly when every track is in
      the collab, which is when the dummy's list is empty. */
  function NoMoreTracks(st: State): (b: bool)
    requires Valid(st)
    ensures b <==> Remaining(st, Dummy) == []
    ensures b <==> forall j :: 0 <= j < |st.tracks| ==> j in Consumed(st)
  {
    EmptyHistogram(st);
    |st.left| == 0
  }

  lemma EmptyHistogram(st: State)
    requires Valid(st)
    ensures |st.left| == 0 <==> Remaining(st, Dummy) == []
    ensures |st.left| == 0 <==> forall j :: 0 <= j < |st.tracks| ==> j in Consumed(st)
  {
    var L := Remaining(st, Dummy);
    if L != [] {
      var j := L[0];
      assert j in L;
      assert j in Tier(st.tracks, Consumed(st), Frequency(st.tracks[j]));
      assert Frequency(st.tracks[j]) in st.left.Keys;
    } else {
      forall j | 0 <= j < |st.tracks| ensures j in Consumed(st) {
        assert j !in L;
      }
      forall f ensures Tier(st.tracks, Consumed(st), f) == {} {
      }
      assert st.left.Keys == {};
    }
  }

  /** `__get_highest_frequency`: the frequency of the dummy's first track, which
      is at least that of every remaining track and still has tracks left. */
  function HighestFrequency(st: State): (f: nat)
    requires Valid(st) && !NoMoreTracks(st)
    ensures f in st.left
    ensures forall j :: 0 <= j < |st.tracks| && j !in Consumed(st) ==> Frequency(st.tracks[j]) <= f
  {
    TopIsLeft(st);
    Frequency(st.tracks[MostPopularTrackOf(st, Dummy).value])
  }

  lemma TopIsLeft(st: State)
    requires Valid(st) && Remaining(st, Dummy) != []
    ensures Frequency(st.tracks[Remaining(st, Dummy)[0]]) in st.left
    ensures forall j :: 0 <= j < |st.tracks| && j !in Consumed(st) ==>
              Frequency(st.tracks[j]) <= Frequency(st.tracks[Remaining(st, Dummy)[0]])
  {
    FirstRemaining(st, Dummy);
    var h := Remaining(st, Dummy)[0];
    HeadIsTop(st);
    assert h in Tier(st.tracks, Consumed(st), Frequency(st.tracks[h]));
  }

  /** The head of the dummy's list is a most frequent remaining track. */
  lemma HeadIsTop(st: State)
    requires Valid(st) && Remaining(st, Dummy) != []
    ensures forall j :: 0 <= j < |st.tracks| && j !in Consumed(st) ==>
              Frequency(st.tracks[j]) <= Frequency(st.tracks[Remaining(st, Dummy)[0]])
  {
    var L := Remaining(st, Dummy);
    forall j | 0 <= j < |st.tracks| && j !in Consumed(st)
      ensures Frequency(st.tracks[j]) <= Frequency(st.tracks[L[0]])
    {
      assert j in L;
      var k :| 0 <= k < |L| && L[k] == j;
      assert L[0] <= j;
    }
  }

  // ---------------------------------------------------------------------------
  // Moving one track into the collab (`__consume_track`, lines 155-181)

  /** Appends track `i` to the collab, takes one from the count of its frequency,
      credits each of its owners, and unlinks it from each of its owners' lists. */
  method Consume(st: State, i: nat) returns (r: State)
    requires Valid(st) && i < |st.tracks| && i !in Consumed(st)
    ensures Valid(r) && Follows(st, r)
    ensures r.collab == st.collab + [i]
    ensures Consumed(r) == Consumed(st) + {i}
    ensures forall o :: o in r.added ==> r.added[o] == st.added[o] + (if Owns(st.tracks[i], o) then 1 else 0)
    ensures forall f :: Tier(r.tracks, Consumed(r), f) == Tier(st.tracks, Consumed(st), f) - {i}
  {
    var ts := st.tracks;
    var gone := Consumed(st);
    var collab := st.collab + [i];
    r := State(ts, UnlinkTrack(ts, gone, st.index, i), TakeOne(ts, gone, i, st.left, Frequency(ts[i])),
               Credit(ts, st.collab, i, st.added, ts[i]), collab);
    ElementsSnoc(st.collab, i);
    AppendKeepsShape(st, r, i);
    TierRemove(ts, gone, i);
  }

  lemma AppendKeepsShape(st: State, r: State, i: nat)
    requires WellFormed(st) && i < |st.tracks| && i !in st.collab
    requires r.tracks == st.tracks && r.index.Keys == st.index.Keys && r.added.Keys == st.added.Keys
    requires r.collab == st.collab + [i]
    ensures WellFormed(r)
  {
    DistinctSnoc(st.collab, i);
  }

  /** The counter update of `__consume_track`: one fewer track at frequency `f`,
      and `+counter` drops the entry once it is no longer positive. When `left`
      is the histogram of the tracks outside `gone` and `i` is one of them, at
      frequency `f`, the result is the histogram once `i` is gone too. No other
      frequency's entry changes. */
  function TakeOne(ghost ts: seq<Track>, ghost gone: set<nat>, ghost i: nat, left: map<nat, nat>, f: nat): (r: map<nat, nat>)
    requires Histogram(ts, gone, left) && i < |ts| && i !in gone && Frequency(ts[i]) == f
    ensures Histogram(ts, gone + {i}, r)
    ensures forall g :: g != f ==> (g in r <==> g in left) && (g in r ==> r[g] == left[g])
  {
    var r := if f in left && left[f] > 1 then left[f := left[f] - 1] else left - {f};
    TierRemove(ts, gone, i);
    assert Histogram(ts, gone + {i}, r) by {
      forall g
        ensures g in r <==> Tier(ts, gone + {i}, g) != {}
        ensures g in r ==> r[g] == |Tier(ts, gone + {i}, g)|
      {
        if g == f {
          var before := Tier(ts, gone, g);
          var after := Tier(ts, gone + {i}, g);
          assert i in before;
          assert |after| == |before| - 1;
          assert after == {} <==> |after| == 0;
        } else {
          assert i !in Tier(ts, gone, g);
        }
      }
    }
    r
  }

  /** Taking a remaining track out removes it from its tier and from no other. */
  lemma TierRemove(ts: seq<Track>, gone: set<nat>, i: nat)
    ensures forall f :: Tier(ts, gone + {i}, f) == Tier(ts, gone, f) - {i}
  {
    forall f ensures Tier(ts, gone + {i}, f) == Tier(ts, gone, f) - {i} {
      assert Tier(ts, gone + {i}, f) == Tier(ts, gone, f) - {i};
    }
  }

  /** The count update of `__consume_track`: one more for each owner of `t`.
      When `added` counts each owner's tracks in `collab` and `t` is the track at
      position `i`, the result counts them in the collab with `i` appended. */
  function Credit(ghost ts: seq<Track>, ghost collab: seq<nat>, ghost i: nat, added: map<Owner, nat>, t: Track): (r: map<Owner, nat>)
    requires forall k :: 0 <= k < |collab| ==> collab[k] < |ts|
    requires i < |ts| && ts[i] == t && Counts(ts, collab, added)
    ensures Counts(ts, collab + [i], r)
    ensures r.Keys == added.Keys
    ensures forall o :: o in r ==> r[o] == added[o] + (if Owns(t, o) then 1 else 0)
  {
    assert (collab + [i])[..|collab|] == collab;
    map o | o in added :: if Owns(t, o) then added[o] + 1 else added[o]
  }

  // ---------------------------------------------------------------------------
  // Later states

  /** The collab only grows, so the consumed positions, every owner's count and
      every owner's exhaustion carry over to later states. */
  lemma Monotone(st: State, r: State)
    requires WellFormed(st) && WellFormed(r) && Follows(st, r)
    ensures Consumed(st) <= Consumed(r)
    ensures forall o :: o in st.added ==> Taken(st.tracks, st.collab, o) <= Taken(r.tracks, r.collab, o)
    ensures forall o :: Remaining(st, o) == [] ==> Remaining(r, o) == []
  {
    PrefixElements(st.collab, r.collab);
    forall o | o in st.added ensures Taken(st.tracks, st.collab, o) <= Taken(r.tracks, r.collab, o) {
      TakenGrows(st.tracks, st.collab, r.collab, o);
    }
    forall o | Remaining(st, o) == [] ensures Remaining(r, o) == [] {
      OwnedShrinks(st.tracks, o, Consumed(st), Consumed(r));
    }
  }

  /** Consuming more never brings a track back into an owner's list. */
  lemma OwnedShrinks(ts: seq<Track>, o: Owner, gone: set<nat>, gone': set<nat>)
    requires gone <= gone' && OwnedBelow(ts, o, gone, |ts|) == []
    ensures OwnedBelow(ts, o, gone', |ts|) == []
  {
    IncreasingUnique(OwnedBelow(ts, o, gone', |ts|), []);
  }

  /** Extending the collab never lowers an owner's count. */
  lemma {:induction false} TakenGrows(ts: seq<Track>, c: seq<nat>, d: seq<nat>, o: Owner)
    requires forall k :: 0 <= k < |d| ==> d[k] < |ts|
    requires c <= d
    ensures Taken(ts, c, o) <= Taken(ts, d, o)
    decreases |d|
  {
    if |c| < |d| {
      var d' := d[..|d| - 1];
      assert c <= d';
      TakenGrows(ts, c, d', o);
    } else {
      assert c == d;
    }
  }

  /** Consuming the first remaining track of `o` leaves the rest of its list. */
  lemma DropFirst(ts: seq<Track>, o: Owner, gone: set<nat>)
    requires OwnedBelow(ts, o, gone, |ts|) != []
    ensures var L := OwnedBelow(ts, o, gone, |ts|);
            OwnedBelow(ts, o, gone + {L[0]}, |ts|) == L[1..]
  {
    var L := OwnedBelow(ts, o, gone, |ts|);
    var M := OwnedBelow(ts, o, gone + {L[0]}, |ts|);
    forall x: nat ensures x in L[1..] <==> x in M {
      InTail(L, x);
    }
    IncreasingUnique(L[1..], M);
  }

  // ---------------------------------------------------------------------------
  // One member's most popular track (`__consume_most_popular_track_of_member`,
  // lines 186-193)

  /** Moves the first remaining track of `m` into the collab; fails, changing
      nothing, when `m` has none left. */
  method ConsumeMostPopularTrackOf(st: State, m: Owner) returns (ok: bool, r: State)
    requires Valid(st) && m in st.index
    ensures Valid(r) && Follows(st, r)
    ensures ok <==> Remaining(st, m) != []
    ensures !ok ==> r == st
    ensures ok ==> r.collab == st.collab + [Remaining(st, m)[0]]
    ensures ok ==> Remaining(r, m) == Remaining(st, m)[1..] && r.added[m] == st.added[m] + 1
  {
    var h := MostPopularTrackOf(st, m);
    if h.None? {
      return false, st;
    }
    r := Consume(st, h.value);
    DropFirst(st.tracks, m, Consumed(st));
    ok := true;
  }

  /** The dummy owns every track, so its count is the length of the collab. */
  lemma DummyCountsAll(st: State)
    requires Valid(st)
    ensures st.added[Dummy] == |st.collab|
  {
    TakenByDummy(st.tracks, st.collab);
  }

  lemma {:induction false} TakenByDummy(ts: seq<Track>, collab: seq<nat>)
    requires forall k :: 0 <= k < |collab| ==> collab[k] < |ts|
    ensures Taken(ts, collab, Dummy) == |collab|
  {
    if collab != [] {
      TakenByDummy(ts, collab[..|collab| - 1]);
    }
  }

  // ---------------------------------------------------------------------------
  // Whole frequency levels (`__consume_highest_frequency` and
  // `__add_all_of_highest_frequencies`, lines 199-248)

  /** Every position of `chosen` holds a strictly more frequent track than every
      position outside `gone`. */
  ghost predicate Outranks(ts: seq<Track>, chosen: set<nat>, gone: set<nat>) {
    forall a, b :: a in chosen && a < |ts| && 0 <= b < |ts| && b !in gone ==>
      Frequency(ts[a]) > Frequency(ts[b])
  }

  /** Moves the whole highest remaining frequency level into the collab, from the
      top of the track list down; fails, changing nothing, when no track is left
      or the level does not fit under the collab size. */
  method ConsumeHighestFrequency(st: State) returns (ok: bool, r: State)
    requires Valid(st)
    ensures Valid(r) && Follows(st, r)
    ensures ok <==> !NoMoreTracks(st) && st.left[HighestFrequency(st)] + |st.collab| <= MaxCollabSize
    ensures !ok ==> r == st
    ensures ok ==> var top := HighestFrequency(st);
              && Consumed(r) == Consumed(st) + Tier(st.tracks, Consumed(st), top)
              && |r.collab| == |st.collab| + st.left[top]
              && top !in r.left
  {
    if NoMoreTracks(st) {
      return false, st;
    }
    var top := HighestFrequency(st);
    var count := st.left[top];
    if count + |st.collab| > MaxCollabSize {
      return false, st;
    }
    ghost var level := Tier(st.tracks, Consumed(st), top);
    r := st;
    for j := 0 to count
      invariant Valid(r) && Follows(st, r)
      invariant |r.collab| == |st.collab| + j
      invariant Consumed(st) <= Consumed(r) <= Consumed(st) + level
      invariant |Tier(r.tracks, Consumed(r), top)| == count - j
      invariant forall k :: 0 <= k < |r.tracks| && k !in Consumed(r) ==> Frequency(r.tracks[k]) <= top
    {
      LevelHead(r.tracks, Consumed(r), top);
      var h := MostPopularTrackOf(r, Dummy);
      var next := Consume(r, h.value);
      LevelTake(st, r, next, h.value, top);
      r := next;
    }
    LevelExhausted(st, r, top);
    ok := true;
  }

  /** While the top level still has tracks, the head of the dummy's list is one. */
  lemma LevelHead(ts: seq<Track>, gone: set<nat>, top: nat)
    requires ByFrequency(ts) && Tier(ts, gone, top) != {}
    requires forall k :: 0 <= k < |ts| && k !in gone ==> Frequency(ts[k]) <= top
    ensures OwnedBelow(ts, Dummy, gone, |ts|) != []
    ensures OwnedBelow(ts, Dummy, gone, |ts|)[0] in Tier(ts, gone, top)
  {
    var L := OwnedBelow(ts, Dummy, gone, |ts|);
    var x :| x in Tier(ts, gone, top);
    assert x in L;
    var k :| 0 <= k < |L| && L[k] == x;
    assert L[0] <= x;
    assert L[0] in L;
  }

  lemma LevelTake(st: State, r: State, next: State, h: nat, top: nat)
    requires Follows(st, r) && Follows(r, next)
    requires Consumed(st) <= Consumed(r) <= Consumed(st) + Tier(st.tracks, Consumed(st), top)
    requires h in Tier(r.tracks, Consumed(r), top) && Consumed(next) == Consumed(r) + {h}
    requires |next.collab| == |r.collab| + 1
    requires forall k :: 0 <= k < |r.tracks| && k !in Consumed(r) ==> Frequency(r.tracks[k]) <= top
    requires forall f :: Tier(next.tracks, Consumed(next), f) == Tier(r.tracks, Consumed(r), f) - {h}
    ensures Follows(st, next)
    ensures Consumed(st) <= Consumed(next) <= Consumed(st) + Tier(st.tracks, Consumed(st), top)
    ensures |Tier(next.tracks, Consumed(next), top)| == |Tier(r.tracks, Consumed(r), top)| - 1
    ensures forall k :: 0 <= k < |next.tracks| && k !in Consumed(next) ==> Frequency(next.tracks[k]) <= top
  {
    assert h in Tier(st.tracks, Consumed(st), top);
    assert Tier(next.tracks, Consumed(next), top) == Tier(r.tracks, Consumed(r), top) - {h};
  }

  lemma LevelExhausted(st: State, r: State, top: nat)
    requires Consumed(st) <= Consumed(r) <= Consumed(st) + Tier(st.tracks, Consumed(st), top)
    requires r.tracks == st.tracks && |Tier(r.tracks, Consumed(r), top)| == 0
    ensures Consumed(r) == Consumed(st) + Tier(st.tracks, Consumed(st), top)
  {
    forall x | x in Tier(st.tracks, Consumed(st), top) ensures x in Consumed(r) {
      assert x !in Consumed(r) ==> x in Tier(r.tracks, Consumed(r), top);
    }
  }

  /** `__add_all_of_highest_frequencies`: moves whole levels, highest first, until
      no track is left or the next level does not fit. Every track it moves
      outranks every track it leaves. */
  method AddAllOfHighestFrequencies(st: State) returns (r: State)
    requires Valid(st) && |st.collab| <= MaxCollabSize
    ensures Valid(r) && Follows(st, r) && |r.collab| <= MaxCollabSize
    ensures NoMoreTracks(r) || r.left[HighestFrequency(r)] + |r.collab| > MaxCollabSize
    ensures Outranks(r.tracks, Consumed(r) - Consumed(st), Consumed(r))
  {
    r := st;
    var ok := true;
    while ok
      invariant Valid(r) && Follows(st, r) && |r.collab| <= MaxCollabSize
      invariant !ok ==> NoMoreTracks(r) || r.left[HighestFrequency(r)] + |r.collab| > MaxCollabSize
      invariant Outranks(r.tracks, Consumed(r) - Consumed(st), Consumed(r))
      decreases |r.left.Keys|, ok
    {
      var next;
      ok, next := ConsumeHighestFrequency(r);
      if ok {
        LevelStep(st, r, next, HighestFrequency(r));
      }
      r := next;
    }
  }

  /** One successful level step keeps `Outranks` and removes a histogram entry. */
  lemma LevelStep(st: State, r: State, next: State, top: nat)
    requires WellFormed(st) && WellFormed(r) && Follows(st, r) && Follows(r, next)
    requires HistogramAccurate(r) && HistogramAccurate(next)
    requires Outranks(r.tracks, Consumed(r) - Consumed(st), Consumed(r))
    requires top in r.left
    requires forall k :: 0 <= k < |r.tracks| && k !in Consumed(r) ==> Frequency(r.tracks[k]) <= top
    requires Consumed(next) == Consumed(r) + Tier(r.tracks, Consumed(r), top)
    ensures Follows(st, next)
    ensures Outranks(next.tracks, Consumed(next) - Consumed(st), Consumed(next))
    ensures |next.left.Keys| < |r.left.Keys|
  {
    PrefixElements(st.collab, r.collab);
    OutranksStep(r.tracks, Consumed(st), Consumed(r), top);
    LevelGone(r.tracks, Consumed(r), Consumed(next), r.left, next.left, top);
  }

  lemma OutranksStep(ts: seq<Track>, start: set<nat>, gone: set<nat>, top: nat)
    requires start <= gone && Outranks(ts, gone - start, gone)
    requires forall k :: 0 <= k < |ts| && k !in gone ==> Frequency(ts[k]) <= top
    ensures Outranks(ts, gone + Tier(ts, gone, top) - start, gone + Tier(ts, gone, top))
  {
    var level := Tier(ts, gone, top);
    var after := gone + level;
    forall a, b | a in after - start && a < |ts| && 0 <= b < |ts| && b !in after
      ensures Frequency(ts[a]) > Frequency(ts[b])
    {
      assert b !in level;
    }
  }

  lemma LevelGone(ts: seq<Track>, gone: set<nat>, gone': set<nat>, left: map<nat, nat>, left': map<nat, nat>, top: nat)
    requires Histogram(ts, gone, left) && Histogram(ts, gone', left')
    requires top in left && gone' == gone + Tier(ts, gone, top)
    ensures |left'.Keys| < |left.Keys|
  {
    forall f | f in left' ensures f in left {
      var x :| x in Tier(ts, gone', f);
      assert x in Tier(ts, gone, f);
    }
    assert top !in left' by {
      assert Tier(ts, gone', top) == {};
    }
    SubsetSmaller(left'.Keys, left.Keys, top);
  }

  /** Because whole levels move, each frequency level is either untouched or
      entirely gone. */
  lemma WholeLevels(ts: seq<Track>, before: set<nat>, after: set<nat>, f: nat)
    requires before <= after && Outranks(ts, after - before, after)
    ensures Tier(ts, after, f) == {} || Tier(ts, after, f) == Tier(ts, before, f)
  {
    if Tier(ts, after, f) != {} {
      var y :| y in Tier(ts, after, f);
      forall x | x in Tier(ts, before, f) ensures x in Tier(ts, after, f) {
        assert Frequency(ts[x]) == Frequency(ts[y]);
      }
    }
  }

  // ---------------------------------------------------------------------------
  // Minimum shares (`__give_members_minimum_share`, lines 236-242)

  /** How many more tracks a member holding `have` needs to reach `target`; the
      source's `range` of a negative count is empty. */
  function Shortfall(target: nat, have: nat): (n: nat)
    ensures have + n >= target
    ensures n == 0 || have + n == target
  {
    if target > have then target - have else 0
  }

  /** The share loop for one member: moves the member's most popular tracks into
      the collab, one at a time, until it holds `target` tracks or has none left.
      The tracks moved are exactly the first ones of its list. */
  method GiveMemberShare(st: State, m: Owner, target: nat) returns (r: State)
    requires Valid(st) && m in st.index
    ensures Valid(r) && Follows(st, r)
    ensures var d := Min(Shortfall(target, st.added[m]), |Remaining(st, m)|);
            r.collab == st.collab + Remaining(st, m)[..d] && r.added[m] == st.added[m] + d
    ensures Served(r, m, target)
    ensures |r.collab| <= |st.collab| + target
  {
    var needed := Shortfall(target, st.added[m]);
    ghost var R := Remaining(st, m);
    r := st;
    var taken := 0;
    var ok := true;
    while taken < needed && ok
      invariant taken <= needed && taken <= |R|
      invariant Valid(r) && m in r.index && TakenFirst(st, r, m, R, taken)
      invariant !ok ==> taken == |R|
      decreases needed - taken, ok
    {
      var next;
      ok, next := ConsumeMostPopularTrackOf(r, m);
      if ok {
        TakeFirstStep(st, r, next, m, R, taken);
        taken := taken + 1;
      }
      r := next;
    }
    TakenEnough(st, r, m, target, taken);
  }

  /** After `taken` rounds of the share loop for `m`, the collab grew by the first
      `taken` tracks of `m`'s list `R` and nothing else. */
  ghost predicate TakenFirst(st: State, r: State, m: Owner, R: seq<nat>, taken: nat)
    requires m in st.added && m in r.added
  {
    && taken <= |R| && Follows(st, r)
    && r.collab == st.collab + R[..taken] && Remaining(r, m) == R[taken..]
    && r.added[m] == st.added[m] + taken
  }

  lemma TakenEnough(st: State, r: State, m: Owner, target: nat, taken: nat)
    requires m in st.added && m in r.added
    requires TakenFirst(st, r, m, Remaining(st, m), taken)
    requires taken <= Shortfall(target, st.added[m])
    requires taken == Shortfall(target, st.added[m]) || taken == |Remaining(st, m)|
    ensures var d := Min(Shortfall(target, st.added[m]), |Remaining(st, m)|);
            r.collab == st.collab + Remaining(st, m)[..d] && r.added[m] == st.added[m] + d
    ensures Served(r, m, target)
    ensures |r.collab| <= |st.collab| + target
  {
  }

  lemma TakeFirstStep(st: State, r: State, next: State, m: Owner, R: seq<nat>, taken: nat)
    requires m in st.added && m in r.added && m in next.added
    requires TakenFirst(st, r, m, R, taken) && Remaining(r, m) != [] && Follows(r, next)
    requires next.collab == r.collab + [Remaining(r, m)[0]]
    requires Remaining(next, m) == Remaining(r, m)[1..] && next.added[m] == r.added[m] + 1
    ensures TakenFirst(st, next, m, R, taken + 1)
  {
    PrefixStep(st.collab, R, taken);
  }

  function Min(a: nat, b: nat): nat {
    if a < b then a else b
  }

  /** Owner `o` holds at least `target` tracks of the collab, or has no track
      left to give it. */
  ghost predicate Served(st: State, o: Owner, target: nat) {
    o in st.added && (st.added[o] >= target || Remaining(st, o) == [])
  }

  /** Reaching the share, or running out of tracks, is never undone later. */
  lemma ServedStays(st: State, r: State, order: seq<Owner>, k: nat, target: nat)
    requires WellFormed(st) && CountsAccurate(st) && WellFormed(r) && CountsAccurate(r) && Follows(st, r) && k < |order|
    requires forall p :: 0 <= p < k ==> Served(st, order[p], target)
    requires Served(r, order[k], target)
    ensures forall p :: 0 <= p < k + 1 ==> Served(r, order[p], target)
  {
    Monotone(st, r);
  }

  /** `__give_members_minimum_share`: runs the share loop for each owner in the
      iteration order `order` of the member set. Afterwards every owner in the
      order holds at least `target` tracks or has none left, and the collab grew
      by at most `target` per owner. */
  method GiveMembersMinimumShare(st: State, order: seq<Owner>, target: nat) returns (r: State)
    requires Valid(st) && forall k :: 0 <= k < |order| ==> order[k] in st.index
    ensures Valid(r) && Follows(st, r)
    ensures forall p :: 0 <= p < |order| ==> Served(r, order[p], target)
    ensures |r.collab| <= |st.collab| + |order| * target
  {
    r := st;
    for k := 0 to |order|
      invariant Valid(r) && ShareProgress(st, r, order, k, target)
    {
      var next := GiveMemberShare(r, order[k], target);
      ShareStep(st, r, next, order, k, target);
      r := next;
    }
    TimesIsProduct(|order|, target);
  }

  /** The share loop's invariant after serving the first `k` owners of `order`. */
  ghost predicate ShareProgress(st: State, r: State, order: seq<Owner>, k: nat, target: nat) {
    && k <= |order|
    && Follows(st, r)
    && (forall p :: 0 <= p < |order| ==> order[p] in r.index)
    && (forall p :: 0 <= p < k ==> Served(r, order[p], target))
    && |r.collab| <= |st.collab| + Times(k, target)
  }

  lemma ShareStep(st: State, r: State, next: State, order: seq<Owner>, k: nat, target: nat)
    requires k < |order| && ShareProgress(st, r, order, k, target)
    requires WellFormed(r) && CountsAccurate(r) && WellFormed(next) && CountsAccurate(next)
    requires Follows(r, next) && Served(next, order[k], target)
    requires |next.collab| <= |r.collab| + target
    ensures ShareProgress(st, next, order, k + 1, target)
  {
    ServedStays(r, next, order, k, target);
  }

  /** `n` shares of `t` tracks, added up one share at a time. */
  function Times(n: nat, t: nat): nat {
    if n == 0 then 0 else Times(n - 1, t) + t
  }

  lemma {:induction false} TimesIsProduct(n: nat, t: nat)
    ensures Times(n, t) == n * t
  {
    if n > 0 {
      TimesIsProduct(n - 1, t);
      assert (n - 1) * t + t == n * t;
    }
  }

  // ---------------------------------------------------------------------------
  // Filling up from the last level (`__add_some_of_last_frequency`, lines 252-280)

  /** Python's `min(counts, key=counts.get)` over the candidates in iteration
      order: the first candidate with the fewest tracks in the collab. */
  method LeastServed(cands: seq<Owner>, added: map<Owner, nat>) returns (k: nat)
    requires cands != [] && forall j :: 0 <= j < |cands| ==> cands[j] in added
    ensures k < |cands|
    ensures forall j :: 0 <= j < |cands| ==> added[cands[k]] <= added[cands[j]]
    ensures forall j :: 0 <= j < k ==> added[cands[k]] < added[cands[j]]
  {
    k := 0;
    for j := 1 to |cands|
      invariant k < j
      invariant forall p :: 0 <= p < j ==> added[cands[k]] <= added[cands[p]]
      invariant forall p :: 0 <= p < k ==> added[cands[k]] < added[cands[p]]
    {
      if added[cands[j]] < added[cands[k]] {
        k := j;
      }
    }
  }

  /** Fills the collab up to its size with tracks of the highest remaining
      frequency, each time taking the most popular track of the least served
      candidate and dropping candidates whose next track is of a lower level.
      The dummy, which owns every track, is never dropped, so the loop ends with
      a full collab. */
  method AddSomeOfLastFrequency(st: State, pickOrder: seq<Owner>) returns (r: State)
    requires Valid(st) && |st.collab| <= MaxCollabSize
    requires NoMoreTracks(st) || st.left[HighestFrequency(st)] + |st.collab| > MaxCollabSize
    requires Dummy in pickOrder && forall k :: 0 <= k < |pickOrder| ==> pickOrder[k] in st.index
    ensures Valid(r) && Follows(st, r)
    ensures NoMoreTracks(st) ==> r == st
    ensures !NoMoreTracks(st) ==> |r.collab| == MaxCollabSize
    ensures !NoMoreTracks(st) ==> LastLevel(st, r, HighestFrequency(st))
  {
    if NoMoreTracks(st) {
      return st;
    }
    var last := HighestFrequency(st);
    var filtered := pickOrder;
    r := st;
    while |r.collab| < MaxCollabSize
      invariant Valid(r) && Follows(st, r) && |r.collab| <= MaxCollabSize
      invariant Candidates(filtered, r.index.Keys)
      invariant LastLevel(st, r, last)
      decreases MaxCollabSize - |r.collab|, |filtered|
    {
      LevelHead(r.tracks, Consumed(r), last);
      var k := LeastServed(filtered, r.added);
      var member := filtered[k];
      var track := MostPopularTrackOf(r, member);
      if track.None? || Frequency(r.tracks[track.value]) < last {
        DropCandidate(filtered, k, r.index.Keys);
        filtered := filtered[..k] + filtered[k + 1..];
      } else {
        var next := Consume(r, track.value);
        LastTake(st, r, next, track.value, last);
        r := next;
      }
    }
  }

  /** The candidates still considered: the dummy is among them, and each has a chain. */
  ghost predicate Candidates(filtered: seq<Owner>, owners: set<Owner>) {
    Dummy in filtered && forall k :: 0 <= k < |filtered| ==> filtered[k] in owners
  }

  /** While filling from level `last`: the level still holds more tracks than the
      collab has room for, no remaining track is above it, and every track added
      since `st` is from it. */
  ghost predicate LastLevel(st: State, r: State, last: nat) {
    && |Tier(r.tracks, Consumed(r), last)| + |r.collab| > MaxCollabSize
    && (forall k :: 0 <= k < |r.tracks| && k !in Consumed(r) ==> Frequency(r.tracks[k]) <= last)
    && (forall k :: |st.collab| <= k < |r.collab| ==>
          r.collab[k] < |r.tracks| && Frequency(r.tracks[r.collab[k]]) == last)
  }

  lemma DropCandidate(filtered: seq<Owner>, k: nat, owners: set<Owner>)
    requires Candidates(filtered, owners) && k < |filtered| && filtered[k] != Dummy
    ensures Candidates(filtered[..k] + filtered[k + 1..], owners)
  {
    RemoveKeeps(filtered, k, Dummy);
    var f' := filtered[..k] + filtered[k + 1..];
    forall p | 0 <= p < |f'| ensures f'[p] in owners {
      assert f'[p] == (if p < k then filtered[p] else filtered[p + 1]);
    }
  }

  lemma LastTake(st: State, r: State, next: State, h: nat, last: nat)
    requires LastLevel(st, r, last)
    requires Follows(st, r) && next.tracks == r.tracks && next.collab == r.collab + [h]
    requires h < |r.tracks| && h !in Consumed(r) && Frequency(r.tracks[h]) >= last
    requires Consumed(next) == Consumed(r) + {h}
    requires forall f :: Tier(next.tracks, Consumed(next), f) == Tier(r.tracks, Consumed(r), f) - {h}
    ensures LastLevel(st, next, last)
  {
    assert h in Tier(r.tracks, Consumed(r), last);
    assert Tier(next.tracks, Consumed(next), last) == Tier(r.tracks, Consumed(r), last) - {h};
  }
}
