/** `CollabBuilder.build` (squadify/make_collab.py, lines 71-96 and 231-290):
    builds the track list, links it, and runs the three allocation phases. */
module CollabBuilder {
  import opened Common
  import opened Tracks
  import opened Config
  import opened Registry
  import opened LinkedIndex
  import opened Allocator

  /** Why a build can fail: with no playlist there is no member to share the
      collab among, and the source divides by zero computing the share. */
  datatype BuildError = NoMembers

  /** The distinct member names of the playlists. */
  function Names(ps: seq<Playlist>): set<string> {
    set i | 0 <= i < |ps| :: ps[i].member
  }

  /** `__get_number_of_members`: the owners known to the builder, less the dummy. */
  function NumberOfMembers(ps: seq<Playlist>): (n: nat)
    ensures n == |Names(ps)|
    ensures n >= 1 <==> |ps| > 0
  {
    MembersCount(ps);
    |MembersOf(ps)| - 1
  }

  lemma MembersCount(ps: seq<Playlist>)
    ensures |MembersOf(ps)| == |Names(ps)| + 1
    ensures |ps| > 0 <==> |Names(ps)| >= 1
  {
    var names := Names(ps);
    assert (set i | 0 <= i < |ps| :: Member(ps[i].member)) == (set name | name in names :: Member(name));
    MemberImage(names);
    assert Dummy !in set name | name in names :: Member(name);
    if |ps| > 0 {
      assert ps[0].member in names;
    }
  }

  /** How many tracks of `out` owner `o` owns. */
  function Share(out: seq<Track>, o: Owner): nat {
    if out == [] then 0
    else Share(out[..|out| - 1], o) + (if Owns(out[|out| - 1], o) then 1 else 0)
  }

  /** Every owner of `owners` has at least `target` tracks in `out`, or has all of
      its tracks of `tracks` in `out`. */
  ghost predicate SharesMet(out: seq<Track>, tracks: seq<Track>, owners: set<Owner>, target: nat) {
    forall o :: o in owners ==>
      Share(out, o) >= target || forall t :: t in tracks && Owns(t, o) ==> t in out
  }

  /** The tracks at the chosen positions, in the order they were chosen. */
  function Render(ts: seq<Track>, collab: seq<nat>): (out: seq<Track>)
    requires forall k :: 0 <= k < |collab| ==> collab[k] < |ts|
  {
    seq(|collab|, k requires 0 <= k < |collab| => ts[collab[k]])
  }

  /** Counting an owner's tracks in the rendered collab counts its positions. */
  lemma {:induction false} ShareOfRender(ts: seq<Track>, collab: seq<nat>, o: Owner)
    requires forall k :: 0 <= k < |collab| ==> collab[k] < |ts|
    ensures Share(Render(ts, collab), o) == Taken(ts, collab, o)
  {
    if collab != [] {
      var init := collab[..|collab| - 1];
      ShareOfRender(ts, init, o);
      assert Render(ts, collab)[..|collab| - 1] == Render(ts, init);
    }
  }

  /** The state before the first phase: the sorted track list linked into one
      chain per owner, the histogram of the track list, no track added for any
      owner, and an empty collab (lines 124-152). */
  method Initial(tl: TrackList) returns (st: State)
    requires ByFrequency(tl.tracks) && Dummy in tl.members
    requires forall t, name :: t in tl.tracks && name in t.members ==> Member(name) in tl.members
    requires forall f :: f in tl.histogram <==> Tier(tl.tracks, {}, f) != {}
    requires forall f :: f in tl.histogram ==> tl.histogram[f] == |Tier(tl.tracks, {}, f)|
    ensures Valid(st) && st.tracks == tl.tracks && st.index.Keys == tl.members && st.collab == []
    ensures forall o :: o in st.added ==> st.added[o] == 0
  {
    var index := Populate(tl.tracks, tl.members);
    var added := map o | o in tl.members :: 0;
    st := State(tl.tracks, index, tl.histogram, added, []);
    assert Consumed(st) == {};
    forall j, name | 0 <= j < |st.tracks| && name in st.tracks[j].members
      ensures Member(name) in st.index
    {
      assert st.tracks[j] in tl.tracks;
    }
  }

  /** Distinct positions of a list of distinct tracks render as distinct tracks. */
  lemma RenderDistinct(ts: seq<Track>, collab: seq<nat>)
    requires DistinctKeys(ts) && Distinct(collab)
    requires forall k :: 0 <= k < |collab| ==> collab[k] < |ts|
    ensures DistinctKeys(Render(ts, collab))
  {
    var out := Render(ts, collab);
    forall a, b | 0 <= a < b < |out| ensures Identity(out[a]) != Identity(out[b]) {
      var x, y := collab[a], collab[b];
      if x < y {
        assert Identity(ts[x]) != Identity(ts[y]);
      } else {
        assert Identity(ts[y]) != Identity(ts[x]);
      }
    }
  }

  /** What the final state says about the rendered collab: at most a full
      collab of distinct tracks from the track list, full unless it holds every
      track, and each owner of `owners` holding `target` tracks or all of its own. */
  lemma Delivered(st: State, out: seq<Track>, tracks: seq<Track>, owners: set<Owner>, target: nat)
    requires Valid(st) && st.tracks == tracks && DistinctKeys(tracks)
    requires out == Render(st.tracks, st.collab)
    requires |st.collab| <= MaxCollabSize && (NoMoreTracks(st) || |st.collab| == MaxCollabSize)
    requires AllServed(st, owners, target)
    ensures |out| <= MaxCollabSize && DistinctKeys(out)
    ensures forall t :: t in out ==> t in tracks
    ensures |out| == MaxCollabSize || forall t :: t in tracks ==> t in out
    ensures SharesMet(out, tracks, owners, target)
  {
    RenderDistinct(st.tracks, st.collab);
    forall o | o in owners
      ensures Share(out, o) >= target || forall t :: t in st.tracks && Owns(t, o) ==> t in out
    {
      assert Served(st, o, target);
      if Remaining(st, o) == [] {
        AllOwnedIn(st, out, o);
      } else {
        ShareOfRender(st.tracks, st.collab, o);
      }
    }
    if NoMoreTracks(st) {
      AllOwnedIn(st, out, Dummy);
    }
  }

  /** An owner with no track left has all its tracks in the collab. */
  lemma AllOwnedIn(st: State, out: seq<Track>, o: Owner)
    requires WellFormed(st) && out == Render(st.tracks, st.collab) && Remaining(st, o) == []
    ensures forall t :: t in st.tracks && Owns(t, o) ==> t in out
  {
    forall t | t in st.tracks && Owns(t, o) ensures t in out {
      var j :| 0 <= j < |st.tracks| && st.tracks[j] == t;
      assert j !in Remaining(st, o);
      InCollab(st, out, j);
    }
  }

  lemma InCollab(st: State, out: seq<Track>, j: nat)
    requires WellFormed(st) && out == Render(st.tracks, st.collab)
    requires j < |st.tracks| && j in Consumed(st)
    ensures st.tracks[j] in out
  {
    var k :| 0 <= k < |st.collab| && st.collab[k] == j;
    assert out[k] == st.tracks[j];
  }

  /** `build`: the collab made from the playlists `ps`. `rolls` drives the
      shuffle; `shareOrder` and `pickOrder` are the iteration orders of the
      member set (the dummy included) in the minimum-share phase and in the
      filling phase. Without a playlist the build fails. Otherwise the collab
      never exceeds its size, never repeats a track, only holds eligible
      tracks, is full unless it holds every eligible track, and gives every
      owner its minimum share or every eligible track it owns. */
  method Build(ps: seq<Playlist>, rolls: seq<nat>, shareOrder: seq<Owner>, pickOrder: seq<Owner>)
    returns (res: Result<seq<Track>, BuildError>)
    requires Distinct(shareOrder) && Elements(shareOrder) == MembersOf(ps)
    requires Elements(pickOrder) == MembersOf(ps)
    ensures res.Failure? <==> |ps| == 0
    ensures res.Success? ==>
              var eligible := CreateTrackList(ps, rolls).tracks;
              var out := res.value;
              && |out| <= MaxCollabSize
              && DistinctKeys(out)
              && (forall t :: t in out ==> t in eligible)
              && (|out| == MaxCollabSize || forall t :: t in eligible ==> t in out)
              && SharesMet(out, eligible, MembersOf(ps), MinTracksPerMember(NumberOfMembers(ps)))
  {
    var tl := CreateTrackList(ps, rolls);
    var n := NumberOfMembers(ps);
    if n == 0 {
      return Failure(NoMembers);
    }
    MembersCount(ps);
    var out := Allocate(tl, n, shareOrder, pickOrder);
    res := Success(out);
  }

  /** Everything `build` does after creating the track list `tl` of `n` members
      (lines 285-290): link it, run the three phases, and return the collab. */
  method Allocate(tl: TrackList, n: nat, shareOrder: seq<Owner>, pickOrder: seq<Owner>)
    returns (out: seq<Track>)
    requires DistinctKeys(tl.tracks) && ByFrequency(tl.tracks) && Dummy in tl.members
    requires forall t, name :: t in tl.tracks && name in t.members ==> Member(name) in tl.members
    requires forall f :: f in tl.histogram <==> Tier(tl.tracks, {}, f) != {}
    requires forall f :: f in tl.histogram ==> tl.histogram[f] == |Tier(tl.tracks, {}, f)|
    requires n >= 1 && |tl.members| == n + 1
    requires Distinct(shareOrder) && Elements(shareOrder) == tl.members
    requires Elements(pickOrder) == tl.members
    ensures |out| <= MaxCollabSize && DistinctKeys(out)
    ensures forall t :: t in out ==> t in tl.tracks
    ensures |out| == MaxCollabSize || forall t :: t in tl.tracks ==> t in out
    ensures SharesMet(out, tl.tracks, tl.members, MinTracksPerMember(n))
  {
    var st := Initial(tl);
    out := Finish(st, n, shareOrder, pickOrder);
  }

  /** The three phases from the linked initial state `st`, and the collab they
      leave, as tracks. */
  method Finish(st: State, n: nat, shareOrder: seq<Owner>, pickOrder: seq<Owner>)
    returns (out: seq<Track>)
    requires Valid(st) && st.collab == [] && DistinctKeys(st.tracks)
    requires n >= 1 && |st.index.Keys| == n + 1
    requires Distinct(shareOrder) && Elements(shareOrder) == st.index.Keys
    requires Elements(pickOrder) == st.index.Keys
    ensures |out| <= MaxCollabSize && DistinctKeys(out)
    ensures forall t :: t in out ==> t in st.tracks
    ensures |out| == MaxCollabSize || forall t :: t in st.tracks ==> t in out
    ensures SharesMet(out, st.tracks, st.index.Keys, MinTracksPerMember(n))
  {
    var target := MinTracksPerMember(n);
    ShareBudget(shareOrder, st.index.Keys, n, target);
    var c := RunPhases(st, shareOrder, pickOrder, target);
    out := Render(c.tracks, c.collab);
    Delivered(c, out, st.tracks, st.index.Keys, target);
  }

  /** Phase A asks for `target` tracks once per owner, the dummy included. */
  lemma ShareBudget(order: seq<Owner>, owners: set<Owner>, n: nat, target: nat)
    requires Distinct(order) && Elements(order) == owners && |owners| == n + 1
    requires (n + 1) * target <= MaxCollabSize
    ensures |order| * target <= MaxCollabSize
  {
    DistinctCardinality(order);
  }

  /** The three phases of `build` (lines 283-290) from the initial state: each
      owner's minimum share, whole frequency levels, then the last level.
      The collab ends full or with every track, and each owner holds `target`
      tracks or has none left. */
  method RunPhases(st: State, shareOrder: seq<Owner>, pickOrder: seq<Owner>, target: nat)
    returns (c: State)
    requires Valid(st) && st.collab == []
    requires Distinct(shareOrder) && Elements(shareOrder) == st.index.Keys
    requires Elements(pickOrder) == st.index.Keys
    requires |shareOrder| * target <= MaxCollabSize
    ensures Valid(c) && Follows(st, c) && |c.collab| <= MaxCollabSize
    ensures NoMoreTracks(c) || |c.collab| == MaxCollabSize
    ensures AllServed(c, st.index.Keys, target)
  {
    var b := ShareThenLevels(st, shareOrder, target);
    Enumerates(pickOrder, b.index.Keys, Dummy);
    c := AddSomeOfLastFrequency(b, pickOrder);
    ServedAfter(b, c, st.index.Keys, target);
  }

  /** The first two phases: minimum shares, then whole frequency levels. */
  method ShareThenLevels(st: State, shareOrder: seq<Owner>, target: nat) returns (b: State)
    requires Valid(st) && st.collab == []
    requires Distinct(shareOrder) && Elements(shareOrder) == st.index.Keys
    requires |shareOrder| * target <= MaxCollabSize
    ensures Valid(b) && Follows(st, b) && |b.collab| <= MaxCollabSize
    ensures NoMoreTracks(b) || b.left[HighestFrequency(b)] + |b.collab| > MaxCollabSize
    ensures AllServed(b, st.index.Keys, target)
  {
    var a := GiveMembersMinimumShare(st, shareOrder, target);
    EnumeratedServed(a, shareOrder, st.index.Keys, target);
    b := AddAllOfHighestFrequencies(a);
    ServedAfter(a, b, st.index.Keys, target);
  }

  /** A sequence enumerating a set holds its elements and nothing else. */
  lemma Enumerates<T>(order: seq<T>, owners: set<T>, x: T)
    requires Elements(order) == owners && x in owners
    ensures x in order && forall k :: 0 <= k < |order| ==> order[k] in owners
  {
    assert x in Elements(order);
  }

  lemma EnumeratedServed(a: State, order: seq<Owner>, owners: set<Owner>, target: nat)
    requires Elements(order) == owners
    requires forall p :: 0 <= p < |order| ==> Served(a, order[p], target)
    ensures AllServed(a, owners, target)
  {
    forall o | o in owners ensures Served(a, o, target) {
      assert o in Elements(order);
      var p :| 0 <= p < |order| && order[p] == o;
    }
  }

  /** Every owner of `owners` holds `target` tracks or has none left. */
  ghost predicate AllServed(st: State, owners: set<Owner>, target: nat) {
    forall o :: o in owners ==> Served(st, o, target)
  }

  /** Shares reached stay reached in later states. */
  lemma ServedAfter(a: State, c: State, owners: set<Owner>, target: nat)
    requires WellFormed(a) && CountsAccurate(a) && WellFormed(c) && CountsAccurate(c) && Follows(a, c)
    requires AllServed(a, owners, target)
    ensures AllServed(c, owners, target)
  {
    Monotone(a, c);
  }
}
