/** The track registry: deduplicates the members' tracks, labels each with its
    owners, drops the rare ones, orders them and counts them by frequency
    (`__create_track_list`, squadify/make_collab.py, lines 98-125). */
module Registry {
  import opened Common
  import opened Tracks
  import opened Config

  /** One member's contribution: the member's name and their playlist. */
  datatype Playlist = Playlist(member: string, tracks: seq<RawTrack>)

  /** What the registry hands to the index and the allocator. */
  datatype TrackList = TrackList(tracks: seq<Track>, histogram: map<nat, nat>, members: set<Owner>)

  // ---------------------------------------------------------------------------
  // What the playlists say, independently of how the registry is built

  /** The identities of the tracks in one playlist. */
  function KeysOf(rs: seq<RawTrack>): set<Key> {
    set r | r in rs :: KeyOf(r)
  }

  /** Every identity listed in some playlist. */
  function AllKeys(ps: seq<Playlist>): set<Key> {
    set i, k | 0 <= i < |ps| && k in KeysOf(ps[i].tracks) :: k
  }

  /** The names of the members whose playlist lists a track with identity `k`. */
  function Contributors(ps: seq<Playlist>, k: Key): set<string> {
    set i | 0 <= i < |ps| && k in KeysOf(ps[i].tracks) :: ps[i].member
  }

  /** All the owners the builder knows of: every playlist's member and the dummy. */
  function MembersOf(ps: seq<Playlist>): set<Owner> {
    {Dummy} + set i | 0 <= i < |ps| :: Member(ps[i].member)
  }

  /** The identities present in a list of registry tracks. */
  function Identities(ts: seq<Track>): set<Key> {
    set t | t in ts :: Identity(t)
  }

  /** `acc` is the registry of the playlists `ps`: one track per identity listed,
      each labelled with exactly the members who list it. */
  predicate Registered(acc: seq<Track>, ps: seq<Playlist>) {
    && DistinctKeys(acc)
    && Identities(acc) == AllKeys(ps)
    && forall j :: 0 <= j < |acc| ==> acc[j].members == Contributors(ps, Identity(acc[j]))
  }

  // ---------------------------------------------------------------------------
  // Deduplication (lines 100-113)

  /** Position of the track with identity `k`, if the registry has one. */
  function Find(acc: seq<Track>, k: Key): (r: Option<nat>)
    ensures r.Some? ==> r.value < |acc| && Identity(acc[r.value]) == k
    ensures r.None? <==> k !in Identities(acc)
  {
    if acc == [] then None
    else if Identity(acc[|acc| - 1]) == k then Some(|acc| - 1)
    else
      var r := Find(acc[..|acc| - 1], k);
      assert Identities(acc) == Identities(acc[..|acc| - 1]) + {Identity(acc[|acc| - 1])} by {
        assert acc == acc[..|acc| - 1] + [acc[|acc| - 1]];
      }
      r
  }

  /** Records that member `m` lists raw track `r`: the member joins the owners of
      the track with the same identity, or a new track is appended. */
  function Register(acc: seq<Track>, m: string, r: RawTrack): (acc': seq<Track>)
    ensures Identities(acc') == Identities(acc) + {KeyOf(r)}
    ensures |acc| <= |acc'| && forall j :: 0 <= j < |acc| ==> Identity(acc'[j]) == Identity(acc[j])
    ensures DistinctKeys(acc) ==> DistinctKeys(acc')
    ensures DistinctKeys(acc) ==> forall j :: 0 <= j < |acc'| ==>
              acc'[j].members == (if j < |acc| then acc[j].members else {}) + (if Identity(acc'[j]) == KeyOf(r) then {m} else {})
  {
    match Find(acc, KeyOf(r))
    case Some(j) =>
      var acc' := acc[j := acc[j].(members := acc[j].members + {m})];
      RegisterKnown(acc, m, r, j);
      acc'
    case None =>
      var acc' := acc + [FromRaw(r, {m})];
      RegisterNew(acc, m, r);
      acc'
  }

  lemma RegisterKnown(acc: seq<Track>, m: string, r: RawTrack, j: nat)
    requires j < |acc| && Identity(acc[j]) == KeyOf(r)
    ensures var acc' := acc[j := acc[j].(members := acc[j].members + {m})];
      && Identities(acc') == Identities(acc) + {KeyOf(r)}
      && (DistinctKeys(acc) ==> DistinctKeys(acc'))
      && (DistinctKeys(acc) ==> forall x :: 0 <= x < |acc'| ==>
            acc'[x].members == acc[x].members + (if Identity(acc'[x]) == KeyOf(r) then {m} else {}))
  {
    var acc' := acc[j := acc[j].(members := acc[j].members + {m})];
    assert forall x :: 0 <= x < |acc| ==> Identity(acc'[x]) == Identity(acc[x]);
    forall k | k in Identities(acc) ensures k in Identities(acc') {
      var t :| t in acc && Identity(t) == k;
      var x :| 0 <= x < |acc| && acc[x] == t;
      assert acc'[x] in acc';
    }
    assert acc[j] in acc;
  }

  lemma RegisterNew(acc: seq<Track>, m: string, r: RawTrack)
    requires KeyOf(r) !in Identities(acc)
    ensures var acc' := acc + [FromRaw(r, {m})];
      && Identities(acc') == Identities(acc) + {KeyOf(r)}
      && (DistinctKeys(acc) ==> DistinctKeys(acc'))
      && forall x :: 0 <= x < |acc| ==> Identity(acc'[x]) != KeyOf(r)
  {
    var t := FromRaw(r, {m});
    assert Identity(t) == KeyOf(r);
    var acc' := acc + [t];
    assert forall x :: x in acc' <==> x in acc || x == t;
    forall x | 0 <= x < |acc| ensures Identity(acc'[x]) != KeyOf(r) {
      assert acc'[x] == acc[x] && acc[x] in acc;
    }
  }

  /** Registers the tracks of one playlist, in order: the member joins the owners
      of exactly the tracks the playlist lists, and the identities it adds are
      exactly those it lists. */
  function RegisterAll(acc: seq<Track>, m: string, rs: seq<RawTrack>): (acc': seq<Track>)
    ensures Identities(acc') == Identities(acc) + KeysOf(rs)
    ensures |acc| <= |acc'| && forall j :: 0 <= j < |acc| ==> Identity(acc'[j]) == Identity(acc[j])
    ensures DistinctKeys(acc) ==> DistinctKeys(acc')
    ensures DistinctKeys(acc) ==> forall j :: 0 <= j < |acc'| ==>
              acc'[j].members == (if j < |acc| then acc[j].members else {}) + (if Identity(acc'[j]) in KeysOf(rs) then {m} else {})
    decreases |rs|
  {
    if rs == [] then
      assert KeysOf(rs) == {};
      acc
    else
      var init := rs[..|rs| - 1];
      var x := rs[|rs| - 1];
      var mid := RegisterAll(acc, m, init);
      assert init + [x] == rs;
      RegisterCompose(acc, mid, m, init, x);
      Register(mid, m, x)
  }

  /** One more raw track of the playlist, on top of the tracks before it. */
  lemma RegisterCompose(acc: seq<Track>, mid: seq<Track>, m: string, init: seq<RawTrack>, x: RawTrack)
    requires Identities(mid) == Identities(acc) + KeysOf(init)
    requires |acc| <= |mid| && forall j :: 0 <= j < |acc| ==> Identity(mid[j]) == Identity(acc[j])
    requires DistinctKeys(acc) ==> DistinctKeys(mid)
    requires DistinctKeys(acc) ==> forall j :: 0 <= j < |mid| ==>
               mid[j].members == (if j < |acc| then acc[j].members else {}) + (if Identity(mid[j]) in KeysOf(init) then {m} else {})
    ensures var acc' := Register(mid, m, x);
      && Identities(acc') == Identities(acc) + KeysOf(init + [x])
      && |acc| <= |acc'| && (forall j :: 0 <= j < |acc| ==> Identity(acc'[j]) == Identity(acc[j]))
      && (DistinctKeys(acc) ==> DistinctKeys(acc'))
      && (DistinctKeys(acc) ==> forall j :: 0 <= j < |acc'| ==>
            acc'[j].members == (if j < |acc| then acc[j].members else {}) + (if Identity(acc'[j]) in KeysOf(init + [x]) then {m} else {}))
  {
    var acc' := Register(mid, m, x);
    KeysOfSnoc(init, x);
    if DistinctKeys(acc) {
      forall j | 0 <= j < |acc'|
        ensures acc'[j].members == (if j < |acc| then acc[j].members else {}) + (if Identity(acc'[j]) in KeysOf(init + [x]) then {m} else {})
      {
        if j < |mid| {
          assert Identity(acc'[j]) == Identity(mid[j]);
        }
      }
    }
  }

  /** Registers every playlist, in order; the first copy of a track seen is the
      one kept. The result lists every identity of every playlist exactly once,
      and labels each track with exactly the members whose playlist lists it: a
      member who lists a track twice owns it once, and the service id plays no
      part. */
  function Collect(ps: seq<Playlist>): (acc: seq<Track>)
    ensures Registered(acc, ps)
    decreases |ps|
  {
    if ps == [] then
      assert AllKeys(ps) == {};
      []
    else
      var init := ps[..|ps| - 1];
      var last := ps[|ps| - 1];
      var prev := Collect(init);
      CollectStep(prev, init, last);
      assert init + [last] == ps;
      RegisterAll(prev, last.member, last.tracks)
  }

  /** Registering one more playlist extends the registry of the earlier ones. */
  lemma CollectStep(prev: seq<Track>, init: seq<Playlist>, last: Playlist)
    requires Registered(prev, init)
    ensures Registered(RegisterAll(prev, last.member, last.tracks), init + [last])
  {
    EmptyPlaylist(init, last.member);
    RegisterAllSpec(prev, init, last.member, last.tracks);
    assert Playlist(last.member, last.tracks) == last;
  }

  lemma KeysOfSnoc(rs: seq<RawTrack>, r: RawTrack)
    ensures KeysOf(rs + [r]) == KeysOf(rs) + {KeyOf(r)}
  {
    assert forall x :: x in rs + [r] <==> x in rs || x == r;
  }

  /** Appending a raw track to the last playlist adds its identity and, for that
      identity only, the last playlist's member. */
  lemma ExtendLast(ps: seq<Playlist>, m: string, rs: seq<RawTrack>, r: RawTrack)
    ensures AllKeys(ps + [Playlist(m, rs + [r])]) == AllKeys(ps + [Playlist(m, rs)]) + {KeyOf(r)}
    ensures forall k :: Contributors(ps + [Playlist(m, rs + [r])], k)
                     == Contributors(ps + [Playlist(m, rs)], k) + (if k == KeyOf(r) then {m} else {})
  {
    var qs := ps + [Playlist(m, rs)];
    var qs' := ps + [Playlist(m, rs + [r])];
    var n := |ps|;
    KeysOfSnoc(rs, r);
    assert forall i :: 0 <= i < n ==> qs[i] == qs'[i] == ps[i];
    assert KeysOf(qs'[n].tracks) == KeysOf(qs[n].tracks) + {KeyOf(r)};
    forall k | k in AllKeys(qs') ensures k in AllKeys(qs) + {KeyOf(r)} {
      var i :| 0 <= i < |qs'| && k in KeysOf(qs'[i].tracks);
      if k != KeyOf(r) { assert k in KeysOf(qs[i].tracks); }
    }
    forall k | k in AllKeys(qs) + {KeyOf(r)} ensures k in AllKeys(qs') {
      if k == KeyOf(r) {
        assert k in KeysOf(qs'[n].tracks);
      } else {
        var i :| 0 <= i < |qs| && k in KeysOf(qs[i].tracks);
        assert k in KeysOf(qs'[i].tracks);
      }
    }
    forall k ensures Contributors(qs', k) == Contributors(qs, k) + (if k == KeyOf(r) then {m} else {}) {
      forall x | x in Contributors(qs', k)
        ensures x in Contributors(qs, k) + (if k == KeyOf(r) then {m} else {})
      {
        var i :| 0 <= i < |qs'| && k in KeysOf(qs'[i].tracks) && x == qs'[i].member;
        if k != KeyOf(r) { assert k in KeysOf(qs[i].tracks); }
      }
      forall x | x in Contributors(qs, k) + (if k == KeyOf(r) then {m} else {})
        ensures x in Contributors(qs', k)
      {
        if x in Contributors(qs, k) {
          var i :| 0 <= i < |qs| && k in KeysOf(qs[i].tracks) && x == qs[i].member;
          assert k in KeysOf(qs'[i].tracks);
        } else {
          assert k in KeysOf(qs'[n].tracks) && x == qs'[n].member;
        }
      }
    }
  }

  /** A playlist with no tracks contributes nothing. */
  lemma EmptyPlaylist(ps: seq<Playlist>, m: string)
    ensures AllKeys(ps + [Playlist(m, [])]) == AllKeys(ps)
    ensures forall k :: Contributors(ps + [Playlist(m, [])], k) == Contributors(ps, k)
  {
    var qs := ps + [Playlist(m, [])];
    assert KeysOf([]) == {};
    assert forall i :: 0 <= i < |ps| ==> qs[i] == ps[i];
    forall k | k in AllKeys(qs) ensures k in AllKeys(ps) {
      var i :| 0 <= i < |qs| && k in KeysOf(qs[i].tracks);
    }
    forall k | k in AllKeys(ps) ensures k in AllKeys(qs) {
      var i :| 0 <= i < |ps| && k in KeysOf(ps[i].tracks);
      assert k in KeysOf(qs[i].tracks);
    }
    forall k ensures Contributors(qs, k) == Contributors(ps, k) {
      forall x | x in Contributors(qs, k) ensures x in Contributors(ps, k) {
        var i :| 0 <= i < |qs| && k in KeysOf(qs[i].tracks) && x == qs[i].member;
      }
      forall x | x in Contributors(ps, k) ensures x in Contributors(qs, k) {
        var i :| 0 <= i < |ps| && k in KeysOf(ps[i].tracks) && x == ps[i].member;
        assert k in KeysOf(qs[i].tracks);
      }
    }
  }

  /** Registering one more raw track keeps the registry exact. */
  lemma RegisterStep(acc: seq<Track>, ps: seq<Playlist>, m: string, rs: seq<RawTrack>, r: RawTrack)
    requires Registered(acc, ps + [Playlist(m, rs)])
    ensures Registered(Register(acc, m, r), ps + [Playlist(m, rs + [r])])
  {
    var qs := ps + [Playlist(m, rs)];
    var qs' := ps + [Playlist(m, rs + [r])];
    ExtendLast(ps, m, rs, r);
    var acc' := Register(acc, m, r);
    match Find(acc, KeyOf(r))
    case Some(j) =>
      assert acc' == acc[j := acc[j].(members := acc[j].members + {m})];
      assert forall x :: 0 <= x < |acc| ==> Identity(acc'[x]) == Identity(acc[x]);
      assert Identities(acc') == Identities(acc) by {
        forall k | k in Identities(acc) ensures k in Identities(acc') {
          var t :| t in acc && Identity(t) == k;
          var x :| 0 <= x < |acc| && acc[x] == t;
          assert acc'[x] in acc';
        }
      }
    case None =>
      var t := FromRaw(r, {m});
      assert acc' == acc + [t];
      assert Identities(acc') == Identities(acc) + {KeyOf(r)} by {
        assert forall x :: x in acc' <==> x in acc || x == t;
      }
      ContributorsListed(qs, KeyOf(r));
      forall a, b | 0 <= a < b < |acc'| ensures Identity(acc'[a]) != Identity(acc'[b]) {
        if b == |acc| { assert acc'[a] == acc[a] && Identity(acc[a]) in Identities(acc); }
      }
  }

  /** Only a listed identity has contributors. */
  lemma ContributorsListed(ps: seq<Playlist>, k: Key)
    ensures k !in AllKeys(ps) ==> Contributors(ps, k) == {}
  {
    if Contributors(ps, k) != {} {
      var x :| x in Contributors(ps, k);
      var i :| 0 <= i < |ps| && k in KeysOf(ps[i].tracks) && x == ps[i].member;
      assert k in AllKeys(ps);
    }
  }

  lemma {:induction false} RegisterAllSpec(acc: seq<Track>, ps: seq<Playlist>, m: string, rs: seq<RawTrack>)
    requires Registered(acc, ps + [Playlist(m, [])])
    ensures Registered(RegisterAll(acc, m, rs), ps + [Playlist(m, rs)])
    decreases |rs|
  {
    if rs != [] {
      var init := rs[..|rs| - 1];
      var x := rs[|rs| - 1];
      assert init + [x] == rs;
      RegisterAllSpec(acc, ps, m, init);
      var mid := RegisterAll(acc, m, init);
      RegisterStep(mid, ps, m, init, x);
      assert RegisterAll(acc, m, rs) == Register(mid, m, x);
    }
  }

  // ---------------------------------------------------------------------------
  // Filtering (line 116)

  /** The tracks that reach the minimum frequency, in their original order. */
  function KeepFrequent(ts: seq<Track>): (r: seq<Track>)
    ensures forall t :: t in r <==> t in ts && Frequency(t) >= MinFrequency
    ensures DistinctKeys(ts) ==> DistinctKeys(r)
  {
    if ts == [] then []
    else
      var rest := KeepFrequent(ts[1..]);
      assert DistinctKeys(ts) ==> DistinctKeys(ts[1..]) && forall t :: t in ts[1..] ==> Identity(t) != Identity(ts[0]) by {
        if DistinctKeys(ts) {
          forall t | t in ts[1..] ensures Identity(t) != Identity(ts[0]) {
            var q :| 0 <= q < |ts[1..]| && ts[1..][q] == t;
            assert ts[q + 1] == t;
          }
        }
      }
      if Frequency(ts[0]) >= MinFrequency then [ts[0]] + rest else rest
  }

  // ---------------------------------------------------------------------------
  // Shuffling (line 119)

  /** The next draw of the random source; an exhausted source draws 0. */
  function Draw(rolls: seq<nat>): nat {
    if rolls == [] then 0 else rolls[0]
  }

  function Rest(rolls: seq<nat>): seq<nat> {
    if rolls == [] then [] else rolls[1..]
  }

  /** `random.shuffle`: Fisher-Yates from the back, the last position swapped with
      a drawn position at or before it. The draws are supplied by the caller. */
  function Shuffle(ts: seq<Track>, rolls: seq<nat>): (r: seq<Track>)
    ensures multiset(r) == multiset(ts)
    decreases |ts|
  {
    if |ts| <= 1 then ts
    else
      var i := |ts| - 1;
      var j := Draw(rolls) % (i + 1);
      var swapped := ts[i := ts[j]][j := ts[i]];
      assert multiset(swapped) == multiset(ts);
      assert swapped == swapped[..i] + [swapped[i]];
      Shuffle(swapped[..i], Rest(rolls)) + [swapped[i]]
  }

  // ---------------------------------------------------------------------------
  // Stable sort by descending frequency (line 122)

  /** The tracks of `ts` at frequency `f`, in their order in `ts`. */
  function Select(ts: seq<Track>, f: nat): seq<Track> {
    if ts == [] then []
    else (if Frequency(ts[0]) == f then [ts[0]] else []) + Select(ts[1..], f)
  }

  lemma {:induction false} SelectAppend(a: seq<Track>, b: seq<Track>, f: nat)
    ensures Select(a + b, f) == Select(a, f) + Select(b, f)
  {
    if a != [] {
      SelectAppend(a[1..], b, f);
      assert (a + b)[0] == a[0];
      assert (a + b)[1..] == a[1..] + b;
      assert Select(a + b, f) == (if Frequency(a[0]) == f then [a[0]] else []) + Select(a[1..] + b, f);
    } else {
      assert a + b == b;
    }
  }

  /** Inserts `x` before the first track that is strictly less frequent, so that
      it stays ahead of the tracks of its own frequency that follow it. */
  function Insert(x: Track, ts: seq<Track>): (r: seq<Track>)
    requires ByFrequency(ts)
    ensures ByFrequency(r)
    ensures multiset(r) == multiset([x] + ts)
    ensures forall f :: Select(r, f) == Select([x] + ts, f)
  {
    if ts == [] || Frequency(x) >= Frequency(ts[0]) then [x] + ts
    else
      var rest := Insert(x, ts[1..]);
      InsertBehind(x, ts, rest);
      [ts[0]] + rest
  }

  /** When `x` goes behind the head of `ts`, the head stays first. */
  lemma InsertBehind(x: Track, ts: seq<Track>, rest: seq<Track>)
    requires ByFrequency(ts) && ts != [] && Frequency(x) < Frequency(ts[0])
    requires ByFrequency(rest) && multiset(rest) == multiset([x] + ts[1..])
    requires forall f :: Select(rest, f) == Select([x] + ts[1..], f)
    ensures ByFrequency([ts[0]] + rest)
    ensures multiset([ts[0]] + rest) == multiset([x] + ts)
    ensures forall f :: Select([ts[0]] + rest, f) == Select([x] + ts, f)
  {
    var t0 := ts[0];
    assert ts == [t0] + ts[1..];
    HeadStaysFirst(t0, x, ts[1..], rest);
    assert multiset([t0] + rest) == multiset([t0]) + multiset(rest);
    assert multiset([x] + ts) == multiset([x]) + multiset([t0]) + multiset(ts[1..]);
    forall f ensures Select([t0] + rest, f) == Select([x] + ts, f) {
      SwapDifferentTiers(x, t0, ts[1..], rest, f);
    }
  }

  lemma HeadStaysFirst(t0: Track, x: Track, tail: seq<Track>, rest: seq<Track>)
    requires ByFrequency([t0] + tail) && Frequency(x) < Frequency(t0)
    requires ByFrequency(rest) && multiset(rest) == multiset([x] + tail)
    ensures ByFrequency([t0] + rest)
  {
    forall t | t in rest ensures Frequency(t) <= Frequency(t0) {
      assert t in multiset([x] + tail);
      assert t == x || t in tail;
      if t != x {
        var j :| 0 <= j < |tail| && tail[j] == t;
        assert ([t0] + tail)[0] == t0 && ([t0] + tail)[j + 1] == t;
      }
    }
    var us := [t0] + rest;
    forall a, b | 0 <= a <= b < |us| ensures Frequency(us[a]) >= Frequency(us[b]) {
      if a == 0 && b > 0 {
        assert us[b] in rest;
      } else if a > 0 {
        assert us[a] == rest[a - 1] && us[b] == rest[b - 1];
      }
    }
  }

  lemma SwapDifferentTiers(x: Track, t0: Track, tail: seq<Track>, rest: seq<Track>, f: nat)
    requires Frequency(x) != Frequency(t0)
    requires Select(rest, f) == Select([x] + tail, f)
    ensures Select([t0] + rest, f) == Select([x] + ([t0] + tail), f)
  {
    SelectAppend([t0], rest, f);
    SelectAppend([x], tail, f);
    SelectAppend([x], [t0] + tail, f);
    SelectAppend([t0], tail, f);
    assert Select([x], f) == [] || Select([t0], f) == [];
  }

  /** `list.sort(key=frequency, reverse=True)`: most frequent first, and tracks of
      equal frequency kept in the order they had (Python's sort is stable, also
      in reverse). */
  function SortByFrequency(ts: seq<Track>): (r: seq<Track>)
    ensures ByFrequency(r)
    ensures multiset(r) == multiset(ts)
    ensures forall f :: Select(r, f) == Select(ts, f)
  {
    if ts == [] then []
    else
      var rest := SortByFrequency(ts[1..]);
      assert ts == [ts[0]] + ts[1..];
      forall f ensures Select([ts[0]] + rest, f) == Select(ts, f) {
        SelectAppend([ts[0]], rest, f);
        SelectAppend([ts[0]], ts[1..], f);
      }
      Insert(ts[0], rest)
  }

  // ---------------------------------------------------------------------------
  // The histogram (line 124)

  lemma TierSnoc(ts: seq<Track>, t: Track, f: nat)
    ensures Tier(ts + [t], {}, f) == Tier(ts, {}, f) + (if Frequency(t) == f then {|ts|} else {})
  {
    var us := ts + [t];
    assert forall j :: 0 <= j < |ts| ==> us[j] == ts[j];
  }

  /** `Counter(map(frequency, tracks))`: the number of tracks at each frequency
      that occurs. */
  function Tally(ts: seq<Track>): (h: map<nat, nat>)
    ensures forall f :: f in h <==> Tier(ts, {}, f) != {}
    ensures forall f :: f in h ==> h[f] == |Tier(ts, {}, f)|
  {
    if ts == [] then map[]
    else
      var init := ts[..|ts| - 1];
      var t := ts[|ts| - 1];
      var h := Tally(init);
      var f := Frequency(t);
      TallyStep(init, t, h);
      assert ts == init + [t];
      h[f := (if f in h then h[f] else 0) + 1]
  }

  lemma TallyStep(init: seq<Track>, t: Track, h: map<nat, nat>)
    requires forall f :: f in h <==> Tier(init, {}, f) != {}
    requires forall f :: f in h ==> h[f] == |Tier(init, {}, f)|
    ensures var f := Frequency(t);
            var h' := h[f := (if f in h then h[f] else 0) + 1];
            && (forall g :: g in h' <==> Tier(init + [t], {}, g) != {})
            && (forall g :: g in h' ==> h'[g] == |Tier(init + [t], {}, g)|)
  {
    var f := Frequency(t);
    var h' := h[f := (if f in h then h[f] else 0) + 1];
    forall g ensures (g in h' <==> Tier(init + [t], {}, g) != {}) && (g in h' ==> h'[g] == |Tier(init + [t], {}, g)|) {
      TallyStepAt(init, t, h, g);
    }
  }

  lemma TallyStepAt(init: seq<Track>, t: Track, h: map<nat, nat>, g: nat)
    requires g in h <==> Tier(init, {}, g) != {}
    requires g in h ==> h[g] == |Tier(init, {}, g)|
    ensures var f := Frequency(t);
            var h' := h[f := (if f in h then h[f] else 0) + 1];
            && (g in h' <==> Tier(init + [t], {}, g) != {})
            && (g in h' ==> h'[g] == |Tier(init + [t], {}, g)|)
  {
    TierSnoc(init, t, g);
    assert |init| !in Tier(init, {}, g);
  }

  // ---------------------------------------------------------------------------
  // The whole registry

  /** `__create_track_list`: dedupe, drop tracks below the minimum frequency,
      shuffle with the given draws, stable-sort by descending frequency, count. */
  function CreateTrackList(ps: seq<Playlist>, rolls: seq<nat>): (tl: TrackList)
    ensures DistinctKeys(tl.tracks)
    ensures ByFrequency(tl.tracks)
    ensures forall t :: t in tl.tracks <==> t in Collect(ps) && Frequency(t) >= MinFrequency
    ensures forall f :: f in tl.histogram <==> Tier(tl.tracks, {}, f) != {}
    ensures forall f :: f in tl.histogram ==> tl.histogram[f] == |Tier(tl.tracks, {}, f)|
    ensures tl.members == MembersOf(ps) && Dummy in tl.members
    ensures forall t, name :: t in tl.tracks && name in t.members ==> Member(name) in tl.members
  {
    var all := Collect(ps);
    var kept := KeepFrequent(all);
    var shuffled := Shuffle(kept, rolls);
    var sorted := SortByFrequency(shuffled);
    DistinctKeysPermutation(kept, sorted);
    assert forall t :: t in sorted <==> t in kept by {
      assert forall t :: t in sorted <==> t in multiset(sorted);
      assert forall t :: t in kept <==> t in multiset(kept);
    }
    OwnersAreMembers(ps, all);
    TrackList(sorted, Tally(sorted), MembersOf(ps))
  }

  /** Every owner of a registry track is one of the playlists' members. */
  lemma OwnersAreMembers(ps: seq<Playlist>, acc: seq<Track>)
    requires Registered(acc, ps)
    ensures forall t, name :: t in acc && name in t.members ==> Member(name) in MembersOf(ps)
  {
    forall t, name | t in acc && name in t.members ensures Member(name) in MembersOf(ps) {
      var j :| 0 <= j < |acc| && acc[j] == t;
      assert name in Contributors(ps, Identity(t));
      var i :| 0 <= i < |ps| && Identity(t) in KeysOf(ps[i].tracks) && name == ps[i].member;
    }
  }

  /** Each track of the track list is owned by exactly the members who list it,
      so its frequency is the number of distinct members listing it; and every
      identity that enough members list is in the track list. */
  lemma TrackListOwners(ps: seq<Playlist>, rolls: seq<nat>)
    ensures forall t :: t in CreateTrackList(ps, rolls).tracks ==>
              t.members == Contributors(ps, Identity(t)) && Frequency(t) >= MinFrequency
    ensures forall k :: k in AllKeys(ps) && |Contributors(ps, k)| >= MinFrequency ==>
              k in Identities(CreateTrackList(ps, rolls).tracks)
  {
    var tl := CreateTrackList(ps, rolls);
    var all := Collect(ps);
    forall t | t in tl.tracks
      ensures t.members == Contributors(ps, Identity(t))
    {
      var j :| 0 <= j < |all| && all[j] == t;
    }
    forall k | k in AllKeys(ps) && |Contributors(ps, k)| >= MinFrequency
      ensures k in Identities(tl.tracks)
    {
      assert k in Identities(all);
      var t :| t in all && Identity(t) == k;
      var j :| 0 <= j < |all| && all[j] == t;
      assert t in tl.tracks;
    }
  }

  /** When no identity is listed by enough members, the track list is empty, so
      no phase has anything to add: the minimum share does not reach past the
      frequency floor. */
  lemma NothingShared(ps: seq<Playlist>, rolls: seq<nat>)
    requires forall k :: k in AllKeys(ps) ==> |Contributors(ps, k)| < MinFrequency
    ensures forall t :: t !in CreateTrackList(ps, rolls).tracks
    ensures CreateTrackList(ps, rolls).tracks == []
  {
    var tl := CreateTrackList(ps, rolls);
    TrackListOwners(ps, rolls);
    forall t | t in Collect(ps) ensures Frequency(t) < MinFrequency {
      var j :| 0 <= j < |Collect(ps)| && Collect(ps)[j] == t;
      assert Identity(t) in Identities(Collect(ps));
    }
    assert forall t :: t !in tl.tracks;
  }
}
