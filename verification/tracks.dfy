/** Tracks, their identity and their owners (squadify/make_collab.py, lines 15-61). */
module Tracks {
  import opened Common

  /** A track as a member's playlist supplies it: a title, the names of its
      artists in listed order (possibly repeated), and the service's opaque id. */
  datatype RawTrack = RawTrack(title: string, artists: seq<string>, id: string)

  /** What makes two tracks the same track: the title and the SET of artist names.
      The service id takes no part in it. */
  datatype Key = Key(title: string, artists: set<string>)

  /** A canonical track of the registry, labelled with the names of the real
      members who own it. The dummy owner is not stored: it owns every track. */
  datatype Track = Track(title: string, artists: set<string>, id: string, members: set<string>)

  /** Who can own a track: a squad member, or the dummy that owns all tracks and
      whose list is therefore the global order. */
  datatype Owner = Dummy | Member(name: string)

  function KeyOf(r: RawTrack): Key {
    Key(r.title, set a | a in r.artists)
  }

  function Identity(t: Track): Key {
    Key(t.title, t.artists)
  }

  /** The track of the registry made from a raw track when it is first seen. */
  function FromRaw(r: RawTrack, owners: set<string>): Track
  {
    Track(r.title, KeyOf(r).artists, r.id, owners)
  }

  /** Every owner of a track, the dummy included. */
  function Owners(t: Track): set<Owner> {
    {Dummy} + set name | name in t.members :: Member(name)
  }

  predicate Owns(t: Track, o: Owner) {
    o.Dummy? || o.name in t.members
  }

  /** The number of real members owning a track. */
  function Frequency(t: Track): nat {
    |t.members|
  }

  /** Two raw tracks have the same identity exactly when their titles agree and
      they name the same artists, whatever the order or repetition of the names. */
  lemma SameTrackIff(a: RawTrack, b: RawTrack)
    ensures KeyOf(a) == KeyOf(b) <==>
              a.title == b.title && forall x :: x in a.artists <==> x in b.artists
  {
    if a.title == b.title && forall x :: x in a.artists <==> x in b.artists {
      assert (set x | x in a.artists) == (set x | x in b.artists);
    }
    if KeyOf(a) == KeyOf(b) {
      forall x ensures x in a.artists <==> x in b.artists {
        assert x in a.artists <==> x in KeyOf(a).artists;
        assert x in b.artists <==> x in KeyOf(b).artists;
      }
    }
  }

  /** Registry tracks made from raw tracks are equal under `__eq__` exactly when
      the raw tracks agree in title and in the artists they name, whoever owns
      them and whatever their ids. */
  lemma FromRawSameIff(a: RawTrack, oa: set<string>, b: RawTrack, ob: set<string>)
    ensures Identity(FromRaw(a, oa)) == Identity(FromRaw(b, ob)) <==>
              a.title == b.title && forall x :: x in a.artists <==> x in b.artists
  {
    SameTrackIff(a, b);
  }

  /** The frequency counts every owner except the dummy. */
  lemma {:induction false} FrequencyExcludesDummy(t: Track)
    ensures Owns(t, Dummy) && Dummy in Owners(t)
    ensures forall o :: o in Owners(t) <==> Owns(t, o)
    ensures Frequency(t) == |Owners(t)| - 1
  {
    MemberImage(t.members);
    assert Dummy !in set name | name in t.members :: Member(name);
  }

  lemma {:induction false} MemberImage(names: set<string>)
    ensures |set name | name in names :: Member(name)| == |names|
  {
    if names != {} {
      var n :| n in names;
      var rest := names - {n};
      MemberImage(rest);
      assert (set name | name in names :: Member(name))
          == (set name | name in rest :: Member(name)) + {Member(n)};
    }
  }

  /** Positions of `ts`, outside `gone`, whose track has frequency `f`. */
  function Tier(ts: seq<Track>, gone: set<nat>, f: nat): set<nat> {
    set j: nat | j < |ts| && j !in gone && Frequency(ts[j]) == f
  }

  /** Tracks ordered from most to least frequent. */
  predicate ByFrequency(ts: seq<Track>) {
    forall a, b :: 0 <= a <= b < |ts| ==> Frequency(ts[a]) >= Frequency(ts[b])
  }

  /** No logical track occurs twice. */
  predicate DistinctKeys(ts: seq<Track>) {
    forall a, b :: 0 <= a < b < |ts| ==> Identity(ts[a]) != Identity(ts[b])
  }

  /** Reordering a list of distinct tracks keeps them distinct. */
  lemma {:induction false} DistinctKeysPermutation(a: seq<Track>, b: seq<Track>)
    requires multiset(a) == multiset(b) && DistinctKeys(a)
    ensures DistinctKeys(b)
  {
    if b != [] {
      var y := b[0];
      assert y in multiset(a);
      var p :| 0 <= p < |a| && a[p] == y;
      var a' := a[..p] + a[p + 1..];
      var b' := b[1..];
      RemoveMatching(a, b, p);
      WithoutOne(a, p);
      DistinctKeysPermutation(a', b');
      forall x, z | 0 <= x < z < |b| ensures Identity(b[x]) != Identity(b[z]) {
        if x == 0 {
          assert b[z] == b'[z - 1];
          assert b[z] in multiset(a');
          assert b[z] in a';
        } else {
          assert b[x] == b'[x - 1] && b[z] == b'[z - 1];
        }
      }
    }
  }

  lemma WithoutOne(a: seq<Track>, p: nat)
    requires DistinctKeys(a) && p < |a|
    ensures DistinctKeys(a[..p] + a[p + 1..])
    ensures forall t :: t in a[..p] + a[p + 1..] ==> Identity(t) != Identity(a[p])
  {
    var a' := a[..p] + a[p + 1..];
    assert forall k :: 0 <= k < |a'| ==> a'[k] == (if k < p then a[k] else a[k + 1]);
    forall t | t in a' ensures Identity(t) != Identity(a[p]) {
      var q :| 0 <= q < |a'| && a'[q] == t;
    }
  }
}
