# Squadify collab builder, in Dafny

This project models `CollabBuilder` from squadify/make_collab.py, along with `Track`, `Node` and `Playlist`. The builder turns the playlists of a squad's members into one shared playlist, the *collab*, holding at most `MAX_COLLAB_SIZE` (50) tracks. It works in three parts:

- **Track registry** (`Registry`, built on `Tracks`):
  - A track's identity is its title plus the *set* of its artist names.
  - Equal tracks from different playlists are merged, and each merged track records the members who list it.
  - Tracks listed by fewer than `MIN_FREQUENCY` (2) members are dropped.
  - The remaining tracks are shuffled, then stable-sorted by descending frequency (the number of members owning the track).
  - The tracks are counted per frequency (the histogram).
- **Ownership index** (`LinkedIndex`):
  - Each member has a doubly linked list of the tracks it owns, in track-list order.
  - A dummy owner (`None` in the source, `Dummy` here) owns every track, so its list is the whole remaining track list.
  - The lists live in an arena: per owner, a map from track position to a `Node(prev, next)` and a head.
  - Each list is proved to represent an abstract sequence: the owner's remaining positions, in increasing order.
- **Allocator** (`Allocator`), driven by `CollabBuilder.Build`:
  - `Consume` moves one track into the collab. It unlinks the track from every owner's list, decrements the histogram and credits each owner.
  - Phase A gives every owner its minimum share. The dummy takes part too, because it is in the member set.
  - Phase B moves whole frequency levels while they fit.
  - Phase C fills the collab from the last level. It picks the least-served candidate each time, and a candidate is dropped once its next track is below that level.

The state between operations is a `State` record. `Valid` ties it together:
- every chain represents its owner's remaining tracks;
- the histogram counts exactly the remaining tracks at each frequency;
- every owner's counter equals its number of tracks in the collab.

`Consume` and every phase keep `Valid`.

Where the source draws on things outside the program, the model takes them as inputs:
- the random draws of `random.shuffle` are `rolls`;
- the iteration order of Python's member set is `shareOrder` for phase A and `pickOrder` for phase C.

The registry drops tracks below `MIN_FREQUENCY` (squadify/make_collab.py:116) before anything is linked (lines 130-152), so phase A never adds such a track. When no track is listed by two members, the collab is empty. `Registry.NothingShared` proves that the track list is empty in that case. `Build` only ever returns tracks from the track list.

The source never lets phase C run out of candidates, so `min` of an empty dictionary is never reached:
- the dummy stays a candidate while the last level has more tracks than the collab has room for;
- phase B stops with tracks left only when the top level overflows the collab.

`AddSomeOfLastFrequency` proves both facts, through its invariant `Candidates` and its precondition.

## Model

| member | source | states |
|---|---|---|
| Tracks.FromRawSameIff | squadify/make_collab.py:54-58 | two registry tracks made from raw tracks are equal exactly when the raw titles agree and the raw tracks name the same artists, whatever their owners and ids |
| Tracks.SameTrackIff | squadify/make_collab.py:24-58 | two raw tracks are the same track exactly when their titles agree and they name the same artists; order and repetition of the names and the id play no part |
| Tracks.FrequencyExcludesDummy | squadify/make_collab.py:28-36 | the dummy owns every track, the owner set is the real members plus the dummy, and the frequency is the owner count less one |
| Tracks.DistinctKeysPermutation | squadify/make_collab.py:119-122 | shuffling or sorting a duplicate-free track list keeps it duplicate-free |
| Registry.Find | squadify/make_collab.py:103 | the lookup of the track dictionary finds a position holding the identity exactly when the registry has that identity |
| Registry.Register | squadify/make_collab.py:103-105 | registering a raw track adds its identity, keeps every earlier track's identity, keeps the registry duplicate-free, and adds the member to the owners of exactly the track with that identity, a new track having only that member |
| Registry.RegisterStep | squadify/make_collab.py:103-105 | registering one more listed track keeps the registry exact: one track per identity, owned by exactly the members listing it |
| Registry.RegisterAllSpec | squadify/make_collab.py:102-105 | registering a whole playlist keeps the registry exact |
| Registry.RegisterAll | squadify/make_collab.py:102-105 | one playlist adds exactly the identities it lists, and its member joins the owners of exactly the tracks whose identity it lists |
| Registry.Collect | squadify/make_collab.py:100-113 | after all playlists, the registry holds each listed identity once, labelled with exactly the members who list it |
| Registry.KeepFrequent | squadify/make_collab.py:115-116 | the filter keeps exactly the tracks of frequency at least MIN_FREQUENCY, and keeps a duplicate-free list duplicate-free |
| Registry.Shuffle | squadify/make_collab.py:118-119 | the shuffle is a permutation, whatever the draws |
| Registry.Insert | squadify/make_collab.py:121-122 | inserting into a list sorted by descending frequency keeps it sorted, is a permutation, and keeps the order of the tracks within every frequency |
| Registry.SortByFrequency | squadify/make_collab.py:121-122 | the sort orders by descending frequency, is a permutation, and is stable: at every frequency the tracks keep their shuffled order |
| Registry.Tally | squadify/make_collab.py:124 | the histogram has an entry exactly for the frequencies present, holding their track count |
| Registry.CreateTrackList | squadify/make_collab.py:98-125 | the track list is duplicate-free and sorted, holds exactly the registered tracks that reach MIN_FREQUENCY, comes with an exact histogram, and knows every owner of its tracks plus the dummy |
| Registry.TrackListOwners | squadify/make_collab.py:100-116 | every listed track is owned by exactly the members listing it and reaches MIN_FREQUENCY, and every identity listed by enough members is in the track list |
| Registry.NothingShared | squadify/make_collab.py:115-116 | when no identity is listed by MIN_FREQUENCY members the track list is empty |
| LinkedIndex.OwnedBelow | squadify/make_collab.py:138-152 | an owner's abstract list is increasing and holds exactly the positions of its tracks that are not gone |
| LinkedIndex.WalkVisitsList | squadify/make_collab.py:130-152 | following `next` from an owner's head visits exactly its list, in order, and stops at the end |
| LinkedIndex.PrevInvertsNext | squadify/make_collab.py:141-149 | within a list, `prev` undoes `next` and `next` undoes `prev` |
| LinkedIndex.Link | squadify/make_collab.py:141-152 | appending a track that comes after every track of an owner's list, behind that list's last track, leaves the chain representing the list extended by the track; only the new node and the old last node change |
| LinkedIndex.LinkTrack | squadify/make_collab.py:138-152 | one step of the linking loop extends every owner's chain by the track when the owner owns it and keeps the last-track references right |
| LinkedIndex.Populate | squadify/make_collab.py:130-152 | after linking, every owner's chain, the dummy's included, represents all its tracks in track-list order; an owner with none has no head |
| LinkedIndex.Unlink | squadify/make_collab.py:171-181 | unlinking the k-th track of a represented list leaves the chain representing the list without it, with the head advancing when it was the head; only the two neighbours' nodes change |
| LinkedIndex.UnlinkElsewhere | squadify/make_collab.py:171-181 | unlinking leaves every other node of the list as it was except the two neighbours, which now point past the removed track |
| LinkedIndex.UnlinkTrack | squadify/make_collab.py:166-181 | removing a track from all of its owners' lists leaves every other owner's chain unchanged and every chain representing its owner's tracks still left |
| Allocator.MostPopularTrackOf | squadify/make_collab.py:186-189 | an owner's head is none exactly when it has no track left, and otherwise is its first remaining track, which it owns and which is not in the collab |
| Allocator.NoMoreTracks | squadify/make_collab.py:218-219 | the histogram is empty exactly when the dummy's list is empty, which is when every track is in the collab |
| Allocator.HighestFrequency | squadify/make_collab.py:222-227 | the frequency of the dummy's head is still in the histogram and is the highest of all remaining tracks |
| Allocator.Consume | squadify/make_collab.py:155-181 | consuming keeps the state valid, appends exactly the track, removes exactly it from its level, credits exactly its owners, and changes nothing else |
| Allocator.TakeOne | squadify/make_collab.py:160-163 | taking a remaining track out of the histogram of the tracks left leaves the exact histogram of the tracks still left; no other frequency's entry changes |
| Allocator.Credit | squadify/make_collab.py:166-169 | when the counts match each owner's tracks in the collab, crediting the owners of the appended track keeps them matching the longer collab; no owner is added or lost |
| Allocator.DummyCountsAll | squadify/make_collab.py:166-169 | the dummy's count is always the length of the collab |
| Allocator.Monotone | squadify/make_collab.py:155-157 | the collab only grows, so consumed tracks, owners' counts and exhausted lists stay so in later states |
| Allocator.ConsumeMostPopularTrackOf | squadify/make_collab.py:186-193 | succeeds exactly when the owner has a track left; it then appends the owner's first track, its list loses exactly that track and its count rises by one; on failure nothing changes |
| Allocator.ConsumeHighestFrequency | squadify/make_collab.py:199-215 | succeeds exactly when tracks remain and the top level fits; it then moves exactly the top level and the level leaves the histogram; on failure nothing changes |
| Allocator.AddAllOfHighestFrequencies | squadify/make_collab.py:246-248 | stops only when no track is left or the top level would overflow the collab; every track it moved outranks every track it left |
| Allocator.WholeLevels | squadify/make_collab.py:199-248 | because whole levels move, every frequency level is either untouched or entirely gone |
| Allocator.Shortfall | squadify/make_collab.py:239-240 | the number of tracks still needed brings the count to the target, and is zero when the count already reaches it |
| Allocator.GiveMemberShare | squadify/make_collab.py:239-242 | one owner's share loop moves exactly its first min(shortfall, tracks left) tracks, after which it holds the target or has none left |
| Allocator.GiveMembersMinimumShare | squadify/make_collab.py:236-242 | afterwards every owner in the iteration order holds the target or has no track left, and the collab grew by at most the target per owner |
| Allocator.LeastServed | squadify/make_collab.py:267-268 | the pick is a candidate with the fewest tracks in the collab, and the first such in iteration order |
| Allocator.AddSomeOfLastFrequency | squadify/make_collab.py:252-280 | with tracks left it fills the collab exactly to its size, using only tracks of the level that was highest when it started; with none left it changes nothing |
| Config.MinTracksPerMember | squadify/make_collab.py:237 | the shares of all members and the dummy together fit in the collab |
| Config.ShareIsTruncation | squadify/make_collab.py:237 | for every member count n of at least 1, the integer share is the truncation of the exact value 50 / n * 0.5 |
| CollabBuilder.NumberOfMembers | squadify/make_collab.py:231-232 | the number of members is the number of distinct member names, and is positive exactly when there is a playlist |
| CollabBuilder.ShareOfRender | squadify/make_collab.py:155-169 | an owner's tracks in the returned collab are as many as its positions counted in the state |
| CollabBuilder.Initial | squadify/make_collab.py:124-152 | the state after creating and linking the track list is valid, with an empty collab and every count zero |
| CollabBuilder.ShareThenLevels | squadify/make_collab.py:286-287 | after phases A and B every owner holds its share or has no track left, and the collab is within its size |
| CollabBuilder.RunPhases | squadify/make_collab.py:286-288 | after the three phases the collab is full or holds every track, and every owner keeps its share or has no track left |
| CollabBuilder.Delivered | squadify/make_collab.py:283-290 | the returned collab has no repeated track, only tracks of the track list, is full unless it holds all of them, and every owner has its share or all its own tracks in it |
| CollabBuilder.Finish | squadify/make_collab.py:285-288 | run from an empty collab, the three phases return at most 50 distinct tracks of the track list, full unless all of them are in, with every owner's share met or all its tracks in |
| CollabBuilder.Allocate | squadify/make_collab.py:284-290 | from the linked track list of n members, the collab has the same bounds and gives every owner its share of 50 / (2n) or all its tracks |
| CollabBuilder.Build | squadify/make_collab.py:283-290 | without a playlist the build fails; otherwise the collab has at most 50 distinct tracks from the track list, is full unless it holds every one, and gives every member and the dummy its minimum share or all its tracks |

## Left out

- The Flask routes, the forms, the MongoDB store and the Spotify clients are not part of this model. They do I/O and hold no logic of the builder.
- `random.shuffle` is modelled as a Fisher–Yates shuffle over caller-supplied draws, so every permutation can be reached but randomness is not modelled.
- The float expression for the share is modelled as the exact integer `50 / (2n)`. `Config.ShareIsTruncation` relates it to the real value `50 / n * 0.5`; rounding in floating point is not modelled.
- `Track.__eq__` compares hashes, so two different tracks whose hashes collide would merge. The model compares identities exactly.
- `Track.__str__` is formatting only.
- Python's set iteration order becomes the inputs `shareOrder` and `pickOrder`. They must enumerate the member set, which is all any iteration of it does.
- The dictionary that `min` reads in phase C is rebuilt from the shrinking candidate set each round. The model keeps that set as `pickOrder` with dropped candidates removed, so its order is the remaining part of `pickOrder`.
- Dividing by zero members raises in the source. The model returns `Failure(NoMembers)` before any phase runs; the source would already have built the track list, but that has no effect on the outcome.
- Allocator.AddSomeOfLastFrequency: does not state which candidate each pick comes from. That choice is stated by `Allocator.LeastServed`, which the loop calls.
- CollabBuilder.Build: states the minimum share and the size bounds, but not the level ordering of phase B. That ordering is stated by `Allocator.AddAllOfHighestFrequencies` and `Allocator.WholeLevels`.
- The id kept for a merged track is that of the first copy seen, as in the source's dictionary. No contract states this.
