/** The track registry of `seaplayer/track.py`.

    A `Playbacker` owns a map from UUIDs to tracks, an (always empty in the
    code as written) selection, a set of state flags, and the volume shared by
    every track. A `Track` is registered in its playbacker the moment it is
    constructed and remembers the key it was stored under. The playback engine
    itself (`play`, `stop`, the selection methods, the loop) has empty bodies
    in the source and is not part of this model. The randomness of `uuid4` is
    replaced by an id passed in, and `FreshId` is an oracle that produces one
    not yet in use. */
module Tracks {
  import opened Common

  /** UUIDs are 128-bit numbers. */
  const UUID_SPACE: int := 0x1_0000_0000_0000_0000_0000_0000_0000_0000
  type Uuid = x: int | 0 <= x < UUID_SPACE

  /** The members of the `PlaybackerState` flag enumeration. */
  datatype Flag = Playing | Paused

  /** A track: its (opaque) audio source and the key it was registered under. */
  datatype Track<S> = Track(source: S, uuid: Uuid)

  datatype Playbacker<S> = Playbacker(
    tracks: map<Uuid, Track<S>>,
    selectedTrack: Option<Track<S>>,
    selectedUuid: Option<Uuid>,
    state: set<Flag>,
    volume: real,
    pieceSize: real,
    running: bool)

  const DEFAULT_VOLUME: real := 1.0
  const DEFAULT_PIECE_SIZE: real := 0.1

  /** Python's `float(x or d)`: a missing or zero argument falls back to `d`. */
  function OrDefault(x: Option<real>, d: real): (r: real)
    ensures x.None? ==> r == d
    ensures x == Some(0.0) ==> r == d
    ensures x.Some? && x.value != 0.0 ==> r == x.value
    ensures d != 0.0 ==> r != 0.0
  {
    if x.Some? && x.value != 0.0 then x.value else d
  }

  /** `Playbacker.__init__`; the streamer and the callback are stored but never
      used by the code as written, so they are not part of the state here. */
  function NewPlaybacker<S(==)>(volume: Option<real>, pieceSize: Option<real>,
                            tracks: Option<map<Uuid, Track<S>>>): (pb: Playbacker<S>)
    ensures tracks.None? ==> pb.tracks == map[]
    ensures tracks.Some? ==> pb.tracks == tracks.value
    ensures pb.selectedTrack.None? && pb.selectedUuid.None?
    ensures pb.state == {}
    ensures !pb.running
    ensures pb.volume == (if volume.None? || volume == Some(0.0) then DEFAULT_VOLUME else volume.value)
    ensures pb.pieceSize == (if pieceSize.None? || pieceSize == Some(0.0) then DEFAULT_PIECE_SIZE else pieceSize.value)
  {
    // `tracks or {}`: an empty dict is falsy too, but replacing it by `{}` changes nothing.
    var m := if tracks.Some? then tracks.value else map[];
    Playbacker(m, None, None, {}, OrDefault(volume, DEFAULT_VOLUME),
               OrDefault(pieceSize, DEFAULT_PIECE_SIZE), false)
  }

  /** The `count` property: the number of registered ids. */
  function Count<S(==)>(pb: Playbacker<S>): (c: nat)
    ensures c == |pb.tracks.Keys|
    ensures c == 0 <==> pb.tracks == map[]
  {
    |pb.tracks|
  }

  /** Every field but the registry is the same in both playbackers. */
  predicate SameButTracks<S(==)>(a: Playbacker<S>, b: Playbacker<S>) {
    a.selectedTrack == b.selectedTrack && a.selectedUuid == b.selectedUuid
    && a.state == b.state && a.volume == b.volume && a.pieceSize == b.pieceSize
    && a.running == b.running
  }

  /** `add`: stores the track under `id` (the value `uuid4()` produced) and
      returns that id. Like the source, an id already present is overwritten. */
  function Add<S(==)>(pb: Playbacker<S>, t: Track<S>, id: Uuid): (r: (Playbacker<S>, Uuid))
    ensures r.1 == id
    ensures id in r.0.tracks && r.0.tracks[id] == t
    ensures r.0.tracks.Keys == pb.tracks.Keys + {id}
    ensures forall k :: k in pb.tracks && k != id ==> r.0.tracks[k] == pb.tracks[k]
    ensures id !in pb.tracks ==> Count(r.0) == Count(pb) + 1
    ensures id in pb.tracks ==> Count(r.0) == Count(pb)
    ensures SameButTracks(pb, r.0)
  {
    (pb.(tracks := pb.tracks[id := t]), id)
  }

  /** `remove`: pops `id` if present, and returns nothing (despite the `bool`
      annotation). The selection is not touched, even when it is the removed track. */
  function Remove<S(==)>(pb: Playbacker<S>, id: Uuid): (r: Playbacker<S>)
    ensures r.tracks.Keys == pb.tracks.Keys - {id}
    ensures forall k :: k in r.tracks ==> r.tracks[k] == pb.tracks[k]
    ensures id in pb.tracks ==> Count(r) == Count(pb) - 1
    ensures id !in pb.tracks ==> r == pb
    ensures SameButTracks(pb, r)
  {
    if id in pb.tracks then pb.(tracks := map k | k in pb.tracks && k != id :: pb.tracks[k])
    else pb
  }

  /** `Track.__init__`: builds the track and registers it under the id `add`
      returns, which becomes the track's `uuid`. */
  function NewTrack<S(==)>(pb: Playbacker<S>, source: S, id: Uuid): (r: (Playbacker<S>, Track<S>))
    ensures r.1.source == source && r.1.uuid == id
    ensures r.1.uuid in r.0.tracks && r.0.tracks[r.1.uuid] == r.1
    ensures id !in pb.tracks ==> Count(r.0) == Count(pb) + 1
    ensures SameButTracks(pb, r.0)
  {
    var t := Track(source, id);
    var (pb', key) := Add(pb, t, id);
    (pb', Track(source, key))
  }

  /** `Track.selected`: some track is selected and the selected uuid is this one's. */
  function Selected<S(==)>(pb: Playbacker<S>, t: Track<S>): (b: bool)
    ensures b <==> pb.selectedTrack.Some? && pb.selectedUuid == Some(t.uuid)
    ensures pb.selectedTrack.None? ==> !b
  {
    if pb.selectedTrack.Some? then pb.selectedUuid == Some(t.uuid) else false
  }

  /** `Track.get_volume`: the playbacker's volume, whatever the track. */
  function GetVolume<S(==)>(pb: Playbacker<S>, t: Track<S>): (v: real)
    ensures v == pb.volume
  {
    pb.volume
  }

  /** `Track.set_volume`: writes the playbacker's shared volume. */
  function SetVolume<S(==)>(pb: Playbacker<S>, t: Track<S>, v: real): (r: Playbacker<S>)
    ensures r.tracks == pb.tracks && r.state == pb.state && r.running == pb.running
    ensures r.selectedTrack == pb.selectedTrack && r.selectedUuid == pb.selectedUuid
    ensures r.pieceSize == pb.pieceSize
    ensures r.volume == v && GetVolume(r, t) == v
  {
    pb.(volume := v)
  }

  /** The id oracle standing in for `uuid4()`: the smallest UUID not in `used`. */
  method FreshId(used: set<Uuid>) returns (u: Uuid)
    requires |used| < UUID_SPACE
    ensures u !in used
    ensures forall v: Uuid :: v < u ==> v in used
  {
    var n: int := 0;
    while n in used
      invariant 0 <= n <= |used|
      invariant forall v: Uuid :: v < n ==> v in used
      decreases |used| - n
    {
      BelowInUsed(used, n);
      n := n + 1;
    }
    u := n;
  }

  /** The UUIDs below `k`, all `k` of them. */
  function Below(k: int): (r: set<Uuid>)
    requires 0 <= k <= UUID_SPACE
    ensures forall v: Uuid :: v in r <==> v < k
    ensures |r| == k
    decreases k
  {
    if k == 0 then {} else Below(k - 1) + {k - 1}
  }

  /** The `n + 1` smallest UUIDs, all of them in `used`, do not fit in fewer slots. */
  lemma {:induction false} BelowInUsed(used: set<Uuid>, n: int)
    requires 0 <= n < UUID_SPACE && n in used
    requires forall v: Uuid :: v < n ==> v in used
    ensures n + 1 <= |used|
  {
    var below := Below(n + 1);
    assert below <= used;
    SubsetCard(below, used);
  }

  lemma {:induction false} SubsetCard<T>(a: set<T>, b: set<T>)
    requires a <= b
    ensures |a| <= |b|
  {
    assert b == a + (b - a);
  }

  /** `Track(source, playbacker)` with a fresh id from the oracle: the new track
      is registered under a key that was not present, and nothing else moves. */
  method CreateTrack<S(==)>(pb: Playbacker<S>, source: S) returns (pb': Playbacker<S>, t: Track<S>)
    requires |pb.tracks| < UUID_SPACE
    ensures t.uuid !in pb.tracks
    ensures t.source == source
    ensures t.uuid in pb'.tracks && pb'.tracks[t.uuid] == t
    ensures Count(pb') == Count(pb) + 1
    ensures forall k :: k in pb.tracks ==> k in pb'.tracks && pb'.tracks[k] == pb.tracks[k]
    ensures SameButTracks(pb, pb')
  {
    var id := FreshId(pb.tracks.Keys);
    var r := NewTrack(pb, source, id);
    pb', t := r.0, r.1;
  }

  /** Registers one track per source, the i-th under `ids[i]`. */
  function AddAll<S(==)>(pb: Playbacker<S>, sources: seq<S>, ids: seq<Uuid>): Playbacker<S>
    requires |sources| == |ids|
    decreases |ids|
  {
    if |ids| == 0 then pb
    else AddAll(NewTrack(pb, sources[0], ids[0]).0, sources[1..], ids[1..])
  }

  predicate Distinct<T(==)>(s: seq<T>) {
    forall i, j :: 0 <= i < j < |s| ==> s[i] != s[j]
  }

  /** After a run of registrations with fresh, pairwise distinct ids the
      registry has grown by exactly the number of registrations, and every id
      handed out is a key. */
  lemma {:induction false} AddAllCount<S>(pb: Playbacker<S>, sources: seq<S>, ids: seq<Uuid>)
    requires |sources| == |ids|
    requires Distinct(ids)
    requires forall i :: 0 <= i < |ids| ==> ids[i] !in pb.tracks
    ensures Count(AddAll(pb, sources, ids)) == Count(pb) + |ids|
    ensures forall i :: 0 <= i < |ids| ==> ids[i] in AddAll(pb, sources, ids).tracks
    ensures pb.tracks.Keys <= AddAll(pb, sources, ids).tracks.Keys
    decreases |ids|
  {
    if |ids| > 0 {
      var pb1 := NewTrack(pb, sources[0], ids[0]).0;
      assert forall i :: 0 <= i < |ids[1..]| ==> ids[1..][i] !in pb1.tracks by {
        forall i | 0 <= i < |ids[1..]|
          ensures ids[1..][i] !in pb1.tracks
        {
          assert ids[1..][i] == ids[i + 1] != ids[0];
        }
      }
      AddAllCount(pb1, sources[1..], ids[1..]);
      var r := AddAll(pb, sources, ids);
      forall i | 0 <= i < |ids|
        ensures ids[i] in r.tracks
      {
        if i > 0 {
          assert ids[i] == ids[1..][i - 1];
        }
      }
    }
  }

  /** Removing a registered track, then registering it again under the same id,
      gives back the original registry. */
  lemma {:induction false} RemoveThenAdd<S>(pb: Playbacker<S>, id: Uuid)
    requires id in pb.tracks
    ensures Add(Remove(pb, id), pb.tracks[id], id).0 == pb
  {
    var r := Add(Remove(pb, id), pb.tracks[id], id).0;
    assert r.tracks == pb.tracks;
  }

  /** Registering under a fresh id and removing it again restores the registry. */
  lemma {:induction false} AddThenRemove<S>(pb: Playbacker<S>, t: Track<S>, id: Uuid)
    requires id !in pb.tracks
    ensures Remove(Add(pb, t, id).0, id) == pb
  {
    var r := Remove(Add(pb, t, id).0, id);
    assert r.tracks == pb.tracks;
  }

  /** A fresh playbacker selects nothing, so no track of it reports `selected`. */
  lemma {:induction false} NothingSelectedInitially<S>(volume: Option<real>, pieceSize: Option<real>, t: Track<S>)
    ensures !Selected(NewPlaybacker<S>(volume, pieceSize, None), t)
  {
  }

  /** At most one uuid is selected at a time, and registering or removing a
      track, or setting the volume, never changes which tracks report `selected`. */
  lemma {:induction false} SelectionStable<S>(pb: Playbacker<S>, t: Track<S>, u: Track<S>, x: Track<S>, id: Uuid, v: real)
    ensures Selected(pb, t) && Selected(pb, u) ==> t.uuid == u.uuid
    ensures Selected(Add(pb, x, id).0, t) == Selected(pb, t)
    ensures Selected(Remove(pb, id), t) == Selected(pb, t)
    ensures Selected(SetVolume(pb, x, v), t) == Selected(pb, t)
  {
  }

  /** The volume is shared: once set through one track, every track reads it. */
  lemma {:induction false} VolumeShared<S>(pb: Playbacker<S>, t: Track<S>, u: Track<S>, v: real)
    ensures GetVolume(SetVolume(pb, t, v), u) == v
  {
  }
}
