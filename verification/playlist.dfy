/** `Playlist.__init__` up to the point where the playlist data is fetched:
    the playlist argument becomes a playlist id, taken from the URL when it
    is an `https://` link, and the id is checked; and, once the tracks are
    known, the `tracks` dictionary keeping only the tracks with a release. */
module Playlists {
  import opened Wrappers
  import opened Ascii
  import opened Songs

  /** The literal part of `.*spotify\.com/playlist/([a-zA-Z0-9]*)`. */
  const Marker: string := "spotify.com/playlist/"
  const Scheme: string := "https://"
  /** Length of a Spotify playlist id. */
  const IdLength: nat := 22

  datatype PlaylistError =
    | NoPlaylistInUrl    // `re.match` found nothing: `None.groups()` raises
    | InvalidPlaylistId  // the `assert` on the id fails

  predicate StartsWith(s: string, prefix: string)
  {
    |prefix| <= |s| && s[..|prefix|] == prefix
  }

  predicate MarkerAt(s: string, i: nat)
  {
    i + |Marker| <= |s| && s[i..i + |Marker|] == Marker
  }

  predicate AllAlnum(s: string)
  {
    forall i :: 0 <= i < |s| ==> IsAlnum(s[i])
  }

  /** An id the `assert` accepts: `re.fullmatch("[a-zA-Z0-9]*", id)` and
      `len(id) == 22`. */
  predicate IsPlaylistId(id: string)
  {
    |id| == IdLength && AllAlnum(id)
  }

  // ---------------------------------------------------------------------------
  // id_from_url

  /** Index of the first line break of `s`, or `|s|`: `.` does not match a
      line break, so `.*` cannot reach past it. */
  function LineEnd(s: string): (e: nat)
    ensures e <= |s|
    ensures forall i :: 0 <= i < e ==> s[i] != '\n'
    ensures e < |s| ==> s[e] == '\n'
  {
    if s == [] || s[0] == '\n' then 0 else 1 + LineEnd(s[1..])
  }

  /** The greedy `.*` backtracks from the right: the match uses the marker
      starting at the largest position at most `hi`. */
  function LastMarker(s: string, hi: nat): (r: Option<nat>)
    ensures r.Some? ==> MarkerAt(s, r.value)
  {
    if MarkerAt(s, hi) then Some(hi)
    else if hi == 0 then None
    else LastMarker(s, hi - 1)
  }

  /** `[a-zA-Z0-9]*` matched greedily at the start of `s`. */
  function AlnumRun(s: string): string
  {
    if s != [] && IsAlnum(s[0]) then [s[0]] + AlnumRun(s[1..]) else []
  }

  function IdFromUrl(url: string): Result<string, PlaylistError>
  {
    match LastMarker(url, LineEnd(url))
    case None => Failure(NoPlaylistInUrl)
    case Some(i) => Success(AlnumRun(url[i + |Marker|..]))
  }

  /** The playlist id of a `Playlist(playlist)`, or the error its constructor
      raises before any data is fetched. */
  function PlaylistId(playlist: string): Result<string, PlaylistError>
  {
    var candidate := if StartsWith(playlist, Scheme) then IdFromUrl(playlist) else Success(playlist);
    if candidate.Failure? then candidate
    else if IsPlaylistId(candidate.value) then candidate
    else Failure(InvalidPlaylistId)
  }

  // ---------------------------------------------------------------------------
  // Properties of the id

  /** The run is the longest prefix made of letters and digits. */
  lemma {:induction false} AlnumRunMaximal(s: string)
    ensures |AlnumRun(s)| <= |s| && AlnumRun(s) == s[..|AlnumRun(s)|]
    ensures AllAlnum(AlnumRun(s))
    ensures |AlnumRun(s)| < |s| ==> !IsAlnum(s[|AlnumRun(s)|])
  {
    if s != [] && IsAlnum(s[0]) {
      AlnumRunMaximal(s[1..]);
    }
  }

  /** The marker found is the last one starting at or before `hi`, and none
      is found when there is none. */
  lemma {:induction false} LastMarkerFound(s: string, hi: nat)
    ensures LastMarker(s, hi).Some? ==>
      var i := LastMarker(s, hi).value;
      i <= hi && MarkerAt(s, i) && forall j :: i < j <= hi ==> !MarkerAt(s, j)
    ensures LastMarker(s, hi).None? <==> forall j :: 0 <= j <= hi ==> !MarkerAt(s, j)
  {
    if !MarkerAt(s, hi) && hi > 0 {
      LastMarkerFound(s, hi - 1);
    }
  }

  /** `id` is the longest run of letters and digits starting at `start`. */
  predicate LongestRunAt(s: string, start: nat, id: string)
  {
    && start + |id| <= |s| && s[start..start + |id|] == id
    && AllAlnum(id)
    && (start + |id| < |s| ==> !IsAlnum(s[start + |id|]))
  }

  lemma AlnumRunAt(s: string, start: nat)
    requires start <= |s|
    ensures LongestRunAt(s, start, AlnumRun(s[start..]))
  {
    var rest := s[start..];
    AlnumRunMaximal(rest);
    var id := AlnumRun(rest);
    assert rest[..|id|] == s[start..start + |id|];
  }

  /** `id_from_url` fails exactly when no `spotify.com/playlist/` starts on
      the first line; otherwise it returns the longest run of letters and
      digits that follows the last marker starting there. */
  lemma IdFromUrlMatch(url: string)
    ensures IdFromUrl(url).Failure? <==>
      forall i :: 0 <= i <= LineEnd(url) ==> !MarkerAt(url, i)
    ensures IdFromUrl(url).Success? ==>
      exists i: nat :: (
        && i <= LineEnd(url) && MarkerAt(url, i)
        && (forall j :: i < j <= LineEnd(url) ==> !MarkerAt(url, j))
        && LongestRunAt(url, i + |Marker|, IdFromUrl(url).value))
  {
    LastMarkerFound(url, LineEnd(url));
    if IdFromUrl(url).Success? {
      var i := LastMarker(url, LineEnd(url)).value;
      AlnumRunAt(url, i + |Marker|);
    }
  }

  /** An accepted id is exactly 22 letters and digits. */
  lemma AcceptedId(playlist: string)
    ensures PlaylistId(playlist).Success? ==> IsPlaylistId(PlaylistId(playlist).value)
    ensures PlaylistId(playlist).Failure? && !StartsWith(playlist, Scheme) ==>
      PlaylistId(playlist).error == InvalidPlaylistId
  {
  }

  /** Anything but an `https://` link is taken verbatim as the id, and
      accepted exactly when it is a valid id. */
  lemma VerbatimId(playlist: string)
    requires !StartsWith(playlist, Scheme)
    ensures PlaylistId(playlist).Success? <==> IsPlaylistId(playlist)
    ensures PlaylistId(playlist).Success? ==> PlaylistId(playlist).value == playlist
  {
  }

  /** An `https://` link is replaced by the id found in it, which is then
      checked like any other id. */
  lemma UrlId(playlist: string)
    requires StartsWith(playlist, Scheme)
    ensures IdFromUrl(playlist).Failure? ==> PlaylistId(playlist) == Failure(NoPlaylistInUrl)
    ensures IdFromUrl(playlist).Success? ==>
      (PlaylistId(playlist).Success? <==> IsPlaylistId(IdFromUrl(playlist).value))
    ensures PlaylistId(playlist).Success? ==> PlaylistId(playlist) == IdFromUrl(playlist)
  {
  }

  // ---------------------------------------------------------------------------
  // The tracks dictionary

  /** `{tr.id: tr for tr in tracks if tr.release is not None}`: a later track
      with the same id replaces an earlier one. */
  function TracksById(tracks: seq<Track>): map<string, Track>
  {
    if tracks == [] then map[]
    else
      var last := tracks[|tracks| - 1];
      var earlier := TracksById(tracks[..|tracks| - 1]);
      if last.release.Some? then earlier[last.id := last] else earlier
  }

  /** Some track with id `k` has a release. */
  predicate HasKept(tracks: seq<Track>, k: string)
  {
    exists i :: 0 <= i < |tracks| && tracks[i].id == k && tracks[i].release.Some?
  }

  /** `tracks[i]` has a release and no later track with its id has one. */
  predicate LastKept(tracks: seq<Track>, i: int)
  {
    && 0 <= i < |tracks| && tracks[i].release.Some?
    && forall j :: i < j < |tracks| && tracks[j].id == tracks[i].id ==> tracks[j].release.None?
  }

  /** The dictionary has an entry for every id of a track with a release, and
      for nothing else. */
  lemma {:induction false} TracksByIdKeys(tracks: seq<Track>)
    ensures forall k :: k in TracksById(tracks) <==> HasKept(tracks, k)
  {
    if tracks != [] {
      var init := tracks[..|tracks| - 1];
      var last := tracks[|tracks| - 1];
      TracksByIdKeys(init);
      forall k
        ensures k in TracksById(tracks) <==> HasKept(tracks, k)
      {
        if HasKept(init, k) {
          var i :| 0 <= i < |init| && init[i].id == k && init[i].release.Some?;
          assert tracks[i] == init[i];
        }
        if HasKept(tracks, k) && !(last.release.Some? && last.id == k) {
          var i :| 0 <= i < |tracks| && tracks[i].id == k && tracks[i].release.Some?;
          assert init[i] == tracks[i];
        }
      }
    }
  }

  /** Each entry is filed under its own id and is the last track with that id
      and a release: a later track replaces an earlier one. */
  lemma {:induction false} TracksByIdEntries(tracks: seq<Track>)
    ensures forall k :: k in TracksById(tracks) ==>
      && TracksById(tracks)[k].id == k
      && exists i :: LastKept(tracks, i) && tracks[i] == TracksById(tracks)[k]
  {
    if tracks != [] {
      var init := tracks[..|tracks| - 1];
      var last := tracks[|tracks| - 1];
      TracksByIdEntries(init);
      var m := TracksById(tracks);
      forall k | k in m
        ensures m[k].id == k && exists i :: LastKept(tracks, i) && tracks[i] == m[k]
      {
        if last.release.Some? && k == last.id {
          assert LastKept(tracks, |tracks| - 1);
        } else {
          var earlier := TracksById(init);
          assert k in earlier && m[k] == earlier[k];
          var i :| LastKept(init, i) && init[i] == m[k];
          assert tracks[i] == init[i];
          forall j | i < j < |tracks| && tracks[j].id == tracks[i].id
            ensures tracks[j].release.None?
          {
            if j < |init| {
              assert tracks[j] == init[j];
            }
          }
        }
      }
    }
  }

  function SimplifyAll(items: seq<RawTrack>): (tracks: seq<Track>)
    ensures |tracks| == |items|
    ensures forall i :: 0 <= i < |items| ==> tracks[i] == Simplify(items[i])
  {
    if items == [] then [] else [Simplify(items[0])] + SimplifyAll(items[1..])
  }

  /** `Playlist.tracks` for the raw items of a playlist. */
  function PlaylistTracks(items: seq<RawTrack>): map<string, Track>
  {
    TracksById(SimplifyAll(items))
  }

  /** A playlist's `tracks` holds one entry per id of a raw track whose
      album has a release date, and each entry has a release. */
  lemma PlaylistTracksKeys(items: seq<RawTrack>)
    ensures forall k :: k in PlaylistTracks(items) <==>
      exists i :: 0 <= i < |items| && items[i].id == k && items[i].album.releaseDate.Some?
    ensures forall k :: k in PlaylistTracks(items) ==>
      PlaylistTracks(items)[k].id == k && PlaylistTracks(items)[k].release.Some?
  {
    var tracks := SimplifyAll(items);
    TracksByIdKeys(tracks);
    TracksByIdEntries(tracks);
    forall k
      ensures k in PlaylistTracks(items) <==>
        exists i :: 0 <= i < |items| && items[i].id == k && items[i].album.releaseDate.Some?
    {
      if HasKept(tracks, k) {
        var i :| 0 <= i < |tracks| && tracks[i].id == k && tracks[i].release.Some?;
        SimplifiedFields(items[i]);
        SimplifiedRelease(items[i]);
      }
      if exists i :: 0 <= i < |items| && items[i].id == k && items[i].album.releaseDate.Some? {
        var i :| 0 <= i < |items| && items[i].id == k && items[i].album.releaseDate.Some?;
        SimplifiedFields(items[i]);
        SimplifiedRelease(items[i]);
        assert tracks[i].id == k && tracks[i].release.Some?;
      }
    }
    forall k | k in PlaylistTracks(items)
      ensures PlaylistTracks(items)[k].release.Some?
    {
      var i :| LastKept(tracks, i) && tracks[i] == PlaylistTracks(items)[k];
    }
  }
}
