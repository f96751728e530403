/** `Song.get_simplified_data`: the flat record kept for each track of a
    playlist, built from the track object of the Spotify API. */
module Songs {
  import opened Wrappers

  datatype Artist = Artist(name: string)

  /** The album of a track; `releaseDate` is `None` when the API gives `null`. */
  datatype Album = Album(name: string, releaseDate: Option<string>)

  /** The fields of a raw track object that the simplification reads. */
  datatype RawTrack = RawTrack(
    id: string,
    spotifyUrl: string,
    artists: seq<Artist>,
    album: Album,
    name: string,
    popularity: int)

  /** The simplified record. */
  datatype Track = Track(
    id: string,
    url: string,
    artist: string,
    release: Option<string>,
    name: string,
    album: string,
    popularity: int)

  /** `sep.join(parts)` */
  function Join(parts: seq<string>, sep: string): string
  {
    if parts == [] then ""
    else if |parts| == 1 then parts[0]
    else parts[0] + sep + Join(parts[1..], sep)
  }

  /** The names of the first two artists (`data["artists"][:2]`). */
  function LeadNames(artists: seq<Artist>): (names: seq<string>)
    ensures |names| == if |artists| < 2 then |artists| else 2
  {
    if artists == [] then []
    else if |artists| == 1 then [artists[0].name]
    else [artists[0].name, artists[1].name]
  }

  /** `release_date[:4]`, or `None` when subscripting `None` raises `TypeError`. */
  function ReleaseYear(date: Option<string>): Option<string>
  {
    match date
    case None => None
    case Some(d) => Some(if |d| <= 4 then d else d[..4])
  }

  function Simplify(data: RawTrack): Track
  {
    Track(
      data.id,
      data.spotifyUrl,
      Join(LeadNames(data.artists), ", "),
      ReleaseYear(data.album.releaseDate),
      data.name,
      data.album.name,
      data.popularity)
  }

  /** The artist field names no artist, one artist, or the first two artists
      separated by a comma and a space; any further artists are dropped. */
  lemma SimplifiedArtist(data: RawTrack)
    ensures |data.artists| == 0 ==> Simplify(data).artist == ""
    ensures |data.artists| == 1 ==> Simplify(data).artist == data.artists[0].name
    ensures |data.artists| >= 2 ==>
      Simplify(data).artist == data.artists[0].name + ", " + data.artists[1].name
  {
    if |data.artists| >= 2 {
      var names := LeadNames(data.artists);
      assert names == [data.artists[0].name, data.artists[1].name];
      assert names[1..] == [data.artists[1].name];
      assert Join(names[1..], ", ") == data.artists[1].name;
    }
  }

  /** The release is missing exactly when the release date is, and is
      otherwise the first four characters of the date, or all of a shorter
      one. */
  lemma SimplifiedRelease(data: RawTrack)
    ensures Simplify(data).release.None? <==> data.album.releaseDate.None?
    ensures Simplify(data).release.Some? ==>
      var d := data.album.releaseDate.value;
      var r := Simplify(data).release.value;
      |r| == (if |d| < 4 then |d| else 4) && r == d[..|r|]
  {
  }

  /** The simplified record keeps the track's identity and description. */
  lemma SimplifiedFields(data: RawTrack)
    ensures Simplify(data).id == data.id
    ensures Simplify(data).url == data.spotifyUrl
    ensures Simplify(data).name == data.name
    ensures Simplify(data).album == data.album.name
    ensures Simplify(data).popularity == data.popularity
  {
  }
}
