/**
 * `fetch_spotify_tracks_backend`: classify the URL, then ask the Spotify Web API for one
 * track or for the items of a playlist. The API is a parameter; a `None` track is the
 * JSON `null` the API may return.
 */
module SpotifyTracks {
  import opened Wrappers
  import opened SpotifyUrl

  /** The fields of a track object that the download uses. */
  datatype TrackRecord = TrackRecord(name: string, artists: seq<string>, albumName: string, images: seq<string>)

  type Track = Option<TrackRecord>

  /** The Web API as seen by the client: `sp.track(id)` and the items of `sp.playlist_tracks(id)`. */
  datatype SpotifyApi = SpotifyApi(
    track: string -> Result<Track, string>,
    playlistItems: string -> Result<seq<Track>, string>)

  datatype FetchError = InvalidUrl | FetchFailed(message: string)

  /** The playlist items whose track is not null, in playlist order. */
  function PresentTracks(items: seq<Track>): (r: seq<Track>)
    ensures |r| <= |items|
    ensures forall t :: t in r <==> t in items && t.Some?
  {
    if items == [] then []
    else (if items[0].Some? then [items[0]] else []) + PresentTracks(items[1..])
  }

  /**
   * An unclassifiable URL fails with `InvalidUrl` before any API request; a track id gives
   * exactly the one record the API returns; a playlist id gives the non-null tracks of its
   * items. API failures are re-raised as `FetchFailed`.
   */
  function FetchTracks(api: SpotifyApi, url: string): (r: Result<seq<Track>, FetchError>)
    ensures r == Failure(InvalidUrl) <==> ExtractSpotifyId(url).None?
    ensures ExtractSpotifyId(url).Some? && ExtractSpotifyId(url).value.kind == Track ==>
              match api.track(ExtractSpotifyId(url).value.id)
              case Success(t) => r == Success([t])
              case Failure(m) => r == Failure(FetchFailed("Error fetching Spotify tracks: " + m))
    ensures ExtractSpotifyId(url).Some? && ExtractSpotifyId(url).value.kind == Playlist ==>
              match api.playlistItems(ExtractSpotifyId(url).value.id)
              case Success(items) =>
                r == Success(PresentTracks(items))
                && |r.value| <= |items| && (forall t :: t in r.value <==> t in items && t.Some?)
              case Failure(m) => r == Failure(FetchFailed("Error fetching Spotify tracks: " + m))
  {
    match ExtractSpotifyId(url)
    case None => Failure(InvalidUrl)
    case Some(SpotifyRef(id, Track)) =>
      (match api.track(id)
       case Success(t) => Success([t])
       case Failure(m) => Failure(FetchFailed("Error fetching Spotify tracks: " + m)))
    case Some(SpotifyRef(id, Playlist)) =>
      (match api.playlistItems(id)
       case Success(items) => Success(PresentTracks(items))
       case Failure(m) => Failure(FetchFailed("Error fetching Spotify tracks: " + m)))
  }

  /** An invalid URL gives the same error whatever the API would answer: the API is not consulted. */
  lemma InvalidUrlIgnoresApi(api1: SpotifyApi, api2: SpotifyApi, url: string)
    requires ExtractSpotifyId(url).None?
    ensures FetchTracks(api1, url) == FetchTracks(api2, url) == Failure(InvalidUrl)
  {
  }

  /** Filtering keeps order: it distributes over concatenation. */
  lemma {:induction false} PresentTracksAppend(a: seq<Track>, b: seq<Track>)
    ensures PresentTracks(a + b) == PresentTracks(a) + PresentTracks(b)
  {
    if a == [] {
      assert a + b == b;
    } else {
      assert (a + b)[0] == a[0];
      assert (a + b)[1..] == a[1..] + b;
      PresentTracksAppend(a[1..], b);
    }
  }

  /** A playlist without null items yields all of them, in order. */
  lemma {:induction false} PresentTracksAllPresent(items: seq<Track>)
    requires forall k :: 0 <= k < |items| ==> items[k].Some?
    ensures PresentTracks(items) == items
  {
    if items != [] {
      PresentTracksAllPresent(items[1..]);
    }
  }

  /** A successful fetch of a track URL yields exactly one entry (possibly null). */
  lemma TrackUrlYieldsOne(api: SpotifyApi, url: string)
    requires ExtractSpotifyId(url).Some? && ExtractSpotifyId(url).value.kind == Track
    requires FetchTracks(api, url).Success?
    ensures |FetchTracks(api, url).value| == 1
  {
  }
}
