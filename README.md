# Media downloader backend: a Dafny model

The backend downloads media for a small web front end. This model covers its deterministic
core in `your_download_functions.py`:

- **YouTube download** (`download_youtube_backend`):
  - the yt-dlp options dictionary it builds from the requested format and quality;
  - the format selector, where `"mp3"` overrides any quality and unknown qualities fall back;
  - the path it reports. For mp3 this is the prepared file's stem with `.mp3`, placed in the save directory. Otherwise it is the prepared file name unchanged.
- **Spotify URL classification** (`extract_spotify_id_from_url`). The regular expression `(track|playlist)/([a-zA-Z0-9]+)` is modelled as a leftmost search with a greedy alphanumeric run.
- **Track resolution** (`fetch_spotify_tracks_backend`):
  - an unclassifiable URL fails before the API is consulted;
  - a track id yields one record;
  - a playlist yields its non-null items, in order.
- **Spotify batch download** (`download_spotify_backend`):
  - file-name sanitisation;
  - the search query and the output file name;
  - the per-track loop, where a failing track is logged and skipped and never ends the batch.

Python's `os.path` functions `basename`, `splitext` and `join` are modelled in the POSIX flavour (module `PosixPath`).

Some things are parameters of the model:

- the yt-dlp extraction engine;
- the Spotify Web API (`sp.track` and the items of `sp.playlist_tracks`);
- the outcome of each track's download and tagging. This is an oracle indexed by the track's position in the list.

Modules:

| file | module | models |
|---|---|---|
| `wrappers.dfy` | `Wrappers` | `Option` and `Result` |
| `text.dfy` | `Text` | ASCII `isalnum`, suffix tests |
| `posix_path.dfy` | `PosixPath` | `os.path.basename`, `splitext`, `join` |
| `youtube.dfy` | `Youtube` | `download_youtube_backend` |
| `spotify_url.dfy` | `SpotifyUrl` | `extract_spotify_id_from_url` |
| `spotify_tracks.dfy` | `SpotifyTracks` | `fetch_spotify_tracks_backend` |
| `spotify_naming.dfy` | `SpotifyNaming` | sanitiser, search query, file name |
| `spotify_download.dfy` | `SpotifyDownload` | the loop of `download_spotify_backend` |

## Model

| member | source | states |
|---|---|---|
| PosixPath.Basename | your_download_functions.py:53 | the basename contains no `/`, is a suffix of the path, and is preceded by a `/` when shorter than the path |
| PosixPath.SplitExt | your_download_functions.py:53 | root and extension concatenate back to the path; the extension is empty or a dot followed by no further dot and no `/`; it is non-empty exactly when the last component has a dot after a non-dot, so leading-dot names such as `.bashrc` are not split |
| PosixPath.Stem | your_download_functions.py:53 | the stem is a prefix of the path; it is shorter than the path exactly when the last component has a dot after a non-dot; what it removes is one extension: a dot followed by no further dot and no `/` |
| PosixPath.Join | your_download_functions.py:57 | an absolute `b` replaces `a`; otherwise the result is `a` and `b` plus one separator exactly when `a` is non-empty and does not end in `/` |
| PosixPath.JoinShape | your_download_functions.py:57 | `join(a, b)` ends with `b`; it is `b` alone when `b` is absolute; otherwise it starts with `a`, and the character after `a` is `/` when a separator was inserted |
| PosixPath.JoinUnder | your_download_functions.py:57 | a relative `b` is joined under `a`: the result starts with `a` |
| PosixPath.BasenameOfJoin | your_download_functions.py:57 | joining a separator-free name onto any directory and taking the basename gives the name back |
| PosixPath.SplitExtInverse | your_download_functions.py:53 | `splitext(stem + ext)` is `(stem, ext)` when neither contains `/`, `ext` is a dot with no further dot, and the stem is not all dots |
| Youtube.FormatSelector | your_download_functions.py:26-43 | mp3 gives "bestaudio/best"; the selector is always one of the fixed selectors or the fallback, and never empty |
| Youtube.YoutubeOptions | your_download_functions.py:18-43 | the options have exactly the keys outtmpl, quiet, nocheckcertificate, ignoreerrors and format, plus postprocessors exactly for mp3; the output template is under the save path; the format is the selector; mp3 adds one FFmpeg mp3 extractor at quality 192 |
| Youtube.Mp3IgnoresQuality | your_download_functions.py:28-29 | for mp3 the selector is "bestaudio/best" whatever the quality |
| Youtube.KnownQualities | your_download_functions.py:36-43 | for a non-mp3 format the five labels Highest, 1080p, 720p, 480p and Audio Only give their fixed selectors |
| Youtube.UnknownQualityFallsBack | your_download_functions.py:43 | any other label, such as lower-case "highest", gives "bestvideo+bestaudio/best" |
| Youtube.Mp3Path | your_download_functions.py:53-57 | the mp3 path lies under the save path |
| Youtube.Mp3PathBasename | your_download_functions.py:52-58 | the mp3 path's basename is the prepared file's stem plus ".mp3" |
| Youtube.Mp3PathEndsWithMp3 | your_download_functions.py:52-58 | the mp3 path ends in ".mp3" |
| Youtube.ResultPath | your_download_functions.py:56-60 | a non-mp3 request reports the prepared name unchanged; an mp3 request reports the mp3 path, which lies under the save path, ends in ".mp3" and has the prepared stem plus ".mp3" as basename |
| Youtube.DownloadYoutube | your_download_functions.py:17-63 | the options are exactly those of `YoutubeOptions`: the key set, the output template under the save path, the flags, the selector and, for mp3, the FFmpeg mp3 extractor at quality 192; an engine failure becomes "YouTube Download Error: " plus its message; success reports the result path of the prepared file |
| Youtube.Mp3PathReplacesExtension | your_download_functions.py:52-58 | a prepared file `dir/stem.ext` is reported as `join(save_path, stem + ".mp3")`, for any directory `dir`, when `stem` has no `/` and is not all dots, and `ext` is a dot followed by no further dot and no `/` |
| Youtube.Mp3PathExtension | your_download_functions.py:53-57 | the reported audio file's extension is ".mp3", never the container's, when the stem is not all dots |
| SpotifyUrl.AlnumRun | your_download_functions.py:137 | the run is a prefix of its input, all alphanumeric, and maximal |
| SpotifyUrl.RefAt | your_download_functions.py:137-139 | at a match, the id is non-empty, alphanumeric and maximal, and it starts right after the kind's label and "/" |
| SpotifyUrl.SearchFrom | your_download_functions.py:137-140 | no result exactly when no position from `i` on matches; otherwise the result is the reference at the first matching position |
| SpotifyUrl.ExtractSpotifyId | your_download_functions.py:136-140 | `(None, None)` exactly when the URL has no match; otherwise the id and kind at the leftmost match |
| SpotifyUrl.FirstMatchExists | your_download_functions.py:137 | if any position matches, there is a leftmost one |
| SpotifyUrl.ExtractedIdIsAlnumRun | your_download_functions.py:136-139 | a returned id is non-empty and alphanumeric, and the kind is "track" or "playlist" |
| SpotifyUrl.KindsExclusive | your_download_functions.py:137 | `track/` and `playlist/` never match at one position, so the alternatives never compete |
| SpotifyTracks.PresentTracks | your_download_functions.py:152 | the result has at most as many entries as the items, and holds exactly the non-null items |
| SpotifyTracks.PresentTracksAppend | your_download_functions.py:152 | the filter keeps item order: it distributes over concatenation |
| SpotifyTracks.PresentTracksAllPresent | your_download_functions.py:152 | a playlist without null items yields all of them, in order |
| SpotifyTracks.FetchTracks | your_download_functions.py:142-157 | InvalidUrl exactly when no id is extracted; a track id gives the one record the API returns; a playlist gives exactly the filtered item list, so its non-null items in playlist order; API failures become "Error fetching Spotify tracks: " plus the message |
| SpotifyTracks.InvalidUrlIgnoresApi | your_download_functions.py:143-145 | an invalid URL fails the same way whatever the API would answer |
| SpotifyTracks.TrackUrlYieldsOne | your_download_functions.py:147-149 | a successful fetch of a track URL yields exactly one entry |
| SpotifyNaming.Sanitise | your_download_functions.py:176-177 | length is preserved; each safe character is kept and each other character becomes `_` |
| SpotifyNaming.SanitiseIsSafe | your_download_functions.py:176-177 | every output character is alphanumeric or one of `._-` |
| SpotifyNaming.SanitiseFixedPoint | your_download_functions.py:176-177 | a string is unchanged exactly when all its characters are already safe |
| SpotifyNaming.SanitiseIdempotent | your_download_functions.py:176-177 | sanitising twice is sanitising once |
| SpotifyNaming.SanitiseIgnoresUnsafeChoice | your_download_functions.py:176-177 | inputs that differ only in which unsafe character sits at a position sanitise alike |
| SpotifyNaming.SearchQuery | your_download_functions.py:178 | the query is the track name, one space, the artist name and " audio": prefix, suffix, the space and the exact length |
| SpotifyNaming.SearchQueryDeterminesNames | your_download_functions.py:178 | for track names of one length, equal queries mean equal track and artist names |
| SpotifyNaming.TrackBasename | your_download_functions.py:176-179 | the file name is a single path component, 7 characters longer than the two names together |
| SpotifyNaming.TrackFilename | your_download_functions.py:179 | the file lies under the save path |
| SpotifyNaming.TrackFilenameShape | your_download_functions.py:179 | the file ends in ".mp3", lies under `join(save_path, "music")`, and has basename "<safe artist> - <safe track>.mp3" |
| SpotifyDownload.Step | your_download_functions.py:165-216 | a track is eligible when it is non-null and has a non-empty name and a first artist with a non-empty name; an ineligible track has no effect; an eligible one is searched for once, appended exactly when its download returned, with a metadata error logged under its name exactly when tagging failed, and logged under its name when the download raised; at most one message per track |
| SpotifyDownload.Batch | your_download_functions.py:163-217 | over all tracks: at most one search per track, at most one appended file per search, at most one message per track |
| SpotifyDownload.Files | your_download_functions.py:179-196 | one file name per appended track, in order: the `k`-th is the track file name built from the `k`-th appended track's first artist and name |
| SpotifyDownload.Searches | your_download_functions.py:178-195 | one search URL per searched track, in order: the `k`-th is "ytsearch:" followed by the search query of the `k`-th searched track |
| SpotifyDownload.AttemptTrack | your_download_functions.py:165-216 | one track's attempt appends the file names, issues the searches and prints the messages of that track's step |
| SpotifyDownload.DownloadTracks | your_download_functions.py:163-217 | the files, searches and log equal those of the loop's specification over all tracks; at most one file per search and one search per track; every file ends in ".mp3" |
| SpotifyDownload.DownloadSpotify | your_download_functions.py:159-217 | fetch errors end the call with that error; otherwise the result is the file list of the batch over the fetched tracks |
| SpotifyDownload.MapAppend | your_download_functions.py:164-196 | the per-track names of a concatenation are the concatenation of the names, which keeps appended files in track order |
| SpotifyDownload.BatchSnoc | your_download_functions.py:164-216 | running the loop one track further adds exactly that track's step |
| SpotifyDownload.FilesAreMp3 | your_download_functions.py:179 | every appended file name ends in ".mp3" |
| SpotifyDownload.OnlyEligibleAttempted | your_download_functions.py:164-196 | null, nameless and artistless tracks are neither searched for nor appended |
| SpotifyDownload.SavedComeFromTracks | your_download_functions.py:164-196 | every appended track is an eligible track of the list whose download returned |
| SpotifyDownload.ReturnedTrackIsListed | your_download_functions.py:193-214 | an eligible track whose download returned is appended even when tagging then fails |
| SpotifyDownload.TaggingFailureIsLogged | your_download_functions.py:196-214 | an eligible track whose download returned but whose tagging raised (with a cover URL and an existing file) is appended and its metadata error is logged under its name |
| SpotifyDownload.RaisedTrackIsLogged | your_download_functions.py:215-216 | an eligible track whose download raised is logged under its name, and the loop goes on |
| SpotifyDownload.BatchPrefix | your_download_functions.py:163-217 | results only grow: the first `m` tracks give a prefix of every output list |
| SpotifyDownload.TaggingDoesNotMatter | your_download_functions.py:196-214 | which tracks are searched and appended depends only on which downloads raised, not on tagging or file existence |
| SpotifyDownload.AllReturned | your_download_functions.py:164-196 | when every track is eligible and every download returns, every track is appended, in order |
| SpotifyDownload.OneFailureSkipped | your_download_functions.py:193-216 | with all tracks eligible and exactly one download raising, all tracks but one are appended |
| SpotifyDownload.FileNames | your_download_functions.py:169-179 | each appended file has basename "<safe first artist> - <safe track>.mp3" |
| SpotifyDownload.DownloadBounds | your_download_functions.py:161-196 | a track URL yields at most one file; a playlist yields at most one file per playlist item |

## Left out

- yt-dlp is an engine parameter. This covers `extract_info`, `prepare_filename`, the `entries[0]` selection for playlists (lines 48-49), and the conversion to mp3. Its outcome is either a prepared file name or a failure message.
- The Spotify client and its client-credentials flow (line 160) are not modelled. The API is a parameter, so the client id and secret do not appear.
- Only the items returned by the first `playlist_tracks` call are read, as in the source. Paging is not modelled.
- Each track's download and tagging are an oracle outcome. The tagging includes the cover fetch through requests and the ID3 tags written with mutagen (lines 198-214). The oracle says whether the download raised, whether the file exists afterwards, and whether tagging raised.
- Filesystem effects are not modelled: `os.makedirs` (line 162), the temporary cover file and its removal.
- The option dictionary of the Spotify per-track download (lines 181-192) is not modelled. The dictionary differs between tracks only in its output template, which is the track's file name, and it does not affect the returned list.
- `print` is modelled as an appended log entry naming the track. The exception text is not part of the entry.
- A missing key in a track object raises `KeyError` outside the per-track `try` (lines 167-173), which would end the whole call. This is not modelled: every record carries name, artists, album name and images.
- `SpotifyNaming.IsSafe` uses `IsAsciiAlnum`, which restricts Python's `str.isalnum` to ASCII letters and digits. Python's `isalnum` also accepts non-ASCII letters and digits, which the sanitiser would keep. The URL pattern's class `[a-zA-Z0-9]` is ASCII in the source too, so the URL model is exact.
- The final `else: return []` of `fetch_spotify_tracks_backend` is unreachable. The pattern only captures "track" or "playlist", and the model's `Kind` has exactly those two values.
- Null items in a playlist are modelled as `None`. Other falsy track values, such as an empty object, are not distinguished.
- `download_instagram_backend`, `download_tiktok_backend` and `download_twitter_backend` are not part of this model. Each is a fixed option dictionary and one downloader call.
- app.py is not part of this model. It is web routing and file serving.
