/**
 * `download_spotify_backend`: resolve the URL to tracks, then for each track search
 * YouTube for its audio, download it as mp3 and, best effort, tag it. The downloader and
 * the tagging are an oracle indexed by the track's position in the list.
 */
module SpotifyDownload {
  import opened Wrappers
  import opened Text
  import opened SpotifyTracks
  import opened SpotifyNaming
  import PosixPath

  datatype TagStep = TagSaved | TagRaised

  /**
   * One track's download: yt-dlp raised, or it returned (with `ignoreerrors` a failed search
   * also returns), after which the file may or may not exist and tagging may raise.
   */
  datatype TrackOutcome = DownloadRaised | DownloadReturned(fileExists: bool, tagging: TagStep)

  /** The messages printed for swallowed failures. */
  datatype LogEntry = DownloadErrorLogged(trackName: string) | MetadataErrorLogged(trackName: string)

  /**
   * The effect of some iterations of the loop: the tracks whose audio was searched for,
   * the tracks whose file name was appended to the result, and the printed messages.
   */
  datatype BatchResult = BatchResult(searched: seq<TrackRecord>, saved: seq<TrackRecord>, log: seq<LogEntry>) {
    function Then(next: BatchResult): BatchResult {
      BatchResult(searched + next.searched, saved + next.saved, log + next.log)
    }
  }

  const NoEffect: BatchResult := BatchResult([], [], [])

  /**
   * `artists[0]['name'] if artists else None`. The name is only tested for truth, where
   * `None` and the empty string agree, so a missing artist is the empty name here.
   */
  function FirstArtist(t: TrackRecord): string {
    if |t.artists| > 0 then t.artists[0] else []
  }

  /** `images[0]['url'] if images else None`. */
  function CoverUrl(t: TrackRecord): Option<string> {
    if |t.images| > 0 then Some(t.images[0]) else None
  }

  /** A track is downloaded only when it is not null and has a non-empty name and first artist. */
  predicate Eligible(track: Track) {
    track.Some? && track.value.name != [] && FirstArtist(track.value) != []
  }

  /** Tagging was attempted (a cover URL and an existing file) and raised. */
  predicate TaggingFailed(t: TrackRecord, fileExists: bool, tagging: TagStep) {
    CoverUrl(t).Some? && CoverUrl(t).value != [] && fileExists && tagging == TagRaised
  }

  /**
   * What one track adds to the batch: an eligible track is searched for once; it is
   * appended exactly when its download returned; a raised download is logged under its name.
   */
  function Step(track: Track, outcome: TrackOutcome): (r: BatchResult)
    ensures !Eligible(track) ==> r == NoEffect
    ensures Eligible(track) ==> r.searched == [track.value]
    ensures r.saved != [] <==> Eligible(track) && outcome.DownloadReturned?
    ensures r.saved <= r.searched
    ensures Eligible(track) && outcome.DownloadRaised? ==> r.log == [DownloadErrorLogged(track.value.name)]
    ensures Eligible(track) && outcome.DownloadReturned? ==>
              r.log == (if TaggingFailed(track.value, outcome.fileExists, outcome.tagging)
                        then [MetadataErrorLogged(track.value.name)] else [])
    ensures |r.log| <= 1
  {
    if !Eligible(track) then NoEffect
    else
      var t := track.value;
      match outcome
      case DownloadRaised => BatchResult([t], [], [DownloadErrorLogged(t.name)])
      case DownloadReturned(fileExists, tagging) =>
        BatchResult([t], [t], if TaggingFailed(t, fileExists, tagging) then [MetadataErrorLogged(t.name)] else [])
  }

  /**
   * The effect of the loop over `tracks`, track `i` meeting `outcome(i)`: at most one search
   * per track, at most one appended file per search and one message per track.
   */
  function Batch(tracks: seq<Track>, outcome: nat -> TrackOutcome): (r: BatchResult)
    ensures |r.saved| <= |r.searched| <= |tracks|
    ensures |r.log| <= |tracks|
    decreases |tracks|
  {
    if tracks == [] then NoEffect
    else
      var n := |tracks| - 1;
      Batch(tracks[..n], outcome).Then(Step(tracks[n], outcome(n)))
  }

  /** `f` applied to each element, in order. */
  function Map<A, B>(f: A -> B, s: seq<A>): (r: seq<B>)
    ensures |r| == |s|
    ensures forall k :: 0 <= k < |s| ==> r[k] == f(s[k])
    decreases |s|
  {
    if s == [] then [] else [f(s[0])] + Map(f, s[1..])
  }

  /** The file name of each appended track, in order. */
  function Files(savePath: string, saved: seq<TrackRecord>): (files: seq<string>)
    ensures |files| == |saved|
    ensures forall k :: 0 <= k < |saved| ==> files[k] == TrackFilename(savePath, FirstArtist(saved[k]), saved[k].name)
  {
    Map((t: TrackRecord) => TrackFilename(savePath, FirstArtist(t), t.name), saved)
  }

  /** The yt-dlp search URL of each searched track, in order. */
  function Searches(searched: seq<TrackRecord>): (urls: seq<string>)
    ensures |urls| == |searched|
    ensures forall k :: 0 <= k < |searched| ==> urls[k] == "ytsearch:" + SearchQuery(searched[k].name, FirstArtist(searched[k]))
  {
    Map((t: TrackRecord) => "ytsearch:" + SearchQuery(t.name, FirstArtist(t)), searched)
  }

  /** One pass of the loop body: the attempt for one track (lines 165-216). */
  method AttemptTrack(savePath: string, track: Track, outcome: TrackOutcome)
    returns (appended: seq<string>, searchUrls: seq<string>, logged: seq<LogEntry>)
    ensures var step := Step(track, outcome);
            appended == Files(savePath, step.saved) && searchUrls == Searches(step.searched)
            && logged == step.log
  {
    appended, searchUrls, logged := [], [], [];
    if track.Some? {
      var t := track.value;
      var artistName := FirstArtist(t);
      var coverUrl := CoverUrl(t);
      if t.name != [] && artistName != [] {
        var searchQuery := SearchQuery(t.name, artistName);
        var filename := TrackFilename(savePath, artistName, t.name);
        searchUrls := ["ytsearch:" + searchQuery];
        match outcome
        case DownloadRaised =>
          logged := [DownloadErrorLogged(t.name)];
        case DownloadReturned(fileExists, tagging) =>
          appended := [filename];
          if coverUrl.Some? && coverUrl.value != [] && fileExists && tagging == TagRaised {
            logged := [MetadataErrorLogged(t.name)];
          }
      }
    }
  }

  /** The per-track loop; a failing track is logged and skipped, never ending the loop. */
  method DownloadTracks(savePath: string, tracks: seq<Track>, outcome: nat -> TrackOutcome)
    returns (files: seq<string>, searchUrls: seq<string>, log: seq<LogEntry>)
    ensures var b := Batch(tracks, outcome);
            files == Files(savePath, b.saved) && searchUrls == Searches(b.searched) && log == b.log
    ensures |files| <= |searchUrls| <= |tracks|
    ensures forall f :: f in files ==> EndsWith(f, ".mp3")
  {
    files, searchUrls, log := [], [], [];
    for i := 0 to |tracks|
      invariant var b := Batch(tracks[..i], outcome);
                files == Files(savePath, b.saved) && searchUrls == Searches(b.searched) && log == b.log
    {
      ghost var before := Batch(tracks[..i], outcome);
      var appended, searched, logged := AttemptTrack(savePath, tracks[i], outcome(i));
      ghost var step := Step(tracks[i], outcome(i));
      BatchSnoc(tracks, outcome, i);
      MapAppend((t: TrackRecord) => TrackFilename(savePath, FirstArtist(t), t.name), before.saved, step.saved);
      MapAppend((t: TrackRecord) => "ytsearch:" + SearchQuery(t.name, FirstArtist(t)), before.searched, step.searched);
      files, searchUrls, log := files + appended, searchUrls + searched, log + logged;
    }
    assert tracks[..|tracks|] == tracks;
    FilesAreMp3(savePath, Batch(tracks, outcome).saved);
  }

  /**
   * The whole call: an unclassifiable URL or an API failure ends it with that error,
   * otherwise every resolved track is attempted and the appended file names are returned.
   */
  method DownloadSpotify(api: SpotifyApi, url: string, savePath: string, outcome: nat -> TrackOutcome)
    returns (r: Result<seq<string>, FetchError>)
    ensures FetchTracks(api, url).Failure? ==> r == Failure(FetchTracks(api, url).error)
    ensures FetchTracks(api, url).Success? ==>
              r == Success(Files(savePath, Batch(FetchTracks(api, url).value, outcome).saved))
  {
    var fetched := FetchTracks(api, url);
    match fetched
    case Failure(e) =>
      r := Failure(e);
    case Success(tracks) =>
      var files, searchUrls, log := DownloadTracks(savePath, tracks, outcome);
      r := Success(files);
  }

  /** Every listed file name ends in `.mp3`. */
  lemma FilesAreMp3(savePath: string, saved: seq<TrackRecord>)
    ensures forall f :: f in Files(savePath, saved) ==> EndsWith(f, ".mp3")
  {
    var files := Files(savePath, saved);
    forall f | f in files ensures EndsWith(f, ".mp3") {
      var k :| 0 <= k < |files| && files[k] == f;
      TrackFilenameShape(savePath, FirstArtist(saved[k]), saved[k].name);
    }
  }

  /** Running the loop one track further adds that track's step. */
  lemma BatchSnoc(tracks: seq<Track>, outcome: nat -> TrackOutcome, i: nat)
    requires i < |tracks|
    ensures Batch(tracks[..i + 1], outcome) == Batch(tracks[..i], outcome).Then(Step(tracks[i], outcome(i)))
  {
    assert tracks[..i + 1][..i] == tracks[..i];
  }

  /** Mapping distributes over concatenation. */
  lemma {:induction false} MapAppend<A, B>(f: A -> B, a: seq<A>, b: seq<A>)
    ensures Map(f, a + b) == Map(f, a) + Map(f, b)
    decreases |a|
  {
    if a == [] {
      assert a + b == b;
    } else {
      assert (a + b)[0] == a[0];
      assert (a + b)[1..] == a[1..] + b;
      MapAppend(f, a[1..], b);
    }
  }

  /** Only eligible tracks are searched for or appended. */
  lemma {:induction false} OnlyEligibleAttempted(tracks: seq<Track>, outcome: nat -> TrackOutcome)
    ensures var b := Batch(tracks, outcome);
            (forall t :: t in b.searched ==> Eligible(Some(t)))
            && (forall t :: t in b.saved ==> Eligible(Some(t)))
    decreases |tracks|
  {
    if tracks != [] {
      OnlyEligibleAttempted(tracks[..|tracks| - 1], outcome);
    }
  }

  /** Every appended track is a track of the list whose download returned. */
  lemma {:induction false} SavedComeFromTracks(tracks: seq<Track>, outcome: nat -> TrackOutcome, t: TrackRecord)
    requires t in Batch(tracks, outcome).saved
    ensures exists i: nat :: i < |tracks| && tracks[i] == Some(t) && Eligible(tracks[i]) && outcome(i).DownloadReturned?
    decreases |tracks|
  {
    var n := |tracks| - 1;
    var prefix := tracks[..n];
    if t in Batch(prefix, outcome).saved {
      SavedComeFromTracks(prefix, outcome, t);
      var i: nat :| i < |prefix| && prefix[i] == Some(t) && Eligible(prefix[i]) && outcome(i).DownloadReturned?;
      assert tracks[i] == prefix[i];
    } else {
      assert tracks[n] == Some(t) && Eligible(tracks[n]) && outcome(n).DownloadReturned?;
    }
  }

  /**
   * A track whose download returned is appended, whether or not tagging then failed:
   * the append comes before the tagging.
   */
  lemma {:induction false} ReturnedTrackIsListed(tracks: seq<Track>, outcome: nat -> TrackOutcome, i: nat)
    requires i < |tracks| && Eligible(tracks[i]) && outcome(i).DownloadReturned?
    ensures tracks[i].value in Batch(tracks, outcome).saved
    decreases |tracks|
  {
    var n := |tracks| - 1;
    if i < n {
      assert tracks[..n][i] == tracks[i];
      ReturnedTrackIsListed(tracks[..n], outcome, i);
    }
  }

  /** A track whose download raised is logged under its name, and the loop goes on. */
  lemma {:induction false} RaisedTrackIsLogged(tracks: seq<Track>, outcome: nat -> TrackOutcome, i: nat)
    requires i < |tracks| && Eligible(tracks[i]) && outcome(i).DownloadRaised?
    ensures DownloadErrorLogged(tracks[i].value.name) in Batch(tracks, outcome).log
    decreases |tracks|
  {
    var n := |tracks| - 1;
    if i < n {
      assert tracks[..n][i] == tracks[i];
      RaisedTrackIsLogged(tracks[..n], outcome, i);
    }
  }

  /**
   * A track whose download returned but whose tagging raised is still appended, and the
   * metadata error is logged under its name.
   */
  lemma {:induction false} TaggingFailureIsLogged(tracks: seq<Track>, outcome: nat -> TrackOutcome, i: nat)
    requires i < |tracks| && Eligible(tracks[i]) && outcome(i).DownloadReturned?
    requires TaggingFailed(tracks[i].value, outcome(i).fileExists, outcome(i).tagging)
    ensures MetadataErrorLogged(tracks[i].value.name) in Batch(tracks, outcome).log
    ensures tracks[i].value in Batch(tracks, outcome).saved
    decreases |tracks|
  {
    var n := |tracks| - 1;
    if i < n {
      assert tracks[..n][i] == tracks[i];
      TaggingFailureIsLogged(tracks[..n], outcome, i);
    }
  }

  /** The accumulated results only grow: a prefix of the tracks gives a prefix of each list. */
  lemma {:induction false} BatchPrefix(tracks: seq<Track>, outcome: nat -> TrackOutcome, m: nat)
    requires m <= |tracks|
    ensures var p := Batch(tracks[..m], outcome);
            var b := Batch(tracks, outcome);
            p.saved <= b.saved && p.searched <= b.searched && p.log <= b.log
    decreases |tracks|
  {
    if m < |tracks| {
      var n := |tracks| - 1;
      assert tracks[..n][..m] == tracks[..m];
      BatchPrefix(tracks[..n], outcome, m);
      PrefixOfThen(Batch(tracks[..m], outcome), Batch(tracks[..n], outcome), Step(tracks[n], outcome(n)));
    } else {
      assert tracks[..m] == tracks;
    }
  }

  /** Appending more effects keeps earlier outputs as prefixes. */
  lemma PrefixOfThen(p: BatchResult, x: BatchResult, y: BatchResult)
    requires p.saved <= x.saved && p.searched <= x.searched && p.log <= x.log
    ensures var z := x.Then(y); p.saved <= z.saved && p.searched <= z.searched && p.log <= z.log
  {
  }

  /** Which tracks are searched for and appended depends only on which downloads raised. */
  lemma {:induction false} TaggingDoesNotMatter(tracks: seq<Track>, o1: nat -> TrackOutcome, o2: nat -> TrackOutcome)
    requires forall i: nat :: i < |tracks| ==> o1(i).DownloadRaised? == o2(i).DownloadRaised?
    ensures Batch(tracks, o1).saved == Batch(tracks, o2).saved
    ensures Batch(tracks, o1).searched == Batch(tracks, o2).searched
    decreases |tracks|
  {
    if tracks != [] {
      TaggingDoesNotMatter(tracks[..|tracks| - 1], o1, o2);
    }
  }

  /** When every track is eligible and every download returns, each track is appended, in order. */
  lemma {:induction false} AllReturned(tracks: seq<Track>, outcome: nat -> TrackOutcome)
    requires forall i :: 0 <= i < |tracks| ==> Eligible(tracks[i])
    requires forall i: nat :: i < |tracks| ==> outcome(i).DownloadReturned?
    ensures |Batch(tracks, outcome).saved| == |tracks|
    ensures forall i :: 0 <= i < |tracks| ==> Some(Batch(tracks, outcome).saved[i]) == tracks[i]
    decreases |tracks|
  {
    if tracks != [] {
      var n := |tracks| - 1;
      var before := tracks[..n];
      assert forall i :: 0 <= i < n ==> before[i] == tracks[i];
      AllReturned(before, outcome);
      var prev := Batch(before, outcome).saved;
      assert Eligible(tracks[n]) && outcome(n).DownloadReturned?;
      assert Batch(tracks, outcome).saved == prev + [tracks[n].value];
    }
  }

  /** A batch of N eligible tracks where exactly one download raises appends N - 1 tracks. */
  lemma {:induction false} OneFailureSkipped(tracks: seq<Track>, outcome: nat -> TrackOutcome, k: nat)
    requires k < |tracks|
    requires forall i :: 0 <= i < |tracks| ==> Eligible(tracks[i])
    requires outcome(k).DownloadRaised?
    requires forall i: nat :: i < |tracks| && i != k ==> outcome(i).DownloadReturned?
    ensures |Batch(tracks, outcome).saved| == |tracks| - 1
    decreases |tracks|
  {
    var n := |tracks| - 1;
    var before := tracks[..n];
    assert forall i :: 0 <= i < n ==> before[i] == tracks[i];
    assert Eligible(tracks[n]);
    if k == n {
      AllReturned(before, outcome);
    } else {
      OneFailureSkipped(before, outcome, k);
    }
  }

  /** The file list of a batch has one `.mp3` name per appended track, under `<save_path>/music`. */
  lemma FileNames(savePath: string, tracks: seq<Track>, outcome: nat -> TrackOutcome)
    ensures var saved := Batch(tracks, outcome).saved;
            var files := Files(savePath, saved);
            |files| == |saved|
            && forall k :: 0 <= k < |files| ==>
                 |saved[k].artists| > 0
                 && PosixPath.Basename(files[k]) == Sanitise(saved[k].artists[0]) + " - " + Sanitise(saved[k].name) + ".mp3"
  {
    OnlyEligibleAttempted(tracks, outcome);
    var saved := Batch(tracks, outcome).saved;
    forall k | 0 <= k < |saved|
      ensures |saved[k].artists| > 0
      ensures PosixPath.Basename(Files(savePath, saved)[k])
              == Sanitise(saved[k].artists[0]) + " - " + Sanitise(saved[k].name) + ".mp3"
    {
      assert saved[k] in saved;
      TrackFilenameShape(savePath, FirstArtist(saved[k]), saved[k].name);
    }
  }

  /** A track URL yields at most one file; a playlist at most one per playlist item. */
  lemma DownloadBounds(api: SpotifyApi, url: string, outcome: nat -> TrackOutcome)
    requires FetchTracks(api, url).Success?
    ensures var ref := SpotifyUrl.ExtractSpotifyId(url).value;
            var saved := Batch(FetchTracks(api, url).value, outcome).saved;
            (ref.kind == SpotifyUrl.Track ==> |saved| <= 1)
            && (ref.kind == SpotifyUrl.Playlist ==> |saved| <= |api.playlistItems(ref.id).value|)
  {
  }
}
