/** The file names and search query `download_spotify_backend` builds for one track. */
module SpotifyNaming {
  import opened Text
  import PosixPath

  /** Characters kept by the sanitiser: alphanumerics and `.`, `_`, `-`. */
  predicate IsSafe(c: char) {
    IsAsciiAlnum(c) || c in "._-"
  }

  /** Every unsafe character replaced by `_`. */
  function Sanitise(s: string): (r: string)
    ensures |r| == |s|
    ensures forall k :: 0 <= k < |s| ==> r[k] == (if IsSafe(s[k]) then s[k] else '_')
  {
    if s == [] then [] else [if IsSafe(s[0]) then s[0] else '_'] + Sanitise(s[1..])
  }

  /** The query given to the YouTube search. */
  function SearchQuery(trackName: string, artistName: string): (q: string)
    ensures |trackName| <= |q| && q[..|trackName|] == trackName
    ensures EndsWith(q, artistName + " audio")
    ensures |q| == |trackName| + 1 + |artistName| + 6 && q[|trackName|] == ' '
  {
    var q := trackName + " " + artistName + " audio";
    assert q[|q| - |artistName + " audio"|..] == artistName + " audio";
    q
  }

  /**
   * For one track name the query tells the artists apart, and for names of one length
   * it tells the tracks apart: the artist sits between the first separating space and
   * the trailing " audio".
   */
  lemma SearchQueryDeterminesNames(track1: string, artist1: string, track2: string, artist2: string)
    requires |track1| == |track2|
    requires SearchQuery(track1, artist1) == SearchQuery(track2, artist2)
    ensures track1 == track2 && artist1 == artist2
  {
    var q := SearchQuery(track1, artist1);
    assert artist1 == (artist1 + " audio")[..|artist1|] == q[|track1| + 1..|q| - 6];
    assert artist2 == (artist2 + " audio")[..|artist2|] == q[|track2| + 1..|q| - 6];
  }

  /** The name of the downloaded file, without its directory: a single path component. */
  function TrackBasename(artistName: string, trackName: string): (name: string)
    ensures |name| == |artistName| + 3 + |trackName| + 4
    ensures PosixPath.Sep !in name
  {
    SanitiseHasNoSeparator(artistName);
    SanitiseHasNoSeparator(trackName);
    NoSeparatorInName(Sanitise(artistName), Sanitise(trackName));
    Sanitise(artistName) + " - " + Sanitise(trackName) + ".mp3"
  }

  /** `<save_path>/music/<artist> - <track>.mp3` with both names sanitised; it lies under `savePath`. */
  function TrackFilename(savePath: string, artistName: string, trackName: string): (r: string)
    ensures |savePath| <= |r| && r[..|savePath|] == savePath
  {
    var dir := PosixPath.Join(savePath, "music");
    var name := TrackBasename(artistName, trackName);
    PosixPath.JoinUnder(savePath, "music");
    assert name[0] != PosixPath.Sep;
    PosixPath.JoinUnder(dir, name);
    PrefixTransitive(savePath, dir, PosixPath.Join(dir, name));
    PosixPath.Join(dir, name)
  }

  /**
   * The track's file is an `.mp3` in the `music` directory under `savePath`, and its
   * basename (the name handed back to the client) is the sanitised "artist - track.mp3".
   */
  lemma TrackFilenameShape(savePath: string, artistName: string, trackName: string)
    ensures var r := TrackFilename(savePath, artistName, trackName);
            EndsWith(r, ".mp3")
            && PosixPath.Basename(r) == Sanitise(artistName) + " - " + Sanitise(trackName) + ".mp3"
            && var dir := PosixPath.Join(savePath, "music"); |dir| <= |r| && r[..|dir|] == dir
  {
    var dir := PosixPath.Join(savePath, "music");
    var stem := Sanitise(artistName) + " - " + Sanitise(trackName);
    var name := TrackBasename(artistName, trackName);
    assert name == stem + ".mp3";
    PosixPath.BasenameOfJoin(dir, name);
    PosixPath.JoinShape(dir, name);
    assert name[0] != PosixPath.Sep;
    EndsWithConcat(PosixPath.Join(dir, name), stem, ".mp3");
  }

  /** The separator is not a safe character. */
  lemma SanitiseHasNoSeparator(s: string)
    ensures PosixPath.Sep !in Sanitise(s)
  {
    var r := Sanitise(s);
    forall k | 0 <= k < |r| ensures r[k] != PosixPath.Sep {
    }
  }

  lemma NoSeparatorInName(artist: string, track: string)
    requires PosixPath.Sep !in artist && PosixPath.Sep !in track
    ensures PosixPath.Sep !in artist + " - " + track + ".mp3"
  {
    var n := artist + " - " + track + ".mp3";
    forall k | 0 <= k < |n| ensures n[k] != PosixPath.Sep {
      if k < |artist| { assert n[k] == artist[k]; }
      else if k < |artist| + 3 { assert n[k] == " - "[k - |artist|]; }
      else if k < |artist| + 3 + |track| { assert n[k] == track[k - |artist| - 3]; }
      else { assert n[k] == ".mp3"[k - |artist| - 3 - |track|]; }
    }
  }

  /** Every character of a sanitised string is safe. */
  lemma SanitiseIsSafe(s: string)
    ensures forall k :: 0 <= k < |Sanitise(s)| ==> IsSafe(Sanitise(s)[k])
  {
  }

  /** A string is left unchanged exactly when all its characters are already safe. */
  lemma SanitiseFixedPoint(s: string)
    ensures Sanitise(s) == s <==> forall k :: 0 <= k < |s| ==> IsSafe(s[k])
  {
    if Sanitise(s) == s {
      forall k | 0 <= k < |s| ensures IsSafe(s[k]) {
        assert Sanitise(s)[k] == s[k];
      }
    }
  }

  /** Sanitising twice is sanitising once. */
  lemma SanitiseIdempotent(s: string)
    ensures Sanitise(Sanitise(s)) == Sanitise(s)
  {
    SanitiseIsSafe(s);
    SanitiseFixedPoint(Sanitise(s));
  }

  /** Two strings that differ only in which unsafe character sits at a position sanitise alike. */
  lemma SanitiseIgnoresUnsafeChoice(s: string, t: string)
    requires |s| == |t|
    requires forall k :: 0 <= k < |s| ==> s[k] == t[k] || (!IsSafe(s[k]) && !IsSafe(t[k]))
    ensures Sanitise(s) == Sanitise(t)
  {
  }
}
