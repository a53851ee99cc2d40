/**
 * `download_youtube_backend`: the yt-dlp options it builds from the requested format and
 * quality, and the path it reports for the downloaded file. The extraction engine is a
 * parameter: given the URL and the options it yields the prepared file name or fails.
 */
module Youtube {
  import opened Wrappers
  import opened Text
  import PosixPath

  datatype PostProcessor = PostProcessor(key: string, preferredCodec: string, preferredQuality: string)

  /** The values stored in a yt-dlp options dictionary. */
  datatype OptValue = Str(s: string) | Flag(b: bool) | PostProcessors(steps: seq<PostProcessor>)

  type YdlOptions = map<string, OptValue>

  /** What the extraction engine did with a URL: the name of the file it prepared, or a failure. */
  datatype Extraction = Extracted(preparedFilename: string) | ExtractionFailed(message: string)

  const OutputTemplate: string := "%(title)s.%(ext)s"
  const BestAudio: string := "bestaudio/best"
  const BestAvailable: string := "bestvideo+bestaudio/best"
  const Mp3Extractor: PostProcessor := PostProcessor("FFmpegExtractAudio", "mp3", "192")

  /** The quality labels with a fixed selector; any other label falls back to `BestAvailable`. */
  const QualityFormats: map<string, string> := map[
    "Highest" := "bestvideo+bestaudio/best",
    "1080p" := "bestvideo[height<=1080]+bestaudio/best[height<=1080]",
    "720p" := "bestvideo[height<=720]+bestaudio/best[height<=720]",
    "480p" := "bestvideo[height<=480]+bestaudio/best[height<=480]",
    "Audio Only" := "bestaudio/best"
  ]

  /** The selector the options carry: mp3 wins over any quality, unknown qualities fall back. */
  function FormatSelector(format: string, quality: string): (selector: string)
    ensures format == "mp3" ==> selector == BestAudio
    ensures selector == BestAudio || selector == BestAvailable || selector in QualityFormats.Values
    ensures selector != []
  {
    if format == "mp3" then BestAudio
    else if quality in QualityFormats then QualityFormats[quality]
    else BestAvailable
  }

  /** Builds the options dictionary as the source does, entry by entry. */
  method YoutubeOptions(format: string, quality: string, savePath: string) returns (opts: YdlOptions)
    ensures opts.Keys == {"outtmpl", "quiet", "nocheckcertificate", "ignoreerrors", "format"}
                         + (if format == "mp3" then {"postprocessors"} else {})
    ensures opts["outtmpl"] == Str(PosixPath.Join(savePath, OutputTemplate))
    ensures opts["quiet"] == Flag(true) && opts["nocheckcertificate"] == Flag(true)
    ensures opts["ignoreerrors"] == Flag(false)
    ensures opts["format"] == Str(FormatSelector(format, quality))
    ensures format == "mp3" ==> opts["postprocessors"] == PostProcessors([Mp3Extractor])
  {
    opts := map[
      "outtmpl" := Str(PosixPath.Join(savePath, OutputTemplate)),
      "quiet" := Flag(true),
      "nocheckcertificate" := Flag(true),
      "ignoreerrors" := Flag(false)
    ];
    var isMp3 := format == "mp3";
    if isMp3 {
      opts := opts["format" := Str(BestAudio)];
      opts := opts["postprocessors" := PostProcessors([Mp3Extractor])];
    } else {
      var formatMap := QualityFormats;
      var selector := if quality in formatMap then formatMap[quality] else BestAvailable;
      opts := opts["format" := Str(selector)];
    }
  }

  /** The path of the converted audio file: the prepared file's stem with `.mp3`, in `savePath`. */
  function Mp3Path(savePath: string, original: string): (r: string)
    ensures |savePath| <= |r| && r[..|savePath|] == savePath
  {
    var stem := PosixPath.Stem(PosixPath.Basename(original));
    StemHasNoSeparator(PosixPath.Basename(original));
    JoinMp3Name(savePath, stem);
    PosixPath.Join(savePath, stem + ".mp3")
  }

  /** The mp3 path's basename is the prepared file's stem plus `.mp3`. */
  lemma Mp3PathBasename(savePath: string, original: string)
    ensures PosixPath.Basename(Mp3Path(savePath, original)) == PosixPath.Stem(PosixPath.Basename(original)) + ".mp3"
  {
    StemHasNoSeparator(PosixPath.Basename(original));
    JoinMp3Name(savePath, PosixPath.Stem(PosixPath.Basename(original)));
  }

  /** Joining `stem.mp3` under a directory keeps the directory as a prefix and `stem.mp3` as the basename. */
  lemma JoinMp3Name(dir: string, stem: string)
    requires PosixPath.Sep !in stem
    ensures var r := PosixPath.Join(dir, stem + ".mp3");
            |dir| <= |r| && r[..|dir|] == dir && PosixPath.Basename(r) == stem + ".mp3"
  {
    var name := stem + ".mp3";
    assert name[0] != PosixPath.Sep;
    PosixPath.JoinUnder(dir, name);
    PosixPath.BasenameOfJoin(dir, name);
  }

  /** The mp3 path ends in `.mp3`. */
  lemma Mp3PathEndsWithMp3(savePath: string, original: string)
    ensures EndsWith(Mp3Path(savePath, original), ".mp3")
  {
    var baseName := PosixPath.Stem(PosixPath.Basename(original));
    var r := Mp3Path(savePath, original);
    PosixPath.JoinShape(savePath, baseName + ".mp3");
    EndsWithConcat(r, baseName, ".mp3");
  }

  /** The path the download reports: the mp3 path for audio requests, the prepared name otherwise. */
  function ResultPath(isMp3: bool, savePath: string, original: string): (r: string)
    ensures !isMp3 ==> r == original
    ensures isMp3 ==> r == Mp3Path(savePath, original) && |savePath| <= |r| && r[..|savePath|] == savePath
    ensures isMp3 ==> EndsWith(r, ".mp3") && PosixPath.Basename(r) == PosixPath.Stem(PosixPath.Basename(original)) + ".mp3"
  {
    Mp3PathBasename(savePath, original);
    Mp3PathEndsWithMp3(savePath, original);
    if isMp3 then Mp3Path(savePath, original) else original
  }

  /**
   * The whole download: build the options, run the engine once, and report the path or the
   * error re-raised as "YouTube Download Error: ...".
   */
  method DownloadYoutube(url: string, format: string, quality: string, savePath: string,
                         engine: (string, YdlOptions) -> Extraction)
    returns (opts: YdlOptions, r: Result<string, string>)
    ensures opts.Keys == {"outtmpl", "quiet", "nocheckcertificate", "ignoreerrors", "format"}
                         + (if format == "mp3" then {"postprocessors"} else {})
    ensures opts["outtmpl"] == Str(PosixPath.Join(savePath, OutputTemplate))
    ensures opts["quiet"] == Flag(true) && opts["nocheckcertificate"] == Flag(true)
    ensures opts["ignoreerrors"] == Flag(false)
    ensures opts["format"] == Str(FormatSelector(format, quality))
    ensures format == "mp3" ==> opts["postprocessors"] == PostProcessors([Mp3Extractor])
    ensures engine(url, opts).ExtractionFailed? ==>
              r == Failure("YouTube Download Error: " + engine(url, opts).message)
    ensures engine(url, opts).Extracted? ==>
              r == Success(ResultPath(format == "mp3", savePath, engine(url, opts).preparedFilename))
  {
    opts := YoutubeOptions(format, quality, savePath);
    var isMp3 := format == "mp3";
    match engine(url, opts)
    case ExtractionFailed(message) =>
      r := Failure("YouTube Download Error: " + message);
    case Extracted(originalFilename) =>
      if isMp3 {
        r := Success(Mp3Path(savePath, originalFilename));
      } else {
        r := Success(originalFilename);
      }
  }

  /** The stem of a separator-free name is separator-free. */
  lemma StemHasNoSeparator(name: string)
    requires PosixPath.Sep !in name
    ensures PosixPath.Sep !in PosixPath.Stem(name)
  {
    var root := PosixPath.Stem(name);
    forall j | 0 <= j < |root| ensures root[j] != PosixPath.Sep {
      assert root[j] == name[j];
    }
  }

  /** An mp3 request always yields "bestaudio/best", whatever the quality label. */
  lemma Mp3IgnoresQuality(quality1: string, quality2: string)
    ensures FormatSelector("mp3", quality1) == FormatSelector("mp3", quality2) == "bestaudio/best"
  {
  }

  /** The fixed selectors of the five quality labels for a non-mp3 request. */
  lemma KnownQualities(format: string)
    requires format != "mp3"
    ensures FormatSelector(format, "Highest") == "bestvideo+bestaudio/best"
    ensures FormatSelector(format, "1080p") == "bestvideo[height<=1080]+bestaudio/best[height<=1080]"
    ensures FormatSelector(format, "720p") == "bestvideo[height<=720]+bestaudio/best[height<=720]"
    ensures FormatSelector(format, "480p") == "bestvideo[height<=480]+bestaudio/best[height<=480]"
    ensures FormatSelector(format, "Audio Only") == "bestaudio/best"
  {
  }

  /**
   * Every other label, including the lower-case "highest" that the server uses by default
   * when a request carries no quality field, falls back to "bestvideo+bestaudio/best".
   */
  lemma UnknownQualityFallsBack(format: string, quality: string)
    requires format != "mp3"
    requires quality !in {"Highest", "1080p", "720p", "480p", "Audio Only"}
    ensures FormatSelector(format, quality) == "bestvideo+bestaudio/best"
  {
  }

  /**
   * For a prepared file `dir/stem.ext` with a real extension, the reported mp3 path is the
   * same name in `savePath` with the extension replaced by `.mp3`.
   */
  lemma Mp3PathReplacesExtension(savePath: string, dir: string, stem: string, ext: string)
    requires PosixPath.Sep !in stem && PosixPath.Sep !in ext
    requires |ext| > 0 && ext[0] == PosixPath.ExtSep && PosixPath.ExtSep !in ext[1..]
    requires HasOtherThan(stem, PosixPath.ExtSep)
    ensures Mp3Path(savePath, PosixPath.Join(dir, stem + ext)) == PosixPath.Join(savePath, stem + ".mp3")
  {
    assert PosixPath.Sep !in stem + ext by {
      forall j | 0 <= j < |stem + ext| ensures (stem + ext)[j] != PosixPath.Sep {
        if j < |stem| { assert (stem + ext)[j] == stem[j]; } else { assert (stem + ext)[j] == ext[j - |stem|]; }
      }
    }
    PosixPath.BasenameOfJoin(dir, stem + ext);
    PosixPath.SplitExtInverse(stem, ext);
  }

  /**
   * The reported audio file has extension ".mp3", never the container extension of the
   * prepared file, as long as the prepared name's stem is not made only of dots.
   */
  lemma Mp3PathExtension(savePath: string, original: string)
    requires HasOtherThan(PosixPath.Stem(PosixPath.Basename(original)), PosixPath.ExtSep)
    ensures PosixPath.SplitExt(PosixPath.Basename(Mp3Path(savePath, original))).1 == ".mp3"
  {
    var stem := PosixPath.Stem(PosixPath.Basename(original));
    StemHasNoSeparator(PosixPath.Basename(original));
    SplitExtOfMp3Name(stem);
    Mp3PathBasename(savePath, original);
  }

  /** Splitting `stem.mp3` gives back the stem and `.mp3`. */
  lemma SplitExtOfMp3Name(stem: string)
    requires PosixPath.Sep !in stem && HasOtherThan(stem, PosixPath.ExtSep)
    ensures PosixPath.SplitExt(stem + ".mp3") == (stem, ".mp3")
  {
    var ext := ".mp3";
    assert ext[0] == PosixPath.ExtSep;
    assert PosixPath.ExtSep !in ext[1..] && PosixPath.Sep !in ext;
    PosixPath.SplitExtInverse(stem, ext);
  }
}
