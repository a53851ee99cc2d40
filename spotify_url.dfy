/**
 * `extract_spotify_id_from_url`: the leftmost match of the regular expression
 * `(track|playlist)/([a-zA-Z0-9]+)` in a URL, giving the identifier and its kind.
 */
module SpotifyUrl {
  import opened Wrappers
  import opened Text

  datatype Kind = Track | Playlist {
    /** The word the URL carries before the identifier. */
    function Label(): string {
      match this
      case Track => "track"
      case Playlist => "playlist"
    }
  }

  datatype SpotifyRef = SpotifyRef(id: string, kind: Kind)

  /** `kind + "/"` starts at position `i` of `url` and is followed by an alphanumeric. */
  predicate MatchesAt(url: string, i: nat, kind: Kind) {
    var prefix := kind.Label() + "/";
    i + |prefix| < |url| && url[i..i + |prefix|] == prefix && IsAsciiAlnum(url[i + |prefix|])
  }

  /** The regular expression matches at position `i`. */
  predicate MatchAt(url: string, i: nat) {
    MatchesAt(url, i, Track) || MatchesAt(url, i, Playlist)
  }

  /** `j` is the first position at or after `i` where the expression matches. */
  predicate FirstFrom(url: string, i: nat, j: nat) {
    i <= j && MatchAt(url, j) && forall k: nat :: i <= k < j ==> !MatchAt(url, k)
  }

  /** The longest prefix of `s` made of ASCII alphanumerics (the greedy `[a-zA-Z0-9]+`). */
  function AlnumRun(s: string): (r: string)
    ensures |r| <= |s| && s[..|r|] == r
    ensures forall k :: 0 <= k < |r| ==> IsAsciiAlnum(r[k])
    ensures |r| == |s| || !IsAsciiAlnum(s[|r|])
  {
    if s != [] && IsAsciiAlnum(s[0]) then [s[0]] + AlnumRun(s[1..]) else []
  }

  /** The match at position `j`: the alternative "track" is tried before "playlist". */
  function RefAt(url: string, j: nat): (r: SpotifyRef)
    requires MatchAt(url, j)
    ensures MatchesAt(url, j, r.kind)
    ensures var start := j + |r.kind.Label()| + 1;
            r.id != [] && start + |r.id| <= |url| && url[start..start + |r.id|] == r.id
            && (forall k :: 0 <= k < |r.id| ==> IsAsciiAlnum(r.id[k]))
            && (start + |r.id| == |url| || !IsAsciiAlnum(url[start + |r.id|]))
  {
    var kind := if MatchesAt(url, j, Track) then Track else Playlist;
    var start := j + |kind.Label()| + 1;
    var id := AlnumRun(url[start..]);
    assert url[start..][..|id|] == url[start..start + |id|];
    SpotifyRef(id, kind)
  }

  /** The regular-expression search from position `i` onward. */
  function SearchFrom(url: string, i: nat): (r: Option<SpotifyRef>)
    requires i <= |url|
    ensures r.None? <==> forall j: nat :: i <= j < |url| ==> !MatchAt(url, j)
    ensures forall j: nat :: FirstFrom(url, i, j) ==> r == Some(RefAt(url, j))
    decreases |url| - i
  {
    if i == |url| then None
    else if MatchAt(url, i) then
      assert forall j: nat :: FirstFrom(url, i, j) ==> j == i;
      Some(RefAt(url, i))
    else
      assert forall j: nat :: FirstFrom(url, i, j) ==> FirstFrom(url, i + 1, j);
      SearchFrom(url, i + 1)
  }

  /**
   * `(id, kind)` read at the leftmost position where `track/` or `playlist/` is followed by
   * an alphanumeric, the id being the whole alphanumeric run there; `None` when there is none.
   */
  function ExtractSpotifyId(url: string): (r: Option<SpotifyRef>)
    ensures r.None? <==> forall j: nat :: j < |url| ==> !MatchAt(url, j)
    ensures forall j: nat :: FirstFrom(url, 0, j) ==> r == Some(RefAt(url, j))
  {
    SearchFrom(url, 0)
  }

  /** When the search finds something there is a first match at or after `i`. */
  lemma {:induction false} FirstMatchExists(url: string, i: nat)
    requires i <= |url|
    requires exists j: nat :: i <= j < |url| && MatchAt(url, j)
    ensures exists j: nat :: FirstFrom(url, i, j)
    decreases |url| - i
  {
    if MatchAt(url, i) {
      assert FirstFrom(url, i, i);
    } else {
      var j: nat :| i <= j < |url| && MatchAt(url, j);
      assert i + 1 <= j;
      FirstMatchExists(url, i + 1);
      var j': nat :| FirstFrom(url, i + 1, j');
      forall k: nat | i <= k < j' ensures !MatchAt(url, k) {
        if k != i { assert i + 1 <= k < j'; }
      }
      assert FirstFrom(url, i, j');
    }
  }

  /** What a successful classification guarantees about the identifier it returns. */
  lemma ExtractedIdIsAlnumRun(url: string)
    requires ExtractSpotifyId(url).Some?
    ensures var r := ExtractSpotifyId(url).value;
            r.id != [] && (forall k :: 0 <= k < |r.id| ==> IsAsciiAlnum(r.id[k]))
            && r.kind.Label() in {"track", "playlist"}
  {
    FirstMatchExists(url, 0);
    var j: nat :| FirstFrom(url, 0, j);
    assert ExtractSpotifyId(url) == Some(RefAt(url, j));
  }

  /** `track/` and `playlist/` never match at one position, so the order of the alternatives does not matter. */
  lemma KindsExclusive(url: string, i: nat)
    ensures !(MatchesAt(url, i, Track) && MatchesAt(url, i, Playlist))
  {
    if MatchesAt(url, i, Track) && i + 9 <= |url| {
      assert url[i..i + 9][0] == url[i..i + 6][0] == 't';
    }
  }
}
