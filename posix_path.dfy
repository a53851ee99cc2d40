/**
 * The parts of Python's `os.path` (POSIX flavour) that the download functions use:
 * `basename`, `splitext` and `join`, all on `/`-separated strings.
 */
module PosixPath {
  import opened Text

  const Sep: char := '/'
  const ExtSep: char := '.'

  /** `s.rfind(c)`: the index of the last `c` in `s`, or -1 when there is none. */
  function RFind(s: string, c: char): (k: int)
    ensures -1 <= k < |s|
    ensures 0 <= k ==> s[k] == c
    ensures forall j :: k < j < |s| ==> s[j] != c
    ensures k == -1 <==> c !in s
  {
    if s == [] then -1
    else if s[|s| - 1] == c then |s| - 1
    else RFind(s[..|s| - 1], c)
  }

  /** `os.path.basename(p)`: everything after the last separator. */
  function Basename(p: string): (b: string)
    ensures Sep !in b
    ensures |b| <= |p| && p[|p| - |b|..] == b
    ensures |b| < |p| ==> p[|p| - |b| - 1] == Sep
  {
    p[RFind(p, Sep) + 1..]
  }

  /**
   * A file name with an extension: some dot of the name comes after a character that is
   * not a dot, so a name made of leading dots only (`.bashrc`, `..`) has none.
   */
  predicate Dotted(name: string) {
    exists i, j :: 0 <= i < j < |name| && name[i] != ExtSep && name[j] == ExtSep
  }

  /** The test `splitext` applies: the last dot follows the last separator and a non-dot. */
  predicate HasExtension(p: string) {
    var sepIndex := RFind(p, Sep);
    var dotIndex := RFind(p, ExtSep);
    dotIndex > sepIndex && HasOtherThan(p[sepIndex + 1..dotIndex], ExtSep)
  }

  /**
   * The index facts behind `splitext`'s test: with `start` the first index of the last
   * component and `dotIndex` the last dot, the component has a dot after a non-dot exactly
   * when the last dot lies in it after some non-dot.
   */
  lemma {:induction false} DottedIndices(p: string, start: nat, dotIndex: int)
    requires start <= |p| && -1 <= dotIndex < |p|
    requires dotIndex >= 0 ==> p[dotIndex] == ExtSep
    requires forall x :: dotIndex < x < |p| ==> p[x] != ExtSep
    ensures (dotIndex >= start && HasOtherThan(p[start..dotIndex], ExtSep)) <==> Dotted(p[start..])
  {
    var name := p[start..];
    if dotIndex >= start && HasOtherThan(p[start..dotIndex], ExtSep) {
      var k :| 0 <= k < |p[start..dotIndex]| && p[start..dotIndex][k] != ExtSep;
      assert name[k] == p[start + k] && name[dotIndex - start] == p[dotIndex];
    }
    if Dotted(name) {
      var i, j :| 0 <= i < j < |name| && name[i] != ExtSep && name[j] == ExtSep;
      assert p[start + j] == name[j];
      assert p[start..dotIndex][i] == name[i];
    }
  }

  /**
   * `os.path.splitext(p)`: `(root, ext)` where `ext` runs from the last dot of the last
   * path component, unless everything before that dot in the component is dots. So
   * `a/b.tar.gz` and `a/.b.mp3` are split, while `a.b/c`, `.bashrc` and `..` are not.
   */
  function SplitExt(p: string): (parts: (string, string))
    ensures parts.0 + parts.1 == p
    ensures parts.1 == [] || (parts.1[0] == ExtSep && ExtSep !in parts.1[1..] && Sep !in parts.1)
    ensures parts.1 != [] <==> Dotted(Basename(p))
  {
    var dotIndex := RFind(p, ExtSep);
    DottedIndices(p, RFind(p, Sep) + 1, dotIndex);
    if HasExtension(p) then
      (p[..dotIndex], p[dotIndex..])
    else
      (p, [])
  }

  /**
   * `os.path.splitext(p)[0]`: the whole path when its last component has no extension,
   * otherwise the path up to the last dot, after which only one extension remains.
   */
  function Stem(p: string): (root: string)
    ensures |root| <= |p| && p[..|root|] == root
    ensures |root| < |p| <==> Dotted(Basename(p))
    ensures |root| == |p| || (p[|root|] == ExtSep && ExtSep !in p[|root| + 1..] && Sep !in p[|root|..])
  {
    var parts := SplitExt(p);
    assert p[|parts.0|..] == parts.1;
    parts.0
  }

  /**
   * `os.path.join(a, b)`: `b` alone when it is absolute, otherwise `a` and `b`
   * with one separator between them when `a` does not already end in one.
   */
  function Join(a: string, b: string): (r: string)
    ensures |b| > 0 && b[0] == Sep ==> r == b
    ensures (|b| == 0 || b[0] != Sep) ==> |r| == |a| + |b| + (if a != [] && a[|a| - 1] != Sep then 1 else 0)
  {
    if |b| > 0 && b[0] == Sep then b
    else if a == [] || a[|a| - 1] == Sep then a + b
    else a + [Sep] + b
  }

  /**
   * The joined path ends with `b`; an absolute `b` replaces `a`, otherwise the path starts
   * with `a`, so a relative name lands under the directory `a`.
   */
  lemma JoinShape(a: string, b: string)
    ensures var r := Join(a, b);
            EndsWith(r, b)
            && (|b| > 0 && b[0] == Sep ==> r == b)
            && ((|b| == 0 || b[0] != Sep) ==> |a| <= |r| && r[..|a|] == a)
            && ((|b| == 0 || b[0] != Sep) && |r| > |a| + |b| ==> r[|a|] == Sep)
  {
  }

  /** A relative `b` is joined under `a`. */
  lemma JoinUnder(a: string, b: string)
    requires |b| == 0 || b[0] != Sep
    ensures |a| <= |Join(a, b)| && Join(a, b)[..|a|] == a
  {
  }

  /** A path whose last component is `b` has basename `b`. */
  lemma {:induction false} BasenameOfSuffix(q: string, b: string)
    requires Sep !in b
    requires q == [] || q[|q| - 1] == Sep
    ensures Basename(q + b) == b
  {
    var p := q + b;
    var k := RFind(p, Sep);
    if q == [] {
      assert p == b;
    } else {
      assert p[|q| - 1] == Sep;
      forall j | |q| <= j < |p| ensures p[j] != Sep {
        assert p[j] == b[j - |q|];
      }
      assert k == |q| - 1;
      assert p[k + 1..] == b;
    }
  }

  /** Joining a plain file name onto a directory and taking the basename gives the name back. */
  lemma BasenameOfJoin(dir: string, name: string)
    requires Sep !in name
    ensures Basename(Join(dir, name)) == name
  {
    if dir == [] || dir[|dir| - 1] == Sep {
      BasenameOfSuffix(dir, name);
    } else {
      assert Join(dir, name) == (dir + [Sep]) + name;
      BasenameOfSuffix(dir + [Sep], name);
    }
  }

  /**
   * `splitext` undoes the appending of an extension: a file name `stem + ext`, where
   * `ext` is a dot followed by no further dot, splits back into `stem` and `ext`
   * as long as `stem` is not made only of dots.
   */
  lemma {:induction false} SplitExtInverse(stem: string, ext: string)
    requires Sep !in stem && Sep !in ext
    requires |ext| > 0 && ext[0] == ExtSep && ExtSep !in ext[1..]
    requires HasOtherThan(stem, ExtSep)
    ensures SplitExt(stem + ext) == (stem, ext)
  {
    var p := stem + ext;
    assert Sep !in p by {
      forall j | 0 <= j < |p| ensures p[j] != Sep {
        if j < |stem| { assert p[j] == stem[j]; } else { assert p[j] == ext[j - |stem|]; }
      }
    }
    assert RFind(p, Sep) == -1;
    var dotIndex := RFind(p, ExtSep);
    assert p[|stem|] == ExtSep;
    forall j | |stem| < j < |p| ensures p[j] != ExtSep {
      assert p[j] == ext[1..][j - |stem| - 1];
    }
    assert dotIndex == |stem|;
    assert p[0..dotIndex] == stem;
    assert p[dotIndex..] == ext;
  }
}
