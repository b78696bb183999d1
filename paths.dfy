/**
 * The parts of .NET Framework's System.IO.Path on Windows that the updater's
 * decisions depend on: Combine, GetFileName, GetExtension and
 * GetDirectoryName. Invalid-character checks (which throw ArgumentException)
 * are not modelled.
 */
module Paths {

  const DirectorySeparator: char := '\\'
  const AltDirectorySeparator: char := '/'
  const VolumeSeparator: char := ':'

  predicate IsSeparator(c: char)
  {
    c == DirectorySeparator || c == AltDirectorySeparator || c == VolumeSeparator
  }

  /** Path.IsPathRooted: a leading slash of either kind, or a drive letter. */
  predicate IsRooted(p: string)
  {
    (|p| >= 1 && (p[0] == DirectorySeparator || p[0] == AltDirectorySeparator))
    || (|p| >= 2 && p[1] == VolumeSeparator)
  }

  /**
   * Path.Combine(path1, path2): path2 alone when it is rooted, otherwise the
   * two joined by one directory separator unless path1 already ends with one.
   */
  function Combine(path1: string, path2: string): (r: string)
    ensures path2 == [] ==> r == path1
    ensures path2 != [] && (path1 == [] || IsRooted(path2)) ==> r == path2
    ensures path2 != [] && path1 != [] && !IsRooted(path2) ==>
              r == path1 + (if IsSeparator(path1[|path1| - 1]) then [] else [DirectorySeparator]) + path2
  {
    if path2 == [] then path1
    else if path1 == [] then path2
    else if IsRooted(path2) then path2
    else if !IsSeparator(path1[|path1| - 1]) then path1 + [DirectorySeparator] + path2
    else path1 + path2
  }

  /** Position just after the last separator of `p`, 0 if there is none. */
  function NameStart(p: string): (k: nat)
    ensures k <= |p|
    ensures k > 0 ==> IsSeparator(p[k - 1])
    ensures forall i :: k <= i < |p| ==> !IsSeparator(p[i])
  {
    if p == [] then 0
    else if IsSeparator(p[|p| - 1]) then |p|
    else NameStart(p[..|p| - 1])
  }

  /** Path.GetFileName: what follows the last separator. */
  function FileName(p: string): (r: string)
    ensures |r| <= |p| && r == p[|p| - |r|..]
    ensures forall i :: 0 <= i < |r| ==> !IsSeparator(r[i])
    ensures |r| < |p| ==> IsSeparator(p[|p| - |r| - 1])
  {
    p[NameStart(p)..]
  }

  /**
   * Path.GetExtension: from the last '.' of the file name on, or empty when
   * the name has no '.' or ends with it.
   */
  function Extension(p: string): (r: string)
    ensures r == [] || (2 <= |r| <= |p| && r[0] == '.' && r == p[|p| - |r|..])
    ensures forall i :: 0 < i < |r| ==> r[i] != '.' && !IsSeparator(r[i])
    decreases |p|
  {
    if p == [] then []
    else
      var c := p[|p| - 1];
      if c == '.' || IsSeparator(c) then []
      else
        assert p == p[..|p| - 1] + [c];
        ExtensionFrom(p[..|p| - 1], [c])
  }

  /** Helper of Extension: `tail` is the already scanned, dot- and separator-free suffix. */
  function ExtensionFrom(p: string, tail: string): (r: string)
    requires |tail| >= 1
    requires forall i :: 0 <= i < |tail| ==> tail[i] != '.' && !IsSeparator(tail[i])
    ensures r == [] || (2 <= |r| <= |p + tail| && r[0] == '.' && r == (p + tail)[|p + tail| - |r|..])
    ensures forall i :: 0 < i < |r| ==> r[i] != '.' && !IsSeparator(r[i])
    decreases |p|
  {
    if p == [] then []
    else
      var c := p[|p| - 1];
      if c == '.' then
        assert p + tail == p[..|p| - 1] + ([c] + tail);
        [c] + tail
      else if IsSeparator(c) then []
      else
        assert p + tail == p[..|p| - 1] + ([c] + tail);
        ExtensionFrom(p[..|p| - 1], [c] + tail)
  }

  /** A final '.' followed by a non-empty run of ordinary characters is the extension. */
  lemma ExtensionOfSuffix(p: string, ext: string)
    requires |ext| >= 2 && ext[0] == '.'
    requires forall i :: 0 < i < |ext| ==> ext[i] != '.' && !IsSeparator(ext[i])
    ensures Extension(p + ext) == ext
  {
    var q, k := p + ext, |ext| - 1;
    var front, last := q[..|q| - 1], [q[|q| - 1]];
    assert front == p + ext[..k] && last == ext[k..];
    ExtensionOfOrdinaryLast(q);
    ExtensionFromSuffix(p, ext, k);
  }

  /** A name ending in an ordinary character is scanned backwards from that character. */
  lemma ExtensionOfOrdinaryLast(q: string)
    requires |q| > 0 && q[|q| - 1] != '.' && !IsSeparator(q[|q| - 1])
    ensures Extension(q) == ExtensionFrom(q[..|q| - 1], [q[|q| - 1]])
  {
  }

  lemma {:induction false} ExtensionFromSuffix(p: string, ext: string, k: nat)
    requires 1 <= k < |ext| && ext[0] == '.'
    requires forall i :: 0 < i < |ext| ==> ext[i] != '.' && !IsSeparator(ext[i])
    ensures ExtensionFrom(p + ext[..k], ext[k..]) == ext
    decreases k
  {
    var q := p + ext[..k];
    assert q[|q| - 1] == ext[k - 1];
    assert q[..|q| - 1] == p + ext[..k - 1];
    assert [ext[k - 1]] + ext[k..] == ext[k - 1..];
    if k > 1 {
      ExtensionFromSuffix(p, ext, k - 1);
    } else {
      assert ext[0..] == ext;
    }
  }

  /** A directory separator proper, as GetDirectoryName scans for it. */
  predicate IsDirectorySeparator(c: char)
  {
    c == DirectorySeparator || c == AltDirectorySeparator
  }

  /**
   * Path.GetRootLength: a UNC name "\\server\share" up to the separator
   * after the share, one leading slash, a drive "C:" or "C:\", and 0 for a
   * relative path.
   */
  function RootLength(p: string): (k: nat)
    ensures k <= |p|
  {
    if |p| >= 1 && IsDirectorySeparator(p[0]) then
      if |p| >= 2 && IsDirectorySeparator(p[1]) then UncRootEnd(p, 2, 2) else 1
    else if |p| >= 2 && p[1] == VolumeSeparator then
      if |p| >= 3 && IsDirectorySeparator(p[2]) then 3 else 2
    else 0
  }

  /** The UNC scan from `i`: stops at the `n`-th directory separator, or at the end. */
  function UncRootEnd(p: string, i: nat, n: nat): (k: nat)
    requires i <= |p| && n >= 1
    ensures i <= k <= |p|
    ensures k < |p| ==> IsDirectorySeparator(p[k])
    decreases |p| - i
  {
    if i == |p| then |p|
    else if IsDirectorySeparator(p[i]) then (if n == 1 then i else UncRootEnd(p, i + 1, n - 1))
    else UncRootEnd(p, i + 1, n)
  }

  /**
   * Path.GetDirectoryName: everything before the last directory separator
   * that follows the root, or the root itself when none follows it. A path
   * no longer than its root has no directory: .NET returns null, modelled
   * as the empty string.
   */
  function DirectoryName(p: string): (r: string)
    ensures |r| <= |p| && r == p[..|r|]
    ensures |p| <= RootLength(p) ==> r == []
    ensures |p| > RootLength(p) ==>
              RootLength(p) <= |r| < |p|
              && (|r| == RootLength(p) || IsDirectorySeparator(p[|r|]))
              && forall i :: |r| < i < |p| ==> !IsDirectorySeparator(p[i])
  {
    var root := RootLength(p);
    if |p| <= root then [] else p[..DirectoryEnd(p, root, |p|)]
  }

  /** The backward scan `while (i > root && path[--i] != '\\' && path[i] != '/')`. */
  function DirectoryEnd(p: string, root: nat, i: nat): (k: nat)
    requires root < i <= |p|
    ensures root <= k < i
    ensures k == root || IsDirectorySeparator(p[k])
    ensures forall j :: k < j < i ==> !IsDirectorySeparator(p[j])
    decreases i
  {
    if IsDirectorySeparator(p[i - 1]) || i - 1 == root then i - 1
    else DirectoryEnd(p, root, i - 1)
  }

  /** A drive-relative file name keeps the drive as its directory. */
  lemma DriveRelativeDirectory(drive: char, name: string)
    requires !IsDirectorySeparator(drive)
    requires name != [] && forall i :: 0 <= i < |name| ==> !IsSeparator(name[i])
    ensures DirectoryName([drive, VolumeSeparator] + name) == [drive, VolumeSeparator]
  {
    var p := [drive, VolumeSeparator] + name;
    assert RootLength(p) == 2 by {
      assert !IsDirectorySeparator(p[2]) by { assert p[2] == name[0]; }
    }
    assert forall j :: 2 <= j < |p| ==> p[j] == name[j - 2];
  }

  /** "\\server" alone: a UNC name without its share, which has no directory. */
  predicate IsBareServer(d: string)
  {
    |d| >= 2 && IsDirectorySeparator(d[0]) && IsDirectorySeparator(d[1])
    && forall i :: 2 <= i < |d| ==> !IsDirectorySeparator(d[i])
  }

  /**
   * Combining a directory that does not end in a separator with a plain
   * file name can be taken apart again: the directory and the file name
   * come back.
   */
  lemma CombineSplits(directory: string, name: string)
    requires directory != [] && !IsSeparator(directory[|directory| - 1]) && !IsBareServer(directory)
    requires name != [] && forall i :: 0 <= i < |name| ==> !IsSeparator(name[i])
    ensures DirectoryName(Combine(directory, name)) == directory
    ensures FileName(Combine(directory, name)) == name
  {
    var p := Combine(directory, name);
    assert !IsRooted(name) by {
      assert !IsSeparator(name[0]);
      if |name| >= 2 { assert !IsSeparator(name[1]); }
    }
    assert p == directory + [DirectorySeparator] + name;
    NameStartAfter(directory + [DirectorySeparator], name);
    assert p[..|directory|] == directory;
    RootWithinDirectory(directory, name, p);
    assert forall j :: |directory| < j < |p| ==> p[j] == name[j - |directory| - 1];
  }

  /** The root of a combined path ends within the directory part. */
  lemma RootWithinDirectory(directory: string, name: string, p: string)
    requires directory != [] && !IsSeparator(directory[|directory| - 1]) && !IsBareServer(directory)
    requires name != [] && p == directory + [DirectorySeparator] + name
    ensures RootLength(p) <= |directory|
  {
    if |p| >= 2 && IsDirectorySeparator(p[0]) && IsDirectorySeparator(p[1]) {
      assert |directory| >= 2 && p[0] == directory[0] && p[1] == directory[1];
      var s :| 2 <= s < |directory| && IsDirectorySeparator(directory[s]);
      assert p[s] == directory[s];
      UncRootBefore(p, 2, s, |directory|);
    }
  }

  /** With two directory separators from `i` on, the UNC scan stops at the second at the latest. */
  lemma {:induction false} UncRootBefore(p: string, i: nat, s1: nat, s2: nat)
    requires i <= s1 < s2 < |p| && IsDirectorySeparator(p[s1]) && IsDirectorySeparator(p[s2])
    ensures UncRootEnd(p, i, 2) <= s2
    decreases s1 - i
  {
    if IsDirectorySeparator(p[i]) {
      UncRootFirst(p, i + 1, s2);
    } else {
      UncRootBefore(p, i + 1, s1, s2);
    }
  }

  /** With a directory separator from `i` on, the last leg of the UNC scan stops there at the latest. */
  lemma {:induction false} UncRootFirst(p: string, i: nat, s: nat)
    requires i <= s < |p| && IsDirectorySeparator(p[s])
    ensures UncRootEnd(p, i, 1) <= s
    decreases s - i
  {
    if !IsDirectorySeparator(p[i]) {
      UncRootFirst(p, i + 1, s);
    }
  }

  /** A separator-free suffix after a separator: the name starts just after it. */
  lemma {:induction false} NameStartAfter(front: string, name: string)
    requires front != [] && IsSeparator(front[|front| - 1])
    requires forall i :: 0 <= i < |name| ==> !IsSeparator(name[i])
    ensures NameStart(front + name) == |front|
    decreases |name|
  {
    if name == [] {
      assert front + name == front;
    } else {
      var q := front + name;
      assert q[..|q| - 1] == front + name[..|name| - 1];
      NameStartAfter(front, name[..|name| - 1]);
    }
  }
}
