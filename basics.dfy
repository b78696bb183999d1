/**
 * Small value-level building blocks shared by the updater and the extractor:
 * an Option type, joining strings with a separator, ASCII case mapping and
 * the left-to-right, non-overlapping replacement of .NET's String.Replace.
 */
module Basics {

  datatype Option<T> = None | Some(value: T)

  datatype Result<T, E> = Success(value: T) | Failure(error: E)

  /**
   * What Process.Start does with a request: the process starts, or a
   * Win32Exception with a native error code, or another exception.
   */
  datatype StartOutcome = Started | Win32Error(nativeErrorCode: int) | StartError

  /** ERROR_CANCELLED: the user declined the elevation prompt. */
  const ErrorCancelled: int := 1223

  /** String.Join: the parts with `sep` between consecutive ones. */
  function Join(parts: seq<string>, sep: string): string
  {
    if |parts| == 0 then ""
    else if |parts| == 1 then parts[0]
    else parts[0] + sep + Join(parts[1..], sep)
  }

  /** Appending one more part adds a separator and the part. */
  lemma {:induction false} JoinSnoc(parts: seq<string>, x: string, sep: string)
    requires |parts| > 0
    ensures Join(parts + [x], sep) == Join(parts, sep) + sep + x
    decreases |parts|
  {
    if |parts| == 1 {
      assert (parts + [x])[1..] == [x];
    } else {
      assert (parts + [x])[1..] == parts[1..] + [x];
      JoinSnoc(parts[1..], x, sep);
    }
  }

  /** `pat` occurs in `s` starting at position `i`. */
  predicate OccursAt(s: string, pat: string, i: int)
  {
    0 <= i && i + |pat| <= |s| && s[i..i + |pat|] == pat
  }

  ghost predicate Contains(s: string, pat: string)
  {
    exists i :: OccursAt(s, pat, i)
  }

  /** ToLower restricted to ASCII (the invariant culture agrees with it on ASCII input). */
  function LowerChar(c: char): char
  {
    if 'A' <= c <= 'Z' then (c as int + 32) as char else c
  }

  function UpperChar(c: char): char
  {
    if 'a' <= c <= 'z' then (c as int - 32) as char else c
  }

  function AsciiLower(s: string): string
  {
    seq(|s|, i requires 0 <= i < |s| => LowerChar(s[i]))
  }

  function AsciiUpper(s: string): string
  {
    seq(|s|, i requires 0 <= i < |s| => UpperChar(s[i]))
  }

  /** String.Equals with StringComparison.OrdinalIgnoreCase, on ASCII. */
  predicate EqualsIgnoreCase(a: string, b: string)
  {
    AsciiLower(a) == AsciiLower(b)
  }

  lemma LowerAppend(a: string, b: string)
    ensures AsciiLower(a + b) == AsciiLower(a) + AsciiLower(b)
  {
  }

  /**
   * String.Replace(pat, rep): scans left to right and replaces every
   * non-overlapping occurrence of `pat`.
   */
  function ReplaceAll(s: string, pat: string, rep: string): string
    requires |pat| > 0
    decreases |s|
  {
    if |s| < |pat| then s
    else if s[..|pat|] == pat then rep + ReplaceAll(s[|pat|..], pat, rep)
    else [s[0]] + ReplaceAll(s[1..], pat, rep)
  }

  /** A string without an occurrence of the pattern is left as it is. */
  lemma {:induction false} ReplaceAbsent(s: string, pat: string, rep: string)
    requires |pat| > 0 && !Contains(s, pat)
    ensures ReplaceAll(s, pat, rep) == s
    decreases |s|
  {
    if |s| >= |pat| {
      assert !OccursAt(s, pat, 0);
      assert s[0..|pat|] == s[..|pat|];
      assert !Contains(s[1..], pat) by {
        forall i | 0 <= i && i + |pat| <= |s| - 1
          ensures !OccursAt(s[1..], pat, i)
        {
          assert s[1..][i..i + |pat|] == s[i + 1..i + 1 + |pat|];
          assert !OccursAt(s, pat, i + 1);
        }
      }
      ReplaceAbsent(s[1..], pat, rep);
      assert s == [s[0]] + s[1..];
    }
  }

  /** Every occurrence is replaced: a pattern in front is replaced, the rest is processed on. */
  lemma ReplaceLeading(pat: string, rep: string, rest: string)
    requires |pat| > 0
    ensures ReplaceAll(pat + rest, pat, rep) == rep + ReplaceAll(rest, pat, rep)
  {
    assert (pat + rest)[..|pat|] == pat;
    assert (pat + rest)[|pat|..] == rest;
  }

  /** `s` ends with `suffix`. */
  predicate EndsWith(s: string, suffix: string)
  {
    |suffix| <= |s| && s[|s| - |suffix|..] == suffix
  }

  /**
   * No occurrence of `pat` in `a + pat` starts inside `a`: scanning `a`
   * and then an occurrence of `pat` right after it, the scan reaches that
   * occurrence without a match having begun earlier.
   */
  predicate NoMatchStartsIn(a: string, pat: string)
  {
    forall i :: 0 <= i < |a| ==> !OccursAt(a + pat, pat, i)
  }

  /**
   * Text in front of an occurrence is copied through unchanged, and that
   * occurrence is replaced, when no match starts inside the text.
   */
  lemma {:induction false} ReplaceBeforePattern(a: string, rest: string, pat: string, rep: string)
    requires |pat| > 0 && NoMatchStartsIn(a, pat)
    ensures ReplaceAll(a + pat + rest, pat, rep) == a + rep + ReplaceAll(rest, pat, rep)
    decreases |a|
  {
    if a == [] {
      assert a + pat + rest == pat + rest;
      ReplaceLeading(pat, rep, rest);
    } else {
      var t, tail := a + pat + rest, ReplaceAll(rest, pat, rep);
      assert t[..|pat|] != pat by {
        assert !OccursAt(a + pat, pat, 0);
        assert t[..|pat|] == (a + pat)[0..|pat|];
      }
      assert t[1..] == a[1..] + pat + rest;
      assert ReplaceAll(t, pat, rep) == [a[0]] + ReplaceAll(t[1..], pat, rep);
      NoMatchStartsInTail(a, pat);
      ReplaceBeforePattern(a[1..], rest, pat, rep);
      assert [a[0]] + (a[1..] + rep + tail) == a + rep + tail;
    }
  }

  /** Dropping the first character keeps matches from starting inside the text. */
  lemma NoMatchStartsInTail(a: string, pat: string)
    requires a != [] && NoMatchStartsIn(a, pat)
    ensures NoMatchStartsIn(a[1..], pat)
  {
    forall i | 0 <= i < |a| - 1
      ensures !OccursAt(a[1..] + pat, pat, i)
    {
      assert a[1..] + pat == (a + pat)[1..];
      assert !OccursAt(a + pat, pat, i + 1);
    }
  }

  /**
   * Every occurrence is replaced: parts joined by the pattern come out
   * joined by the replacement, when no match starts inside a part but the
   * last and the last holds no occurrence.
   */
  lemma {:induction false} ReplaceJoin(parts: seq<string>, pat: string, rep: string)
    requires |pat| > 0
    requires forall i :: 0 <= i < |parts| - 1 ==> NoMatchStartsIn(parts[i], pat)
    requires |parts| > 0 ==> !Contains(parts[|parts| - 1], pat)
    ensures ReplaceAll(Join(parts, pat), pat, rep) == Join(parts, rep)
    decreases |parts|
  {
    if |parts| == 1 {
      ReplaceAbsent(parts[0], pat, rep);
    } else if |parts| > 1 {
      var rest := Join(parts[1..], pat);
      assert Join(parts, pat) == parts[0] + pat + rest;
      ReplaceBeforePattern(parts[0], rest, pat, rep);
      ReplaceJoin(parts[1..], pat, rep);
      assert Join(parts, rep) == parts[0] + rep + Join(parts[1..], rep);
    }
  }
}
