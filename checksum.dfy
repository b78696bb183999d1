/**
 * DownloadUpdateDialog.CompareChecksum: the downloaded file's digest,
 * rendered by BitConverter.ToString ("AB-0C-..."), stripped of its dashes and
 * lower-cased, must equal the lower-cased expected value. The digest itself is
 * an abstract function of the file's bytes supplied by the host's hash library.
 */
module Checksum {
  import opened Basics

  type byte = x: int | 0 <= x < 256

  /** The algorithm HashAlgorithm.Create is asked for when none is configured. */
  const DefaultAlgorithm: string := "MD5"

  /** The CheckSum element of the update description: expected value and algorithm name. */
  datatype CheckSum = CheckSum(value: string, hashingAlgorithm: string)

  /**
   * HashAlgorithm.Create(name) != null, and ComputeHash of the named
   * algorithm over a byte stream.
   */
  datatype HashLibrary = HashLibrary(supports: string -> bool, compute: (string, seq<byte>) -> seq<byte>)

  datatype ChecksumError = FileNotFound | IntegrityCheckFailed | AlgorithmNotSupported

  datatype Verdict = Verified | Rejected(error: ChecksumError)

  /** Hex digit 0-9, A-F. */
  function UpperDigit(n: nat): char
    requires n < 16
  {
    if n < 10 then ('0' as int + n) as char else ('A' as int + n - 10) as char
  }

  /** Hex digit 0-9, a-f. */
  function LowerDigit(n: nat): char
    requires n < 16
  {
    if n < 10 then ('0' as int + n) as char else ('a' as int + n - 10) as char
  }

  /** BitConverter's two upper-case hex digits of one byte. */
  function UpperPair(b: byte): string
  {
    [UpperDigit(b / 16), UpperDigit(b % 16)]
  }

  function LowerPair(b: byte): string
  {
    [LowerDigit(b / 16), LowerDigit(b % 16)]
  }

  /** BitConverter.ToString: upper-case pairs separated by '-'. */
  function BitConverterString(bs: seq<byte>): string
  {
    if |bs| == 0 then ""
    else if |bs| == 1 then UpperPair(bs[0])
    else UpperPair(bs[0]) + "-" + BitConverterString(bs[1..])
  }

  /** The checksum string the updater computes from a digest (DownloadUpdateDialog.cs:254). */
  function FileChecksum(digest: seq<byte>): string
  {
    AsciiLower(ReplaceAll(BitConverterString(digest), "-", ""))
  }

  /** Lower-case hex with no separators: the reference rendering of a digest. */
  function LowerHex(bs: seq<byte>): (r: string)
    ensures |r| == 2 * |bs|
  {
    if bs == [] then "" else LowerPair(bs[0]) + LowerHex(bs[1..])
  }

  function DigitValue(c: char): Option<nat>
  {
    if '0' <= c <= '9' then Some(c as int - '0' as int)
    else if 'a' <= c <= 'f' then Some(c as int - 'a' as int + 10)
    else None
  }

  /** Inverse of LowerHex: two lower-case hex digits per byte. */
  function ParseLowerHex(s: string): Option<seq<byte>>
    decreases |s|
  {
    if s == [] then Some([])
    else if |s| == 1 then None
    else match (DigitValue(s[0]), DigitValue(s[1]), ParseLowerHex(s[2..]))
      case (Some(hi), Some(lo), Some(rest)) =>
        if hi < 16 && lo < 16 then Some([hi * 16 + lo] + rest) else None
      case _ => None
  }

  /** HashAlgorithm.Create is given "MD5" when no algorithm is configured. */
  function AlgorithmName(cs: CheckSum): (name: string)
    ensures name != ""
    ensures cs.hashingAlgorithm != "" ==> name == cs.hashingAlgorithm
    ensures cs.hashingAlgorithm == "" ==> name == DefaultAlgorithm
  {
    if cs.hashingAlgorithm == "" then DefaultAlgorithm else cs.hashingAlgorithm
  }

  /**
   * CompareChecksum. `contents` is None when File.OpenRead fails because the
   * downloaded file is missing; the algorithm is looked up before the file is
   * opened but only tested after it.
   */
  function CompareChecksum(contents: Option<seq<byte>>, cs: CheckSum, lib: HashLibrary): (v: Verdict)
    ensures v == Verified <==>
      contents.Some? && lib.supports(AlgorithmName(cs))
      && LowerHex(lib.compute(AlgorithmName(cs), contents.value)) == AsciiLower(cs.value)
    ensures v == Rejected(FileNotFound) <==> contents.None?
    ensures v == Rejected(AlgorithmNotSupported) <==> contents.Some? && !lib.supports(AlgorithmName(cs))
  {
    var algorithm := AlgorithmName(cs);
    if contents.None? then Rejected(FileNotFound)
    else if !lib.supports(algorithm) then Rejected(AlgorithmNotSupported)
    else
      var digest := lib.compute(algorithm, contents.value);
      FileChecksumIsLowerHex(digest);
      if FileChecksum(digest) == AsciiLower(cs.value) then Verified
      else Rejected(IntegrityCheckFailed)
  }

  lemma {:induction false} ReplaceDashDistributes(a: string, b: string)
    ensures ReplaceAll(a + b, "-", "") == ReplaceAll(a, "-", "") + ReplaceAll(b, "-", "")
    decreases |a|
  {
    if a == [] {
      assert a + b == b;
    } else {
      var ab := a + b;
      assert ab[1..] == a[1..] + b;
      assert ab[..1] == a[..1] && ab[0] == a[0];
      ReplaceDashDistributes(a[1..], b);
      if a[..1] == "-" {
        assert ReplaceAll(ab, "-", "") == "" + ReplaceAll(ab[1..], "-", "");
        assert ReplaceAll(a, "-", "") == "" + ReplaceAll(a[1..], "-", "");
      } else {
        assert ReplaceAll(ab, "-", "") == [a[0]] + ReplaceAll(ab[1..], "-", "");
        assert ReplaceAll(a, "-", "") == [a[0]] + ReplaceAll(a[1..], "-", "");
      }
    }
  }

  lemma LowerOfUpperPair(b: byte)
    ensures AsciiLower(UpperPair(b)) == LowerPair(b)
    ensures ReplaceAll(UpperPair(b), "-", "") == UpperPair(b)
  {
    var p := UpperPair(b);
    assert p[..1] != "-" && p[1..][..1] != "-";
    assert ReplaceAll(p[1..][1..], "-", "") == "";
    assert p == [p[0]] + ([p[1..][0]] + p[1..][1..]);
  }

  /** Stripping BitConverter's dashes and lower-casing gives plain lower-case hex. */
  lemma {:induction false} FileChecksumIsLowerHex(digest: seq<byte>)
    ensures FileChecksum(digest) == LowerHex(digest)
    decreases |digest|
  {
    if |digest| == 1 {
      LowerOfUpperPair(digest[0]);
      assert LowerHex(digest[1..]) == "";
    } else if |digest| > 1 {
      var head := UpperPair(digest[0]);
      var tail := BitConverterString(digest[1..]);
      assert BitConverterString(digest) == head + ("-" + tail);
      ReplaceDashDistributes(head, "-" + tail);
      ReplaceDashDistributes("-", tail);
      assert ReplaceAll("-", "-", "") == "";
      LowerOfUpperPair(digest[0]);
      LowerAppend(head, ReplaceAll(tail, "-", ""));
      FileChecksumIsLowerHex(digest[1..]);
    }
  }

  /** Parsing the lower-case hex of a digest gives the digest back. */
  lemma {:induction false} LowerHexRoundTrip(bs: seq<byte>)
    ensures ParseLowerHex(LowerHex(bs)) == Some(bs)
    decreases |bs|
  {
    if bs != [] {
      var s := LowerHex(bs);
      var b := bs[0];
      assert s[..2] == LowerPair(b) && s[2..] == LowerHex(bs[1..]);
      assert DigitValue(LowerDigit(b / 16)) == Some(b / 16);
      assert DigitValue(LowerDigit(b % 16)) == Some(b % 16);
      LowerHexRoundTrip(bs[1..]);
      assert [(b / 16) * 16 + b % 16] + bs[1..] == bs;
    }
  }

  /** Distinct digests have distinct renderings. */
  lemma LowerHexInjective(a: seq<byte>, b: seq<byte>)
    requires LowerHex(a) == LowerHex(b)
    ensures a == b
  {
    LowerHexRoundTrip(a);
    LowerHexRoundTrip(b);
  }

  lemma {:induction false} LowerHexIsLowerCase(bs: seq<byte>)
    ensures AsciiLower(AsciiUpper(LowerHex(bs))) == LowerHex(bs)
    decreases |bs|
  {
    if bs != [] {
      LowerHexIsLowerCase(bs[1..]);
      var s := LowerHex(bs);
      assert s == LowerPair(bs[0]) + LowerHex(bs[1..]);
      forall i | 0 <= i < 2 ensures LowerChar(UpperChar(s[i])) == s[i] { }
      assert AsciiLower(AsciiUpper(s)) == AsciiLower(AsciiUpper(LowerPair(bs[0]))) + AsciiLower(AsciiUpper(LowerHex(bs[1..])));
    }
  }

  /**
   * The comparison ignores case: an expected value given in upper-case hex
   * for the file's true digest is accepted.
   */
  lemma AcceptsUpperCaseDigest(contents: seq<byte>, algorithm: string, lib: HashLibrary)
    requires lib.supports(AlgorithmName(CheckSum("", algorithm)))
    ensures var name := AlgorithmName(CheckSum("", algorithm));
      CompareChecksum(Some(contents), CheckSum(AsciiUpper(LowerHex(lib.compute(name, contents))), algorithm), lib) == Verified
  {
    var name := AlgorithmName(CheckSum("", algorithm));
    LowerHexIsLowerCase(lib.compute(name, contents));
  }

  /**
   * A file whose digest differs from the published one is rejected as an
   * integrity failure, whatever the case of the published value.
   */
  lemma DetectsTampering(contents: seq<byte>, published: seq<byte>, cs: CheckSum, lib: HashLibrary)
    requires lib.supports(AlgorithmName(cs))
    requires AsciiLower(cs.value) == LowerHex(published)
    requires lib.compute(AlgorithmName(cs), contents) != published
    ensures CompareChecksum(Some(contents), cs, lib) == Rejected(IntegrityCheckFailed)
  {
    var digest := lib.compute(AlgorithmName(cs), contents);
    if LowerHex(digest) == LowerHex(published) {
      LowerHexInjective(digest, published);
    }
  }
}
