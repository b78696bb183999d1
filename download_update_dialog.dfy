/**
 * DownloadUpdateDialog: what happens once the update file has been
 * downloaded. The dialog verifies the checksum, renames the temporary file
 * after the server's file name, decides what to start (the ZIP extractor
 * helper for .zip, msiexec for .msi, the file itself otherwise), builds
 * that process's arguments, starts it and closes with OK or Cancel.
 */
module DownloadUpdateDialog {
  import opened Basics
  import opened Paths
  import opened CommandLine
  import opened Checksum

  /** The file name the extractor helper is written under, next to the update. */
  const ExtractorFileName: string := "ZipExtractor.exe"

  /** The placeholder in InstallerArgs that stands for the application's directory. */
  const PathPlaceholder: string := "%path%"

  const ElevationVerb: string := "runas"

  /** The Content-Disposition response header: absent, unparsable, or its filename parameter. */
  datatype ContentDisposition = NoHeader | Malformed | Header(fileName: string)

  /** What the web client knows about the finished response. */
  datatype Response = Response(contentDisposition: ContentDisposition, localPath: string)

  /** The AutoUpdater settings and update description fields the handler reads. */
  datatype Settings = Settings(
    checkSum: Option<CheckSum>,
    installerArgs: string,
    downloadPath: string,
    installationPath: string,
    runUpdateAsAdmin: bool)

  /**
   * What the handler learns from the machine: the temp directory, the
   * running executable's path, the process's command line arguments
   * (program name first), whether the installation path exists, the hash
   * library, whether writing the helper files or moving the download fails
   * for a reason other than a missing file, and what Process.Start does.
   */
  datatype Machine = Machine(
    tempDirectory: string,
    executablePath: string,
    commandLineArgs: seq<string>,
    installationPathExists: bool,
    hashes: HashLibrary,
    resourceWriteFails: bool,
    moveFails: bool,
    start: StartOutcome)

  /** The completion event: cancelled, or finished with or without an error. */
  datatype Completion = Completion(cancelled: bool, failed: bool)

  datatype PackageKind = ZipPackage | MsiPackage | Installer

  /** The ProcessStartInfo handed to Process.Start. */
  datatype StartInfo = StartInfo(fileName: string, arguments: string, verb: string)

  /** The exceptions the handler catches and reports. */
  datatype Failure =
    | DownloadFailed
    | ChecksumMismatch(error: ChecksumError)
    | BadContentDisposition
    | MoveFailed
    | ResourceWriteFailed
    | ExtractionPathUnavailable
    | StartFailed

  datatype DialogResult = NoResult | OK | Cancel

  /**
   * The file name for the update: the Content-Disposition filename when
   * there is a non-empty one, else the last segment of the response URI's
   * local path. A header that does not parse throws.
   */
  function ChooseFileName(response: Response): (r: Option<string>)
    ensures r.None? <==> response.contentDisposition.Malformed?
    ensures response.contentDisposition.Header? && response.contentDisposition.fileName != "" ==>
              r == Some(response.contentDisposition.fileName)
    ensures (response.contentDisposition.NoHeader? || response.contentDisposition == Header("")) ==>
              r == Some(FileName(response.localPath))
              && forall i :: 0 <= i < |r.value| ==> !IsSeparator(r.value[i])
  {
    match response.contentDisposition
      case Malformed => None
      case Header(name) =>
        if name != "" then Some(name) else Some(FileName(response.localPath))
      case NoHeader => Some(FileName(response.localPath))
  }

  /** AutoUpdater.DownloadPath when set, the temp directory otherwise. */
  function DownloadDirectory(settings: Settings, machine: Machine): string
  {
    if settings.downloadPath == "" then machine.tempDirectory else settings.downloadPath
  }

  /** Which process the update is launched with, by its extension, ignoring case. */
  function Classify(path: string): PackageKind
  {
    var extension := Extension(path);
    if EqualsIgnoreCase(extension, ".zip") then ZipPackage
    else if EqualsIgnoreCase(extension, ".msi") then MsiPackage
    else Installer
  }

  /** A file whose name ends in ".zip" in any case is handed to the extractor. */
  lemma ZipNamesGoToExtractor(name: string, ext: string)
    requires |ext| == 4 && AsciiLower(ext) == ".zip"
    ensures Classify(name + ext) == ZipPackage
  {
    ExtensionOfLowered(name, ext, ".zip");
    LowerLiterals();
  }

  /** A file whose name ends in ".msi" in any case is handed to msiexec. */
  lemma MsiNamesGoToMsiexec(name: string, ext: string)
    requires |ext| == 4 && AsciiLower(ext) == ".msi"
    ensures Classify(name + ext) == MsiPackage
  {
    ExtensionOfLowered(name, ext, ".msi");
    LowerLiterals();
  }

  lemma LowerLiterals()
    ensures AsciiLower(".zip") == ".zip" && AsciiLower(".msi") == ".msi"
  {
  }

  /** A four-character suffix that lowers to a dot and three letters is the name's extension. */
  lemma ExtensionOfLowered(name: string, ext: string, lowered: string)
    requires |ext| == 4 && AsciiLower(ext) == lowered
    requires lowered[0] == '.' && forall i | 1 <= i < 4 :: 'a' <= lowered[i] <= 'z'
    ensures Extension(name + ext) == ext
  {
    assert AsciiLower(ext)[0] == LowerChar(ext[0]);
    forall i | 0 < i < |ext| ensures ext[i] != '.' && !IsSeparator(ext[i]) {
      assert AsciiLower(ext)[i] == LowerChar(ext[i]);
    }
    ExtensionOfSuffix(name, ext);
  }

  /** InstallerArgs with every "%path%" replaced by the application's directory; empty stays empty. */
  function InstallerArguments(installerArgs: string, executablePath: string): string
  {
    if installerArgs == "" then ""
    else ReplaceAll(installerArgs, PathPlaceholder, DirectoryName(executablePath))
  }

  /** Arguments without the placeholder are passed on as they are. */
  lemma InstallerArgumentsVerbatim(installerArgs: string, executablePath: string)
    requires !Contains(installerArgs, PathPlaceholder)
    ensures InstallerArguments(installerArgs, executablePath) == installerArgs
  {
    if installerArgs != "" {
      ReplaceAbsent(installerArgs, PathPlaceholder, DirectoryName(executablePath));
    }
  }

  /**
   * Every placeholder becomes the application's directory: arguments made
   * of parts with "%path%" between them come out with the directory
   * between the same parts, when no part holds "%path%" itself and no part
   * but the last ends with "%path" (the only text that completes a match
   * with the start of the next placeholder). Other '%' text is kept.
   */
  lemma InstallerArgumentsSubstitute(parts: seq<string>, executablePath: string)
    requires forall i :: 0 <= i < |parts| ==> !Contains(parts[i], PathPlaceholder)
    requires forall i :: 0 <= i < |parts| - 1 ==> !EndsWith(parts[i], "%path")
    ensures InstallerArguments(Join(parts, PathPlaceholder), executablePath) == Join(parts, DirectoryName(executablePath))
  {
    var directory := DirectoryName(executablePath);
    if |parts| > 1 {
      assert |Join(parts, PathPlaceholder)| >= |PathPlaceholder|;
    }
    forall i | 0 <= i < |parts| - 1
      ensures NoMatchStartsIn(parts[i], PathPlaceholder)
    {
      PlaceholderBoundary(parts[i]);
    }
    ReplaceJoin(parts, PathPlaceholder, directory);
  }

  /**
   * A match of "%path%" can begin inside text followed by the placeholder
   * only inside the text itself or at a trailing "%path": the placeholder's
   * only border is its '%'.
   */
  lemma PlaceholderBoundary(a: string)
    requires !Contains(a, PathPlaceholder) && !EndsWith(a, "%path")
    ensures NoMatchStartsIn(a, PathPlaceholder)
  {
    var t := a + PathPlaceholder;
    forall i | 0 <= i < |a|
      ensures !OccursAt(t, PathPlaceholder, i)
    {
      if i + 6 <= |a| {
        assert t[i..i + 6] == a[i..i + 6];
        assert !OccursAt(a, PathPlaceholder, i);
      } else {
        var m := |a| - i;
        assert t[|a|] == '%';
        if m < 5 {
          assert PathPlaceholder[m] != '%';
        } else {
          assert t[i..i + 5] == a[|a| - 5..];
          assert a[|a| - 5..] != "%path";
          assert PathPlaceholder[..5] == "%path";
        }
      }
    }
  }

  /** msiexec's arguments: install the quoted package, then the installer arguments if any. */
  function MsiArguments(packagePath: string, installerArgs: string): string
  {
    "/i " + Quote(packagePath) + (if installerArgs == "" then "" else " " + installerArgs)
  }

  /** msiexec sees "/i", the package path, and then the installer arguments' own split. */
  lemma MsiArgumentsRoundTrip(packagePath: string, installerArgs: string)
    requires QuotableArgument(packagePath)
    ensures SplitArguments(MsiArguments(packagePath, installerArgs))
         == ["/i", packagePath] + SplitArguments(installerArgs)
  {
    var s := MsiArguments(packagePath, installerArgs);
    var head := "/i ";
    MsiSwitchScan();
    if installerArgs == "" {
      assert s == head + Quote(packagePath);
      ScanAppend(Idle([]), head, Quote(packagePath));
      ScanQuoted(["/i"], packagePath);
      assert packagePath + Backslashes(0) == packagePath;
      SplitOfScan(s, ["/i"], packagePath);
      assert SplitArguments(installerArgs) == [];
    } else {
      var mid := head + (Quote(packagePath) + " ");
      assert s == mid + installerArgs;
      ScanAppend(Idle([]), head, Quote(packagePath) + " ");
      ScanQuotedThenBlank(["/i"], packagePath);
      assert ["/i"] + [packagePath] == ["/i", packagePath];
      ScanAppend(Idle([]), mid, installerArgs);
      SplitAfter(["/i", packagePath], installerArgs);
    }
  }

  /** The "/i " switch is read as one argument and leaves the scanner between arguments. */
  lemma MsiSwitchScan()
    ensures ScanAll(Idle([]), "/i ") == Idle(["/i"])
  {
    assert PlainArgument("/i");
    ScanPlainThenBlank([], "/i");
    assert [] + ["/i"] == ["/i"];
    assert "/i" + " " == "/i ";
  }

  /** String.Substring(0, Length - 1) when the path ends with a backslash. */
  function TrimOneBackslash(s: string): (r: string)
    ensures |s| > 0 && s[|s| - 1] == Backslash ==> r == s[..|s| - 1]
    ensures (|s| == 0 || s[|s| - 1] != Backslash) ==> r == s
  {
    if |s| > 0 && s[|s| - 1] == Backslash then s[..|s| - 1] else s
  }

  /** TrimEnd('\\'): the path without any trailing backslashes. */
  function TrimBackslashes(s: string): (r: string)
    ensures |r| <= |s| && r == s[..|r|]
    ensures r == [] || r[|r| - 1] != Backslash
    ensures forall i :: |r| <= i < |s| ==> s[i] == Backslash
    decreases |s|
  {
    if |s| > 0 && s[|s| - 1] == Backslash then TrimBackslashes(s[..|s| - 1]) else s
  }

  /**
   * The extraction directory as the handler computes it: the application's
   * directory with one trailing backslash removed, replaced by
   * AutoUpdater.InstallationPath when that is set and exists. Taking the
   * last character of an empty directory name throws.
   */
  function ExtractionPathAsWritten(applicationDirectory: string, installationPath: string, installationPathExists: bool): (r: Option<string>)
    ensures r.None? <==> applicationDirectory == ""
    ensures r.Some? && installationPath != "" && installationPathExists ==> r.value == installationPath
    ensures r.Some? && !(installationPath != "" && installationPathExists) ==>
              r.value == TrimOneBackslash(applicationDirectory)
  {
    if applicationDirectory == "" then None
    else
      var trimmed := TrimOneBackslash(applicationDirectory);
      if installationPath != "" && installationPathExists then Some(installationPath) else Some(trimmed)
  }

  /** The extraction directory with the trailing-backslash trim applied to whichever path was chosen. */
  function ExtractionPath(applicationDirectory: string, installationPath: string, installationPathExists: bool): (r: Option<string>)
    ensures r.None? <==> applicationDirectory == ""
    ensures r.Some? ==> r.value == [] || r.value[|r.value| - 1] != Backslash
    ensures r.Some? ==> var chosen := if installationPath != "" && installationPathExists then installationPath else applicationDirectory;
              |r.value| <= |chosen| && r.value == chosen[..|r.value|] && forall i :: |r.value| <= i < |chosen| ==> chosen[i] == Backslash
  {
    if applicationDirectory == "" then None
    else if installationPath != "" && installationPathExists then Some(TrimBackslashes(installationPath))
    else Some(TrimBackslashes(applicationDirectory))
  }

  /**
   * As written, an existing InstallationPath that ends in a backslash is
   * passed on untrimmed: the backslash escapes the closing quote, and the
   * extraction directory swallows the executable's path, so the helper
   * sees two arguments where three were meant.
   */
  lemma AsWrittenOverrideSwallowsExecutable(applicationDirectory: string, installationDirectory: string,
                                            archive: string, executablePath: string, commandLineArgs: seq<string>)
    requires applicationDirectory != ""
    requires QuotableArgument(archive) && QuotableArgument(installationDirectory)
    requires PlainArgument(executablePath) && executablePath[|executablePath| - 1] != Backslash
    requires |commandLineArgs| <= 1
    ensures var e := ExtractionPathAsWritten(applicationDirectory, installationDirectory + [Backslash], true);
      e == Some(installationDirectory + [Backslash])
      && SplitArguments(ExtractorArguments(archive, e.value, executablePath, commandLineArgs))
         == [archive, installationDirectory + [QuoteChar] + " " + executablePath]
  {
    var e := installationDirectory + [Backslash];
    var s := Quote(archive) + " " + Quote(e) + " " + Quote(executablePath);
    assert ExtractorArguments(archive, e, executablePath, commandLineArgs) == s + "";
    assert s + "" == s;
    SplitSwallowsAfterEscapedQuote(archive, installationDirectory, executablePath);
  }

  /**
   * With the trim applied to whichever directory is chosen, the helper reads
   * back the archive, the extraction directory, the executable and the
   * caller's arguments, for any directory names without quotes.
   */
  lemma ExtractionPathRoundTrip(applicationDirectory: string, installationPath: string, installationPathExists: bool,
                                archive: string, executablePath: string, commandLineArgs: seq<string>)
    requires applicationDirectory != ""
    requires QuoteChar !in applicationDirectory && QuoteChar !in installationPath
    requires QuotableArgument(archive) && QuotableArgument(executablePath)
    requires |commandLineArgs| > 1 ==> QuotableArgument(Join(commandLineArgs[1..], " "))
    ensures var e := ExtractionPath(applicationDirectory, installationPath, installationPathExists);
      e.Some?
      && SplitArguments(ExtractorArguments(archive, e.value, executablePath, commandLineArgs))
         == [archive, e.value, executablePath] + CallerGroup(commandLineArgs)
  {
    var chosen := if installationPath != "" && installationPathExists then installationPath else applicationDirectory;
    var e := ExtractionPath(applicationDirectory, installationPath, installationPathExists).value;
    assert QuoteChar !in e by {
      forall i | 0 <= i < |e| ensures e[i] != QuoteChar {
        assert e[i] == chosen[i];
      }
    }
    ExtractorArgumentsRoundTrip(archive, e, executablePath, commandLineArgs);
  }

  /** The caller's own arguments, joined and passed on as one group, when there are any. */
  function CallerGroup(commandLineArgs: seq<string>): seq<string>
  {
    if |commandLineArgs| > 1 then [Join(commandLineArgs[1..], " ")] else []
  }

  /**
   * The extractor's argument string: the quoted archive, extraction
   * directory and executable, then the caller's arguments (without the
   * program name) inside one more pair of quotes.
   */
  function ExtractorArguments(archive: string, extractionPath: string, executablePath: string, commandLineArgs: seq<string>): string
  {
    Quote(archive) + " " + Quote(extractionPath) + " " + Quote(executablePath)
    + (if |commandLineArgs| > 1 then " " + Quote(Join(commandLineArgs[1..], " ")) else "")
  }

  /** The argument string is the quoted list of the extractor's arguments. */
  lemma ExtractorArgumentsAsList(archive: string, extractionPath: string, executablePath: string, commandLineArgs: seq<string>)
    ensures ExtractorArguments(archive, extractionPath, executablePath, commandLineArgs)
         == QuotedList([archive, extractionPath, executablePath] + CallerGroup(commandLineArgs))
  {
    var tail := if |commandLineArgs| > 1 then " " + Quote(Join(commandLineArgs[1..], " ")) else "";
    var rest2 := [executablePath] + CallerGroup(commandLineArgs);
    var rest1 := [extractionPath] + rest2;
    if |commandLineArgs| > 1 {
      var g := Join(commandLineArgs[1..], " ");
      QuotedListCons(executablePath, [g]);
      assert rest2 == [executablePath] + [g];
    } else {
      assert rest2 == [executablePath];
      assert Quote(executablePath) + tail == Quote(executablePath);
    }
    assert QuotedList(rest2) == Quote(executablePath) + tail;
    QuotedListCons(extractionPath, rest2);
    QuotedListCons(archive, rest1);
    assert [archive, extractionPath, executablePath] + CallerGroup(commandLineArgs) == [archive] + rest1;
  }

  /** A quoted list of more than one argument is the first quoted, a space, and the rest. */
  lemma QuotedListCons(x: string, rest: seq<string>)
    requires |rest| > 0
    ensures QuotedList([x] + rest) == Quote(x) + " " + QuotedList(rest)
  {
    assert ([x] + rest)[1..] == rest;
  }

  /**
   * The extractor reads back the archive, the extraction directory, the
   * executable and the caller's joined arguments, when none of them holds a
   * quote or ends in a backslash.
   */
  lemma ExtractorArgumentsRoundTrip(archive: string, extractionPath: string, executablePath: string, commandLineArgs: seq<string>)
    requires QuotableArgument(archive) && QuotableArgument(extractionPath) && QuotableArgument(executablePath)
    requires |commandLineArgs| > 1 ==> QuotableArgument(Join(commandLineArgs[1..], " "))
    ensures SplitArguments(ExtractorArguments(archive, extractionPath, executablePath, commandLineArgs))
         == [archive, extractionPath, executablePath] + CallerGroup(commandLineArgs)
  {
    var xs := [archive, extractionPath, executablePath] + CallerGroup(commandLineArgs);
    ExtractorArgumentsAsList(archive, extractionPath, executablePath, commandLineArgs);
    assert AllQuotable(xs) by {
      forall i | 0 <= i < |xs| ensures QuotableArgument(xs[i]) {
        if i == 3 { assert xs[3] == Join(commandLineArgs[1..], " "); }
      }
    }
    QuotedListRoundTrip(xs);
  }

  /**
   * Builds the extractor's argument string the way the handler's
   * StringBuilder does: the three quoted paths, then for every caller
   * argument after the program name an opening quote before the first, the
   * argument, and a blank or (after the last) the closing quote.
   */
  method BuildExtractorArguments(archive: string, extractionPath: string, executablePath: string, commandLineArgs: seq<string>)
    returns (s: string)
    ensures s == ExtractorArguments(archive, extractionPath, executablePath, commandLineArgs)
  {
    var header := Quote(archive) + " " + Quote(extractionPath) + " " + Quote(executablePath);
    s := header;
    var i := 1;
    while i < |commandLineArgs|
      invariant 1 <= i && (i == 1 || i <= |commandLineArgs|)
      invariant i == 1 ==> s == header
      invariant i > 1 ==> s == header + " " + [QuoteChar] + Join(commandLineArgs[1..i], " ")
                               + (if i == |commandLineArgs| then [QuoteChar] else " ")
    {
      var before := s;
      if i == 1 {
        s := s + " " + [QuoteChar];
      }
      s := s + commandLineArgs[i];
      s := s + (if i == |commandLineArgs| - 1 then [QuoteChar] else " ");
      var end := if i + 1 == |commandLineArgs| then [QuoteChar] else " ";
      if i == 1 {
        assert commandLineArgs[1..2] == [commandLineArgs[1]];
        assert s == header + " " + [QuoteChar] + Join(commandLineArgs[1..2], " ") + end;
      } else {
        assert commandLineArgs[1..i + 1] == commandLineArgs[1..i] + [commandLineArgs[i]];
        JoinSnoc(commandLineArgs[1..i], commandLineArgs[i], " ");
        assert s == header + " " + [QuoteChar] + Join(commandLineArgs[1..i + 1], " ") + end;
      }
      i := i + 1;
    }
    if |commandLineArgs| > 1 {
      assert commandLineArgs[1..i] == commandLineArgs[1..];
    }
  }

  /**
   * The process request for the downloaded file at `tempPath`, given the
   * extraction directory the .zip branch computes: the extractor helper for
   * a .zip (after writing it and its libraries next to the file), msiexec
   * for a .msi, the file itself otherwise; elevated when the settings ask
   * for it.
   */
  function RequestWith(tempPath: string, settings: Settings, machine: Machine, extractionPath: Option<string>): Result<StartInfo, Failure>
  {
    var installerArgs := InstallerArguments(settings.installerArgs, machine.executablePath);
    var verb := if settings.runUpdateAsAdmin then ElevationVerb else "";
    match Classify(tempPath)
      case ZipPackage =>
        if machine.resourceWriteFails then Failure(ResourceWriteFailed)
        else if extractionPath.None? then Failure(ExtractionPathUnavailable)
        else Success(StartInfo(Combine(DirectoryName(tempPath), ExtractorFileName),
                               ExtractorArguments(tempPath, extractionPath.value, machine.executablePath, machine.commandLineArgs),
                               verb))
      case MsiPackage => Success(StartInfo("msiexec", MsiArguments(tempPath, installerArgs), verb))
      case Installer => Success(StartInfo(tempPath, installerArgs, verb))
  }

  /** The request the handler prepares, with the extraction directory as the handler computes it. */
  function StartRequest(tempPath: string, settings: Settings, machine: Machine): Result<StartInfo, Failure>
  {
    RequestWith(tempPath, settings, machine,
                ExtractionPathAsWritten(DirectoryName(machine.executablePath), settings.installationPath, machine.installationPathExists))
  }

  /** The request with the trailing-backslash trim applied to whichever directory is chosen. */
  function CorrectedStartRequest(tempPath: string, settings: Settings, machine: Machine): Result<StartInfo, Failure>
  {
    RequestWith(tempPath, settings, machine,
                ExtractionPath(DirectoryName(machine.executablePath), settings.installationPath, machine.installationPathExists))
  }

  /** For a .zip update whose helper was written, the corrected request carries the corrected directory. */
  lemma CorrectedZipRequest(tempPath: string, settings: Settings, machine: Machine)
    requires Classify(tempPath) == ZipPackage && !machine.resourceWriteFails
    requires DirectoryName(machine.executablePath) != ""
    ensures var r := CorrectedStartRequest(tempPath, settings, machine);
      var e := ExtractionPath(DirectoryName(machine.executablePath), settings.installationPath, machine.installationPathExists);
      e.Some? && r.Success?
      && r.value.arguments == ExtractorArguments(tempPath, e.value, machine.executablePath, machine.commandLineArgs)
  {
  }

  /** Whatever is started is elevated exactly when the settings ask for it. */
  lemma StartRequestVerb(tempPath: string, settings: Settings, machine: Machine)
    ensures var r := StartRequest(tempPath, settings, machine);
      r.Success? ==> (r.value.verb == ElevationVerb <==> settings.runUpdateAsAdmin) && (r.value.verb == "" <==> !settings.runUpdateAsAdmin)
  {
    RequestVerb(tempPath, settings, machine,
                ExtractionPathAsWritten(DirectoryName(machine.executablePath), settings.installationPath, machine.installationPathExists));
    assert |ElevationVerb| == 5;
  }

  /** Every request carries the verb the settings choose. */
  lemma RequestVerb(tempPath: string, settings: Settings, machine: Machine, extractionPath: Option<string>)
    ensures var r := RequestWith(tempPath, settings, machine, extractionPath);
      r.Success? ==> r.value.verb == if settings.runUpdateAsAdmin then ElevationVerb else ""
  {
  }

  /**
   * A .zip update starts the extractor written next to it, unless writing
   * the helper fails or the application's directory is empty. The helper
   * reads back the archive, the extraction directory and the executable
   * when none of them holds a quote or ends in a backslash.
   */
  lemma ZipRequest(tempPath: string, settings: Settings, machine: Machine)
    requires Classify(tempPath) == ZipPackage
    ensures var r := StartRequest(tempPath, settings, machine);
      var directory := DirectoryName(machine.executablePath);
      var commandLineArgs := machine.commandLineArgs;
      (machine.resourceWriteFails ==> r == Failure(ResourceWriteFailed))
      && (!machine.resourceWriteFails && directory == "" ==> r == Failure(ExtractionPathUnavailable))
      && (!machine.resourceWriteFails && directory != "" ==>
            r.Success? && r.value.fileName == Combine(DirectoryName(tempPath), ExtractorFileName)
            && var e := ExtractionPathAsWritten(directory, settings.installationPath, machine.installationPathExists).value;
            (QuotableArgument(tempPath) && QuotableArgument(e) && QuotableArgument(machine.executablePath)
             && (|commandLineArgs| > 1 ==> QuotableArgument(Join(commandLineArgs[1..], " "))) ==>
               SplitArguments(r.value.arguments) == [tempPath, e, machine.executablePath] + CallerGroup(commandLineArgs)))
  {
    var directory := DirectoryName(machine.executablePath);
    if !machine.resourceWriteFails && directory != "" {
      var e := ExtractionPathAsWritten(directory, settings.installationPath, machine.installationPathExists).value;
      var commandLineArgs := machine.commandLineArgs;
      if QuotableArgument(tempPath) && QuotableArgument(e) && QuotableArgument(machine.executablePath)
         && (|commandLineArgs| > 1 ==> QuotableArgument(Join(commandLineArgs[1..], " "))) {
        ExtractorArgumentsRoundTrip(tempPath, e, machine.executablePath, commandLineArgs);
      }
    }
  }

  /**
   * A .msi package starts msiexec, which reads "/i", the package and then
   * the installer arguments, with every "%path%" already replaced.
   */
  lemma MsiRequest(tempPath: string, settings: Settings, machine: Machine)
    requires Classify(tempPath) == MsiPackage
    ensures var r := StartRequest(tempPath, settings, machine);
      r.Success? && r.value.fileName == "msiexec"
      && (QuotableArgument(tempPath) ==>
            SplitArguments(r.value.arguments)
            == ["/i", tempPath] + SplitArguments(InstallerArguments(settings.installerArgs, machine.executablePath)))
  {
    if QuotableArgument(tempPath) {
      MsiArgumentsRoundTrip(tempPath, InstallerArguments(settings.installerArgs, machine.executablePath));
    }
  }

  /** Any other file is started itself, with the installer arguments after substitution. */
  lemma InstallerRequest(tempPath: string, settings: Settings, machine: Machine)
    requires Classify(tempPath) == Installer
    ensures var r := StartRequest(tempPath, settings, machine);
      r.Success? && r.value.fileName == tempPath
      && r.value.arguments == InstallerArguments(settings.installerArgs, machine.executablePath)
      && (!Contains(settings.installerArgs, PathPlaceholder) ==> r.value.arguments == settings.installerArgs)
  {
    if !Contains(settings.installerArgs, PathPlaceholder) {
      InstallerArgumentsVerbatim(settings.installerArgs, machine.executablePath);
    }
  }

  /**
   * The handler's request and the corrected one differ only when the chosen
   * directory ends in a backslash that the handler does not trim.
   */
  lemma StartRequestsAgree(tempPath: string, settings: Settings, machine: Machine)
    requires var directory := DirectoryName(machine.executablePath);
      if settings.installationPath != "" && machine.installationPathExists
      then settings.installationPath[|settings.installationPath| - 1] != Backslash
      else |directory| < 2 || directory[|directory| - 2] != Backslash
    ensures StartRequest(tempPath, settings, machine) == CorrectedStartRequest(tempPath, settings, machine)
  {
    var directory := DirectoryName(machine.executablePath);
    if directory != "" && !(settings.installationPath != "" && machine.installationPathExists) {
      var t := TrimOneBackslash(directory);
      assert t == [] || t[|t| - 1] != Backslash;
      assert TrimBackslashes(directory) == t;
    }
  }

  /** Computes the process request, building the extractor's arguments with the StringBuilder loop. */
  method PrepareStart(tempPath: string, settings: Settings, machine: Machine) returns (r: Result<StartInfo, Failure>)
    ensures r == StartRequest(tempPath, settings, machine)
  {
    var installerArgs := InstallerArguments(settings.installerArgs, machine.executablePath);
    var verb := if settings.runUpdateAsAdmin then ElevationVerb else "";
    var kind := Classify(tempPath);
    if kind == ZipPackage {
      var extractorPath := Combine(DirectoryName(tempPath), ExtractorFileName);
      if machine.resourceWriteFails {
        return Failure(ResourceWriteFailed);
      }
      var extractionPath := ExtractionPathAsWritten(DirectoryName(machine.executablePath), settings.installationPath, machine.installationPathExists);
      if extractionPath.None? {
        return Failure(ExtractionPathUnavailable);
      }
      var arguments := BuildExtractorArguments(tempPath, extractionPath.value, machine.executablePath, machine.commandLineArgs);
      r := Success(StartInfo(extractorPath, arguments, verb));
    } else if kind == MsiPackage {
      r := Success(StartInfo("msiexec", MsiArguments(tempPath, installerArgs), verb));
    } else {
      r := Success(StartInfo(tempPath, installerArgs, verb));
    }
  }

  /** The downloaded file's bytes, None when it does not exist. */
  function Contents(disk: map<string, seq<byte>>, path: string): Option<seq<byte>>
  {
    if path in disk then Some(disk[path]) else None
  }

  /**
   * The outcome of a completed, not cancelled download: the files on disk
   * afterwards, the request Process.Start was called with, the exception
   * that was caught and reported, and whether the user declined elevation.
   */
  datatype Handling = Handling(
    disk: map<string, seq<byte>>,
    attempted: Option<StartInfo>,
    failure: Option<Failure>,
    declined: bool)

  function Aborted(failure: Failure, disk: map<string, seq<byte>>): Handling
  {
    Handling(disk, None, Some(failure), false)
  }

  /** Process.Start on the prepared request; a declined elevation prompt is not an error. */
  function Launch(info: StartInfo, start: StartOutcome, disk: map<string, seq<byte>>): Handling
  {
    match start
      case Started => Handling(disk, Some(info), None, false)
      case Win32Error(code) =>
        if code == ErrorCancelled then Handling(disk, Some(info), None, true)
        else Handling(disk, Some(info), Some(StartFailed), false)
      case StartError => Handling(disk, Some(info), Some(StartFailed), false)
  }

  /**
   * Deleting whatever is at the target path, moving the download there,
   * then preparing the process with `request` (StartRequest for the target
   * path) and starting it.
   */
  function Install(tempPath: string, machine: Machine, request: Result<StartInfo, Failure>,
                   disk: map<string, seq<byte>>, tempFile: string): Handling
  {
    var cleared := if tempPath in disk then disk - {tempPath} else disk;
    if tempFile !in cleared || machine.moveFails then Aborted(MoveFailed, cleared)
    else
      var moved := (cleared - {tempFile})[tempPath := cleared[tempFile]];
      if request.Failure? then Aborted(request.error, moved)
      else Launch(request.value, machine.start, moved)
  }

  /** The checksum verdict; a file without a published checksum is accepted. */
  function Verify(settings: Settings, machine: Machine, disk: map<string, seq<byte>>, tempFile: string): Verdict
  {
    if settings.checkSum.Some? then CompareChecksum(Contents(disk, tempFile), settings.checkSum.value, machine.hashes)
    else Verified
  }

  /** What the try block of the completion handler does. */
  function Handle(event: Completion, response: Response, settings: Settings, machine: Machine,
                  disk: map<string, seq<byte>>, tempFile: string): Handling
  {
    if event.failed then Aborted(DownloadFailed, disk)
    else
      var verdict := Verify(settings, machine, disk, tempFile);
      if verdict.Rejected? then Aborted(ChecksumMismatch(verdict.error), disk)
      else
        var fileName := ChooseFileName(response);
        if fileName.None? then Aborted(BadContentDisposition, disk)
        else
          var tempPath := Combine(DownloadDirectory(settings, machine), fileName.value);
          Install(tempPath, machine, StartRequest(tempPath, settings, machine), disk, tempFile)
  }

  /** The form's dialog result after the handler: OK unless the web client was dropped. */
  function ResultOf(h: Handling): DialogResult
  {
    if h.failure.Some? || h.declined then Cancel else OK
  }

  /** The dialog closes with OK exactly when the update's process was started. */
  lemma OkExactlyWhenStarted(event: Completion, response: Response, settings: Settings, machine: Machine,
                             disk: map<string, seq<byte>>, tempFile: string)
    ensures var h := Handle(event, response, settings, machine, disk, tempFile);
      ResultOf(h) == OK <==> h.attempted.Some? && machine.start == Started
  {
    var verdict := Verify(settings, machine, disk, tempFile);
    var fileName := ChooseFileName(response);
    if !event.failed && !verdict.Rejected? && fileName.Some? {
      var tempPath := Combine(DownloadDirectory(settings, machine), fileName.value);
      var request := StartRequest(tempPath, settings, machine);
      assert Handle(event, response, settings, machine, disk, tempFile) == Install(tempPath, machine, request, disk, tempFile);
      InstallOkExactlyWhenStarted(tempPath, machine, request, disk, tempFile);
    }
  }

  /** The moving and starting stage ends with OK exactly when the process was started. */
  lemma InstallOkExactlyWhenStarted(tempPath: string, machine: Machine, request: Result<StartInfo, Failure>,
                                    disk: map<string, seq<byte>>, tempFile: string)
    ensures var h := Install(tempPath, machine, request, disk, tempFile);
      ResultOf(h) == OK <==> h.attempted.Some? && machine.start == Started
  {
  }

  /** A download error, a failed checksum or an unparsable header leave the disk alone and start nothing. */
  lemma EarlyFailuresStartNothing(event: Completion, response: Response, settings: Settings, machine: Machine,
                                  disk: map<string, seq<byte>>, tempFile: string)
    requires event.failed
          || (settings.checkSum.Some? && CompareChecksum(Contents(disk, tempFile), settings.checkSum.value, machine.hashes) != Verified)
          || response.contentDisposition.Malformed?
    ensures var h := Handle(event, response, settings, machine, disk, tempFile);
      h.disk == disk && h.attempted.None? && ResultOf(h) == Cancel
  {
  }

  /**
   * Whenever a process is started, the downloaded bytes are now at the
   * target path, they passed the checksum when one was published, and the
   * request is the one for that path.
   */
  lemma StartedFileIsTheVerifiedDownload(event: Completion, response: Response, settings: Settings, machine: Machine,
                                         disk: map<string, seq<byte>>, tempFile: string)
    requires Handle(event, response, settings, machine, disk, tempFile).attempted.Some?
    ensures ChooseFileName(response).Some?
    ensures var tempPath := Combine(DownloadDirectory(settings, machine), ChooseFileName(response).value);
      var h := Handle(event, response, settings, machine, disk, tempFile);
      tempFile in disk && tempPath in h.disk && h.disk[tempPath] == disk[tempFile]
      && (settings.checkSum.Some? ==> CompareChecksum(Some(disk[tempFile]), settings.checkSum.value, machine.hashes) == Verified)
      && StartRequest(tempPath, settings, machine) == Success(h.attempted.value)
  {
    var fileName := ChooseFileName(response);
    var tempPath := Combine(DownloadDirectory(settings, machine), fileName.value);
    var request := StartRequest(tempPath, settings, machine);
    assert Handle(event, response, settings, machine, disk, tempFile) == Install(tempPath, machine, request, disk, tempFile);
    InstalledFileIsTheDownload(tempPath, machine, request, disk, tempFile);
  }

  /** The moving and starting stage: what is started is the download, now at the target path. */
  lemma InstalledFileIsTheDownload(tempPath: string, machine: Machine, request: Result<StartInfo, Failure>,
                                   disk: map<string, seq<byte>>, tempFile: string)
    requires Install(tempPath, machine, request, disk, tempFile).attempted.Some?
    ensures var h := Install(tempPath, machine, request, disk, tempFile);
      tempFile in disk && tempPath in h.disk && h.disk[tempPath] == disk[tempFile]
      && request == Success(h.attempted.value)
  {
  }

  /**
   * The handler of the dialog: the web client reference that the
   * completion handler drops on failure, the dialog result, the files on
   * disk, the processes it asked Windows to start and the errors it showed.
   */
  class DownloadDialog {
    var webClientAlive: bool
    var dialogResult: DialogResult
    var closed: bool
    var disk: map<string, seq<byte>>
    var started: seq<StartInfo>
    var errorsShown: seq<Failure>
    const tempFile: string
    const settings: Settings

    /** The dialog as Load leaves it: the download running into `tempFile`. */
    constructor(tempFile: string, settings: Settings, disk: map<string, seq<byte>>)
      ensures webClientAlive && dialogResult == NoResult && !closed
      ensures this.disk == disk && started == [] && errorsShown == []
      ensures this.tempFile == tempFile && this.settings == settings
    {
      this.tempFile := tempFile;
      this.settings := settings;
      this.disk := disk;
      webClientAlive := true;
      dialogResult := NoResult;
      closed := false;
      started := [];
      errorsShown := [];
    }

    /**
     * The part of the handler after the file name is known: delete what is
     * at the target path, move the download there, prepare the request and
     * start the process.
     */
    method InstallDownload(tempPath: string, machine: Machine) returns (failure: Option<Failure>, declined: bool)
      modifies this`disk, this`started
      ensures var h := Install(tempPath, machine, StartRequest(tempPath, settings, machine), old(disk), tempFile);
        disk == h.disk && failure == h.failure && declined == h.declined
        && started == old(started) + (if h.attempted.Some? then [h.attempted.value] else [])
    {
      failure, declined := None, false;
      if tempPath in disk {
        disk := disk - {tempPath};
      }
      if tempFile !in disk || machine.moveFails {
        failure := Some(MoveFailed);
        return;
      }
      disk := (disk - {tempFile})[tempPath := disk[tempFile]];
      var request := PrepareStart(tempPath, settings, machine);
      ghost var h := Install(tempPath, machine, request, old(disk), tempFile);
      if request.Failure? {
        failure := Some(request.error);
        assert h == Aborted(request.error, disk);
        return;
      }
      assert h == Launch(request.value, machine.start, disk);
      started := started + [request.value];
      match machine.start {
        case Started =>
        case Win32Error(code) =>
          if code == ErrorCancelled {
            declined := true;
          } else {
            failure := Some(StartFailed);
          }
        case StartError =>
          failure := Some(StartFailed);
      }
    }

    /**
     * WebClientOnDownloadFileCompleted. A cancelled download changes
     * nothing; otherwise the steps of Handle are carried out, a caught
     * exception is shown and drops the web client, declining elevation
     * drops it silently, and the dialog closes with OK or Cancel.
     */
    method OnDownloadFileCompleted(event: Completion, response: Response, machine: Machine)
      modifies this
      ensures event.cancelled ==>
        webClientAlive == old(webClientAlive) && dialogResult == old(dialogResult) && closed == old(closed)
        && disk == old(disk) && started == old(started) && errorsShown == old(errorsShown)
      ensures !event.cancelled ==>
        var h := Handle(event, response, settings, machine, old(disk), tempFile);
        disk == h.disk
        && started == old(started) + (if h.attempted.Some? then [h.attempted.value] else [])
        && errorsShown == old(errorsShown) + (if h.failure.Some? then [h.failure.value] else [])
        && webClientAlive == (old(webClientAlive) && h.failure.None? && !h.declined)
        && dialogResult == (if webClientAlive then OK else Cancel)
        && closed
    {
      if event.cancelled {
        return;
      }
      var failure: Option<Failure> := None;
      var declined := false;
      if event.failed {
        failure := Some(DownloadFailed);
      } else {
        var verdict := Verified;
        if settings.checkSum.Some? {
          verdict := CompareChecksum(Contents(disk, tempFile), settings.checkSum.value, machine.hashes);
        }
        if verdict.Rejected? {
          failure := Some(ChecksumMismatch(verdict.error));
        } else {
          var fileName := ChooseFileName(response);
          if fileName.None? {
            failure := Some(BadContentDisposition);
          } else {
            var tempPath := Combine(DownloadDirectory(settings, machine), fileName.value);
            failure, declined := InstallDownload(tempPath, machine);
          }
        }
      }
      if failure.Some? {
        errorsShown := errorsShown + [failure.value];
        webClientAlive := false;
      }
      if declined {
        webClientAlive := false;
      }
      dialogResult := if webClientAlive then OK else Cancel;
      closed := true;
    }
  }
}
