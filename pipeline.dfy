/**
 * The hand-off between the updater and the extractor helper: the argument
 * string DownloadUpdateDialog builds is split by the helper's C runtime,
 * prefixed with the helper's own program name, and read by FormMain_Shown
 * and RunWorkerCompleted.
 */
module Pipeline {
  import opened Basics
  import opened CommandLine
  import opened Paths
  import DownloadUpdateDialog
  import ZipExtractor

  /** The helper's Environment.GetCommandLineArgs for an argument string. */
  function HelperArgs(arguments: string): seq<string>
  {
    [DownloadUpdateDialog.ExtractorFileName] + SplitArguments(arguments)
  }

  /**
   * With the trailing-backslash trim applied to whichever directory is
   * chosen, the helper started for a .zip update passes its argument gate,
   * deletes the downloaded archive, extracts into the chosen directory and,
   * once done, relaunches the application's executable with the caller's
   * own arguments.
   */
  lemma HelperReceivesTheHandOff(tempPath: string, settings: DownloadUpdateDialog.Settings, machine: DownloadUpdateDialog.Machine)
    requires DownloadUpdateDialog.Classify(tempPath) == DownloadUpdateDialog.ZipPackage && !machine.resourceWriteFails
    requires DirectoryName(machine.executablePath) != ""
    requires QuoteChar !in DirectoryName(machine.executablePath) && QuoteChar !in settings.installationPath
    requires QuotableArgument(tempPath) && QuotableArgument(machine.executablePath)
    requires |machine.commandLineArgs| > 1 ==> QuotableArgument(Join(machine.commandLineArgs[1..], " "))
    ensures var r := DownloadUpdateDialog.CorrectedStartRequest(tempPath, settings, machine);
      var e := DownloadUpdateDialog.ExtractionPath(DirectoryName(machine.executablePath), settings.installationPath, machine.installationPathExists);
      var commandLineArgs := machine.commandLineArgs;
      r.Success? && e.Some?
      && var args := HelperArgs(r.value.arguments);
      |args| >= 4 && args[1] == tempPath && args[2] == e.value && args[3] == machine.executablePath
      && ZipExtractor.Completion(args, ZipExtractor.Completed, Started).relaunch
         == Some(ZipExtractor.Relaunch(machine.executablePath, if |commandLineArgs| > 1 then Join(commandLineArgs[1..], " ") else ""))
  {
    var exe, commandLineArgs := machine.executablePath, machine.commandLineArgs;
    var e := DownloadUpdateDialog.ExtractionPath(DirectoryName(exe), settings.installationPath, machine.installationPathExists);
    var r := DownloadUpdateDialog.CorrectedStartRequest(tempPath, settings, machine);
    assert r.Success? && e.Some?
           && r.value.arguments == DownloadUpdateDialog.ExtractorArguments(tempPath, e.value, exe, commandLineArgs) by {
      DownloadUpdateDialog.CorrectedZipRequest(tempPath, settings, machine);
    }
    assert SplitArguments(r.value.arguments) == [tempPath, e.value, exe] + DownloadUpdateDialog.CallerGroup(commandLineArgs) by {
      DownloadUpdateDialog.ExtractionPathRoundTrip(DirectoryName(exe), settings.installationPath,
                                                   machine.installationPathExists, tempPath, exe, commandLineArgs);
    }
    HandOffArguments(r.value.arguments, tempPath, e.value, exe, commandLineArgs);
  }

  /** What the helper reads from an argument string that splits as the dialog lays it out. */
  lemma HandOffArguments(arguments: string, archive: string, extractionPath: string, executablePath: string,
                         commandLineArgs: seq<string>)
    requires SplitArguments(arguments) == [archive, extractionPath, executablePath] + DownloadUpdateDialog.CallerGroup(commandLineArgs)
    ensures var args := HelperArgs(arguments);
      |args| >= 4 && args[1] == archive && args[2] == extractionPath && args[3] == executablePath
      && ZipExtractor.Completion(args, ZipExtractor.Completed, Started).relaunch
         == Some(ZipExtractor.Relaunch(executablePath, if |commandLineArgs| > 1 then Join(commandLineArgs[1..], " ") else ""))
  {
    var args := HelperArgs(arguments);
    assert args == [DownloadUpdateDialog.ExtractorFileName, archive, extractionPath, executablePath]
                   + DownloadUpdateDialog.CallerGroup(commandLineArgs);
    if |commandLineArgs| > 1 {
      assert args[4] == Join(commandLineArgs[1..], " ");
    } else {
      assert |args| == 4;
    }
  }

  /**
   * As written, an existing installation path with a trailing backslash
   * leaves the helper with fewer than four arguments when the caller had
   * none of its own, so its Shown handler does nothing: the update is
   * downloaded but never extracted and the application is not relaunched.
   */
  lemma AsWrittenHelperIgnoresTheHandOff(tempPath: string, settings: DownloadUpdateDialog.Settings,
                                         machine: DownloadUpdateDialog.Machine, installationDirectory: string)
    requires DownloadUpdateDialog.Classify(tempPath) == DownloadUpdateDialog.ZipPackage && !machine.resourceWriteFails
    requires DirectoryName(machine.executablePath) != ""
    requires settings.installationPath == installationDirectory + [Backslash] && machine.installationPathExists
    requires QuotableArgument(tempPath) && QuotableArgument(installationDirectory)
    requires PlainArgument(machine.executablePath) && machine.executablePath[|machine.executablePath| - 1] != Backslash
    requires |machine.commandLineArgs| <= 1
    ensures var r := DownloadUpdateDialog.StartRequest(tempPath, settings, machine);
      r.Success? && |HelperArgs(r.value.arguments)| < 4
  {
    DownloadUpdateDialog.AsWrittenOverrideSwallowsExecutable(DirectoryName(machine.executablePath), installationDirectory,
                                                             tempPath, machine.executablePath, machine.commandLineArgs);
  }
}
