# AutoUpdater.NET update hand-off, modelled in Dafny

AutoUpdater.NET downloads an update for a Windows application and then
installs it. This project models the two pieces of code that do the
installing.

- **The download dialog's completion handler**
  (`DownloadUpdateDialog.WebClientOnDownloadFileCompleted` and
  `CompareChecksum`). It checks the downloaded file's checksum and renames
  the temporary file after the server's file name. Then it decides what to
  start:
  - a `.zip` update goes to the ZipExtractor helper;
  - a `.msi` package goes to msiexec;
  - any other file is started itself.

  It builds that process's command line, starts the process and closes the
  dialog with OK or Cancel.
- **The ZipExtractor helper** (`FormMain`). It reads the archive, the
  extraction directory and the application's executable from its command
  line. It kills the running application and extracts the archive entry by
  entry. A file locked by another process is retried: first with a
  five-second pause, later by naming the locking processes and asking the
  user to Retry or Cancel. After the loop it deletes the archive and
  relaunches the application.

## Modules

- `Basics`: shared helpers. Option and Result types, `String.Join`, ASCII
  case mapping, `String.Replace`, and the elevation-declined code 1223.
- `Paths`: the parts of `System.IO.Path` the core uses. These are
  `Combine`, `GetFileName`, `GetExtension` and `GetDirectoryName`.
- `CommandLine`: how a quoted argument string is written, and how the
  started process's C runtime splits it back into an argument array. The
  split follows the backslash and quote rules.
- `Checksum`: `CompareChecksum`. The digest itself is an abstract hash
  library.
- `DownloadUpdateDialog`:
  - the decisions and strings of the completion handler, as functions;
  - the StringBuilder loop as a method proved equal to its function;
  - the dialog as a class whose handler updates the disk, the started
    processes, the shown errors, the web client reference and the dialog
    result.
- `ZipExtractor`:
  - the worker as functions over a `Host` value, which answers for the
    operating system, the archive library and the user;
  - the `FormMain` class, whose methods carry out the same steps with
    loops and are proved equal to those functions.
- `ExtractionProperties`: what the worker promises, proved about those
  functions. This covers the retry policy, the order of attempts, the
  progress reports, the files on disk, the cleanup and the relaunch.
- `Pipeline`: the hand-off from one piece to the other. The helper reads
  back exactly what the dialog meant to pass.

The handler's request (`StartRequest`, used by `PrepareStart`,
`InstallDownload` and `OnDownloadFileCompleted`) follows the code as
written, including the trailing-backslash defect listed under Findings.
`CorrectedStartRequest` applies the trim to whichever directory is
chosen (`ExtractionPath`). `Pipeline.HelperReceivesTheHandOff` is proved
about that corrected request.

Two behaviours follow the code rather than the comments around it:

- **Traversal.** The comment at `ZipExtractor/FormMain.cs:78-81` says
  appending the separator keeps a malicious archive inside the extraction
  directory. The code only appends the separator, and `Path.Combine`
  accepts rooted and `..` entry names unchanged. The model therefore
  claims only what the code does:
  - `NormaliseRoot` guarantees the trailing separator;
  - `EntryPath` is plain `Combine`, with no containment check.
- **Cleanup.** The archive is deleted in the `finally` block whatever the
  loop's outcome. But the archive is opened before that `try`, so an
  archive that cannot be opened is not deleted (`WorkCleansUp`).

## Model

| member | source | states |
|---|---|---|
| Checksum.AlgorithmName | AutoUpdater.NET/DownloadUpdateDialog.cs:245-247 | The algorithm asked for is never empty: the configured name when one is set, and MD5 when the setting is empty. |
| Checksum.CompareChecksum | AutoUpdater.NET/DownloadUpdateDialog.cs:243-264 | The file is accepted exactly when it exists, the algorithm is supported, and the lower-case hex of its digest equals the expected value lower-cased. A missing file and an unsupported algorithm are each reported exactly in their own case. |
| Checksum.FileChecksumIsLowerHex | AutoUpdater.NET/DownloadUpdateDialog.cs:254 | BitConverter's dashed upper-case rendering, with the dashes removed and lower-cased, is plain lower-case hex of the digest. |
| Checksum.ReplaceDashDistributes | AutoUpdater.NET/DownloadUpdateDialog.cs:254 | Removing dashes from a concatenation removes them from each part. |
| Checksum.LowerHexRoundTrip | AutoUpdater.NET/DownloadUpdateDialog.cs:254 | Parsing the rendering of a digest gives the digest back. |
| Checksum.LowerHexInjective | AutoUpdater.NET/DownloadUpdateDialog.cs:254-256 | Distinct digests never compare equal. |
| Checksum.AcceptsUpperCaseDigest | AutoUpdater.NET/DownloadUpdateDialog.cs:256 | The comparison ignores case: the true digest published in upper case is accepted. |
| Checksum.DetectsTampering | AutoUpdater.NET/DownloadUpdateDialog.cs:256-258 | A file whose digest differs from the published one is rejected as an integrity failure. |
| Paths.Combine | AutoUpdater.NET/DownloadUpdateDialog.cs:114-117 | An empty second part gives the first. A rooted second part, or an empty first part, gives the second. Otherwise the two parts are joined by one directory separator, which is left out when the first part already ends with a separator. |
| Paths.CombineSplits | AutoUpdater.NET/DownloadUpdateDialog.cs:114-117 | A directory not ending in a separator, and not a bare `\\server` name, combined with a plain file name, gives that directory back as the directory name and the name back as the file name. |
| Paths.FileName | AutoUpdater.NET/DownloadUpdateDialog.cs:111 | The result is a suffix of the path without separators, and a separator precedes it when it is not the whole path. |
| Paths.Extension | AutoUpdater.NET/DownloadUpdateDialog.cs:140 | The result is empty, or it is a suffix starting with its only dot, followed by at least one character and no separator. |
| Paths.ExtensionOfSuffix | AutoUpdater.NET/DownloadUpdateDialog.cs:140 | A final dot followed by ordinary characters is the extension, whatever precedes it. |
| Paths.DirectoryName | AutoUpdater.NET/DownloadUpdateDialog.cs:143 | The directory is a prefix of the path. A path no longer than its root (`C:\`, `\`, `C:`, `\\server\share`) has no directory. Otherwise the directory is everything before the last `\` or `/` that follows the root, or the root itself (`C:` for `C:foo`, `C:\` for `C:\foo`) when none follows it. |
| Paths.DriveRelativeDirectory | AutoUpdater.NET/DownloadUpdateDialog.cs:143 | A drive-relative file name such as `C:x.zip` has the drive `C:` as its directory. |
| CommandLine.QuotedListRoundTrip | AutoUpdater.NET/DownloadUpdateDialog.cs:165-166 | Arguments written each in quotes, separated by spaces, are split back into the same arguments when none holds a quote or ends in a backslash. |
| CommandLine.JoinedRoundTrip | AutoUpdater.NET/DownloadUpdateDialog.cs:168-177 | Bare arguments joined by single spaces split back into themselves. |
| CommandLine.SplitAfter | AutoUpdater.NET/DownloadUpdateDialog.cs:190-195 | How the rest of a command line is split does not depend on the arguments already read. |
| CommandLine.SplitSwallowsAfterEscapedQuote | AutoUpdater.NET/DownloadUpdateDialog.cs:166 | A quoted argument ending in a backslash escapes its closing quote. The next argument is then swallowed into it. |
| DownloadUpdateDialog.ChooseFileName | AutoUpdater.NET/DownloadUpdateDialog.cs:104-112 | A malformed header is the only failure. A non-empty header file name is used as is. With no header, or an empty file name in it, the name is the file name of the response path, which holds no separator. |
| DownloadUpdateDialog.ZipNamesGoToExtractor | AutoUpdater.NET/DownloadUpdateDialog.cs:140-142 | A name ending in `.zip`, in any case, is handed to the extractor. |
| DownloadUpdateDialog.MsiNamesGoToMsiexec | AutoUpdater.NET/DownloadUpdateDialog.cs:185 | A name ending in `.msi`, in any case, is handed to msiexec. |
| DownloadUpdateDialog.InstallerArgumentsVerbatim | AutoUpdater.NET/DownloadUpdateDialog.cs:126-131 | Installer arguments without `%path%` are passed on unchanged. |
| DownloadUpdateDialog.InstallerArgumentsSubstitute | AutoUpdater.NET/DownloadUpdateDialog.cs:129-130 | Every `%path%` in the installer arguments is replaced by the application's directory, and the text between the placeholders is kept unchanged, other `%` text included. This holds whenever that text holds no `%path%` itself and no piece but the last ends with `%path`, which would complete a match with the next placeholder's start. |
| Basics.ReplaceJoin | AutoUpdater.NET/DownloadUpdateDialog.cs:129-130 | `String.Replace` turns parts joined by the pattern into the same parts joined by the replacement, when no match starts inside a part and the last part holds none. |
| DownloadUpdateDialog.MsiArgumentsRoundTrip | AutoUpdater.NET/DownloadUpdateDialog.cs:187-195 | msiexec reads `/i`, the package path, and then the installer arguments' own split. |
| DownloadUpdateDialog.TrimOneBackslash | AutoUpdater.NET/DownloadUpdateDialog.cs:155-157 | Exactly one trailing backslash is removed when present. Otherwise the path is unchanged. |
| DownloadUpdateDialog.TrimBackslashes | AutoUpdater.NET/DownloadUpdateDialog.cs:155-157 | For the corrected handler: the result is a prefix without a trailing backslash, and only backslashes were removed. |
| DownloadUpdateDialog.ExtractionPathAsWritten | AutoUpdater.NET/DownloadUpdateDialog.cs:153-163 | The path fails exactly when the application directory is empty. An existing installation path is used untrimmed. Otherwise the directory is used with one backslash trimmed. |
| DownloadUpdateDialog.ExtractionPath | AutoUpdater.NET/DownloadUpdateDialog.cs:153-163 | The same choice of directory, except that the chosen path is always returned without trailing backslashes. |
| DownloadUpdateDialog.AsWrittenOverrideSwallowsExecutable | AutoUpdater.NET/DownloadUpdateDialog.cs:159-166 | An existing installation path ending in a backslash makes the helper read two arguments where three were meant. |
| DownloadUpdateDialog.ExtractionPathRoundTrip | AutoUpdater.NET/DownloadUpdateDialog.cs:153-177 | With the trim applied to the chosen path, the helper reads the archive, the extraction directory, the executable and the caller's joined arguments back exactly. |
| DownloadUpdateDialog.ExtractorArgumentsAsList | AutoUpdater.NET/DownloadUpdateDialog.cs:165-177 | The extractor's argument string is the quoted list of its four parts. |
| DownloadUpdateDialog.ExtractorArgumentsRoundTrip | AutoUpdater.NET/DownloadUpdateDialog.cs:165-177 | Splitting the extractor's argument string gives back the parts it was built from. |
| DownloadUpdateDialog.BuildExtractorArguments | AutoUpdater.NET/DownloadUpdateDialog.cs:165-177 | The StringBuilder loop produces the three quoted paths, then the caller's arguments after the program name joined by spaces inside one pair of quotes. |
| DownloadUpdateDialog.PrepareStart | AutoUpdater.NET/DownloadUpdateDialog.cs:126-201 | The method returns the handler's request, `StartRequest`, whose cases are stated by `ZipRequest`, `MsiRequest`, `InstallerRequest` and `StartRequestVerb`. |
| DownloadUpdateDialog.ZipRequest | AutoUpdater.NET/DownloadUpdateDialog.cs:140-177 | A `.zip` update fails when the helper's resources cannot be written, and fails when the application's directory is empty. Otherwise it starts the extractor written next to the download. The extractor then reads back the archive, the extraction directory as the code chooses it, the executable and the caller's arguments, when none of them holds a quote or ends in a backslash. |
| DownloadUpdateDialog.MsiRequest | AutoUpdater.NET/DownloadUpdateDialog.cs:185-196 | A `.msi` package starts msiexec. msiexec reads `/i`, the package path, and then the installer arguments with every `%path%` replaced. |
| DownloadUpdateDialog.InstallerRequest | AutoUpdater.NET/DownloadUpdateDialog.cs:126-138 | Any other file is started itself, with the substituted installer arguments. Arguments without `%path%` are passed unchanged. |
| DownloadUpdateDialog.StartRequestVerb | AutoUpdater.NET/DownloadUpdateDialog.cs:198-201 | A request uses the `runas` verb exactly when running as administrator is configured, and no verb otherwise. |
| DownloadUpdateDialog.StartRequestsAgree | AutoUpdater.NET/DownloadUpdateDialog.cs:153-163 | The handler's request equals the corrected one whenever the chosen directory does not end in a backslash that the code leaves untrimmed. |
| DownloadUpdateDialog.CorrectedZipRequest | AutoUpdater.NET/DownloadUpdateDialog.cs:140-177 | For the corrected handler: a `.zip` update whose helper was written, with a non-empty application directory, starts the extractor with the corrected extraction directory. |
| DownloadUpdateDialog.OkExactlyWhenStarted | AutoUpdater.NET/DownloadUpdateDialog.cs:92-229 | For every completed download, the dialog closes with OK exactly when a process was started successfully. |
| DownloadUpdateDialog.InstallOkExactlyWhenStarted | AutoUpdater.NET/DownloadUpdateDialog.cs:119-229 | The move-and-start stage ends with OK exactly when Process.Start succeeded. |
| DownloadUpdateDialog.EarlyFailuresStartNothing | AutoUpdater.NET/DownloadUpdateDialog.cs:94-112 | A download error, a failed checksum or a malformed header starts nothing, leaves the disk alone and closes with Cancel. |
| DownloadUpdateDialog.StartedFileIsTheVerifiedDownload | AutoUpdater.NET/DownloadUpdateDialog.cs:99-205 | Whatever is started is the request for the target path. The downloaded bytes are at that path, and they passed the checksum when one was published. |
| DownloadUpdateDialog.InstalledFileIsTheDownload | AutoUpdater.NET/DownloadUpdateDialog.cs:119-205 | When a process is started, the target path holds the downloaded bytes and the request is the prepared one. |
| DownloadUpdateDialog.DownloadDialog.constructor | AutoUpdater.NET/DownloadUpdateDialog.cs:37-61 | The dialog starts with the web client alive, no result and nothing started or shown. |
| DownloadUpdateDialog.DownloadDialog.InstallDownload | AutoUpdater.NET/DownloadUpdateDialog.cs:119-217 | The disk, the started processes, the failure and the declined flag are those of the move-and-start stage. |
| DownloadUpdateDialog.DownloadDialog.OnDownloadFileCompleted | AutoUpdater.NET/DownloadUpdateDialog.cs:85-230 | A cancelled download changes nothing. Otherwise the handler's steps are carried out. A caught failure is shown once and drops the web client, and a declined elevation drops it silently. The dialog closes with OK exactly when the web client is still alive. |
| ZipExtractor.LowWord | ZipExtractor/FormMain.cs:126 | The error code lies in 0..0xFFFF and differs from the HRESULT by a multiple of 0x10000: it is the HRESULT's low 16 bits. |
| ZipExtractor.NormaliseRoot | ZipExtractor/FormMain.cs:76-83 | The root ends with the separator. It is the path itself when the path already does, and otherwise the path plus one separator. |
| ZipExtractor.NormaliseRootIdempotent | ZipExtractor/FormMain.cs:82-83 | Normalising twice is normalising once. |
| ZipExtractor.FormMain.constructor | ZipExtractor/FormMain.cs:22-25 | The form starts with its arguments and files, an empty event log, and nothing started, relaunched, shown or exited. |
| ZipExtractor.FormMain.Shown | ZipExtractor/FormMain.cs:27-53 | With fewer than four arguments nothing happens. Otherwise the worker runs, its completion handler follows, and the application exits. |
| ZipExtractor.FormMain.DoWork | ZipExtractor/FormMain.cs:53-185 | The files and events afterwards, and the outcome, are those of the worker function. |
| ZipExtractor.FormMain.TerminateApplication | ZipExtractor/FormMain.cs:55-72 | The events are a report and a kill for each process whose main module is the application. |
| ZipExtractor.FormMain.ExtractAll | ZipExtractor/FormMain.cs:96-178 | The entry loop's files, events and outcome are those of the run function. |
| ZipExtractor.FormMain.ExtractEntry | ZipExtractor/FormMain.cs:107-173 | The retry loop's files, events and fault are those of the entry function. |
| ZipExtractor.FormMain.AskLockers | ZipExtractor/FormMain.cs:154-165 | The events and the cancel flag are those of the prompts function. `ExtractionProperties.PromptsShown` states what that function shows. |
| ZipExtractor.FormMain.RunWorkerCompleted | ZipExtractor/FormMain.cs:195-241 | The relaunch and error dialogs are those of the completion function, and the application exits. |
| ExtractionProperties.TryOnceAppends | ZipExtractor/FormMain.cs:111-121 | One pass of the try block appends exactly one attempt of that entry at that retry, and no progress or prompt. |
| ExtractionProperties.BackoffAppends | ZipExtractor/FormMain.cs:135-166 | The backoff only appends events, and none of them is an attempt or a progress report. |
| ExtractionProperties.BackoffShape | ZipExtractor/FormMain.cs:135-166 | When no locking process is named, the backoff is exactly one 5000 ms pause and never cancels. This covers Windows before Vista, the first lock failure and a failed diagnosis. Otherwise it is the prompts up to the first Cancel, with no pause. |
| ExtractionProperties.PromptsShown | ZipExtractor/FormMain.cs:154-165 | One prompt is shown per locking process, in order, naming that process and the file. Every prompt before the last was answered Retry. The prompts stop at the first Cancel, which is reported, or after the last process. |
| ExtractionProperties.BackoffWithoutCancel | ZipExtractor/FormMain.cs:135-166 | When the user never answers Cancel, or is never asked, the backoff does not cancel. |
| ExtractionProperties.CancelEndsEntry | ZipExtractor/FormMain.cs:154-171 | When a named locking process is answered Cancel, the entry ends with the lock fault rethrown. No further attempt is made, the files stay as the failed try left them, and the last event is the cancelled prompt. |
| ExtractionProperties.EntryStaysOnEntry | ZipExtractor/FormMain.cs:107-173 | Extracting an entry only appends events, every attempt is of that entry, and no progress is reported. |
| ExtractionProperties.EntryRetries | ZipExtractor/FormMain.cs:107-133 | An entry's attempts start at the current retry, are numbered within MaxRetries, and strictly increase: at most three tries. |
| ExtractionProperties.NoPromptsBeforeVista | ZipExtractor/FormMain.cs:135-151 | Before Windows Vista the user is never prompted. |
| ExtractionProperties.EntryFiles | ZipExtractor/FormMain.cs:115-120 | Only the entry's own file changes on disk. When the entry succeeds, the file is present. |
| ExtractionProperties.NoRetryAfterOtherFault | ZipExtractor/FormMain.cs:168-171 | A fault that is not a sharing or lock violation ends the entry at once. |
| ExtractionProperties.PersistentLockGivesUp | ZipExtractor/FormMain.cs:129-166 | When the user never answers Cancel, a file locked on every try is attempted at each retry up to MaxRetries and then fails with the lock fault. |
| ExtractionProperties.LockReleasedInTimeSucceeds | ZipExtractor/FormMain.cs:129-166 | When the user never answers Cancel, a lock released before the retries run out lets the entry succeed. |
| ExtractionProperties.RunAttemptOrder | ZipExtractor/FormMain.cs:97-178 | Attempts are in ascending entry order, and only entries up to where the loop stopped are attempted. |
| ExtractionProperties.RunFiles | ZipExtractor/FormMain.cs:97-178 | A completed loop adds exactly every entry's path to the disk. |
| ExtractionProperties.PercentBounds | ZipExtractor/FormMain.cs:174 | The percentage is monotone in the entries done, lies in 0..100, and is 100 when all are done. |
| ExtractionProperties.RunProgress | ZipExtractor/FormMain.cs:96-175 | Reported percentages never decrease and stay within 0..100. |
| ExtractionProperties.RunEndsAtHundred | ZipExtractor/FormMain.cs:174-175 | A completed loop over a non-empty archive whose count equals its number of entries ends by reporting 100 for the last entry. |
| ExtractionProperties.TerminationsReportWaiting | ZipExtractor/FormMain.cs:55-72 | The kill loop reports only 0 percent and attempts no entry. |
| ExtractionProperties.TerminationsKillTheApplication | ZipExtractor/FormMain.cs:55-72 | Only processes whose main module is the application are killed, and every killable one is. |
| ExtractionProperties.WorkCleansUp | ZipExtractor/FormMain.cs:89-184 | When the archive opened, the worker ends by disposing it and deleting it. When it did not, the worker faults with the disk unchanged. |
| ExtractionProperties.WorkCompletedExtractsAll | ZipExtractor/FormMain.cs:76-184 | A completed worker leaves every entry extracted under the normalised root and the archive gone. |
| ExtractionProperties.WorkLog | ZipExtractor/FormMain.cs:53-185 | The worker's events are the kill loop's, then the entry loop's, then the cleanup. |
| ExtractionProperties.WorkCancelled | ZipExtractor/FormMain.cs:97-103 | A cancelled worker stopped at the first entry where cancellation was pending, and attempted only earlier entries. |
| ExtractionProperties.WorkAttemptOrder | ZipExtractor/FormMain.cs:53-185 | The worker's attempts are in ascending entry order. |
| ExtractionProperties.WorkProgress | ZipExtractor/FormMain.cs:53-185 | For any archive whose count equals its number of entries, the empty archive included, the worker's percentages never decrease and stay within 0..100. |
| ExtractionProperties.WorkReportsHundred | ZipExtractor/FormMain.cs:174-184 | A completed worker over a non-empty archive whose count equals its number of entries reports 100 for the last entry just before the cleanup. |
| ExtractionProperties.RelaunchOnlyAfterCompletion | ZipExtractor/FormMain.cs:204-215 | The application is relaunched exactly when the worker completed, with args[3] and args[4] (if given). |
| ExtractionProperties.ErrorShownExactlyOnFailure | ZipExtractor/FormMain.cs:197-235 | An error is shown exactly when the worker faulted, or when the relaunch failed for any reason other than a declined elevation. |
| Pipeline.HelperReceivesTheHandOff | ZipExtractor/FormMain.cs:42-44 | For the corrected handler: the helper passes its argument gate and reads the archive, the extraction directory and the executable. Once done, it relaunches the executable with the caller's arguments. |
| Pipeline.AsWrittenHelperIgnoresTheHandOff | ZipExtractor/FormMain.cs:42 | The handler as written, given an existing installation path with a trailing backslash and no caller arguments, leaves the helper fewer than four arguments, so the helper does nothing. |

## Left out

- The download itself, its progress display (`OnDownloadProgressChanged`, `BytesToString`) and the dialog's `FormClosing` handler are not modelled. The completion handler receives the download's outcome as an event value.
- How `_tempFile` is chosen in `DownloadUpdateDialogLoad` (`GetTempFileName` or a GUID name) is not modelled. The temporary file is a constructor parameter.
- Hashing is an abstract library: `HashAlgorithm.Create` answers whether a name is supported, and `ComputeHash` is an uninterpreted function of the bytes.
- Parsing of the Content-Disposition header is abstracted: the header is absent, malformed, or a file name.
- Writing the helper and its three libraries from resources is one flag saying whether any of the writes fails. The written files are not tracked on the modelled disk.
- `File.Delete` and `File.Move` failures other than a missing download are one `moveFails` flag. Deleting the archive in the helper's `finally` block is assumed to succeed.
- The machine's answers are parameters of a `Machine` value: `Process.GetCurrentProcess().MainModule`, `Environment.GetCommandLineArgs`, `Directory.Exists` and `Process.Start`.
- `Process.GetProcessesByName` is not modelled: the helper receives the processes with the application's name. `WaitForExit` is not modelled.
- The helper's `_logBuilder` text, `ProgressChanged` UI updates, the log file, `SetLibraryPath` and `PreserveDirectoryStructure` are not modelled. Progress reports are events in the log.
- Cancellation (`FormClosing` calling `CancelAsync`) is not modelled as a separate thread: it is an oracle saying, for each entry, whether cancellation is pending.
- `WhoIsLocking`, the Retry/Cancel prompts and `Thread.Sleep` are oracles or events. No time passes in the model.
- Case mapping (`ToLower`, `OrdinalIgnoreCase`) is modelled on ASCII only.
- Path handling covers separators, drive roots and UNC roots. Invalid characters and long-path prefixes are not checked.
- Paths.DirectoryName: a path no longer than its root gives null in .NET, modelled as the empty string. The handler treats the two alike where it uses the result: `String.Replace` takes a null replacement as empty, and the trailing-backslash test at DownloadUpdateDialog.cs:155 throws on both. The exception is `Path.Combine(null, …)` at line 143, which throws where the model combines with the empty string. That needs a `.zip` download whose path is only a root.
- Paths.DirectoryName: does not model the normalisation .NET applies first. .NET turns `/` into `\` and collapses runs of separators, so its result can differ from the model's in the separators it contains.
- CommandLine: the split follows the MS C runtime's quote and backslash rules. It does not model the doubled-quote rule inside quotes, which no argument built here produces.
- ZipExtractor.Percent: does not model the 32-bit overflow of `(index + 1) * 100`, which needs more than 21 million entries.
- ExtractionProperties.RunProgress: assumes `FilesCount` equals the number of archive entries. With a larger `FilesCount` the percentages are still ascending but may end below 100. With `FilesCount` zero and at least one entry, the worker faults with a division by zero after extracting the first entry. An empty archive never reaches the division.
- ExtractionProperties.RunEndsAtHundred: assumes `FilesCount` equals the number of archive entries, for the same reason as `RunProgress`.
- ExtractionProperties.WorkProgress: assumes `FilesCount` equals the number of archive entries, for the same reason as `RunProgress`.
- ExtractionProperties.WorkReportsHundred: assumes `FilesCount` equals the number of archive entries, for the same reason as `RunProgress`.

## Findings

| source | as written | input that shows it | evidently intended | confidence | as-written member | corrected member |
|---|---|---|---|---|---|---|
| AutoUpdater.NET/DownloadUpdateDialog.cs:155-163 | The trailing backslash is trimmed from the application's directory before `AutoUpdater.InstallationPath` may replace it, so an installation path is passed on untrimmed. | `InstallationPath = C:\App\` (existing), and the application started without arguments. The argument string ends `"C:\App\" "C:\App\app.exe"`, and the helper reads two arguments. `Pipeline.AsWrittenHelperIgnoresTheHandOff` shows that the helper then does nothing. | Trim whichever directory is chosen, as the comment on line 155 explains a trailing backslash breaks the quoting. | not executed | DownloadUpdateDialog.AsWrittenOverrideSwallowsExecutable | DownloadUpdateDialog.ExtractionPathRoundTrip |
