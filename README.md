# Aura Frame Downloader: a verified model

Aura Frame Downloader copies every photo of an Aura digital frame to a local
directory. It logs in to the Aura API, lists the frame's assets, and saves each
image as `<taken_at with ':' replaced by '-'>_<id><extension>`. The images go
either straight into the download directory or into a per-year subdirectory.
A file that is already there is skipped, so running again resumes an
interrupted copy. There is a command line front end and a Qt desktop window.

This project models the logic of that program in Dafny and proves what it
promises:

- `exceptions.dfy` (module `Exceptions`) holds the error hierarchy of
  `aura/exceptions.py`. `AuraError` is its subclasses as a datatype.
  `BuiltinError` holds the two built-in errors this model represents among
  those the code lets escape (a `KeyError` from the login reply and an
  `OSError` from creating the base directory). `Result` is a value or the
  error raised.
- `pytext.dfy` (`PyText`) and `ospath.dfy` (`OsPath`) hold the Python library
  behaviour the core depends on:
  - slicing with negative and out-of-range bounds;
  - `str.replace` of one character;
  - `str.rfind`;
  - `str.strip` with the `str.isspace` character set;
  - POSIX `os.path.join` of two parts;
  - `os.path.splitext`.
- `core.dfy` (`Core`) models `aura/core.py`:
  - login (`CreateSession`) and the asset listing (`GetFrameAssets`);
  - the target name and path of each asset;
  - `download_photos_from_aura`. It is both a specification function (`Run`,
    built on `ProcessItem` and `RunLoop`) and the imperative methods
    `DownloadItem`, `DownloadLoop` and `DownloadPhotos`, each proved equal to
    its function.

  Lemmas cover the loop and the whole run: counters, progress calls,
  cancellation, what the filesystem gains, and idempotence of a re-run.
- `config.dfy` (`Config`) models the lookups of `aura/config.py` on an
  already parsed file. The file is an ordered list of sections, each a map of
  options.
- `main_window.dfy` (`MainWindowGui`) models the logic of
  `aura/gui/main_window.py`:
  - the frame dialog's cleaning and validation;
  - the window's frame list, as a class whose `frames` field the add, edit and
    remove commands update in place;
  - the checks `_start_download` makes before starting a worker;
  - the middle ellipsis for long file names.

The outside world is passed in as values:

- The HTTP replies are inputs: `LoginReply` is the status code and the two
  fields read from the JSON, and `Listing` is the `assets` value or its absence.
- The filesystem is a set of file paths and a set of directory paths. It is
  passed in and the new one is returned.
- `World` holds what the program cannot see in advance:
  - the answer of each `cancel_check` poll;
  - how each image fetch and write turns out;
  - the directories `os.makedirs` cannot create.
- Progress callbacks are appended to a trace.

The code is what is modelled, and in these points it differs from the
program's own description:

- A login reply with status 200 whose JSON lacks `result.current_user.id` or
  `.auth_token` raises a `KeyError` (`Builtin(KeyError)`), not an
  authentication error.
- The base directory is created before the loop even when the listing is
  empty, so an empty run can leave that one directory behind
  (`EmptyListingDownloadsNothing`).
- The two-second pause follows only a download, not a skip. The pauses are not
  modelled.
- Images are fetched with a plain `requests.get`, without the session's
  authentication headers. The fetch is the `Transfer` oracle here.
- An image reply is written whatever its HTTP status. A `Delivered` transfer
  stands for any reply body.

## Model

| member | source | states |
|---|---|---|
| Core.CreateSession | aura/core.py:55-62 | LoginError exactly when the status is not 200; a KeyError exactly when a 200 reply lacks the user id or token; otherwise a session carrying exactly those two values |
| Core.GetFrameAssets | aura/core.py:86-91 | NoAssetsError exactly when the reply has no "assets" key; otherwise the assets list itself, an empty one included |
| Core.CleanTimeHasNoColon | aura/core.py:165 | the clean timestamp has the timestamp's length, no ':', and every other character unchanged |
| Core.TargetNameShape | aura/core.py:165-166 | the name is the clean timestamp, '_', the id and the file name's extension, in that order, and the extension is a suffix of the file name |
| Core.CleanTimeKeepsNoSlash | aura/core.py:165-170 | a timestamp without '/' gives a clean timestamp and a year part without '/', the year being the first four characters or the whole of a shorter timestamp |
| Core.YearLayoutChangesOnlyDirectory | aura/core.py:168-177 | both layouts end with the same name; for a base not ending in '/' and a timestamp without '/', the paths are base/name and base/year/name |
| Core.CleanTimeOfClock | aura/core.py:165 | a timestamp hh:mm:ss has both colons turned into '-' and nothing else changed |
| Core.ExampleTargetName | aura/core.py:165-170 | for taken_at 2023-01-01T10:00:00Z and a.jpg: the clean time 2023-01-01T10-00-00Z, the extension .jpg and the year 2023 |
| Core.ExampleFlatPath | aura/core.py:176-177 | asset id 1 taken at 2023-01-01T10:00:00Z from a.jpg, saved flat under /out, is /out/2023-01-01T10-00-00Z_1.jpg |
| Core.ExampleYearPath | aura/core.py:168-174 | the same asset organised by year under /out is /out/2023/2023-01-01T10-00-00Z_1.jpg |
| Core.ProcessItemFacts | aura/core.py:156-207 | one asset: a missing key fails it before anything happens; progress fires once exactly when the name and year directory were obtained; skipped exactly when the file exists; downloaded exactly when a delivered image is written to a fresh path; the filesystem gains at most the year directory and the target file |
| Core.SettledItemIsSkipped | aura/core.py:183-187 | an asset whose file and year directory exist is skipped with one progress call and no change, whatever the fetch would do |
| Core.LoopGrows | aura/core.py:144-207 | the counters and trace only grow, each asset adds at most one to one counter and only after its progress call, and no file or directory is removed |
| Core.LoopProgress | aura/core.py:179-181 | progress calls carry 1-based indices in the remaining range, strictly increasing, each with total = len(assets) |
| Core.LoopCancels | aura/core.py:151-154 | the loop is cancelled exactly when some remaining poll answers true, and no asset at or after that poll is announced |
| Core.CancelledLoopMatchesPrefix | aura/core.py:148-154 | a loop cancelled at poll k ends with the filesystem and counters of an uncancelled loop over the assets before k |
| Core.FullCountSettlesAll | aura/core.py:183-198 | when every remaining asset was counted, each one's file (and year directory) exists at the end |
| Core.SettledLoopSkipsAll | aura/core.py:183-187 | with every remaining asset settled and no cancel, the loop skips them all and leaves the filesystem unchanged |
| Core.MalformedAssetIsPassedOver | aura/core.py:205-207 | an asset without one of its keys leaves counters, files and trace as they were, and the loop goes on |
| Core.FatalErrorsComeFirst | aura/core.py:127-130 | every login failure (LoginError for a non-200 status, KeyError for a 200 reply missing a field) and a listing without "assets" is returned with no filesystem change and no progress call |
| Core.CountOnlyTouchesNothing | aura/core.py:134-135 | count_only returns (0, 0, len(assets)) and touches nothing |
| Core.EmptyListingDownloadsNothing | aura/core.py:137-209 | an empty listing returns (0, 0, 0) with no progress and no file, creating at most the base directory |
| Core.RunSummaryBounds | aura/core.py:144-209 | a returned summary has total = len(assets) and downloaded + skipped at most the number of progress calls, which is at most total |
| Core.RunProgress | aura/core.py:179-181 | every progress call of a run has a strictly increasing 1-based index at most total, and total = len(assets) |
| Core.CancellationIsTheOnlyLoopError | aura/core.py:148-207 | once the loop starts, the run raises exactly when a poll answers true, always DownloadCancelledError, and no asset from that poll on is announced |
| Core.CancelAtFirstAsset | aura/core.py:148-154 | cancelling at the first poll raises with no progress call and no file written |
| Core.CancelledRunKeepsEarlierWorkOnly | aura/core.py:148-154 | a run cancelled at its first true poll k raises DownloadCancelledError and leaves the filesystem of a run over only the assets before k |
| Core.RerunSkipsEverything | aura/core.py:183-187 | after a run that downloaded or skipped every asset, a second run on the filesystem it left skips all of them and changes nothing |
| Core.DownloadItem | aura/core.py:156-207 | the imperative try block computes exactly the verdict, filesystem and progress of ProcessItem |
| Core.DownloadLoop | aura/core.py:144-207 | the imperative for loop ends exactly as RunLoop: cancelled flag, both counters, filesystem and trace |
| Core.DownloadPhotos | aura/core.py:94-209 | the imperative download_photos_from_aura returns, raises and leaves the filesystem and trace exactly as Run |
| PyText.SliceIndex | aura/core.py:170 | a Python slice bound: negative counts from the end, and the result is clamped to 0..len |
| PyText.ReplaceAt | aura/core.py:165 | replace keeps the length, swaps exactly the matching characters, and leaves none of the old character when the two differ |
| PyText.ReplaceConcat | aura/core.py:165 | replacing in a concatenation is the concatenation of the replaced parts |
| PyText.ReplaceAbsent | aura/core.py:165 | a string without the character is returned unchanged |
| PyText.RFindSpec | aura/core.py:166 | rfind gives the last index holding the character, and -1 exactly when it does not occur |
| PyText.LStripShape | aura/gui/main_window.py:93 | lstrip removes exactly the leading whitespace |
| PyText.RStripShape | aura/gui/main_window.py:93 | rstrip removes exactly the trailing whitespace |
| PyText.StripShape | aura/gui/main_window.py:93-95 | strip keeps the middle between leading and trailing whitespace, and is empty exactly for a blank string |
| PyText.StripIdempotent | aura/gui/main_window.py:91-96 | stripping twice is stripping once |
| OsPath.JoinShape | aura/core.py:170-177 | the joined path ends with the second part; an absolute second part replaces the first; otherwise it is appended with a single '/' |
| OsPath.SplitExtShape | aura/core.py:166 | root plus extension is the path, and the extension is empty or a '.' followed by neither '.' nor '/' |
| OsPath.ExtensionOfStemAndSuffix | aura/core.py:166 | a last component stem.ext, with a stem not only dots, splits at that dot |
| OsPath.HiddenNameHasNoExtension | aura/core.py:166 | a last component made of leading dots and a dot-free tail (.bashrc) has no extension |
| Config.FindSection | aura/config.py:53 | a section is found exactly when one of that name exists, and it is the first of them |
| Config.LoadConfig | aura/config.py:23-35 | the configuration is returned exactly when the file exists, parses and has a [login] section; every other case is a ConfigError |
| Config.GetLoginCredentials | aura/config.py:51-57 | the email and password of [login] exactly when the section and both keys exist, otherwise a ConfigError |
| Config.GetFrameConfig | aura/config.py:74-83 | a missing section is a ConfigError; otherwise frame_id and file_path exactly when both keys exist, else a ConfigError |
| Config.GetFrameNames | aura/config.py:96 | a name is listed exactly when it names a section and is not login; never more names than sections |
| Config.FrameNamesAppend | aura/config.py:96 | the names of two runs of sections are the names of each in order, so file order is kept |
| Config.FrameNamesOfOne | aura/config.py:96 | one section contributes its name, unless it is login |
| Config.FrameNamesCount | aura/config.py:96 | the number of names is the number of sections less the number of login sections |
| Config.LoadedConfigHasLogin | aura/config.py:32-57 | on a loaded configuration, credentials fail exactly when [login] lacks email or password |
| MainWindowGui.TruncateKeepsShortNames | aura/gui/main_window.py:405-406 | a name within the limit is shown unchanged |
| MainWindowGui.TruncateShape | aura/gui/main_window.py:408-409 | for a limit of 5 or more, a long name keeps its first and its last (limit-3)//2 characters around "...", fits the limit, and fills it exactly when the limit is odd |
| MainWindowGui.TruncateDefault | aura/gui/main_window.py:403-409 | with the default limit a long name is shown as exactly 35 characters: 16, "...", 16 |
| MainWindowGui.TruncateSmallLimitGrows | aura/gui/main_window.py:408-409 | with a limit of 3 or 4 the result is "..." before the whole name, longer than the name |
| MainWindowGui.TruncateFilenameIntended | aura/gui/main_window.py:403-409 | the tail taken by its length: a result that never exceeds a limit of 3 or more |
| MainWindowGui.TruncateAgreesFromFive | aura/gui/main_window.py:403-409 | the program's truncation and the intended one agree for every limit from 5 up |
| MainWindowGui.GetDataStrips | aura/gui/main_window.py:91-96 | each stored field is its text without surrounding whitespace, and empty exactly when the text is blank |
| MainWindowGui.Accept | aura/gui/main_window.py:98-109 | the dialog accepts exactly when all three cleaned fields are non-empty |
| MainWindowGui.AcceptWarnings | aura/gui/main_window.py:98-109 | the warning names the first blank field in the order name, frame id, path, and no warning means none is blank |
| MainWindowGui.ExecDialog | aura/gui/main_window.py:276-277 | the dialog yields a frame exactly when some press of OK passes validation, and that frame has all fields filled |
| MainWindowGui.ExecDialogFirstAccepted | aura/gui/main_window.py:98-109 | the frame is the cleaned fields of the first press that passes validation |
| MainWindowGui.UnchangedEditKeepsFrame | aura/gui/main_window.py:289-293 | pressing OK on an edit dialog left as it was filled gives back the same frame |
| MainWindowGui.MainWindow.constructor | aura/gui/main_window.py:118 | the window starts with no frames |
| MainWindowGui.MainWindow.AddFrame | aura/gui/main_window.py:273-279 | an accepted dialog appends its frame, a cancelled one changes nothing; all frames stay complete |
| MainWindowGui.MainWindow.EditFrame | aura/gui/main_window.py:281-295 | no selection gives the notice and no change; otherwise an accepted dialog replaces the selected frame only |
| MainWindowGui.MainWindow.RemoveFrame | aura/gui/main_window.py:297-316 | no selection gives the notice; a confirmed removal deletes the selected frame and keeps the others in order; a declined one changes nothing |
| MainWindowGui.MainWindow.StartDownload | aura/gui/main_window.py:327-354 | the four warnings in their order and conditions; a launch happens exactly when all checks pass and a frame has the chosen name, with the stripped credentials and the first such frame |

## Left out

- HTTP is not modelled. The request payloads, URLs and JSON parsing are left
  out, and the replies are the `LoginReply` and `Listing` inputs.
- A listing body that is not JSON is left out. `json.loads` would raise there,
  and the model starts from the parsed value.
- The image download is the `Transfer` oracle. Streaming, the 90-second timeout
  and the HTTP status of the reply are left out.
- The `time.sleep` pauses and all logging are left out. They change no result.
- A `progress_callback` or `cancel_check` that raises is left out. The callbacks
  are a trace and a poll oracle.
- Paths are plain strings. Normalisation, symbolic links and `~` expansion are
  left out. `os.makedirs` creating intermediate directories is left out too: a
  directory is either ready or in the blocked set.
- The command line front end (`download-aura-photos.py`) and `aura_gui.py` are
  left out. So are `get_default_config_path` and the Qt widgets.
- `DownloadWorker` and the worker thread are left out. `_toggle_download` and
  the signal handlers are left out too, apart from `_on_progress_updated`'s use
  of `_truncate_filename`.
- The progress-bar percentage is left out.
- `_start_download` after its checks is left out. Creating the download
  directory, saving settings and starting the worker are not modelled; the
  model ends with the `Launch` decision.
- Loading and saving the settings (`_load_settings`, `_save_settings`, JSON in
  `QSettings`) are left out. The constructor starts from an empty list.
- `_refresh_frame_list` is left out. The list widget's rows are taken to mirror
  `frames`.
- `configparser` parsing is left out. So are its case-insensitive option
  names, the `DEFAULT` section and its ban on duplicate sections. A file that
  fails to parse is `parsed == None`.
- `configparser` interpolation is left out. Option values are taken as they
  are after interpolation. A value whose interpolation fails (`pa%ss`) raises
  `InterpolationSyntaxError`, which is not a `KeyError` and so escapes
  `get_login_credentials` and `get_frame_config` instead of becoming a
  `ConfigError`; that error is not modelled.
- Transport failures of the login POST and the listing GET (`requests`
  exceptions) are left out. So is a 200 login reply that is not JSON, and an
  `"assets"` value that is not a list (a null one makes `len()` raise). Each
  escapes the run uncaught and none is represented in `BuiltinError`.
- The `Transfer` oracle is chosen independently of the filesystem. An `open()`
  that fails without creating the file, for example because an asset id holds
  a '/' and the parent directory does not exist, is one of the cases
  `FetchFailed` stands for. The model does not derive that case from the path.
- `DownloadError` is part of the error datatype. No modelled code raises it,
  and neither does the program.
- MainWindowGui.MainWindow.EditFrame: requires the selected row to be an index
  of `frames`. The list widget guarantees this, and the Python code would raise
  `IndexError` otherwise.
- MainWindowGui.MainWindow.RemoveFrame: the same requirement, for the same
  reason.
- MainWindowGui.ExecDialog: the user's input is the sequence of field contents
  at each press of OK. Typing, Browse and the Cancel button are not modelled
  one by one.

## Findings

| source | as written | input that shows it | evidently intended | confidence | as-written member | corrected member |
|---|---|---|---|---|---|---|
| aura/gui/main_window.py:408-409 | the tail is `filename[-keep_chars:]`, and with `keep_chars == 0` that is the whole name | `_truncate_filename("abcde", 4)` gives `"...abcde"`, 8 characters for a limit of 4 | a result no longer than `max_length` (the tail taken as `filename[len(filename) - keep_chars:]`) | not executed; the program only calls it with the default 35, where both agree | MainWindowGui.TruncateSmallLimitGrows | MainWindowGui.TruncateFilenameIntended |
