# TikTok Live recorder: a Dafny model of its recording core

The recorder watches TikTok handles. For each live one it finds a stream URL and records it
with ffmpeg or yt-dlp into a file whose name cannot overwrite an earlier recording. When the
recording ends, it converts the raw `.flv` into an `.mp4` through a ladder of three ffmpeg
attempts, updates the statistics and reports the result. This project models that core and
proves properties of it. The GUI, the network and the external programs are not modelled.

Modules, one `.dfy` file each:

- `Optional`: the `Option` datatype.
- `Text`: the `str` operations the code relies on. These are `strip`, `lstrip`, `lower`,
  `replace`, `in` and slicing, the forbidden-character filter, and `{n:0Wd}` formatting with
  its read-back.
- `Paths`: `posixpath.splitext`, `dirname`, `basename` and `join`.
- `Durations`: `int()` on floats, and the `HH:MM:SS` text of `get_duration` with its read-back.
- `StreamUrls`: `_extract_stream_url`. The insertion-ordered URL dictionary is a sequence of
  pairs, filled by loops over the four schema locations. The URL is chosen by the
  `QUALITY_MAP` preference list.
- `Resolver`: `TikTokAPI.get_live_info` over its two strategies. It covers handle
  normalisation, the yt-dlp format choice, the classification of yt-dlp errors, the
  web-scrape outcomes and the error precedence.
- `Filenames`: `_generate_filename`. It covers placeholder substitution, sanitising and the
  millisecond suffix. It also covers probing for a free name: a `while` loop proved against a
  recursive reference definition.
- `Finalizer`: value-level definitions of `_find_actual_file`, the `_convert_to_mp4` ladder,
  `_cleanup_flv` and `get_file_size`, with their properties.
- `Recording`: the `Recorder` class, with fields updated in place by `start`, `stop`,
  `_complete`, `_complete_after_stop`, `_convert_to_mp4` and `_finalize_recording`. The output
  directory is a `Disk` object holding a map from path to size. The statistics are fields of a
  `Config` object.
- `Registry`: `MultiRecorder`, a map from handle to recorder plus the dictionary's key order.
- `Lists`: `History.add` and the `Watchlist` operations.

External effects are parameters:

- The clocks: `now: DateTime` and the epoch seconds `epoch: real`.
- The outcome of `_find_ffmpeg`: `ffmpegFound`.
- Each process launch after its grace period: `Launch`.
- Each ffmpeg conversion run: the oracle `Ffmpeg`, which returns a return code and the size
  of the output, or raises.
- `os.listdir`: `listdir`.
- The yt-dlp `info` dictionary and the page's parsed JSON: given as datatypes.

## Model

| member | source | states |
|---|---|---|
| Text.StripForbidden | tiktok_recorder.py:805 | the result has none of `<>:"/\|?*`; strings without them are left unchanged |
| Text.StripForbiddenChar | tiktok_recorder.py:805 | one character is dropped exactly when it is one of `<>:"/\|?*`, and kept otherwise |
| Text.StripForbiddenConcat | tiktok_recorder.py:805 | the filter distributes over concatenation, so the kept characters stay in their order |
| Text.ReplaceWhole | tiktok_recorder.py:798-802 | `str.replace` turns the pattern alone into the replacement |
| Text.ReplaceAbsent | tiktok_recorder.py:798-802 | `str.replace` leaves a string without the pattern unchanged |
| Text.FormatIntRoundTrip | tiktok_recorder.py:809 | `{n:0Wd}` loses nothing: the numeral reads back as `n` |
| Text.FixedWidth | tiktok_recorder.py:809 | a number below 10^w is printed in exactly `w` digits that read back as the number |
| Durations.Trunc | tiktok_recorder.py:1321 | `int(x)` truncates toward zero: the result is the integer part on both sides of zero |
| Durations.FormatHMSRoundTrip | tiktok_recorder.py:1321-1324 | the `divmod`-based `HH:MM:SS` text reads back as the elapsed seconds, negative ones included |
| Durations.FormatHMSWidth | tiktok_recorder.py:1322-1324 | below 100 hours the text is exactly 8 characters |
| StreamUrls.Preferences | tiktok_recorder.py:477-482 | every quality has a non-empty list of non-empty preferences; an unknown quality uses `['origin']` |
| StreamUrls.PutKeys | tiktok_recorder.py:713 | assigning a key keeps the position of a present key and appends a new one |
| StreamUrls.PutToMap | tiktok_recorder.py:713 | as a mapping, the ordered dictionary after an assignment is the old mapping updated at that key |
| StreamUrls.PutAllSpec | tiktok_recorder.py:701-736 | the dictionary built by a run of assignments has distinct keys, maps each key to its last value, and orders the keys by first assignment |
| StreamUrls.PreferredOrUnique | tiktok_recorder.py:743-749 | the selection rule determines at most one answer |
| StreamUrls.SelectUrl | tiktok_recorder.py:742-749 | returns the URL of the first key (dictionary order) that contains the first matching preference case-insensitively and has a non-empty URL; with no match it returns the first value; None only for an empty dictionary |
| StreamUrls.CollectData | tiktok_recorder.py:710-715 | the loop over `data` writes `key := flv`, or `key_hls := hls`, in order |
| StreamUrls.CollectQualities | tiktok_recorder.py:721-724 | the loop over `qualities` writes `sdk_key := url` for every non-empty URL, in order |
| StreamUrls.CollectPull | tiktok_recorder.py:704-724 | the `pull_data` part of the dictionary is the `data` writes, then the `qualities` writes |
| StreamUrls.PutEach | tiktok_recorder.py:729 | `dict.update` performs the pairs' assignments in order |
| StreamUrls.ExtractStreamUrl | tiktok_recorder.py:696-749 | the result is the selection over the dictionary the four schema locations build; None exactly when none of them contributes an entry |
| Resolver.Normalise | tiktok_recorder.py:497 | the normalised handle is no longer than the input, does not start with `@` and has no upper-case letter |
| Resolver.AtSignIgnored | tiktok_recorder.py:497 | a leading `@` does not change the normalised handle |
| Resolver.CanonicalStable | tiktok_recorder.py:497 | a handle already in lower case, without `@` in front and without outer space normalises to itself |
| Resolver.CategoryOf | tiktok_recorder.py:587-596 | the ordered substring tests: each category holds exactly when its words occur and the words of every earlier test do not; "other" exactly when none of the words occurs |
| Resolver.DownloadErrorMessage | tiktok_recorder.py:586-596 | the reported text is never empty; it starts with "yt-dlp: " exactly for an unclassified message, and then echoes its first 60 characters |
| Resolver.DownloadErrorRoundTrip | tiktok_recorder.py:586-596 | the five kinds of yt-dlp failure give distinguishable messages |
| Resolver.CategoryIgnoresCase | tiktok_recorder.py:586-596 | two messages that differ only in letter case get the same category and the same text, except for the 60-character echo of an unclassified one |
| Resolver.LowerKeepsCategory | tiktok_recorder.py:586 | a message and its lower-cased form fall in the same category |
| Resolver.PickFormatUrl | tiktok_recorder.py:563-583 | the same first-match rule as the stream selection, over the formats: by preference, then by format order, with a non-empty URL; else the first non-empty URL |
| Resolver.TryYtdlp | tiktok_recorder.py:533-600 | success exactly when `extract_info` returns a non-empty `info`, with its title, viewer count and thumbnail defaults; each exception gives its message |
| Resolver.SigiTitle | tiktok_recorder.py:649 | the room title when non-empty, else the nickname, else "TikTok Live" |
| Resolver.TryWebScrape | tiktok_recorder.py:602-694 | a captcha page asks for cookies; success exactly when one of the embedded JSON blobs holds a room; the not-live text, network errors and other errors give their messages |
| Resolver.ReportedError | tiktok_recorder.py:524-531 | the first strategy's error if set, else the second's, else the generic message; never empty |
| Resolver.GetLiveInfo | tiktok_recorder.py:496-531 | the result carries the normalised handle; an empty handle is an error; success exactly when one strategy succeeds; a failure is not live, has no stream URL and has a non-empty error |
| Resolver.FirstStrategyWins | tiktok_recorder.py:510-514 | a yt-dlp success is returned with the handle set, whatever the scraper would say |
| Resolver.FallbackWins | tiktok_recorder.py:516-520 | after a yt-dlp failure, a scrape success is returned with the handle set |
| Resolver.BothFail | tiktok_recorder.py:522-531 | when both fail, the blank result carries the error chosen by precedence |
| Resolver.EmptyHandleRunsNothing | tiktok_recorder.py:504-506 | an empty handle is rejected before either strategy is consulted |
| Resolver.SpellingsAgree | tiktok_recorder.py:497 | "@name" and "name" are looked up identically |
| Filenames.SafeTitleShape | tiktok_recorder.py:795 | the title text is non-empty and free of forbidden characters; it is at most 30 characters with no outer space, or "live" |
| Filenames.SubstituteLiteral | tiktok_recorder.py:797-802 | a pattern without any `{` is used as it is |
| Filenames.SubstituteUsername | tiktok_recorder.py:797-802 | the pattern "{username}" gives the handle itself when the handle has no `{` |
| Filenames.StampWidths | tiktok_recorder.py:799-801 | `%Y%m%d` and `%H%M%S` are 8 and 6 characters for a valid clock reading |
| Filenames.StemShape | tiktok_recorder.py:797-809 | the stem has no forbidden character and ends in `_` and the three digits of the millisecond |
| Filenames.ProbePathSpec | tiktok_recorder.py:812-826 | the name is the base name if free; else the smallest free counter name in 1..999; only when all are taken, the timestamp name |
| Filenames.ProbeFrom | tiktok_recorder.py:812-826 | the probing loop returns the name the probing rule describes |
| Filenames.GenerateFilename | tiktok_recorder.py:791-826 | the generated path is the probing result for the stem built from the pattern, handle, title and clock |
| Filenames.GeneratedNameFresh | tiktok_recorder.py:811-826 | the generated path is no existing file unless the base name and all 999 counter names are taken |
| Filenames.ProbeNoOverwrite | tiktok_recorder.py:814-826 | a probing result is a new path unless all names are taken, and then it is the timestamp name |
| Filenames.ProbeResultUnique | tiktok_recorder.py:812-826 | the probing rule determines one name |
| Filenames.CandidatesDistinct | tiktok_recorder.py:820 | different counters give different names, none equal to the base name |
| Filenames.ResultShape | tiktok_recorder.py:812-826 | the generated path ends in ".mp4" and its file name starts with the stem |
| Finalizer.FirstExisting | tiktok_recorder.py:1031-1034 | the first existing `base + ext` in extension order, or None exactly when none exists |
| Finalizer.FirstListed | tiktok_recorder.py:1038-1040 | the first listed name that starts with the base name and is not a ".txt", or None exactly when there is none |
| Finalizer.ActualFilePriority | tiktok_recorder.py:1009-1044 | the found file is the raw file if it exists, else the cached one, else the output; with no output it is None; a found file that does not exist is a matching entry of the directory listing |
| Finalizer.ChooseInput | tiktok_recorder.py:1088-1094 | the input is the raw file if it exists, else the cached file if it exists, else the output if it exists; None exactly when none exists |
| Finalizer.Mp4Target | tiktok_recorder.py:1111-1116 | the conversion target is never the input, ends in ".mp4" and is not a ".flv" |
| Finalizer.Cleanup | tiktok_recorder.py:1207-1222 | a ".flv" input (any case) is deleted, anything else is kept, and no other file changes |
| Finalizer.AfterRun | tiktok_recorder.py:1134-1137 | an ffmpeg run changes at most the target file: it is there when the run left output, gone when a finished run left none, and a run that raised before writing changes nothing |
| Finalizer.RaisedKeepsPartial | tiktok_recorder.py:1130-1134 | an attempt that raises ends the conversion with the input as the output; the partial mp4 it left stays on disk, as the handler at 1202-1205 does not remove it |
| Finalizer.LadderSpec | tiktok_recorder.py:1137-1200 | the ladder changes only the input and the mp4; the output is the input or the mp4 and exists; the input is lost only to an accepted mp4 when it is a ".flv", and otherwise keeps its size; an mp4 output is the one the first accepted attempt produced, with its size |
| Finalizer.LadderDecided | tiktok_recorder.py:1134-1205 | one attempt decides: every attempt before it ran and was rejected and its mp4 was removed; if it is accepted, the ".flv" input is cleaned up and its mp4 is the output; if it raised or was the last, the input is the output and the mp4 is as that run left it |
| Finalizer.FirstAcceptedWins | tiktok_recorder.py:1137-1197 | when the attempts before an accepted one were all run and rejected, its mp4 becomes the output and the ".flv" input is cleaned up, whatever later attempts would do |
| Finalizer.ConvertGuards | tiktok_recorder.py:1089-1108 | no input, or an input under 51200 bytes, changes nothing and runs no attempt; without ffmpeg the input becomes the output |
| Finalizer.ConvertKeepsRecording | tiktok_recorder.py:1110-1205 | after the conversion the recording survives: either the input is still there and is the output, or the accepted mp4 is |
| Finalizer.RemuxAcceptedStops | tiktok_recorder.py:1137-1143 | an accepted remux ends the ladder and later attempts are never run |
| Finalizer.AllRejected | tiktok_recorder.py:1145-1200 | when every attempt runs and is rejected, the input is the output and keeps its size; the first two outputs are removed and the last one stays as ffmpeg left it |
| Finalizer.Size | tiktok_recorder.py:1327-1332 | the corrected byte count: the cached file's size while it exists, else the found file's |
| Finalizer.SizeAsWrittenReportsZero | tiktok_recorder.py:1329-1330 | as written, after a successful conversion of the raw ".flv" the reported size is 0 |
| Finalizer.ZeroSizeExample | tiktok_recorder.py:1329-1330 | a 200000-byte `rec/x.flv` remuxed into a 190000-byte `rec/x.mp4` is reported as 0 bytes as written and as 190000 bytes corrected |
| Finalizer.SizeReportsOutput | tiktok_recorder.py:1329-1330 | corrected, the reported size is the size of the mp4 the conversion produced |
| Recording.FfmpegError | tiktok_recorder.py:860-917 | `_start_ffmpeg` leaves no error exactly when ffmpeg is found and the process keeps running |
| Recording.YtdlpError | tiktok_recorder.py:919-971 | `_start_ytdlp` leaves no error exactly when the process keeps running |
| Recording.AfterStart | tiktok_recorder.py:828-858 | after `start`, recording exactly when one launcher keeps running (ffmpeg only with a stream URL); the session fields are reset; the raw file is the output's stem with ".flv"; the method and error are those of the launch that decided |
| Recording.Tally | tiktok_recorder.py:1230-1237 | an existing output over 10240 bytes adds exactly one recording and its size, anything else adds nothing; the duration is the whole seconds since the first write when that is set, and 0 when it is not |
| Recording.Disk.constructor | tiktok_recorder.py:1012 | the directory holds the given files |
| Recording.Config.constructor | tiktok_recorder.py:1234-1237 | the statistics start at zero |
| Recording.Recorder.constructor | tiktok_recorder.py:766-789 | a new recorder is idle: not recording, not stopping, no files |
| Recording.Recorder.GetDuration | tiktok_recorder.py:1318-1324 | the text reads back as the whole seconds since the first write, or 0 when no first write is set; below 100 hours it is 8 characters |
| Recording.Recorder.Start | tiktok_recorder.py:828-858 | refused with nothing changed while recording; otherwise the result is whether it records, and the new session is `AfterStart` for the generated name against the disk's files |
| Recording.Recorder.StartSession | tiktok_recorder.py:832-858 | the session `start` begins when not recording |
| Recording.Recorder.BeginSession | tiktok_recorder.py:832-842 | the fields `start` resets |
| Recording.Recorder.SetIdentity | tiktok_recorder.py:832-835 | the session takes the handle, title, live page and stream URL it is given |
| Recording.Recorder.ResetProgress | tiktok_recorder.py:836-842 | not stopping, first written now, no checks, no files, no error |
| Recording.Recorder.Launch | tiktok_recorder.py:846-858 | ffmpeg with a stream URL, then yt-dlp; the result is whether it records |
| Recording.Recorder.StartFfmpeg | tiktok_recorder.py:860-917 | `_start_ffmpeg` on the session fields |
| Recording.Recorder.StartYtdlp | tiktok_recorder.py:919-971 | `_start_ytdlp` on the session fields |
| Recording.ScanExtensions | tiktok_recorder.py:1031-1034 | the loop over the extensions returns what `FirstExisting` describes |
| Recording.ScanListing | tiktok_recorder.py:1036-1040 | the loop over the listing returns what `FirstListed` describes |
| Recording.Recorder.FindActualFile | tiktok_recorder.py:1009-1044 | the search returns the file `ActualFile` describes |
| Recording.Recorder.CleanupFlv | tiktok_recorder.py:1207-1222 | the directory after the cleanup is `Cleanup` of the one before |
| Recording.Recorder.RunAttempt | tiktok_recorder.py:1134-1197 | one attempt: a decided attempt finishes the ladder as `RunLadder` says; an undecided one leaves the ladder's result to the remaining attempts |
| Recording.Recorder.ConvertToMp4 | tiktok_recorder.py:1085-1205 | the directory and the output after the conversion are `Convert` of the ones before |
| Recording.Recorder.GetFileSize | tiktok_recorder.py:1326-1332 | the byte count is the corrected `Size`; it equals the program's count unless the cached file is set but gone, and then the program's count is 0 |
| Recording.Recorder.AddTotals | tiktok_recorder.py:1229-1237 | the statistics grow by `Tally`: only an existing output over 10240 bytes counts |
| Recording.Recorder.FinalizeRecording | tiktok_recorder.py:1224-1246 | the statistics grow by `Tally`; the completion event carries the handle, duration, size and output |
| Recording.Recorder.CompleteAfterStop | tiktok_recorder.py:1062-1072 | the found file becomes the output and the conversion runs on it; then finalisation |
| Recording.Recorder.Complete | tiktok_recorder.py:1046-1060 | ignored with nothing changed unless recording; otherwise the flag is cleared, the found recording is converted, the statistics grow by `Tally` and the event carries the handle, duration, size and output |
| Recording.Recorder.Stop | tiktok_recorder.py:1248-1313 | a no-op when not recording or already stopping; otherwise both flags end false, the found recording is converted, the statistics grow by `Tally` and the event carries the handle, duration, size and output; afterwards `check_status` is false |
| Registry.Spawn | tiktok_recorder.py:1358-1359 | a fresh recorder on the shared configuration starts exactly when a launcher keeps running, with the `AfterStart` session |
| Registry.Register | tiktok_recorder.py:1359-1360 | storing a fresh recorder under a handle keeps one recorder per handle and one entry per key |
| Registry.MultiRecorder.constructor | tiktok_recorder.py:1348-1352 | the registry starts empty |
| Registry.MultiRecorder.Start | tiktok_recorder.py:1354-1362 | refused while the handle's recorder is recording; on failure nothing changes; on success the handle maps to the new, active recorder, a new handle goes to the end and a known one keeps its place |
| Registry.MultiRecorder.Admit | tiktok_recorder.py:1358-1362 | past the refusal: the new recorder is installed exactly when a launcher keeps running; otherwise nothing changes |
| Registry.MultiRecorder.Install | tiktok_recorder.py:1359-1360 | the handle now maps to the given recorder, a new handle goes to the end of the order, and the registry stays well formed |
| Registry.MultiRecorder.IsRecording | tiktok_recorder.py:1364-1366 | active exactly when `get` finds a recorder for the handle and its `check_status` holds |
| Registry.MultiRecorder.Get | tiktok_recorder.py:1368-1370 | the handle's recorder, or None exactly when there is none |
| Registry.MultiRecorder.ActiveAmong | tiktok_recorder.py:1372-1374 | the filter keeps exactly the handles whose recorder is active |
| Registry.MultiRecorder.GetAll | tiktok_recorder.py:1372-1374 | the listed handles are exactly those `is_recording` holds for, each once, in the dictionary's order (the filter of the key order) |
| Registry.MultiRecorder.ActiveAmongConcat | tiktok_recorder.py:1372-1374 | the filter keeps the dictionary order: filtering a concatenation concatenates the filtered parts |
| Registry.MultiRecorder.ActiveSubsequence | tiktok_recorder.py:1372-1374 | filtering distinct handles yields distinct handles |
| Registry.StopRecorder | tiktok_recorder.py:1379 | one recorder's `stop` as the registry needs it: afterwards its `check_status` is false |
| Registry.MultiRecorder.StopAll | tiktok_recorder.py:1376-1380 | every recorder is stopped and no longer active, and the registry is empty |
| Lists.Pushed | tiktok_recorder.py:1409-1414 | the new record first, then the newest old records in order, at most 100 in all |
| Lists.NewestFirst | tiktok_recorder.py:1409-1414 | the later of two additions comes first |
| Lists.FullDropsOldest | tiktok_recorder.py:1414 | a full history loses exactly its oldest record |
| Lists.History.Add | tiktok_recorder.py:1408-1415 | the history becomes `Pushed` of the old one |
| Lists.IndexOf | tiktok_recorder.py:1450 | the position of the first occurrence |
| Lists.RemoveFirst | tiktok_recorder.py:1450 | `list.remove` drops one occurrence and nothing else |
| Lists.RemoveDistinct | tiktok_recorder.py:1446-1452 | in a list without duplicates, removing a handle removes it altogether |
| Lists.AddThenRemove | tiktok_recorder.py:1438-1452 | adding a new handle then removing it gives the list back |
| Lists.Watchlist.constructor | tiktok_recorder.py:1418-1421 | the watchlist starts empty |
| Lists.Watchlist.Add | tiktok_recorder.py:1438-1444 | the normalised handle is appended exactly when it is non-empty and not held; no duplicates arise |
| Lists.Watchlist.Remove | tiktok_recorder.py:1446-1452 | succeeds exactly when the normalised handle is held, and then it is no longer held |
| Lists.Watchlist.GetAll | tiktok_recorder.py:1454-1455 | a copy of the handles |

## Left out

- Case mapping and whitespace follow ASCII only. Python's `lower` and `strip` use Unicode
  tables, which are not modelled.
- The acceptance thresholds are exact integer comparisons. The source compares
  `output_size > file_size * 0.5` and `* 0.3` in floating point: `2 * out > in` and
  `10 * out > 3 * in` here.
- `%Y` of a year below 1000 is not padded by every C library. `DateTime.Valid` asks for four-digit years.
- Processes and signals are not modelled: `Popen`, the grace sleeps, the SIGINT, 'q',
  taskkill and SIGKILL stop protocol, and `_find_ffmpeg`'s probe run. A launch is a `Launch`
  value and ffmpeg's presence is a boolean.
- The `_monitor` thread, the stop event, the lock of `MultiRecorder` and any concurrency are
  not modelled. The model is sequential, so the race between `stop` and the monitor cannot
  arise. The field `fileCheckCount` is used only by the monitor; it is only reset here.
- The regular expressions and JSON parsing of the page and of `pull_data["stream_data"]` are
  not modelled. The parsed structures are inputs.
- The size text of `get_file_size` (B, KB, MB, GB with float division) is not modelled.
  `GetFileSize` returns the byte count.
- The notifier, sounds, thumbnails, the GUI and `TelegramNotifier` are not modelled. The
  `on_complete` callback's arguments are returned as the `Completion` value.
- JSON persistence (`load`, `save`, `config.save()`) is not modelled. A watchlist loaded from
  a file could hold duplicates; here it starts empty.
- Exceptions are modelled where they decide a branch: the `Raised` outcome of an ffmpeg run,
  with the partial output it may leave, and a failing `os.listdir`. A failing `os.remove` or
  `os.path.getsize` is not modelled: removals always succeed.
- `Path(output_dir).mkdir` in the recorder's constructor is not modelled.
- `_extract_stream_url`'s `if not stream_data` test is covered only as "no location
  contributes an entry".
- `get_last_error` and the `process` field are left out. The first is a getter for
  `lastError`; the second belongs to the process handling.
- GetFileSize: computes the corrected size of the Findings row, not the program's, which is 0
  when the cached file is set but deleted. Its contract states where the two differ.
- FinalizeRecording: the event's size is the corrected size, so after an accepted conversion of
  a ".flv" it is the mp4's size where the program reports 0.
- CompleteAfterStop: the event's size is the corrected size, as for FinalizeRecording.
- Complete: the event's size is the corrected size, as for FinalizeRecording.
- Recording.Recorder.Stop: the event's size is the corrected size, as for FinalizeRecording.
- Recording.Recorder.Stop: does not state the `is_stopping = True` step separately, because
  it is undone before anything else can observe it in a sequential model.
- Registry.MultiRecorder.Start: does not restate the new recorder's session, because that is
  the contract of Registry.Spawn, which builds and starts it.
- Registry.StopRecorder: states only that the recorder ends inactive. The conversion, the
  statistics and the completion event are the contract of Recording.Recorder.Stop, which it
  calls; restating them would carry that whole contract through the loop of `StopAll`.
- Registry.MultiRecorder.StopAll: states that every old recorder ends inactive, not the
  completions, because those are each recorder's `Stop` contract.

## Findings

| source | as written | input that shows it | evidently intended | confidence | as-written member | corrected member |
|---|---|---|---|---|---|---|
| tiktok_recorder.py:1329-1330 | `get_file_size` reads the cached `actual_recording_file` first. After a successful conversion that file is the deleted `.flv`, so `os.path.exists` fails and the size is 0. | a recording `rec/x.flv` of 200000 bytes, remuxed into `rec/x.mp4` of 190000 bytes: the completion reports "0 B" (Finalizer.ZeroSizeExample) | the size of the file the recording ended as, that is the mp4 | not executed | Finalizer.SizeAsWrittenReportsZero | Finalizer.SizeReportsOutput |
