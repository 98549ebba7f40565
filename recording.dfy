/** The `Recorder` object: its lifecycle flags and file fields, changed in place by `start`,
    `stop`, `_complete`, `_convert_to_mp4` and `_finalize_recording`. The output directory is a
    `Disk` object whose `files` map the recorder updates; the configuration's statistics are
    fields of a `Config` object. */
module Recording {
  import opened Optional
  import opened Text
  import opened Paths
  import opened Durations
  import opened Filenames
  import opened Finalizer

  /** The output directory: path to size in bytes. */
  class Disk {
    var files: map<string, nat>

    constructor(files: map<string, nat>)
      ensures this.files == files
    {
      this.files := files;
    }
  }

  /** The parts of `AppConfig` the recorder reads and the statistics it updates. */
  class Config {
    const outputDir: string
    const filenamePattern: string
    var totalRecordings: int
    var totalSizeBytes: int
    var totalDurationSeconds: int

    constructor(outputDir: string, filenamePattern: string)
      ensures this.outputDir == outputDir && this.filenamePattern == filenamePattern
      ensures totalRecordings == 0 && totalSizeBytes == 0 && totalDurationSeconds == 0
    {
      this.outputDir := outputDir;
      this.filenamePattern := filenamePattern;
      totalRecordings := 0;
      totalSizeBytes := 0;
      totalDurationSeconds := 0;
    }
  }

  /** How a spawned recorder process looked after its grace period: still running, already
      exited (with what it printed), or not started because `Popen` raised. */
  datatype Launch = Alive | ExitedEarly(output: string) | SpawnFailed(message: string)

  /** The error `_start_ffmpeg` leaves when it does not start. */
  function FfmpegError(ffmpegFound: bool, launch: Launch): (e: Option<string>)
    ensures e == None <==> ffmpegFound && launch.Alive?
  {
    if !ffmpegFound then Some("FFmpeg not found")
    else match launch
      case Alive => None
      case ExitedEarly(out) => Some("FFmpeg failed: " + Take(out, 100))
      case SpawnFailed(m) => Some("FFmpeg error: " + m)
  }

  /** The error `_start_ytdlp` leaves when it does not start. */
  function YtdlpError(launch: Launch): (e: Option<string>)
    ensures e == None <==> launch.Alive?
  {
    match launch
    case Alive => None
    case ExitedEarly(out) => Some("yt-dlp failed: " + Take(out, 100))
    case SpawnFailed(m) => Some("yt-dlp error: " + m)
  }

  /** The fields of a recorder that change over a session. */
  datatype Session = Session(
    username: string, title: string, liveUrl: string, streamUrl: string,
    isRecording: bool, isStopping: bool,
    outputFile: Option<string>, rawRecordingFile: Option<string>, actualRecordingFile: Option<string>,
    firstWriteTime: Option<real>, fileCheckCount: int, recordingMethod: string, lastError: Option<string>)

  /** The fields of a recorder no session has used yet. */
  const Idle := Session("", "", "", "", false, false, None, None, None, None, 0, "", None)

  /** The session `start` leaves behind, from the previous one, the inputs and the generated
      output `path`: recording exactly when one launcher keeps running (ffmpeg is tried only
      with a stream URL and a found binary), the raw ".flv" path next to the output, and the
      error of the launch that decided. */
  function AfterStart(s: Session, username: string, streamUrl: string, title: string, liveUrl: string, epoch: real,
                      path: string, ffmpegFound: bool, ffmpegLaunch: Launch, ytdlpLaunch: Launch): (r: Session)
    requires !s.isRecording
    ensures r.isRecording <==> (streamUrl != "" && ffmpegFound && ffmpegLaunch.Alive?) || ytdlpLaunch.Alive?
    ensures r.username == username && r.title == title && r.liveUrl == liveUrl && r.streamUrl == streamUrl
    ensures !r.isStopping && r.outputFile == Some(path) && r.firstWriteTime == Some(epoch) && r.fileCheckCount == 0
    ensures r.rawRecordingFile == Some(SplitExt(path).0 + ".flv")
    ensures r.actualRecordingFile == if r.isRecording then r.rawRecordingFile else None
    ensures r.isRecording ==>
      r.recordingMethod == if streamUrl != "" && ffmpegFound && ffmpegLaunch.Alive? then "ffmpeg" else "yt-dlp"
    ensures !r.isRecording ==> r.recordingMethod == s.recordingMethod
    ensures r.lastError == None <==> (streamUrl != "" && ffmpegFound && ffmpegLaunch.Alive?) || (streamUrl == "" && ytdlpLaunch.Alive?)
    ensures !r.isRecording ==> r.lastError == YtdlpError(ytdlpLaunch)
  {
    LaunchState(BeginState(s, username, streamUrl, title, liveUrl, epoch), path, streamUrl, ffmpegFound, ffmpegLaunch, ytdlpLaunch)
  }

  /** The fields `start` resets before anything is launched. */
  function BeginState(s: Session, username: string, streamUrl: string, title: string, liveUrl: string, epoch: real): Session {
    s.(username := username, title := title, liveUrl := liveUrl, streamUrl := streamUrl, isStopping := false,
       firstWriteTime := Some(epoch), fileCheckCount := 0, actualRecordingFile := None, rawRecordingFile := None,
       lastError := None)
  }

  /** `_start_ffmpeg` on the session fields: needs ffmpeg; records to the output's stem with
      ".flv". */
  function FfmpegAttempt(s: Session, ffmpegFound: bool, launch: Launch): Session
    requires s.outputFile.Some?
  {
    if !ffmpegFound then s.(lastError := Some("FFmpeg not found"))
    else
      var raw := Some(SplitExt(s.outputFile.value).0 + ".flv");
      if launch.Alive? then s.(rawRecordingFile := raw, isRecording := true, recordingMethod := "ffmpeg", actualRecordingFile := raw)
      else s.(rawRecordingFile := raw, lastError := FfmpegError(true, launch))
  }

  /** `_start_ytdlp` on the session fields: records to the output's stem with ".flv". */
  function YtdlpAttempt(s: Session, launch: Launch): Session
    requires s.outputFile.Some?
  {
    var raw := Some(SplitExt(s.outputFile.value).0 + ".flv");
    if launch.Alive? then s.(rawRecordingFile := raw, isRecording := true, recordingMethod := "yt-dlp", actualRecordingFile := raw)
    else s.(rawRecordingFile := raw, lastError := YtdlpError(launch))
  }

  /** The launches of `start` for the generated output `path`: ffmpeg when there is a stream
      URL, then yt-dlp; not recording when neither keeps running. */
  function LaunchState(s: Session, path: string, streamUrl: string, ffmpegFound: bool, ffmpegLaunch: Launch,
                       ytdlpLaunch: Launch): Session
  {
    var s1 := s.(outputFile := Some(path));
    var s2 := if streamUrl != "" then FfmpegAttempt(s1, ffmpegFound, ffmpegLaunch) else s1;
    if s2.isRecording then s2
    else
      var s3 := YtdlpAttempt(s2, ytdlpLaunch);
      if s3.isRecording then s3 else s3.(isRecording := false)
  }

  /** What `on_complete` receives: handle, duration text, size in bytes, final output path. */
  datatype Completion = Completion(username: string, duration: string, sizeBytes: nat, path: Option<string>)

  /** The statistics a finished recording adds. */
  datatype Totals = Totals(recordings: int, sizeBytes: int, durationSeconds: int)

  /** The loop of `_find_actual_file` over the alternative extensions: the first that exists. */
  method ScanExtensions(files: Files, base: string) returns (r: Option<string>)
    ensures r == FirstExisting(files, base, Extensions)
  {
    for k := 0 to |Extensions|
      invariant forall k' :: 0 <= k' < k ==> base + Extensions[k'] !in files
    {
      if base + Extensions[k] in files {
        FirstExistingAt(files, base, Extensions, k);
        return Some(base + Extensions[k]);
      }
    }
    return None;
  }

  /** The loop of `_find_actual_file` over the directory listing: the first entry that matches. */
  method ScanListing(names: seq<string>, prefix: string) returns (r: Option<string>)
    ensures r == FirstListed(names, prefix)
  {
    for k := 0 to |names|
      invariant forall k' :: 0 <= k' < k ==> !Matches(names[k'], prefix)
    {
      if Matches(names[k], prefix) {
        FirstListedAt(names, prefix, k);
        return Some(names[k]);
      }
    }
    return None;
  }

  /** Only an existing output larger than 10240 bytes counts: one recording, its size, and
      the whole seconds since the first write when that time is set. */
  function Tally(files: Files, output: Option<string>, firstWrite: Option<real>, now: real): (t: Totals)
    ensures 0 <= t.recordings <= 1
    ensures t.recordings == 1 <==> Exists(files, output) && files[output.value] > 10240
    ensures t.recordings == 0 ==> t == Totals(0, 0, 0)
    ensures t.recordings == 1 ==> t.sizeBytes == files[output.value] > 10240
    ensures t.recordings == 1 && firstWrite.Some? && firstWrite.value != 0.0 ==> t.durationSeconds == Trunc(now - firstWrite.value)
    ensures !(firstWrite.Some? && firstWrite.value != 0.0) ==> t.durationSeconds == 0
  {
    if Exists(files, output) && files[output.value] > 10240 then
      Totals(1, files[output.value], if firstWrite.Some? && firstWrite.value != 0.0 then Trunc(now - firstWrite.value) else 0)
    else Totals(0, 0, 0)
  }

  class Recorder {
    const config: Config
    const disk: Disk
    var isRecording: bool
    var isStopping: bool
    var outputFile: Option<string>
    var actualRecordingFile: Option<string>
    var rawRecordingFile: Option<string>
    var username: string
    var title: string
    var liveUrl: string
    var streamUrl: string
    var firstWriteTime: Option<real>
    var fileCheckCount: int
    var recordingMethod: string
    var lastError: Option<string>

    constructor(config: Config, disk: Disk)
      ensures this.config == config && this.disk == disk
      ensures State() == Idle
    {
      this.config := config;
      this.disk := disk;
      isRecording := false;
      isStopping := false;
      outputFile := None;
      actualRecordingFile := None;
      rawRecordingFile := None;
      username := "";
      title := "";
      liveUrl := "";
      streamUrl := "";
      firstWriteTime := None;
      fileCheckCount := 0;
      recordingMethod := "";
      lastError := None;
    }

    /** `check_status`: recording and not being stopped. */
    function CheckStatus(): bool
      reads this
    {
      isRecording && !isStopping
    }

    /** The whole seconds since the first write, or 0 when no first write is set. */
    function Elapsed(now: real): int
      reads this
    {
      if firstWriteTime.Some? && firstWriteTime.value != 0.0 then Trunc(now - firstWriteTime.value) else 0
    }

    /** `get_duration` at clock reading `now`: the elapsed whole seconds as HH:MM:SS (hours may
      exceed two digits), or "00:00:00" when no first write is set. */
    function GetDuration(now: real): (d: string)
      reads this
      ensures ParseHMS(d) == Some(Elapsed(now))
      ensures 0 <= Elapsed(now) < 360000 ==> |d| == 8
    {
      DurationText(Elapsed(now));
      if firstWriteTime.None? || firstWriteTime.value == 0.0 then
        ZeroHMS();
        "00:00:00"
      else
        FormatHMS(Trunc(now - firstWriteTime.value))
    }

    /** The recorder's session fields as one value. */
    function State(): Session
      reads this
    {
      Session(username, title, liveUrl, streamUrl, isRecording, isStopping, outputFile, rawRecordingFile,
              actualRecordingFile, firstWriteTime, fileCheckCount, recordingMethod, lastError)
    }

    /** `start`: refused while recording, with nothing changed. Otherwise a session begins: its
      fields are reset, the output name is generated against the files on the disk, and
      ffmpeg (when there is a stream URL) and then yt-dlp are launched until one keeps running.
      The clocks (`now`, `epoch`), `_find_ffmpeg` and the launches are passed in. The source
      reads `time.time()` twice, for the fallback name's milliseconds and for the first write
      time; both are the one reading `epoch` here. */
    method Start(username: string, streamUrl: string, title: string, liveUrl: string,
                 now: DateTime, epoch: real, ffmpegFound: bool, ffmpegLaunch: Launch, ytdlpLaunch: Launch)
      returns (ok: bool)
      modifies this
      ensures old(isRecording) ==> !ok && State() == old(State())
      ensures !old(isRecording) ==> ok == isRecording
      ensures !old(isRecording) ==>
        State() == AfterStart(old(State()), username, streamUrl, title, liveUrl, epoch,
                              ProbePath(config.outputDir, Stem(config.filenamePattern, username, title, now),
                                        old(disk.files.Keys), Trunc(epoch * 1000.0)),
                              ffmpegFound, ffmpegLaunch, ytdlpLaunch)
    {
      if isRecording {
        return false;
      }
      ok := StartSession(username, streamUrl, title, liveUrl, now, epoch, ffmpegFound, ffmpegLaunch, ytdlpLaunch);
    }

    /** The session `start` begins when not recording. */
    method StartSession(username: string, streamUrl: string, title: string, liveUrl: string,
                        now: DateTime, epoch: real, ffmpegFound: bool, ffmpegLaunch: Launch, ytdlpLaunch: Launch)
      returns (ok: bool)
      requires !isRecording
      modifies this
      ensures ok == isRecording
      ensures State() == AfterStart(old(State()), username, streamUrl, title, liveUrl, epoch,
                                    ProbePath(config.outputDir, Stem(config.filenamePattern, username, title, now),
                                              old(disk.files.Keys), Trunc(epoch * 1000.0)),
                                    ffmpegFound, ffmpegLaunch, ytdlpLaunch)
    {
      var existing := disk.files.Keys;
      BeginSession(username, streamUrl, title, liveUrl, epoch);
      var path := GenerateFilename(config.outputDir, config.filenamePattern, username, title, now, epoch, existing);
      ok := Launch(path, streamUrl, ffmpegFound, ffmpegLaunch, ytdlpLaunch);
    }

    /** The session fields `start` sets before anything is launched. */
    method BeginSession(username: string, streamUrl: string, title: string, liveUrl: string, epoch: real)
      modifies this`username, this`title, this`liveUrl, this`streamUrl, this`isStopping, this`firstWriteTime,
               this`fileCheckCount, this`actualRecordingFile, this`rawRecordingFile, this`lastError
      ensures State() == BeginState(old(State()), username, streamUrl, title, liveUrl, epoch)
    {
      SetIdentity(username, streamUrl, title, liveUrl);
      ResetProgress(epoch);
    }

    /** The handle, title, live page and stream URL of the new session. */
    method SetIdentity(username: string, streamUrl: string, title: string, liveUrl: string)
      modifies this`username, this`title, this`liveUrl, this`streamUrl
      ensures this.username == username && this.title == title && this.liveUrl == liveUrl && this.streamUrl == streamUrl
    {
      this.username, this.title, this.liveUrl, this.streamUrl := username, title, liveUrl, streamUrl;
    }

    /** The progress fields a new session starts from: not stopping, first written at `epoch`,
      no checks yet, no files and no error. */
    method ResetProgress(epoch: real)
      modifies this`isStopping, this`firstWriteTime, this`fileCheckCount, this`actualRecordingFile,
               this`rawRecordingFile, this`lastError
      ensures !isStopping && firstWriteTime == Some(epoch) && fileCheckCount == 0
      ensures actualRecordingFile == None && rawRecordingFile == None && lastError == None
    {
      isStopping, firstWriteTime, fileCheckCount := false, Some(epoch), 0;
      actualRecordingFile, rawRecordingFile, lastError := None, None, None;
    }

    /** The launch part of `start`: ffmpeg when there is a stream URL, then yt-dlp; the flag is
      cleared when neither keeps running. */
    method Launch(path: string, streamUrl: string, ffmpegFound: bool, ffmpegLaunch: Launch, ytdlpLaunch: Launch) returns (ok: bool)
      requires !isRecording
      modifies this`outputFile, this`rawRecordingFile, this`isRecording, this`recordingMethod, this`actualRecordingFile, this`lastError
      ensures ok == isRecording
      ensures State() == LaunchState(old(State()), path, streamUrl, ffmpegFound, ffmpegLaunch, ytdlpLaunch)
    {
      outputFile := Some(path);
      ghost var s1 := State();
      assert s1 == old(State()).(outputFile := Some(path));
      if streamUrl != "" {
        ok := StartFfmpeg(ffmpegFound, ffmpegLaunch);
        if ok {
          return true;
        }
      }
      ghost var s2 := State();
      assert s2 == if streamUrl != "" then FfmpegAttempt(s1, ffmpegFound, ffmpegLaunch) else s1;
      ok := StartYtdlp(ytdlpLaunch);
      if ok {
        return true;
      }
      isRecording := false;
      return false;
    }

    /** `_start_ffmpeg`: needs ffmpeg; records to the output's stem with ".flv". */
    method StartFfmpeg(ffmpegFound: bool, launch: Launch) returns (ok: bool)
      requires outputFile.Some? && !isRecording
      modifies this`rawRecordingFile, this`isRecording, this`recordingMethod, this`actualRecordingFile, this`lastError
      ensures ok == isRecording
      ensures State() == FfmpegAttempt(old(State()), ffmpegFound, launch)
    {
      if !ffmpegFound {
        lastError := Some("FFmpeg not found");
        return false;
      }
      rawRecordingFile := Some(SplitExt(outputFile.value).0 + ".flv");
      match launch {
        case ExitedEarly(out) =>
          lastError := Some("FFmpeg failed: " + Take(out, 100));
          return false;
        case SpawnFailed(m) =>
          lastError := Some("FFmpeg error: " + m);
          return false;
        case Alive =>
          isRecording := true;
          recordingMethod := "ffmpeg";
          actualRecordingFile := rawRecordingFile;
          return true;
      }
    }

    /** `_start_ytdlp`: records to the output's stem with ".flv". */
    method StartYtdlp(launch: Launch) returns (ok: bool)
      requires outputFile.Some? && !isRecording
      modifies this`rawRecordingFile, this`isRecording, this`recordingMethod, this`actualRecordingFile, this`lastError
      ensures ok == isRecording
      ensures State() == YtdlpAttempt(old(State()), launch)
    {
      rawRecordingFile := Some(SplitExt(outputFile.value).0 + ".flv");
      match launch {
        case ExitedEarly(out) =>
          lastError := Some("yt-dlp failed: " + Take(out, 100));
          return false;
        case SpawnFailed(m) =>
          lastError := Some("yt-dlp error: " + m);
          return false;
        case Alive =>
          isRecording := true;
          recordingMethod := "yt-dlp";
          actualRecordingFile := rawRecordingFile;
          return true;
      }
    }

    /** `_find_actual_file`, with `os.listdir` passed in. */
    method FindActualFile(listdir: string -> Option<seq<string>>) returns (r: Option<string>)
      ensures r == ActualFile(disk.files, rawRecordingFile, actualRecordingFile, outputFile, listdir)
    {
      if Exists(disk.files, rawRecordingFile) {
        return rawRecordingFile;
      }
      if Exists(disk.files, actualRecordingFile) {
        return actualRecordingFile;
      }
      if !Truthy(outputFile) {
        return None;
      }
      var o := outputFile.value;
      var base := SplitExt(o).0;
      var dir := DirName(o);
      var baseName := BaseName(base);
      if o in disk.files {
        return outputFile;
      }
      var alt := ScanExtensions(disk.files, base);
      if alt.Some? {
        return alt;
      }
      var listing := listdir(dir);
      if listing.None? {
        return None;
      }
      var name := ScanListing(listing.value, baseName);
      if name.Some? {
        return Some(Join(dir, name.value));
      }
      return None;
    }

    /** `_cleanup_flv(original_flv, input_file)` after an accepted attempt. */
    method CleanupFlv(originalFlv: Option<string>, input: string)
      requires originalFlv == if IsFlv(input) then Some(input) else None
      modifies disk`files
      ensures disk.files == Cleanup(old(disk.files), input)
    {
      if Truthy(originalFlv) && originalFlv.value in disk.files {
        disk.files := disk.files - {originalFlv.value};
      }
      if input != "" && Some(input) != originalFlv && input in disk.files {
        if IsFlv(input) {
          assert false;
        }
      }
    }

    /** One ffmpeg attempt of `_convert_to_mp4` (the first of `attempts`): an accepted run
      deletes the ".flv" input and makes the mp4 the output; an exception, or a rejected last
      attempt, makes the input the output; a rejected earlier attempt removes its output. */
    method RunAttempt(ghost attempts: seq<Attempt>, a: Attempt, last: bool, originalFlv: Option<string>,
                      input: string, inSize: nat, mp4: string, ffmpeg: Ffmpeg) returns (done: bool)
      requires |attempts| >= 1 && attempts[0] == a && (last <==> |attempts| == 1)
      requires originalFlv == if IsFlv(input) then Some(input) else None
      modifies this`outputFile, disk`files
      ensures done ==> Outcome(disk.files, outputFile) == RunLadder(attempts, old(disk.files), input, inSize, mp4, ffmpeg)
      ensures !done ==> !last && outputFile == old(outputFile)
      ensures !done ==> RunLadder(attempts, old(disk.files), input, inSize, mp4, ffmpeg)
                        == RunLadder(attempts[1..], disk.files, input, inSize, mp4, ffmpeg)
    {
      var o := ffmpeg(a, input, mp4);
      disk.files := AfterRun(disk.files, mp4, o);
      if o.Raised? {
        outputFile := Some(input);
        return true;
      }
      if o.returnCode == 0 && mp4 in disk.files && Accepted(a, inSize, o) {
        CleanupFlv(originalFlv, input);
        outputFile := Some(mp4);
        return true;
      }
      if last {
        outputFile := Some(input);
        return true;
      }
      if mp4 in disk.files {
        disk.files := disk.files - {mp4};
      } else {
        assert disk.files - {mp4} == disk.files;
      }
      return false;
    }

    /** `_convert_to_mp4`: the input by priority, the size and ffmpeg guards, then the three
      attempts. `ffmpegFound` is the outcome of `_find_ffmpeg`. */
    method ConvertToMp4(ffmpegFound: bool, ffmpeg: Ffmpeg)
      modifies this`outputFile, disk`files
      ensures Outcome(disk.files, outputFile)
           == Convert(old(disk.files), rawRecordingFile, actualRecordingFile, old(outputFile), ffmpegFound, ffmpeg)
    {
      var input := rawRecordingFile;
      if !Exists(disk.files, input) {
        input := actualRecordingFile;
      }
      if !Exists(disk.files, input) {
        input := outputFile;
      }
      if !Exists(disk.files, input) {
        return;
      }
      assert input == ChooseInput(disk.files, rawRecordingFile, actualRecordingFile, outputFile);
      var fileSize := disk.files[input.value];
      if fileSize < MinConvertSize {
        return;
      }
      if !ffmpegFound {
        outputFile := input;
        return;
      }
      if outputFile.None? {
        outputFile := input;
        return;
      }
      var inputFile := input.value;
      var mp4 := Mp4Target(outputFile.value, inputFile);
      var originalFlv := if IsFlv(inputFile) then Some(inputFile) else None;
      var done := RunAttempt(Ladder, Remux, false, originalFlv, inputFile, fileSize, mp4, ffmpeg);
      if done {
        return;
      }
      assert Ladder[1..] == [AudioTranscode, FullTranscode];
      done := RunAttempt(Ladder[1..], AudioTranscode, false, originalFlv, inputFile, fileSize, mp4, ffmpeg);
      if done {
        return;
      }
      assert Ladder[1..][1..] == [FullTranscode];
      done := RunAttempt(Ladder[1..][1..], FullTranscode, true, originalFlv, inputFile, fileSize, mp4, ffmpeg);
    }

    /** `get_file_size` as a byte count, with the cached file used only while it exists (see
      `Finalizer.Size`). It differs from the program only when the cached file is set but gone,
      where the program reports 0. */
    method GetFileSize(listdir: string -> Option<seq<string>>) returns (n: nat)
      ensures n == Size(disk.files, rawRecordingFile, actualRecordingFile, outputFile, listdir)
      ensures !Truthy(actualRecordingFile) || Exists(disk.files, actualRecordingFile) ==>
        n == SizeAsWritten(disk.files, rawRecordingFile, actualRecordingFile, outputFile, listdir)
      ensures Truthy(actualRecordingFile) && !Exists(disk.files, actualRecordingFile) ==>
        SizeAsWritten(disk.files, rawRecordingFile, actualRecordingFile, outputFile, listdir) == 0
    {
      var f := actualRecordingFile;
      if !Exists(disk.files, f) {
        f := FindActualFile(listdir);
      }
      n := if Exists(disk.files, f) then disk.files[f.value] else 0;
    }

    /** `_finalize_recording`: the statistics update (only for outputs over 10240 bytes) and the
      completion event; the clock reading `now` is passed in. The source reads `time.time()`
      twice, in `get_duration` and in the statistics update; both are the one reading `now`
      here. */
    method FinalizeRecording(now: real, listdir: string -> Option<seq<string>>) returns (ev: Completion)
      modifies config`totalRecordings, config`totalSizeBytes, config`totalDurationSeconds
      ensures ev == Completion(username, GetDuration(now), Size(disk.files, rawRecordingFile, actualRecordingFile, outputFile, listdir), outputFile)
      ensures var t := Tally(disk.files, outputFile, firstWriteTime, now);
        && config.totalRecordings == old(config.totalRecordings) + t.recordings
        && config.totalSizeBytes == old(config.totalSizeBytes) + t.sizeBytes
        && config.totalDurationSeconds == old(config.totalDurationSeconds) + t.durationSeconds
    {
      var duration := GetDuration(now);
      var size := GetFileSize(listdir);
      AddTotals(now);
      ev := Completion(username, duration, size, outputFile);
    }

    /** The statistics part of `_finalize_recording`: an output over 10240 bytes adds one
      recording, its size and, when the first write time is set, the seconds since then. */
    method AddTotals(now: real)
      modifies config`totalRecordings, config`totalSizeBytes, config`totalDurationSeconds
      ensures var t := Tally(disk.files, outputFile, firstWriteTime, now);
        && config.totalRecordings == old(config.totalRecordings) + t.recordings
        && config.totalSizeBytes == old(config.totalSizeBytes) + t.sizeBytes
        && config.totalDurationSeconds == old(config.totalDurationSeconds) + t.durationSeconds
    {
      if Truthy(outputFile) && outputFile.value in disk.files {
        var actualSize := disk.files[outputFile.value];
        if actualSize > 10240 {
          config.totalRecordings := config.totalRecordings + 1;
          config.totalSizeBytes := config.totalSizeBytes + actualSize;
          if firstWriteTime.Some? && firstWriteTime.value != 0.0 {
            config.totalDurationSeconds := config.totalDurationSeconds + Trunc(now - firstWriteTime.value);
          }
        }
      }
    }

    /** The state `_complete_after_stop` leaves: the found recording becomes the output, then
      the conversion runs on it. */
    ghost function Finished(files: Files, output: Option<string>, ffmpegFound: bool, ffmpeg: Ffmpeg,
                            listdir: string -> Option<seq<string>>): Outcome
      reads this
    {
      var found := ActualFile(files, rawRecordingFile, actualRecordingFile, output, listdir);
      Convert(files, rawRecordingFile, actualRecordingFile, if Truthy(found) then found else output, ffmpegFound, ffmpeg)
    }

    /** `_complete_after_stop`: find the recording, convert it, finalise. */
    method CompleteAfterStop(ffmpegFound: bool, ffmpeg: Ffmpeg, listdir: string -> Option<seq<string>>, now: real)
      returns (ev: Completion)
      modifies this`outputFile, disk`files, config`totalRecordings, config`totalSizeBytes, config`totalDurationSeconds
      ensures Outcome(disk.files, outputFile) == old(Finished(disk.files, outputFile, ffmpegFound, ffmpeg, listdir))
      ensures ev == Completion(username, GetDuration(now), Size(disk.files, rawRecordingFile, actualRecordingFile, outputFile, listdir), outputFile)
      ensures var t := Tally(disk.files, outputFile, firstWriteTime, now);
        && config.totalRecordings == old(config.totalRecordings) + t.recordings
        && config.totalSizeBytes == old(config.totalSizeBytes) + t.sizeBytes
        && config.totalDurationSeconds == old(config.totalDurationSeconds) + t.durationSeconds
    {
      var found := FindActualFile(listdir);
      if Truthy(found) {
        outputFile := found;
      }
      ConvertToMp4(ffmpegFound, ffmpeg);
      ev := FinalizeRecording(now, listdir);
    }

    /** `_complete`, when the process ends by itself: ignored unless recording; otherwise clears
      the flag and finishes as after a stop. */
    method Complete(ffmpegFound: bool, ffmpeg: Ffmpeg, listdir: string -> Option<seq<string>>, now: real)
      returns (ev: Option<Completion>)
      modifies this`isRecording, this`outputFile, disk`files, config`totalRecordings, config`totalSizeBytes, config`totalDurationSeconds
      ensures !old(isRecording) ==> ev == None && unchanged(this) && unchanged(disk) && unchanged(config)
      ensures old(isRecording) ==> !isRecording && ev.Some?
      ensures old(isRecording) ==> Outcome(disk.files, outputFile) == old(Finished(disk.files, outputFile, ffmpegFound, ffmpeg, listdir))
      ensures old(isRecording) ==>
        ev.value == Completion(username, GetDuration(now), Size(disk.files, rawRecordingFile, actualRecordingFile, outputFile, listdir), outputFile)
      ensures old(isRecording) ==> var t := Tally(disk.files, outputFile, firstWriteTime, now);
        && config.totalRecordings == old(config.totalRecordings) + t.recordings
        && config.totalSizeBytes == old(config.totalSizeBytes) + t.sizeBytes
        && config.totalDurationSeconds == old(config.totalDurationSeconds) + t.durationSeconds
    {
      if !isRecording {
        return None;
      }
      isRecording := false;
      var e := CompleteAfterStop(ffmpegFound, ffmpeg, listdir, now);
      return Some(e);
    }

    /** `stop`: a no-op when not recording or already stopping; otherwise the process is ended
      (not modelled), both flags are cleared and the recording is finished. */
    method Stop(ffmpegFound: bool, ffmpeg: Ffmpeg, listdir: string -> Option<seq<string>>, now: real)
      returns (ev: Option<Completion>)
      modifies this`isRecording, this`isStopping, this`outputFile, disk`files,
               config`totalRecordings, config`totalSizeBytes, config`totalDurationSeconds
      ensures !old(isRecording) || old(isStopping) ==> ev == None && unchanged(this) && unchanged(disk) && unchanged(config)
      ensures old(isRecording) && !old(isStopping) ==>
        && !isRecording && !isStopping && ev.Some?
        && Outcome(disk.files, outputFile) == old(Finished(disk.files, outputFile, ffmpegFound, ffmpeg, listdir))
      ensures old(isRecording) && !old(isStopping) ==>
        ev.value == Completion(username, GetDuration(now), Size(disk.files, rawRecordingFile, actualRecordingFile, outputFile, listdir), outputFile)
      ensures old(isRecording) && !old(isStopping) ==> var t := Tally(disk.files, outputFile, firstWriteTime, now);
        && config.totalRecordings == old(config.totalRecordings) + t.recordings
        && config.totalSizeBytes == old(config.totalSizeBytes) + t.sizeBytes
        && config.totalDurationSeconds == old(config.totalDurationSeconds) + t.durationSeconds
      ensures !CheckStatus()
    {
      if !isRecording || isStopping {
        return None;
      }
      isStopping := true;
      isRecording := false;
      isStopping := false;
      var e := CompleteAfterStop(ffmpegFound, ffmpeg, listdir, now);
      return Some(e);
    }
  }
}
