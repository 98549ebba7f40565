/** What happens to a recording once it ends: which file is taken as the recording
    (`_find_actual_file`), the ffmpeg remux/transcode ladder of `_convert_to_mp4` with its
    acceptance thresholds and `_cleanup_flv`, and the size the recorder reports
    (`get_file_size`). Everything here is a function of the output directory's contents, given
    as a map from path to size in bytes, and of the ffmpeg runs, given as an oracle. */
module Finalizer {
  import opened Optional
  import opened Text
  import opened Paths

  type Files = map<string, nat>

  /** Python truthiness of an optional path. */
  predicate Truthy(p: Option<string>) { p.Some? && p.value != "" }

  /** `p and os.path.exists(p)`. */
  predicate Exists(files: Files, p: Option<string>) { Truthy(p) && p.value in files }

  /** `path.lower().endswith('.flv')`. */
  predicate IsFlv(p: string) { EndsWith(Lower(p), ".flv") }

  // ---------------------------------------------------------------------------
  // _find_actual_file

  const Extensions: seq<string> := [".flv", ".mp4", ".ts", ".mkv", ".webm"]

  /** The first `base + ext` that exists, trying `exts` in order. */
  function FirstExisting(files: Files, base: string, exts: seq<string>): (r: Option<string>)
    ensures r.Some? ==> r.value in files && exists k :: 0 <= k < |exts| && r.value == base + exts[k]
    ensures r.None? <==> forall k :: 0 <= k < |exts| ==> base + exts[k] !in files
  {
    if exts == [] then None
    else if base + exts[0] in files then Some(base + exts[0])
    else
      var r := FirstExisting(files, base, exts[1..]);
      assert forall k :: 1 <= k < |exts| ==> exts[k] == exts[1..][k - 1];
      r
  }

  /** A directory entry that may be the recording: it starts with the base name and is not a
      ".txt" file. */
  predicate Matches(name: string, prefix: string) {
    StartsWith(name, prefix) && !EndsWith(name, ".txt")
  }

  /** The first listed entry that `Matches`. */
  function FirstListed(names: seq<string>, prefix: string): (r: Option<string>)
    ensures r.Some? ==> Matches(r.value, prefix) && r.value in names
    ensures r.None? <==> forall k :: 0 <= k < |names| ==> !Matches(names[k], prefix)
  {
    if names == [] then None
    else if Matches(names[0], prefix) then Some(names[0])
    else
      var r := FirstListed(names[1..], prefix);
      assert forall k :: 1 <= k < |names| ==> names[k] == names[1..][k - 1];
      r
  }

  lemma {:induction false} FirstExistingAt(files: Files, base: string, exts: seq<string>, k: nat)
    requires k < |exts| && base + exts[k] in files
    requires forall k' :: 0 <= k' < k ==> base + exts[k'] !in files
    ensures FirstExisting(files, base, exts) == Some(base + exts[k])
    decreases k
  {
    if k > 0 {
      FirstExistingAt(files, base, exts[1..], k - 1);
    }
  }

  lemma {:induction false} FirstListedAt(names: seq<string>, prefix: string, k: nat)
    requires k < |names| && Matches(names[k], prefix)
    requires forall k' :: 0 <= k' < k ==> !Matches(names[k'], prefix)
    ensures FirstListed(names, prefix) == Some(names[k])
    decreases k
  {
    if k > 0 {
      FirstListedAt(names[1..], prefix, k - 1);
    }
  }

  /** `_find_actual_file`, with `os.listdir` passed in (None when the listing fails). */
  function ActualFile(files: Files, raw: Option<string>, actual: Option<string>, output: Option<string>,
                      listdir: string -> Option<seq<string>>): Option<string>
  {
    if Exists(files, raw) then raw
    else if Exists(files, actual) then actual
    else if !Truthy(output) then None
    else
      var o := output.value;
      var base := SplitExt(o).0;
      var dir := DirName(o);
      if o in files then output
      else match FirstExisting(files, base, Extensions)
        case Some(p) => Some(p)
        case None =>
          match listdir(dir)
          case None => None
          case Some(names) =>
            match FirstListed(names, BaseName(base))
            case None => None
            case Some(f) => Some(Join(dir, f))
  }

  /** `p` is a matching entry of the listing of the output's directory. */
  ghost predicate Listed(output: string, listdir: string -> Option<seq<string>>, p: string) {
    exists names, f ::
      listdir(DirName(output)) == Some(names) && f in names && Matches(f, BaseName(SplitExt(output).0)) && p == Join(DirName(output), f)
  }

  /** The candidates are tried in priority order: the raw file, the cached file, the planned
      output, the output's stem with a known extension; only then the directory listing. Every
      candidate but a listed one is known to exist. */
  lemma ActualFilePriority(files: Files, raw: Option<string>, actual: Option<string>, output: Option<string>,
                           listdir: string -> Option<seq<string>>)
    ensures var r := ActualFile(files, raw, actual, output, listdir);
      && (Exists(files, raw) ==> r == raw)
      && (!Exists(files, raw) && Exists(files, actual) ==> r == actual)
      && (!Exists(files, raw) && !Exists(files, actual) && Exists(files, output) ==> r == output)
      && (!Exists(files, raw) && !Exists(files, actual) && !Truthy(output) ==> r == None)
      && (r.Some? && r.value !in files ==> Truthy(output) && Listed(output.value, listdir, r.value))
  {
    var r := ActualFile(files, raw, actual, output, listdir);
    if r.Some? && r.value !in files {
      var o := output.value;
      var names := listdir(DirName(o)).value;
      var f := FirstListed(names, BaseName(SplitExt(o).0)).value;
      assert f in names && Matches(f, BaseName(SplitExt(o).0));
    }
  }

  // ---------------------------------------------------------------------------
  // _convert_to_mp4

  /** Files smaller than this are left alone. */
  const MinConvertSize := 51200

  datatype Attempt = Remux | AudioTranscode | FullTranscode

  const Ladder: seq<Attempt> := [Remux, AudioTranscode, FullTranscode]

  /** One `subprocess.run` of ffmpeg: it exited with a return code, leaving the output file with
      the given size or no output file; or it raised. A run that raised may leave a partial
      output behind (`partial`, after the timeout kills an ffmpeg that was writing) or none
      (a missing binary). */
  datatype RunOutcome = Ran(returnCode: int, outputSize: Option<nat>) | Raised(partial: Option<nat>)

  /** ffmpeg as an oracle: `(attempt, input, output)` to what the run did. */
  type Ffmpeg = (Attempt, string, string) -> RunOutcome

  /** Acceptance of an attempt: return code 0, the output exists, and it is larger than half of
      the input (remux), than 30% of the input (audio transcode), or than 10000 bytes (full
      transcode). */
  predicate Accepted(a: Attempt, inSize: nat, o: RunOutcome) {
    && o.Ran? && o.returnCode == 0 && o.outputSize.Some?
    && match a
       case Remux => 2 * o.outputSize.value > inSize
       case AudioTranscode => 10 * o.outputSize.value > 3 * inSize
       case FullTranscode => o.outputSize.value > 10000
  }

  /** The output path: the planned output's stem with ".mp4", renamed to "_converted.mp4" when
      that is the input itself. */
  function Mp4Target(output: string, input: string): (t: string)
    ensures t != input
    ensures EndsWith(t, ".mp4") && !IsFlv(t)
  {
    var base := SplitExt(output).0;
    var t := if input == base + ".mp4" then base + "_converted.mp4" else base + ".mp4";
    assert t[|t| - 4..] == ".mp4";
    Mp4NotFlv(t);
    t
  }

  /** A name ending in ".mp4" does not end in ".flv" in any letter case: the last characters differ. */
  lemma Mp4NotFlv(t: string)
    requires EndsWith(t, ".mp4")
    ensures !IsFlv(t)
  {
    assert Lower(t)[|t| - 1] == LowerChar(t[|t| - 4..][3]);
  }

  /** The directory after a run: the output as the run left it; a run that raised and wrote
      nothing leaves the directory alone. */
  function AfterRun(files: Files, mp4: string, o: RunOutcome): (f: Files)
    ensures forall p :: p != mp4 ==> (p in f <==> p in files) && (p in f ==> f[p] == files[p])
    ensures o.Raised? && o.partial.None? ==> f == files
    ensures o.Ran? && o.outputSize.None? ==> mp4 !in f
    ensures (o.Ran? && o.outputSize.Some?) || (o.Raised? && o.partial.Some?) ==> mp4 in f
  {
    match o
    case Ran(_, Some(n)) => files[mp4 := n]
    case Ran(_, None) => files - {mp4}
    case Raised(Some(n)) => files[mp4 := n]
    case Raised(None) => files
  }

  /** `_cleanup_flv(original_flv, input_file)`: the input is deleted exactly when it is a
      ".flv" file (the second test of the source can only repeat the first). */
  function Cleanup(files: Files, input: string): (f: Files)
    ensures IsFlv(input) ==> input !in f
    ensures !IsFlv(input) ==> f == files
    ensures forall p :: p != input ==> (p in f <==> p in files) && (p in f ==> f[p] == files[p])
  {
    if IsFlv(input) && input in files then files - {input} else files
  }

  /** The directory and `output_file` after a conversion. */
  datatype Outcome = Outcome(files: Files, output: Option<string>)

  /** The attempts in order: the first accepted one deletes the ".flv" input and becomes the
      output; a rejected one's output is removed before the next attempt, except after the last,
      when the input is kept as the output; an exception keeps the input as the output and
      leaves whatever the interrupted run wrote. */
  function RunLadder(attempts: seq<Attempt>, files: Files, input: string, inSize: nat, mp4: string, ffmpeg: Ffmpeg): Outcome
    requires |attempts| >= 1
    decreases |attempts|
  {
    var o := ffmpeg(attempts[0], input, mp4);
    var f := AfterRun(files, mp4, o);
    if o.Raised? then Outcome(f, Some(input))
    else
      if Accepted(attempts[0], inSize, o) then Outcome(Cleanup(f, input), Some(mp4))
      else if |attempts| == 1 then Outcome(f, Some(input))
      else RunLadder(attempts[1..], f - {mp4}, input, inSize, mp4, ffmpeg)
  }

  /** `_convert_to_mp4` (`ffmpegFound` is the outcome of `_find_ffmpeg`). */
  function Convert(files: Files, raw: Option<string>, actual: Option<string>, output: Option<string>,
                   ffmpegFound: bool, ffmpeg: Ffmpeg): Outcome
  {
    var input := ChooseInput(files, raw, actual, output);
    if input.None? then Outcome(files, output)
    else if files[input.value] < MinConvertSize then Outcome(files, output)
    else if !ffmpegFound then Outcome(files, input)
    else if output.None? then Outcome(files, input)
    else RunLadder(Ladder, files, input.value, files[input.value], Mp4Target(output.value, input.value), ffmpeg)
  }

  /** The input of a conversion: the raw file, else the cached file, else the planned output,
      whichever is set and exists first. */
  function ChooseInput(files: Files, raw: Option<string>, actual: Option<string>, output: Option<string>): (r: Option<string>)
    ensures r.Some? ==> r.value in files && r.value != ""
    ensures r.None? <==> !Exists(files, raw) && !Exists(files, actual) && !Exists(files, output)
    ensures r.Some? ==> r == raw || r == actual || r == output
    ensures Exists(files, raw) ==> r == raw
    ensures !Exists(files, raw) && Exists(files, actual) ==> r == actual
    ensures !Exists(files, raw) && !Exists(files, actual) && Exists(files, output) ==> r == output
  {
    if Exists(files, raw) then raw
    else if Exists(files, actual) then actual
    else if Exists(files, output) then output
    else None
  }

  /** `p` and the directories agree everywhere except at `a` and `b`. */
  ghost predicate SameExcept(f1: Files, f2: Files, a: string, b: string) {
    forall p :: p != a && p != b ==> (p in f1 <==> p in f2) && (p in f1 ==> f1[p] == f2[p])
  }

  /** Every attempt before the `k`-th ran to completion and was rejected. */
  ghost predicate RejectedBefore(attempts: seq<Attempt>, inSize: nat, ffmpeg: Ffmpeg, input: string, mp4: string, k: int) {
    forall j :: 0 <= j < k && j < |attempts| ==>
      ffmpeg(attempts[j], input, mp4).Ran? && !Accepted(attempts[j], inSize, ffmpeg(attempts[j], input, mp4))
  }

  /** The first accepted attempt left an output of `size` bytes. */
  ghost predicate AcceptedBy(attempts: seq<Attempt>, inSize: nat, ffmpeg: Ffmpeg, input: string, mp4: string, size: nat) {
    exists k :: 0 <= k < |attempts| && RejectedBefore(attempts, inSize, ffmpeg, input, mp4, k)
      && Accepted(attempts[k], inSize, ffmpeg(attempts[k], input, mp4))
      && size == ffmpeg(attempts[k], input, mp4).outputSize.value
  }

  lemma RejectedBeforeShift(attempts: seq<Attempt>, inSize: nat, ffmpeg: Ffmpeg, input: string, mp4: string, k: int)
    requires |attempts| >= 1 && ffmpeg(attempts[0], input, mp4).Ran?
    requires !Accepted(attempts[0], inSize, ffmpeg(attempts[0], input, mp4))
    requires RejectedBefore(attempts[1..], inSize, ffmpeg, input, mp4, k)
    ensures RejectedBefore(attempts, inSize, ffmpeg, input, mp4, k + 1)
  {
    forall j | 0 <= j < k + 1 && j < |attempts|
      ensures ffmpeg(attempts[j], input, mp4).Ran? && !Accepted(attempts[j], inSize, ffmpeg(attempts[j], input, mp4))
    {
      if j > 0 {
        assert attempts[j] == attempts[1..][j - 1];
      }
    }
  }

  /** The `k`-th attempt decided the ladder's result `r`: the attempts before it ran and were
      rejected, so their mp4 was removed; this one found the directory as they left it ran;
      it was accepted, and the ".flv" input was cleaned up and the mp4 became the output; or it
      raised, or was the last and rejected, and the input became the output with the mp4 as
      this run left it. */
  ghost predicate DecidedAt(attempts: seq<Attempt>, files: Files, input: string, inSize: nat, mp4: string, ffmpeg: Ffmpeg,
                            k: int, r: Outcome) {
    && 0 <= k < |attempts|
    && RejectedBefore(attempts, inSize, ffmpeg, input, mp4, k)
    && var o := ffmpeg(attempts[k], input, mp4);
       var f := AfterRun(if k == 0 then files else files - {mp4}, mp4, o);
       if Accepted(attempts[k], inSize, o) then r == Outcome(Cleanup(f, input), Some(mp4))
       else (o.Raised? || k == |attempts| - 1) && r == Outcome(f, Some(input))
  }

  lemma AfterRunMinus(files: Files, mp4: string, o: RunOutcome)
    ensures AfterRun(files, mp4, o) - {mp4} == files - {mp4}
  {
    assert (AfterRun(files, mp4, o) - {mp4}).Keys == (files - {mp4}).Keys;
  }

  /** Every run of the ladder is decided by one attempt, as `DecidedAt` describes. */
  lemma {:induction false} LadderDecided(attempts: seq<Attempt>, files: Files, input: string, inSize: nat, mp4: string, ffmpeg: Ffmpeg)
    requires |attempts| >= 1
    ensures exists k :: DecidedAt(attempts, files, input, inSize, mp4, ffmpeg, k, RunLadder(attempts, files, input, inSize, mp4, ffmpeg))
    decreases |attempts|
  {
    var o := ffmpeg(attempts[0], input, mp4);
    var r := RunLadder(attempts, files, input, inSize, mp4, ffmpeg);
    if o.Raised? || Accepted(attempts[0], inSize, o) || |attempts| == 1 {
      assert DecidedAt(attempts, files, input, inSize, mp4, ffmpeg, 0, r);
    } else {
      var f := AfterRun(files, mp4, o);
      LadderDecided(attempts[1..], f - {mp4}, input, inSize, mp4, ffmpeg);
      var k :| DecidedAt(attempts[1..], f - {mp4}, input, inSize, mp4, ffmpeg, k, r);
      AfterRunMinus(files, mp4, o);
      assert (f - {mp4}) - {mp4} == f - {mp4};
      RejectedBeforeShift(attempts, inSize, ffmpeg, input, mp4, k);
      assert attempts[k + 1] == attempts[1..][k];
      assert DecidedAt(attempts, files, input, inSize, mp4, ffmpeg, k + 1, r);
    }
  }

  /** The first accepted attempt wins: its mp4 becomes the output and the ".flv" input is
      cleaned up, whatever later attempts would do. */
  lemma FirstAcceptedWins(attempts: seq<Attempt>, files: Files, input: string, inSize: nat, mp4: string, ffmpeg: Ffmpeg, k: nat)
    requires k < |attempts| && RejectedBefore(attempts, inSize, ffmpeg, input, mp4, k)
    requires Accepted(attempts[k], inSize, ffmpeg(attempts[k], input, mp4))
    ensures RunLadder(attempts, files, input, inSize, mp4, ffmpeg)
         == Outcome(Cleanup(AfterRun(if k == 0 then files else files - {mp4}, mp4, ffmpeg(attempts[k], input, mp4)), input), Some(mp4))
  {
    var r := RunLadder(attempts, files, input, inSize, mp4, ffmpeg);
    LadderDecided(attempts, files, input, inSize, mp4, ffmpeg);
    var k0 :| DecidedAt(attempts, files, input, inSize, mp4, ffmpeg, k0, r);
    assert k0 == k;
  }

  /** Runs of the ladder touch only the mp4 output and the input; they keep the input unless
      an attempt is accepted and the input is a ".flv" file; the resulting output always
      exists; an mp4 output was accepted by the first accepted attempt, with that size. */
  lemma {:induction false} LadderSpec(attempts: seq<Attempt>, files: Files, input: string, inSize: nat, mp4: string, ffmpeg: Ffmpeg)
    requires |attempts| >= 1 && input in files && mp4 != input
    ensures var r := RunLadder(attempts, files, input, inSize, mp4, ffmpeg);
      && SameExcept(files, r.files, input, mp4)
      && (r.output == Some(input) || r.output == Some(mp4))
      && r.output.value in r.files
      && (input !in r.files ==> r.output == Some(mp4) && IsFlv(input))
      && (input in r.files ==> r.files[input] == files[input])
      && (r.output == Some(mp4) ==> AcceptedBy(attempts, inSize, ffmpeg, input, mp4, r.files[mp4]))
    decreases |attempts|
  {
    var o := ffmpeg(attempts[0], input, mp4);
    var r := RunLadder(attempts, files, input, inSize, mp4, ffmpeg);
    if o.Raised? {
    } else {
      var f := AfterRun(files, mp4, o);
      if Accepted(attempts[0], inSize, o) {
        assert r.files[mp4] == o.outputSize.value;
      } else if |attempts| == 1 {
      } else {
        LadderSpec(attempts[1..], f - {mp4}, input, inSize, mp4, ffmpeg);
        if r.output == Some(mp4) {
          var k :| 0 <= k < |attempts[1..]| && RejectedBefore(attempts[1..], inSize, ffmpeg, input, mp4, k)
            && Accepted(attempts[1..][k], inSize, ffmpeg(attempts[1..][k], input, mp4))
            && r.files[mp4] == ffmpeg(attempts[1..][k], input, mp4).outputSize.value;
          RejectedBeforeShift(attempts, inSize, ffmpeg, input, mp4, k);
          assert attempts[k + 1] == attempts[1..][k];
        }
      }
    }
  }

  /** An attempt that raises ends the ladder: the input becomes the output, and a partial mp4
      the interrupted run left behind stays on disk. */
  lemma RaisedKeepsPartial(attempts: seq<Attempt>, files: Files, input: string, inSize: nat, mp4: string, ffmpeg: Ffmpeg)
    requires |attempts| >= 1 && ffmpeg(attempts[0], input, mp4).Raised?
    ensures var r := RunLadder(attempts, files, input, inSize, mp4, ffmpeg);
      && r.output == Some(input)
      && (ffmpeg(attempts[0], input, mp4).partial.Some? ==>
            mp4 in r.files && r.files[mp4] == ffmpeg(attempts[0], input, mp4).partial.value)
      && (ffmpeg(attempts[0], input, mp4).partial.None? ==> r.files == files)
  {
  }

  /** The guards: no existing input, or an input under 51200 bytes, changes nothing; without
      ffmpeg the input becomes the output and nothing on disk changes. */
  lemma ConvertGuards(files: Files, raw: Option<string>, actual: Option<string>, output: Option<string>,
                      ffmpegFound: bool, ffmpeg: Ffmpeg)
    ensures var input := ChooseInput(files, raw, actual, output);
      var r := Convert(files, raw, actual, output, ffmpegFound, ffmpeg);
      && (input.None? ==> r == Outcome(files, output))
      && (input.Some? && files[input.value] < MinConvertSize ==> r == Outcome(files, output))
      && (input.Some? && files[input.value] >= MinConvertSize && !ffmpegFound ==> r == Outcome(files, input))
  {
  }

  /** Once a conversion has run on an existing input: only the input and the mp4 target can
      change; the recording is never lost (the input survives unless an attempt was accepted
      and it is a ".flv" file); the resulting `output_file` exists. */
  lemma ConvertKeepsRecording(files: Files, raw: Option<string>, actual: Option<string>, output: Option<string>,
                              ffmpegFound: bool, ffmpeg: Ffmpeg)
    requires ChooseInput(files, raw, actual, output).Some?
    requires files[ChooseInput(files, raw, actual, output).value] >= MinConvertSize
    ensures var input := ChooseInput(files, raw, actual, output).value;
      var r := Convert(files, raw, actual, output, ffmpegFound, ffmpeg);
      && r.output.Some? && r.output.value in r.files
      && (input !in r.files ==> IsFlv(input) && output.Some? && r.output == Some(Mp4Target(output.value, input)))
      && (output.Some? ==> SameExcept(files, r.files, input, Mp4Target(output.value, input)))
      && (output.None? ==> r.files == files)
  {
    var input := ChooseInput(files, raw, actual, output).value;
    if ffmpegFound && output.Some? {
      LadderSpec(Ladder, files, input, files[input], Mp4Target(output.value, input), ffmpeg);
    }
  }

  /** The first acceptable attempt decides: when the remux is accepted, what the later attempts
      would have done does not matter. */
  lemma RemuxAcceptedStops(files: Files, input: string, inSize: nat, mp4: string, ffmpeg1: Ffmpeg, ffmpeg2: Ffmpeg)
    requires ffmpeg1(Remux, input, mp4) == ffmpeg2(Remux, input, mp4)
    requires Accepted(Remux, inSize, ffmpeg1(Remux, input, mp4))
    ensures RunLadder(Ladder, files, input, inSize, mp4, ffmpeg1) == RunLadder(Ladder, files, input, inSize, mp4, ffmpeg2)
    ensures RunLadder(Ladder, files, input, inSize, mp4, ffmpeg1).output == Some(mp4)
  {
  }

  /** When every attempt runs and is rejected, the input is the output and still on disk with
      its size; the first two outputs are gone and the last one stays as ffmpeg left it. */
  lemma AllRejected(files: Files, input: string, inSize: nat, mp4: string, ffmpeg: Ffmpeg)
    requires input in files && mp4 != input
    requires forall a :: a in Ladder ==> ffmpeg(a, input, mp4).Ran? && !Accepted(a, inSize, ffmpeg(a, input, mp4))
    ensures var r := RunLadder(Ladder, files, input, inSize, mp4, ffmpeg);
      && r.output == Some(input)
      && r.files == AfterRun(files - {mp4}, mp4, ffmpeg(FullTranscode, input, mp4))
      && input in r.files && r.files[input] == files[input]
  {
    assert Remux in Ladder && AudioTranscode in Ladder && FullTranscode in Ladder;
    var f1 := AfterRun(files, mp4, ffmpeg(Remux, input, mp4)) - {mp4};
    var f2 := AfterRun(f1, mp4, ffmpeg(AudioTranscode, input, mp4)) - {mp4};
    assert f2 == files - {mp4};
    assert Ladder[1..][1..] == [FullTranscode];
  }

  // ---------------------------------------------------------------------------
  // get_file_size (the byte count; the human-readable formatting is not modelled)

  /** `get_file_size` as written: the cached recording file if set, else `_find_actual_file()`;
      0 when that file does not exist. */
  function SizeAsWritten(files: Files, raw: Option<string>, actual: Option<string>, output: Option<string>,
                         listdir: string -> Option<seq<string>>): nat
  {
    var f := if Truthy(actual) then actual else ActualFile(files, raw, actual, output, listdir);
    if Exists(files, f) then files[f.value] else 0
  }

  /** The corrected rule: the cached file only while it still exists, else `_find_actual_file()`. */
  function Size(files: Files, raw: Option<string>, actual: Option<string>, output: Option<string>,
                listdir: string -> Option<seq<string>>): (n: nat)
    ensures Exists(files, actual) ==> n == files[actual.value]
    ensures !Exists(files, actual) && !Exists(files, raw) && Exists(files, output) ==> n == files[output.value]
  {
    var f := if Exists(files, actual) then actual else ActualFile(files, raw, actual, output, listdir);
    if Exists(files, f) then files[f.value] else 0
  }

  /** The scenario of every successful ".flv" recording: `start` sets the raw and the cached file
      to the ".flv", the conversion is accepted, and the ".flv" is deleted. */
  ghost predicate ConvertedFlv(files: Files, flv: string, output: string, ffmpegFound: bool, ffmpeg: Ffmpeg) {
    && flv != "" && IsFlv(flv) && flv in files && files[flv] >= MinConvertSize
    && Convert(files, Some(flv), Some(flv), Some(output), ffmpegFound, ffmpeg).output == Some(Mp4Target(output, flv))
  }

  lemma ConvertedFlvState(files: Files, flv: string, output: string, ffmpegFound: bool, ffmpeg: Ffmpeg)
    requires ConvertedFlv(files, flv, output, ffmpegFound, ffmpeg)
    ensures var r := Convert(files, Some(flv), Some(flv), Some(output), ffmpegFound, ffmpeg);
      && flv !in r.files && Mp4Target(output, flv) in r.files && r.files[Mp4Target(output, flv)] > 0
  {
    var mp4 := Mp4Target(output, flv);
    assert ChooseInput(files, Some(flv), Some(flv), Some(output)) == Some(flv);
    assert ffmpegFound;
    LadderSpec(Ladder, files, flv, files[flv], mp4, ffmpeg);
    var r := Convert(files, Some(flv), Some(flv), Some(output), ffmpegFound, ffmpeg);
    var k :| 0 <= k < |Ladder| && Accepted(Ladder[k], files[flv], ffmpeg(Ladder[k], flv, mp4)) &&
      r.files[mp4] == ffmpeg(Ladder[k], flv, mp4).outputSize.value;
    assert r.files[mp4] > 0;
  }

  /** As written, the size reported after a successful conversion of a ".flv" recording is 0:
      the cached path is the deleted ".flv". */
  lemma SizeAsWrittenReportsZero(files: Files, flv: string, output: string, ffmpegFound: bool, ffmpeg: Ffmpeg,
                                 listdir: string -> Option<seq<string>>)
    requires ConvertedFlv(files, flv, output, ffmpegFound, ffmpeg)
    ensures var r := Convert(files, Some(flv), Some(flv), Some(output), ffmpegFound, ffmpeg);
      SizeAsWritten(r.files, Some(flv), Some(flv), r.output, listdir) == 0
  {
    ConvertedFlvState(files, flv, output, ffmpegFound, ffmpeg);
  }

  /** With the correction, the size reported is that of the mp4 the conversion produced. */
  lemma SizeReportsOutput(files: Files, flv: string, output: string, ffmpegFound: bool, ffmpeg: Ffmpeg,
                          listdir: string -> Option<seq<string>>)
    requires ConvertedFlv(files, flv, output, ffmpegFound, ffmpeg)
    ensures var r := Convert(files, Some(flv), Some(flv), Some(output), ffmpegFound, ffmpeg);
      && Mp4Target(output, flv) in r.files
      && Size(r.files, Some(flv), Some(flv), r.output, listdir) == r.files[Mp4Target(output, flv)]
      && Size(r.files, Some(flv), Some(flv), r.output, listdir) > 0
  {
    ConvertedFlvState(files, flv, output, ffmpegFound, ffmpeg);
    var mp4 := Mp4Target(output, flv);
    assert mp4 != "" by { assert EndsWith(mp4, ".mp4"); }
  }

  lemma ExamplePaths()
    ensures Mp4Target("rec/x.mp4", "rec/x.flv") == "rec/x.mp4"
    ensures IsFlv("rec/x.flv")
  {
    LastIndexIs("rec/x.mp4", '/', 3);
    LastIndexIs("rec/x.mp4", '.', 5);
    assert "rec/x.mp4"[4] != '.';
    assert SplitExt("rec/x.mp4").0 == "rec/x";
    assert "rec/x" + ".mp4" == "rec/x.mp4";
    assert "rec/x.mp4" != "rec/x.flv" by { assert "rec/x.mp4"[6] != "rec/x.flv"[6]; }
    assert Lower("rec/x.flv")[5..] == ".flv";
  }

  /** A concrete instance: a 200000-byte "rec/x.flv" remuxed into a 190000-byte "rec/x.mp4" is
      reported as 0 bytes as written, and as 190000 bytes with the correction. */
  lemma ZeroSizeExample(listdir: string -> Option<seq<string>>)
    ensures var files := map["rec/x.mp4" := 190000];
      && SizeAsWritten(files, Some("rec/x.flv"), Some("rec/x.flv"), Some("rec/x.mp4"), listdir) == 0
      && Size(files, Some("rec/x.flv"), Some("rec/x.flv"), Some("rec/x.mp4"), listdir) == 190000
  {
    assert "rec/x.mp4" != "rec/x.flv" by { assert "rec/x.mp4"[6] != "rec/x.flv"[6]; }
  }
}
