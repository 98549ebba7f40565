/** `Recorder._generate_filename`: the output name built from the configured pattern, the
    handle, the live title and the clock, and the probing for a name no existing file has. */
module Filenames {
  import opened Text
  import opened Paths
  import opened Durations

  /** `datetime.now()`, given as a value. */
  datatype DateTime = DateTime(year: int, month: int, day: int, hour: int, minute: int, second: int, microsecond: int) {
    /** A clock reading `datetime` can hold, within the four-digit years `%Y` writes as four digits. */
    predicate Valid() {
      && 1000 <= year <= 9999 && 1 <= month <= 12 && 1 <= day <= 31
      && 0 <= hour < 24 && 0 <= minute < 60 && 0 <= second < 60 && 0 <= microsecond < 1000000
    }
  }

  /** `now.strftime("%Y%m%d")`. */
  function DateStamp(now: DateTime): string {
    FormatInt(now.year, 4) + FormatInt(now.month, 2) + FormatInt(now.day, 2)
  }

  /** `now.strftime("%H%M%S")`. */
  function TimeStamp(now: DateTime): string {
    FormatInt(now.hour, 2) + FormatInt(now.minute, 2) + FormatInt(now.second, 2)
  }

  lemma Width(n: int, w: nat)
    requires 1 <= w <= 4 && 0 <= n < Pow10(w)
    ensures |FormatInt(n, w)| == w && AllDigits(FormatInt(n, w))
  {
    FixedWidth(n, w);
  }

  /** The date and time stamps have fixed widths, so placeholders never shift what follows. */
  lemma StampWidths(now: DateTime)
    requires now.Valid()
    ensures |DateStamp(now)| == 8 && |TimeStamp(now)| == 6
  {
    assert Pow10(2) == 100 && Pow10(4) == 10000;
    Width(now.year, 4); Width(now.month, 2); Width(now.day, 2);
    Width(now.hour, 2); Width(now.minute, 2); Width(now.second, 2);
  }

  /** The `{title}` text: the title without forbidden characters, cut to 30 characters and
      stripped, or "live" when nothing is left. */
  function SafeTitle(title: string): string {
    var s := RStripSpace(LStripSpace(Take(StripForbidden(title), 30)));
    if s == "" then "live" else s
  }

  /** The title text is never empty and has no forbidden character; unless it is "live", it
      is at most 30 characters with no space at either end. */
  lemma SafeTitleShape(title: string)
    ensures var t := SafeTitle(title);
      && t != "" && NoForbidden(t)
      && (|t| <= 30 || t == "live")
      && (t != "live" ==> |t| <= 30 && !IsSpace(t[0]) && !IsSpace(t[|t| - 1]))
  {
    var cut := Take(StripForbidden(title), 30);
    NoForbiddenSlice(StripForbidden(title), 0, |cut|);
    var left := LStripSpace(cut);
    NoForbiddenSlice(cut, |cut| - |left|, |cut|);
    var s := RStripSpace(left);
    NoForbiddenSlice(left, 0, |s|);
    assert |s| <= 30;
    if s != "" {
      assert s[0] == left[0];
      assert SafeTitle(title) == s;
    } else {
      assert SafeTitle(title) == "live";
      assert NoForbidden("live");
    }
  }

  /** The pattern with its placeholders filled in, in the order the recorder substitutes them. */
  function Substitute(pattern: string, username: string, title: string, now: DateTime): string {
    var p1 := Replace(pattern, "{username}", username);
    var p2 := Replace(p1, "{date}", DateStamp(now));
    var p3 := Replace(p2, "{time}", TimeStamp(now));
    var p4 := Replace(p3, "{datetime}", DateStamp(now) + "_" + TimeStamp(now));
    Replace(p4, "{title}", SafeTitle(title))
  }

  /** A pattern without any `{` has no placeholder and is used as it is. */
  lemma SubstituteLiteral(pattern: string, username: string, title: string, now: DateTime)
    requires '{' !in pattern
    ensures Substitute(pattern, username, title, now) == pattern
  {
    assert "{username}"[0] == '{' && "{date}"[0] == '{' && "{time}"[0] == '{';
    assert "{datetime}"[0] == '{' && "{title}"[0] == '{';
    FirstCharAbsent(pattern, "{username}");
    ReplaceAbsent(pattern, "{username}", username);
    FirstCharAbsent(pattern, "{date}");
    ReplaceAbsent(pattern, "{date}", DateStamp(now));
    FirstCharAbsent(pattern, "{time}");
    ReplaceAbsent(pattern, "{time}", TimeStamp(now));
    FirstCharAbsent(pattern, "{datetime}");
    ReplaceAbsent(pattern, "{datetime}", DateStamp(now) + "_" + TimeStamp(now));
    FirstCharAbsent(pattern, "{title}");
    ReplaceAbsent(pattern, "{title}", SafeTitle(title));
  }

  /** The pattern "{username}" gives the handle itself, when the handle has no `{` that a later
      placeholder could match. */
  lemma SubstituteUsername(username: string, title: string, now: DateTime)
    requires '{' !in username
    ensures Substitute("{username}", username, title, now) == username
  {
    ReplaceWhole("{username}", username);
    assert "{date}"[0] == '{' && "{time}"[0] == '{' && "{datetime}"[0] == '{' && "{title}"[0] == '{';
    FirstCharAbsent(username, "{date}");
    ReplaceAbsent(username, "{date}", DateStamp(now));
    FirstCharAbsent(username, "{time}");
    ReplaceAbsent(username, "{time}", TimeStamp(now));
    FirstCharAbsent(username, "{datetime}");
    ReplaceAbsent(username, "{datetime}", DateStamp(now) + "_" + TimeStamp(now));
    FirstCharAbsent(username, "{title}");
    ReplaceAbsent(username, "{title}", SafeTitle(title));
  }

  /** `int(now.microsecond / 1000)`: truncation toward zero. */
  function Millis(us: int): int {
    if us >= 0 then us / 1000 else -((-us) / 1000)
  }

  /** The file name without extension: the cleaned pattern and a `_mmm` millisecond suffix. */
  function Stem(pattern: string, username: string, title: string, now: DateTime): string {
    StripForbidden(Substitute(pattern, username, title, now)) + "_" + FormatInt(Millis(now.microsecond), 3)
  }

  lemma DigitsAllowed(s: string)
    requires AllDigits(s)
    ensures NoForbidden(s)
  {
  }

  /** The stem has no forbidden character and always ends in `_` and the three digits of the
      millisecond. */
  lemma StemShape(pattern: string, username: string, title: string, now: DateTime)
    requires 0 <= now.microsecond < 1000000
    ensures var s := Stem(pattern, username, title, now);
      && NoForbidden(s) && |s| >= 4 && s[|s| - 4] == '_'
      && AllDigits(s[|s| - 3..]) && Value(s[|s| - 3..]) == now.microsecond / 1000
  {
    var ms := Millis(now.microsecond);
    assert Pow10(3) == 1000;
    FixedWidth(ms, 3);
    StemTail(StripForbidden(Substitute(pattern, username, title, now)), FormatInt(ms, 3));
  }

  /** Appending `_` and three digits to a name free of forbidden characters. */
  lemma StemTail(pre: string, f: string)
    requires NoForbidden(pre) && |f| == 3 && AllDigits(f)
    ensures var s := pre + "_" + f;
      NoForbidden(s) && s[|s| - 4] == '_' && s[|s| - 3..] == f
  {
    var body := pre + "_";
    NoForbiddenConcat(pre, "_");
    DigitsAllowed(f);
    NoForbiddenConcat(body, f);
    var s := body + f;
    assert s[|s| - 3..] == f;
    assert s[|s| - 4] == body[|body| - 1];
  }

  // ---------------------------------------------------------------------------
  // Probing for a free name

  function Name(stem: string, tag: string): string { stem + tag + ".mp4" }

  function Probe(dir: string, stem: string, tag: string): string {
    Join(dir, Name(stem, tag))
  }

  function BasePath(dir: string, stem: string): string { Probe(dir, stem, "") }

  /** `{filename}_{counter:03d}.mp4`. */
  function Candidate(dir: string, stem: string, counter: int): string {
    Probe(dir, stem, "_" + FormatInt(counter, 3))
  }

  /** `{filename}_{ts}.mp4`, with `ts` the epoch in milliseconds. */
  function Fallback(dir: string, stem: string, ts: int): string {
    Probe(dir, stem, "_" + FormatInt(ts, 0))
  }

  /** `counter` is the smallest of 1..999 whose name is free. */
  ghost predicate FirstFree(dir: string, stem: string, existing: set<string>, counter: int) {
    && 1 <= counter <= 999 && Candidate(dir, stem, counter) !in existing
    && forall c :: 1 <= c < counter ==> Candidate(dir, stem, c) in existing
  }

  predicate AllTaken(dir: string, stem: string, existing: set<string>) {
    BasePath(dir, stem) in existing && forall c :: 1 <= c <= 999 ==> Candidate(dir, stem, c) in existing
  }

  /** The name the probing returns: the base name if free; else the first free counter; only
      when all 999 are taken, the unchecked timestamp name. */
  ghost predicate IsProbeResult(dir: string, stem: string, existing: set<string>, ts: int, path: string) {
    || (BasePath(dir, stem) !in existing && path == BasePath(dir, stem))
    || (BasePath(dir, stem) in existing && exists c :: FirstFree(dir, stem, existing, c) && path == Candidate(dir, stem, c))
    || (AllTaken(dir, stem, existing) && path == Fallback(dir, stem, ts))
  }

  /** The probing as a recursive definition: counter `c` onwards, then the timestamp name. */
  function ProbeCounter(dir: string, stem: string, existing: set<string>, ts: int, c: int): string
    requires 1 <= c <= 1000
    decreases 1000 - c
  {
    if c > 999 then Fallback(dir, stem, ts)
    else if Candidate(dir, stem, c) !in existing then Candidate(dir, stem, c)
    else ProbeCounter(dir, stem, existing, ts, c + 1)
  }

  /** The name `_generate_filename` settles on for a stem: the base name, else the counters. */
  function ProbePath(dir: string, stem: string, existing: set<string>, ts: int): string {
    if BasePath(dir, stem) !in existing then BasePath(dir, stem) else ProbeCounter(dir, stem, existing, ts, 1)
  }

  lemma {:induction false} ProbeCounterSpec(dir: string, stem: string, existing: set<string>, ts: int, c: int)
    requires 1 <= c <= 1000 && BasePath(dir, stem) in existing
    requires forall c' :: 1 <= c' < c ==> Candidate(dir, stem, c') in existing
    ensures var r := ProbeCounter(dir, stem, existing, ts, c);
      || (exists k :: FirstFree(dir, stem, existing, k) && r == Candidate(dir, stem, k))
      || (AllTaken(dir, stem, existing) && r == Fallback(dir, stem, ts))
    decreases 1000 - c
  {
    if c <= 999 {
      var p := Candidate(dir, stem, c);
      if p !in existing {
        assert FirstFree(dir, stem, existing, c);
      } else {
        forall c' | 1 <= c' < c + 1 ensures Candidate(dir, stem, c') in existing {
          if c' == c { assert Candidate(dir, stem, c') == p; }
        }
        ProbeCounterSpec(dir, stem, existing, ts, c + 1);
      }
    } else {
      assert AllTaken(dir, stem, existing);
    }
  }

  /** The defined name is the one the probing rule describes. */
  lemma ProbePathSpec(dir: string, stem: string, existing: set<string>, ts: int)
    ensures IsProbeResult(dir, stem, existing, ts, ProbePath(dir, stem, existing, ts))
  {
    if BasePath(dir, stem) in existing {
      ProbeCounterSpec(dir, stem, existing, ts, 1);
    }
  }

  /** The probing loop of `_generate_filename`: the base name, then counters 1..999, then the
      timestamp name `ts`. */
  method ProbeFrom(dir: string, stem: string, ts: int, existing: set<string>) returns (path: string)
    ensures path == ProbePath(dir, stem, existing, ts)
    ensures IsProbeResult(dir, stem, existing, ts, path)
  {
    ProbePathSpec(dir, stem, existing, ts);
    var base := BasePath(dir, stem);
    if base !in existing {
      return base;
    }
    var counter := 1;
    while counter <= 999
      invariant 1 <= counter <= 1000
      invariant ProbeCounter(dir, stem, existing, ts, counter) == ProbePath(dir, stem, existing, ts)
    {
      var p := Candidate(dir, stem, counter);
      if p !in existing {
        return p;
      }
      counter := counter + 1;
    }
    path := Fallback(dir, stem, ts);
  }

  /** `_generate_filename`, with the clock passed in (`now` for the name, `epoch` seconds for the
      fallback) and the output directory's existing paths as a set; `ProbePathSpec` and
      `ProbeNoOverwrite` say what the name is. */
  method GenerateFilename(dir: string, pattern: string, username: string, title: string,
                          now: DateTime, epoch: real, existing: set<string>) returns (path: string)
    ensures path == ProbePath(dir, Stem(pattern, username, title, now), existing, Trunc(epoch * 1000.0))
  {
    var stem := Stem(pattern, username, title, now);
    path := ProbeFrom(dir, stem, Trunc(epoch * 1000.0), existing);
  }

  /** The name `start` records to overwrites no file of the directory, unless the base name and
      all 999 counter names are taken, in which case it is the timestamp name. */
  lemma GeneratedNameFresh(dir: string, pattern: string, username: string, title: string,
                           now: DateTime, epoch: real, existing: set<string>)
    ensures var stem := Stem(pattern, username, title, now);
      var path := ProbePath(dir, stem, existing, Trunc(epoch * 1000.0));
      && (!AllTaken(dir, stem, existing) ==> path !in existing)
      && (AllTaken(dir, stem, existing) ==> path == Fallback(dir, stem, Trunc(epoch * 1000.0)))
  {
    var stem := Stem(pattern, username, title, now);
    var ts := Trunc(epoch * 1000.0);
    ProbePathSpec(dir, stem, existing, ts);
    ProbeNoOverwrite(dir, stem, existing, ts, ProbePath(dir, stem, existing, ts));
  }

  lemma JoinLength(dir: string, n: string)
    ensures |Join(dir, n)| == if StartsWith(n, "/") then |n| else |JoinPrefix(dir)| + |n|
  {
    if !StartsWith(n, "/") {
      assert n == [] || n[0] != '/';
      JoinRelative(dir, n);
    }
  }

  lemma JoinInjective(dir: string, n1: string, n2: string)
    requires StartsWith(n1, "/") == StartsWith(n2, "/")
    requires Join(dir, n1) == Join(dir, n2)
    ensures n1 == n2
  {
    if !StartsWith(n1, "/") {
      assert n1 == [] || n1[0] != '/';
      assert n2 == [] || n2[0] != '/';
      JoinRelative(dir, n1);
      JoinRelative(dir, n2);
      assert n1 == Join(dir, n1)[|JoinPrefix(dir)|..];
      assert n2 == Join(dir, n2)[|JoinPrefix(dir)|..];
    }
  }

  lemma NameStart(stem: string, t1: string, t2: string)
    requires |t1| > 0 && |t2| > 0 && t1[0] != '/' && t2[0] != '/'
    ensures StartsWith(Name(stem, t1), "/") == StartsWith(Name(stem, t2), "/")
  {
    if |stem| > 0 {
      assert Name(stem, t1)[0] == stem[0] && Name(stem, t2)[0] == stem[0];
    } else {
      assert Name(stem, t1)[0] == t1[0] && Name(stem, t2)[0] == t2[0];
    }
  }

  lemma NameStartBase(stem: string, t: string)
    requires |t| > 0 && t[0] != '/'
    ensures StartsWith(Name(stem, t), "/") == StartsWith(Name(stem, ""), "/")
  {
    if |stem| > 0 {
      assert Name(stem, t)[0] == stem[0] && Name(stem, "")[0] == stem[0];
    } else {
      assert Name(stem, t)[0] == t[0];
      assert Name(stem, "")[0] == '.';
    }
  }

  lemma CounterTag(c: int)
    requires 1 <= c <= 999
    ensures var t := "_" + FormatInt(c, 3); |t| == 4 && t[0] == '_' && t[1..] == FormatInt(c, 3)
    ensures AllDigits(FormatInt(c, 3)) && Value(FormatInt(c, 3)) == c
  {
    assert Pow10(3) == 1000;
    FixedWidth(c, 3);
  }

  /** The 999 counter names are pairwise different and differ from the base name, so the
      timestamp name is used only when 1000 distinct files already exist. */
  lemma CandidatesDistinct(dir: string, stem: string, c1: int, c2: int)
    requires 1 <= c1 <= 999 && 1 <= c2 <= 999
    ensures Candidate(dir, stem, c1) == Candidate(dir, stem, c2) ==> c1 == c2
    ensures Candidate(dir, stem, c1) != BasePath(dir, stem)
  {
    var t1 := "_" + FormatInt(c1, 3);
    var t2 := "_" + FormatInt(c2, 3);
    CounterTag(c1);
    CounterTag(c2);
    NameStartBase(stem, t1);
    JoinLength(dir, Name(stem, t1));
    JoinLength(dir, Name(stem, ""));
    assert |Name(stem, t1)| == |Name(stem, "")| + 4;
    if Candidate(dir, stem, c1) == Candidate(dir, stem, c2) {
      NameStart(stem, t1, t2);
      JoinInjective(dir, Name(stem, t1), Name(stem, t2));
      assert Name(stem, t1)[|stem|..|stem| + 4] == t1;
      assert Name(stem, t2)[|stem|..|stem| + 4] == t2;
      assert t1[1..] == t2[1..];
    }
  }

  /** Probing never returns an existing file unless the base name and all 999 counter names
      are taken; conversely, once all are taken, the timestamp name is returned. */
  lemma ProbeNoOverwrite(dir: string, stem: string, existing: set<string>, ts: int, path: string)
    requires IsProbeResult(dir, stem, existing, ts, path)
    ensures !AllTaken(dir, stem, existing) ==> path !in existing
    ensures AllTaken(dir, stem, existing) ==> path == Fallback(dir, stem, ts)
  {
    if AllTaken(dir, stem, existing) {
      if c :| FirstFree(dir, stem, existing, c) && path == Candidate(dir, stem, c) {
        assert Candidate(dir, stem, c) in existing;
      }
    }
  }

  /** The probing outcome is determined by the directory contents. */
  lemma ProbeResultUnique(dir: string, stem: string, existing: set<string>, ts: int, p1: string, p2: string)
    requires IsProbeResult(dir, stem, existing, ts, p1) && IsProbeResult(dir, stem, existing, ts, p2)
    ensures p1 == p2
  {
    if BasePath(dir, stem) in existing {
      if c1 :| FirstFree(dir, stem, existing, c1) && p1 == Candidate(dir, stem, c1) {
        assert Candidate(dir, stem, c1) !in existing;
        if c2 :| FirstFree(dir, stem, existing, c2) && p2 == Candidate(dir, stem, c2) {
          assert Candidate(dir, stem, c2) !in existing;
          assert c1 == c2;
        }
      } else if c2 :| FirstFree(dir, stem, existing, c2) && p2 == Candidate(dir, stem, c2) {
        assert Candidate(dir, stem, c2) !in existing;
      }
    }
  }

  /** A probed name is `stem + tag + ".mp4"` inside the output directory: its extension is
      ".mp4" and its last component is the file name built from the stem. */
  lemma ProbeShape(dir: string, stem: string, tag: string)
    requires NoForbidden(stem) && |stem + tag| > 0 && IsDigit((stem + tag)[|stem + tag| - 1])
    requires forall k :: 0 <= k < |tag| ==> tag[k] != '/'
    ensures SplitExt(Probe(dir, stem, tag)) == (Join(dir, stem + tag), ".mp4")
    ensures BaseName(Probe(dir, stem, tag)) == stem + tag + ".mp4"
  {
    var st := stem + tag;
    forall k | 0 <= k < |st| ensures st[k] != '/' {
      if k < |stem| { assert st[k] == stem[k]; assert !Forbidden(stem[k]); } else { assert st[k] == tag[k - |stem|]; }
    }
    SplitJoined(dir, st, ".mp4");
    var name := st + ".mp4";
    forall k | 0 <= k < |name| ensures name[k] != '/' {
      if k < |st| { assert name[k] == st[k]; }
    }
    JoinName(dir, name);
  }

  lemma TagShape(stem: string, tag: string)
    requires NoForbidden(stem) && |stem| > 0 && IsDigit(stem[|stem| - 1])
    requires tag == "" || (tag[0] == '_' && IsDigit(tag[|tag| - 1]) && forall k :: 1 <= k < |tag| ==> IsDigit(tag[k]) || tag[k] == '-')
    ensures |stem + tag| > 0 && IsDigit((stem + tag)[|stem + tag| - 1])
    ensures forall k :: 0 <= k < |tag| ==> tag[k] != '/'
    ensures StartsWith(Name(stem, tag), stem)
  {
    assert (stem + tag)[|stem + tag| - 1] == if tag == "" then stem[|stem| - 1] else tag[|tag| - 1];
    assert Name(stem, tag)[..|stem|] == stem;
  }

  lemma NumberTag(n: int, w: nat)
    ensures var tag := "_" + FormatInt(n, w);
      tag[0] == '_' && IsDigit(tag[|tag| - 1]) && forall k :: 1 <= k < |tag| ==> IsDigit(tag[k]) || tag[k] == '-'
  {
    var f := FormatInt(n, w);
    FormatIntChars(n, w);
    var tag := "_" + f;
    forall k | 1 <= k < |tag| ensures IsDigit(tag[k]) || tag[k] == '-' {
      assert tag[k] == f[k - 1];
    }
    assert tag[|tag| - 1] == f[|f| - 1];
  }

  lemma TaggedShape(dir: string, stem: string, tag: string)
    requires NoForbidden(stem) && |stem| > 0 && IsDigit(stem[|stem| - 1])
    requires tag == "" || (tag[0] == '_' && IsDigit(tag[|tag| - 1]) && forall k :: 1 <= k < |tag| ==> IsDigit(tag[k]) || tag[k] == '-')
    ensures SplitExt(Probe(dir, stem, tag)).1 == ".mp4"
    ensures StartsWith(BaseName(Probe(dir, stem, tag)), stem)
  {
    TagShape(stem, tag);
    ProbeShape(dir, stem, tag);
  }

  lemma ProbeResultShape(dir: string, stem: string, existing: set<string>, ts: int, path: string)
    requires NoForbidden(stem) && |stem| > 0 && IsDigit(stem[|stem| - 1])
    requires IsProbeResult(dir, stem, existing, ts, path)
    ensures SplitExt(path).1 == ".mp4"
    ensures StartsWith(BaseName(path), stem)
  {
    if path == BasePath(dir, stem) {
      TaggedShape(dir, stem, "");
    } else if c :| FirstFree(dir, stem, existing, c) && path == Candidate(dir, stem, c) {
      NumberTag(c, 3);
      TaggedShape(dir, stem, "_" + FormatInt(c, 3));
    } else {
      assert path == Fallback(dir, stem, ts);
      NumberTag(ts, 0);
      TaggedShape(dir, stem, "_" + FormatInt(ts, 0));
    }
  }

  /** Every name `_generate_filename` can return is an ".mp4" file directly in the output
      directory whose name starts with the stem. */
  lemma ResultShape(dir: string, pattern: string, username: string, title: string, now: DateTime, existing: set<string>, ts: int, path: string)
    requires 0 <= now.microsecond < 1000000
    requires IsProbeResult(dir, Stem(pattern, username, title, now), existing, ts, path)
    ensures SplitExt(path).1 == ".mp4"
    ensures StartsWith(BaseName(path), Stem(pattern, username, title, now))
  {
    var stem := Stem(pattern, username, title, now);
    StemShape(pattern, username, title, now);
    assert IsDigit(stem[|stem| - 1]) by { assert stem[|stem| - 1] == stem[|stem| - 3..][2]; }
    ProbeResultShape(dir, stem, existing, ts, path);
  }
}
