/** Elapsed-time arithmetic of `Recorder.get_duration`: float clock readings truncated by
    `int(...)`, split by `divmod` and printed as `HH:MM:SS`. */
module Durations {
  import opened Optional
  import opened Text

  /** Python's `int(x)` on a float: truncation toward zero. */
  function Trunc(x: real): (r: int)
    ensures x >= 0.0 ==> 0 <= r && r as real <= x < r as real + 1.0
    ensures x < 0.0 ==> r <= 0 && r as real - 1.0 < x <= r as real
  {
    if x >= 0.0 then x.Floor else -((-x).Floor)
  }

  /** `f"{h:02d}:{m:02d}:{s:02d}"` with `h, r = divmod(elapsed, 3600)` and `m, s = divmod(r, 60)`.
      Dafny's `/` and `%` by a positive divisor floor, as `divmod` does. */
  function FormatHMS(elapsed: int): string {
    var h := elapsed / 3600;
    var rest := elapsed % 3600;
    FormatInt(h, 2) + ":" + FormatInt(rest / 60, 2) + ":" + FormatInt(rest % 60, 2)
  }

  /** The three fields of a printed duration are where `ParseHMS` looks for them. */
  lemma {:induction false} FieldsOfJoined(hs: string, ms: string, ss: string)
    requires |ms| == 2 && |ss| == 2
    ensures var r := hs + ":" + ms + ":" + ss;
      |r| == |hs| + 6 && r[|r| - 3] == ':' && r[|r| - 6] == ':' &&
      r[..|r| - 6] == hs && r[|r| - 5..|r| - 3] == ms && r[|r| - 2..] == ss
  {
  }

  /** Below 100 hours the text is exactly `HH:MM:SS`, every field two digits. */
  lemma FormatHMSWidth(elapsed: int)
    requires 0 <= elapsed < 360000
    ensures |FormatHMS(elapsed)| == 8
  {
    var h := elapsed / 3600;
    var rest := elapsed % 3600;
    assert 0 <= h < 100;
    assert 0 <= rest / 60 < 60 && 0 <= rest % 60 < 60;
    assert Pow10(2) == 100;
    FixedWidth(h, 2);
    FixedWidth(rest / 60, 2);
    FixedWidth(rest % 60, 2);
    FieldsOfJoined(FormatInt(h, 2), FormatInt(rest / 60, 2), FormatInt(rest % 60, 2));
  }

  /** The seconds of `h` hours, `m` minutes and `s` seconds. */
  function Seconds(h: int, m: int, s: int): int {
    h * 3600 + m * 60 + s
  }

  /** `divmod(e, 3600)` and `divmod(r, 60)` split `e` into fields that add back up to it. */
  lemma DivModParts(e: int)
    ensures e == Seconds(e / 3600, (e % 3600) / 60, (e % 3600) % 60)
    ensures 0 <= (e % 3600) / 60 < 60 && 0 <= (e % 3600) % 60 < 60
  {
    var r := e % 3600;
    assert e == (e / 3600) * 3600 + r;
    assert 0 <= r < 3600;
    assert r == (r / 60) * 60 + r % 60;
  }

  /** Reads a duration printed as `H:MM:SS` (any number of hour digits, possibly negative). */
  function ParseHMS(s: string): Option<int> {
    var n := |s|;
    if n < 7 || s[n - 3] != ':' || s[n - 6] != ':' then None
    else
      var h := ParseInt(s[..n - 6]);
      var mm := s[n - 5..n - 3];
      var ss := s[n - 2..];
      if h.Some? && AllDigits(mm) && AllDigits(ss) then Some(Seconds(h.value, Value(mm), Value(ss)))
      else None
  }

  lemma ParseJoined(hs: string, ms: string, ss: string, h: int, m: int, sec: int)
    requires ParseInt(hs) == Some(h) && |hs| >= 1
    requires |ms| == 2 && |ss| == 2 && AllDigits(ms) && AllDigits(ss)
    requires Value(ms) == m && Value(ss) == sec
    ensures ParseHMS(hs + ":" + ms + ":" + ss) == Some(Seconds(h, m, sec))
  {
    var r := hs + ":" + ms + ":" + ss;
    FieldsOfJoined(hs, ms, ss);
    var n := |r|;
    assert r[..n - 6] == hs && r[n - 5..n - 3] == ms && r[n - 2..] == ss;
  }

  lemma ParseFields(h: int, m: int, sec: int)
    requires 0 <= m < 60 && 0 <= sec < 60
    ensures ParseHMS(FormatInt(h, 2) + ":" + FormatInt(m, 2) + ":" + FormatInt(sec, 2)) == Some(Seconds(h, m, sec))
  {
    assert Pow10(2) == 100;
    FixedWidth(m, 2);
    FixedWidth(sec, 2);
    FormatIntRoundTrip(h, 2);
    ParseJoined(FormatInt(h, 2), FormatInt(m, 2), FormatInt(sec, 2), h, m, sec);
  }

  /** The printed duration determines the elapsed seconds: minutes and seconds are always two
      digits below 60, and the hour field keeps the sign `divmod` gives it. */
  lemma FormatHMSRoundTrip(elapsed: int)
    ensures ParseHMS(FormatHMS(elapsed)) == Some(elapsed)
  {
    var h := elapsed / 3600;
    var m := (elapsed % 3600) / 60;
    var sec := (elapsed % 3600) % 60;
    DivModParts(elapsed);
    assert FormatHMS(elapsed) == FormatInt(h, 2) + ":" + FormatInt(m, 2) + ":" + FormatInt(sec, 2);
    ParseFields(h, m, sec);
  }

  /** What `get_duration` promises of a printed duration: it reads back, and it is eight
      characters below 100 hours. */
  lemma DurationText(elapsed: int)
    ensures ParseHMS(FormatHMS(elapsed)) == Some(elapsed)
    ensures 0 <= elapsed < 360000 ==> |FormatHMS(elapsed)| == 8
  {
    FormatHMSRoundTrip(elapsed);
    if 0 <= elapsed < 360000 {
      FormatHMSWidth(elapsed);
    }
  }

  /** No elapsed time prints as "00:00:00". */
  lemma ZeroHMS()
    ensures FormatHMS(0) == "00:00:00"
  {
    assert Digits(0) == "0";
    assert ZeroPad("0", 1) == "0";
    assert ZeroPad("0", 2) == "00";
    var z := FormatInt(0, 2);
    assert z == "00";
    assert FormatHMS(0) == z + ":" + z + ":" + z;
  }
}
