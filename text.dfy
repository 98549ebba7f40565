/** String operations from Python's `str` that the recorder relies on, over `seq<char>`.
    Case mapping and whitespace are the ASCII subset of Python's Unicode rules. */
module Text {
  import opened Optional

  /** `str.isspace()` restricted to the ASCII range: space, \t \n \v \f \r and \x1c-\x1f. */
  predicate IsSpace(c: char) {
    c == ' ' || (9 <= c as int <= 13) || (28 <= c as int <= 31)
  }

  function LowerChar(c: char): (r: char)
    ensures !('A' <= r <= 'Z')
    ensures r == c || 'A' <= c <= 'Z'
  {
    if 'A' <= c <= 'Z' then (c as int + 32) as char else c
  }

  /** `s.lower()` on ASCII letters. */
  function Lower(s: string): (r: string)
    ensures |r| == |s|
    ensures forall i :: 0 <= i < |s| ==> r[i] == LowerChar(s[i])
  {
    seq(|s|, i requires 0 <= i < |s| => LowerChar(s[i]))
  }

  predicate StartsWith(s: string, prefix: string) {
    |prefix| <= |s| && s[..|prefix|] == prefix
  }

  predicate EndsWith(s: string, suffix: string) {
    |suffix| <= |s| && s[|s| - |suffix|..] == suffix
  }

  /** Python's `sub in s`. */
  predicate Contains(s: string, sub: string)
    decreases |s|
  {
    StartsWith(s, sub) || (|s| > 0 && Contains(s[1..], sub))
  }

  /** `s[:n]`. */
  function Take(s: string, n: nat): (r: string)
    ensures |r| <= n && StartsWith(s, r)
  {
    if |s| <= n then s else s[..n]
  }

  function LStripSpace(s: string): (r: string)
    ensures |r| <= |s| && EndsWith(s, r)
    ensures |r| > 0 ==> !IsSpace(r[0])
  {
    if |s| > 0 && IsSpace(s[0]) then LStripSpace(s[1..]) else s
  }

  function RStripSpace(s: string): (r: string)
    ensures |r| <= |s| && StartsWith(s, r)
    ensures |r| > 0 ==> !IsSpace(r[|r| - 1])
  {
    if |s| > 0 && IsSpace(s[|s| - 1]) then RStripSpace(s[..|s| - 1]) else s
  }

  /** `s.strip()`. */
  function Strip(s: string): string {
    RStripSpace(LStripSpace(s))
  }

  /** `s.lstrip(c)` for a single character `c`. */
  function LStripChar(s: string, c: char): (r: string)
    ensures |r| <= |s| && EndsWith(s, r)
    ensures |r| > 0 ==> r[0] != c
  {
    if |s| > 0 && s[0] == c then LStripChar(s[1..], c) else s
  }

  /** `s.replace(pat, rep)`: every non-overlapping occurrence, scanning left to right. */
  function Replace(s: string, pat: string, rep: string): string
    requires |pat| > 0
    decreases |s|
  {
    if |s| < |pat| then s
    else if s[..|pat|] == pat then rep + Replace(s[|pat|..], pat, rep)
    else [s[0]] + Replace(s[1..], pat, rep)
  }

  /** The pattern alone is replaced by the replacement. */
  lemma ReplaceWhole(pat: string, rep: string)
    requires |pat| > 0
    ensures Replace(pat, pat, rep) == rep
  {
    assert pat[..|pat|] == pat;
    assert pat[|pat|..] == [];
    assert rep + [] == rep;
  }

  /** `pat` occurs in `s` at position `i`. */
  predicate OccursAt(s: string, pat: string, i: int) {
    0 <= i && i + |pat| <= |s| && s[i..i + |pat|] == pat
  }

  /** A string in which the pattern occurs nowhere is left unchanged. */
  lemma {:induction false} ReplaceAbsent(s: string, pat: string, rep: string)
    requires |pat| > 0
    requires forall i :: !OccursAt(s, pat, i)
    ensures Replace(s, pat, rep) == s
    decreases |s|
  {
    if |s| >= |pat| {
      assert !OccursAt(s, pat, 0);
      assert s[0..|pat|] == s[..|pat|];
      forall i ensures !OccursAt(s[1..], pat, i) {
        if 0 <= i && i + |pat| <= |s[1..]| {
          assert s[1..][i..i + |pat|] == s[i + 1..i + 1 + |pat|];
          assert !OccursAt(s, pat, i + 1);
        }
      }
      ReplaceAbsent(s[1..], pat, rep);
      assert [s[0]] + s[1..] == s;
    }
  }

  /** A pattern whose first character is not in `s` occurs nowhere in it. */
  lemma FirstCharAbsent(s: string, pat: string)
    requires |pat| > 0 && pat[0] !in s
    ensures forall i :: !OccursAt(s, pat, i)
  {
    forall i ensures !OccursAt(s, pat, i) {
      if 0 <= i && i + |pat| <= |s| {
        assert s[i..i + |pat|][0] == s[i];
        assert s[i] in s;
      }
    }
  }

  /** No two positions hold the same string. */
  predicate Distinct(s: seq<string>) {
    forall i, j :: 0 <= i < j < |s| ==> s[i] != s[j]
  }

  /** The characters the recorder removes from file names: `<>:"/\|?*`. */
  predicate Forbidden(c: char) {
    c == '<' || c == '>' || c == ':' || c == '"' || c == '/' || c == '\\' || c == '|' || c == '?' || c == '*'
  }

  predicate NoForbidden(s: string) {
    forall i :: 0 <= i < |s| ==> !Forbidden(s[i])
  }

  /** `re.sub(r'[<>:"/\\|?*]', '', s)`: drops the forbidden characters and keeps the rest in order. */
  function StripForbidden(s: string): (r: string)
    ensures NoForbidden(r)
    ensures |r| <= |s|
    ensures NoForbidden(s) ==> r == s
  {
    if s == [] then []
    else if Forbidden(s[0]) then StripForbidden(s[1..])
    else [s[0]] + StripForbidden(s[1..])
  }

  /** A single character is dropped exactly when it is forbidden. */
  lemma StripForbiddenChar(c: char)
    ensures StripForbidden([c]) == if Forbidden(c) then [] else [c]
  {
    assert [c][1..] == [];
  }

  /** The filter works character by character: it distributes over concatenation, so what is
      kept keeps its order. */
  lemma {:induction false} StripForbiddenConcat(a: string, b: string)
    ensures StripForbidden(a + b) == StripForbidden(a) + StripForbidden(b)
    decreases |a|
  {
    if a == [] {
      assert a + b == b;
    } else {
      assert (a + b)[0] == a[0];
      assert (a + b)[1..] == a[1..] + b;
      StripForbiddenConcat(a[1..], b);
    }
  }

  lemma NoForbiddenConcat(a: string, b: string)
    requires NoForbidden(a) && NoForbidden(b)
    ensures NoForbidden(a + b)
  {
    forall i | 0 <= i < |a + b| ensures !Forbidden((a + b)[i]) {
      if i < |a| { assert (a + b)[i] == a[i]; } else { assert (a + b)[i] == b[i - |a|]; }
    }
  }

  // ---------------------------------------------------------------------------
  // Decimal numerals: `str(n)` and the `{n:0Wd}` format.

  predicate IsDigit(c: char) { '0' <= c <= '9' }

  predicate AllDigits(s: string) {
    forall i :: 0 <= i < |s| ==> IsDigit(s[i])
  }

  function DigitChar(d: nat): (c: char)
    requires d < 10
    ensures IsDigit(c)
  {
    ('0' as int + d) as char
  }

  function DigitValue(c: char): nat
    requires IsDigit(c)
  {
    c as int - '0' as int
  }

  /** The decimal numeral of `n`, without leading zeros. */
  function Digits(n: nat): (r: string)
    ensures |r| >= 1 && AllDigits(r)
    decreases n
  {
    if n < 10 then [DigitChar(n)] else Digits(n / 10) + [DigitChar(n % 10)]
  }

  /** The number a string of digits denotes. */
  function Value(s: string): nat
    requires AllDigits(s)
  {
    if s == [] then 0 else Value(s[..|s| - 1]) * 10 + DigitValue(s[|s| - 1])
  }

  /** Left-pads with '0' up to width `w`. */
  function ZeroPad(s: string, w: nat): (r: string)
    ensures |r| == if |s| >= w then |s| else w
    ensures AllDigits(s) ==> AllDigits(r)
    ensures EndsWith(r, s)
    decreases w
  {
    if |s| >= w then s else "0" + ZeroPad(s, w - 1)
  }

  /** Python's `f"{n:0{w}d}"`: the sign counts towards the width. With `w == 0` it is `str(n)`. */
  function FormatInt(n: int, w: nat): (r: string)
    ensures |r| >= 1
  {
    if n < 0 then "-" + ZeroPad(Digits(-n), if w == 0 then 0 else w - 1)
    else ZeroPad(Digits(n), w)
  }

  /** Reads back a numeral written by `FormatInt`. */
  function ParseInt(s: string): Option<int> {
    if |s| > 1 && s[0] == '-' && AllDigits(s[1..]) then Some(-(Value(s[1..]) as int))
    else if |s| > 0 && AllDigits(s) then Some(Value(s))
    else None
  }

  lemma {:induction false} ValueOfDigits(n: nat)
    ensures Value(Digits(n)) == n
    decreases n
  {
    if n >= 10 {
      var d := Digits(n);
      assert d[..|d| - 1] == Digits(n / 10);
      ValueOfDigits(n / 10);
    }
  }

  lemma {:induction false} ValueLeadingZero(s: string)
    requires AllDigits(s)
    ensures AllDigits("0" + s) && Value("0" + s) == Value(s)
    decreases |s|
  {
    var t := "0" + s;
    assert AllDigits(t) by { assert forall i :: 0 < i < |t| ==> t[i] == s[i - 1]; }
    if s != [] {
      assert t[..|t| - 1] == "0" + s[..|s| - 1];
      ValueLeadingZero(s[..|s| - 1]);
    }
  }

  lemma {:induction false} ValueZeroPad(s: string, w: nat)
    requires AllDigits(s)
    ensures Value(ZeroPad(s, w)) == Value(s)
    decreases w
  {
    if |s| < w {
      ValueZeroPad(s, w - 1);
      ValueLeadingZero(ZeroPad(s, w - 1));
    }
  }

  /** `FormatInt` loses nothing: the numeral reads back as the number. */
  lemma FormatIntRoundTrip(n: int, w: nat)
    ensures ParseInt(FormatInt(n, w)) == Some(n)
  {
    if n < 0 {
      NegativeRoundTrip(-n, if w == 0 then 0 else w - 1);
    } else {
      PaddedValue(n, w);
      ParseDigits(ZeroPad(Digits(n), w), n);
    }
  }

  lemma NegativeRoundTrip(n: nat, w: nat)
    ensures ParseInt("-" + ZeroPad(Digits(n), w)) == Some(-(n as int))
  {
    PaddedValue(n, w);
    ParseNegative(ZeroPad(Digits(n), w), n);
  }

  lemma ParseDigits(z: string, n: nat)
    requires |z| >= 1 && AllDigits(z) && Value(z) == n
    ensures ParseInt(z) == Some(n)
  {
    assert IsDigit(z[0]);
  }

  lemma ParseNegative(z: string, n: nat)
    requires |z| >= 1 && AllDigits(z) && Value(z) == n
    ensures ParseInt("-" + z) == Some(-(n as int))
  {
    assert ("-" + z)[1..] == z;
  }

  /** The zero-padded numeral of `n` is all digits and reads back as `n`. */
  lemma PaddedValue(n: nat, w: nat)
    ensures AllDigits(ZeroPad(Digits(n), w)) && Value(ZeroPad(Digits(n), w)) == n
  {
    ValueZeroPad(Digits(n), w);
    ValueOfDigits(n);
  }

  lemma {:induction false} DigitsLength(n: nat, k: nat)
    requires n < Pow10(k)
    ensures |Digits(n)| <= if k == 0 then 1 else k
    decreases n
  {
    if n >= 10 {
      assert Pow10(0) == 1 && Pow10(1) == 10;
      assert k >= 2;
      DivPow10(n, k);
      DigitsLength(n / 10, k - 1);
    }
  }

  function Pow10(k: nat): nat { if k == 0 then 1 else 10 * Pow10(k - 1) }

  lemma DivPow10(n: nat, k: nat)
    requires k >= 1 && n < Pow10(k)
    ensures n / 10 < Pow10(k - 1)
  {
  }

  /** A number below 10^w formats with `{n:0wd}` into exactly `w` digits that read back as `n`. */
  lemma FixedWidth(n: nat, w: nat)
    requires w >= 1 && n < Pow10(w)
    ensures |FormatInt(n, w)| == w && AllDigits(FormatInt(n, w))
    ensures Value(FormatInt(n, w)) == n
  {
    DigitsLength(n, w);
    ValueZeroPad(Digits(n), w);
    ValueOfDigits(n);
  }

  /** A numeral is digits with perhaps a leading '-', and ends in a digit. */
  lemma FormatIntChars(n: int, w: nat)
    ensures forall i :: 0 <= i < |FormatInt(n, w)| ==> IsDigit(FormatInt(n, w)[i]) || FormatInt(n, w)[i] == '-'
    ensures IsDigit(FormatInt(n, w)[|FormatInt(n, w)| - 1])
  {
    if n < 0 {
      var z := ZeroPad(Digits(-n), if w == 0 then 0 else w - 1);
      assert forall i :: 1 <= i < |"-" + z| ==> ("-" + z)[i] == z[i - 1];
    }
  }

  /** Substrings of a string free of forbidden characters are free of them too. */
  lemma NoForbiddenSlice(s: string, a: nat, b: nat)
    requires NoForbidden(s) && a <= b <= |s|
    ensures NoForbidden(s[a..b])
  {
    forall i | 0 <= i < b - a ensures !Forbidden(s[a..b][i]) { assert s[a..b][i] == s[a + i]; }
  }
}
