/** `TikTokAPI`: normalising a handle, the two lookup strategies (yt-dlp metadata, then the
    live page's embedded JSON), the first-match choice among yt-dlp formats, the sorting of
    yt-dlp failures into user-facing messages, and which error `get_live_info` reports. */
module Resolver {
  import opened Optional
  import opened Text
  import opened StreamUrls

  // ---------------------------------------------------------------------------
  // Messages (Indonesian, as shown to the user)

  const EmptyHandleMsg := "Username tidak boleh kosong"
  const NotLiveMsg := "User tidak sedang live"
  const NeedsCookiesMsg := "Butuh cookies! Export cookies dari browser."
  const PrivateMsg := "Live bersifat private"
  const NotFoundMsg := "User tidak ditemukan"
  const UnresolvedMsg := "Tidak bisa mendapatkan info live"

  /** The result dictionary both strategies and `get_live_info` return. */
  datatype LiveInfo = LiveInfo(
    success: bool,
    isLive: bool,
    username: string,
    title: string,
    viewerCount: int,
    thumbnailUrl: Option<string>,
    streamUrl: Option<string>,
    error: Option<string>)

  /** The initial result: nothing found, no error yet. */
  function Blank(username: string): (r: LiveInfo)
    ensures !r.success && !r.isLive && r.username == username && r.error == None && r.streamUrl == None
  {
    LiveInfo(false, false, username, "", 0, None, None, None)
  }

  /** Python truthiness of the "error" entry. */
  predicate HasError(r: LiveInfo) {
    r.error.Some? && r.error.value != ""
  }

  // ---------------------------------------------------------------------------
  // Handle normalisation

  /** `username.strip().lstrip("@").lower()`. */
  function Normalise(username: string): (h: string)
    ensures |h| <= |username|
    ensures |h| > 0 ==> h[0] != '@'
    ensures forall i :: 0 <= i < |h| ==> !('A' <= h[i] <= 'Z')
  {
    var s := LStripChar(Strip(username), '@');
    assert |s| > 0 ==> LowerChar(s[0]) == s[0] || 'A' <= s[0] <= 'Z';
    Lower(s)
  }

  lemma {:induction false} RStripAfterAt(h: string)
    ensures RStripSpace("@" + h) == "@" + RStripSpace(h)
    decreases |h|
  {
    if |h| > 0 && IsSpace(h[|h| - 1]) {
      assert ("@" + h)[..|"@" + h| - 1] == "@" + h[..|h| - 1];
      RStripAfterAt(h[..|h| - 1]);
    }
  }

  /** A leading "@" written before the handle does not change who is meant. */
  lemma AtSignIgnored(h: string)
    requires h == "" || !IsSpace(h[0])
    ensures Normalise("@" + h) == Normalise(h)
  {
    assert LStripSpace("@" + h) == "@" + h;
    assert LStripSpace(h) == h;
    RStripAfterAt(h);
    assert ("@" + RStripSpace(h))[1..] == RStripSpace(h);
  }

  /** A handle already in canonical form (non-empty, lower-case, no surrounding white space,
      no leading "@") normalises to itself. */
  lemma CanonicalStable(h: string)
    requires |h| > 0 && !IsSpace(h[0]) && !IsSpace(h[|h| - 1]) && h[0] != '@'
    requires forall i :: 0 <= i < |h| ==> !('A' <= h[i] <= 'Z')
    ensures Normalise(h) == h
  {
    assert LStripSpace(h) == h;
    assert RStripSpace(h) == h;
    assert LStripChar(h, '@') == h;
  }

  /** Lower-casing first does not change the normalised handle. */
  lemma LowerIdempotent(s: string)
    ensures Lower(Lower(s)) == Lower(s)
  {
  }

  function LiveUrl(handle: string): string {
    "https://www.tiktok.com/@" + handle + "/live"
  }

  // ---------------------------------------------------------------------------
  // yt-dlp failures

  datatype DownloadCategory = Offline | Cookies | PrivateLive | Missing | OtherFailure

  /** The ordered substring tests on the lower-cased yt-dlp message. */
  function CategoryOf(msg: string): (c: DownloadCategory)
    ensures c == Offline <==> Contains(msg, "not currently live") || Contains(msg, "offline")
    ensures c == Cookies <==>
      !(Contains(msg, "not currently live") || Contains(msg, "offline")) && (Contains(msg, "captcha") || Contains(msg, "verify"))
    ensures c == PrivateLive <==>
      !(Contains(msg, "not currently live") || Contains(msg, "offline") || Contains(msg, "captcha") || Contains(msg, "verify"))
      && Contains(msg, "private")
    ensures c == Missing <==>
      !(Contains(msg, "not currently live") || Contains(msg, "offline") || Contains(msg, "captcha") || Contains(msg, "verify")
        || Contains(msg, "private"))
      && (Contains(msg, "not exist") || Contains(msg, "404"))
    ensures c == OtherFailure <==>
      !(Contains(msg, "not currently live") || Contains(msg, "offline") || Contains(msg, "captcha") || Contains(msg, "verify")
        || Contains(msg, "private") || Contains(msg, "not exist") || Contains(msg, "404"))
  {
    if Contains(msg, "not currently live") || Contains(msg, "offline") then Offline
    else if Contains(msg, "captcha") || Contains(msg, "verify") then Cookies
    else if Contains(msg, "private") then PrivateLive
    else if Contains(msg, "not exist") || Contains(msg, "404") then Missing
    else OtherFailure
  }

  /** The error text `_try_ytdlp` reports for a `DownloadError` with message `e`. */
  function DownloadErrorMessage(e: string): (m: string)
    ensures |m| > 0
    ensures CategoryOf(Lower(e)) == OtherFailure <==> StartsWith(m, "yt-dlp: ")
    ensures CategoryOf(Lower(e)) == OtherFailure ==> m[8..] == Take(e, 60)
  {
    assert NotLiveMsg[0] == 'U' && NeedsCookiesMsg[0] == 'B' && PrivateMsg[0] == 'L' && NotFoundMsg[0] == 'U';
    match CategoryOf(Lower(e))
    case Offline => NotLiveMsg
    case Cookies => NeedsCookiesMsg
    case PrivateLive => PrivateMsg
    case Missing => NotFoundMsg
    case OtherFailure => "yt-dlp: " + Take(e, 60)
  }

  /** Reads the category back from a reported message. */
  function CategoryOfMessage(m: string): DownloadCategory {
    if m == NotLiveMsg then Offline
    else if m == NeedsCookiesMsg then Cookies
    else if m == PrivateMsg then PrivateLive
    else if m == NotFoundMsg then Missing
    else OtherFailure
  }

  /** The five kinds of failure give distinguishable messages: the category is recovered from
      the message alone. */
  lemma DownloadErrorRoundTrip(e: string)
    ensures CategoryOfMessage(DownloadErrorMessage(e)) == CategoryOf(Lower(e))
  {
    if CategoryOf(Lower(e)) == OtherFailure {
      var m := DownloadErrorMessage(e);
      assert m[0] == 'y';
      assert NotLiveMsg[0] == 'U' && NeedsCookiesMsg[0] == 'B' && PrivateMsg[0] == 'L' && NotFoundMsg[0] == 'U';
    }
  }

  /** The test is on the lower-cased message, so two messages that differ only in letter case
      are classified alike and report the same text, except for the echo of the original
      message in an unclassified one. */
  lemma CategoryIgnoresCase(e1: string, e2: string)
    requires Lower(e1) == Lower(e2)
    ensures CategoryOf(Lower(e1)) == CategoryOf(Lower(e2))
    ensures CategoryOf(Lower(e1)) != OtherFailure ==> DownloadErrorMessage(e1) == DownloadErrorMessage(e2)
    ensures CategoryOf(Lower(e1)) == OtherFailure ==>
      DownloadErrorMessage(e1) == "yt-dlp: " + Take(e1, 60) && DownloadErrorMessage(e2) == "yt-dlp: " + Take(e2, 60)
  {
  }

  /** A message and its lower-cased form fall in the same category. */
  lemma LowerKeepsCategory(e: string)
    ensures CategoryOf(Lower(Lower(e))) == CategoryOf(Lower(e))
  {
    LowerIdempotent(e);
  }

  // ---------------------------------------------------------------------------
  // yt-dlp strategy

  /** One entry of `info["formats"]`; `url` is "" when absent or empty. */
  datatype Format = Format(formatId: string, url: string)

  /** The fields of yt-dlp's `info` dictionary that are read; None where the key is absent. */
  datatype YtInfo = YtInfo(title: Option<string>, viewerCount: Option<int>, thumbnail: Option<string>, formats: seq<Format>)

  /** What `extract_info` did: returned (a possibly empty) `info`, or raised. */
  datatype YtOutcome = Extracted(info: Option<YtInfo>) | DownloadError(message: string) | OtherError(message: string)

  function Candidates(fs: seq<Format>): (cs: seq<(string, string)>)
    ensures |cs| == |fs| && forall j :: 0 <= j < |fs| ==> cs[j] == (fs[j].formatId, fs[j].url)
  {
    seq(|fs|, j requires 0 <= j < |fs| => (fs[j].formatId, fs[j].url))
  }

  /** The first non-empty URL, if any. */
  ghost predicate FirstUrl(cs: seq<(string, string)>, r: Option<string>) {
    || (exists j :: 0 <= j < |cs| && cs[j].1 != "" && (forall j' :: 0 <= j' < j ==> cs[j'].1 == "") && r == Some(cs[j].1))
    || ((forall j :: 0 <= j < |cs| ==> cs[j].1 == "") && r == None)
  }

  /** The format loop of `_try_ytdlp`: the first-match rule over format ids, falling back to
      the first format that has a URL; None when no format has one. */
  method PickFormatUrl(formats: seq<Format>, prefs: seq<string>) returns (r: Option<string>)
    ensures exists fb :: FirstUrl(Candidates(formats), fb) && PreferredOr(Candidates(formats), prefs, fb, r)
    ensures r.Some? ==> r.value != ""
  {
    ghost var cs := Candidates(formats);
    for i := 0 to |prefs|
      invariant forall i', j' :: 0 <= i' < i && 0 <= j' < |cs| ==> !Hit(prefs[i'], cs[j'])
    {
      for j := 0 to |formats|
        invariant forall j' :: 0 <= j' < j ==> !Hit(prefs[i], cs[j'])
      {
        if Contains(Lower(formats[j].formatId), Lower(prefs[i])) && formats[j].url != "" {
          assert FirstHitAt(cs, prefs, i, j);
          r := Some(formats[j].url);
          ghost var fb := FallbackExists(cs);
          return;
        }
      }
    }
    r := None;
    for j := 0 to |formats|
      invariant forall j' :: 0 <= j' < j ==> cs[j'].1 == ""
    {
      if formats[j].url != "" {
        r := Some(formats[j].url);
        assert FirstUrl(cs, r);
        return;
      }
    }
    assert FirstUrl(cs, r);
  }

  lemma FallbackExists(cs: seq<(string, string)>) returns (fb: Option<string>)
    ensures FirstUrl(cs, fb)
    decreases |cs|
  {
    if cs == [] {
      fb := None;
    } else if cs[0].1 != "" {
      fb := Some(cs[0].1);
      assert 0 < |cs| && cs[0].1 != "";
    } else {
      var t := FallbackExists(cs[1..]);
      fb := t;
      if j :| 0 <= j < |cs[1..]| && cs[1..][j].1 != "" && (forall j' :: 0 <= j' < j ==> cs[1..][j'].1 == "") && t == Some(cs[1..][j].1) {
        assert cs[j + 1].1 != "" && forall j' :: 0 <= j' < j + 1 ==> cs[j'].1 == "";
      }
    }
  }

  /** `_try_ytdlp` after `extract_info`: a non-empty `info` means live, with its title (default
      "TikTok Live"), view count (0 when absent), thumbnail ("" when absent) and chosen format;
      a `DownloadError` is sorted into a message; any other exception reports its first 60
      characters. */
  method TryYtdlp(username: string, quality: string, outcome: YtOutcome) returns (r: LiveInfo)
    ensures r.username == username
    ensures r.success <==> outcome.Extracted? && outcome.info.Some?
    ensures r.success ==> r.isLive && r.error == None
    ensures r.success ==> r.title == outcome.info.value.title.GetOr("TikTok Live")
    ensures r.success ==> r.viewerCount == outcome.info.value.viewerCount.GetOr(0)
    ensures r.success ==> r.thumbnailUrl == Some(outcome.info.value.thumbnail.GetOr(""))
    ensures r.success ==> exists fb :: FirstUrl(Candidates(outcome.info.value.formats), fb)
                                  && PreferredOr(Candidates(outcome.info.value.formats), Preferences(quality), fb, r.streamUrl)
    ensures outcome.Extracted? && outcome.info.None? ==> r == Blank(username)
    ensures outcome.DownloadError? ==> r == Blank(username).(error := Some(DownloadErrorMessage(outcome.message)))
    ensures outcome.OtherError? ==> r == Blank(username).(error := Some("Error: " + Take(outcome.message, 60)))
  {
    r := Blank(username);
    match outcome {
      case Extracted(info) =>
        if info.Some? {
          var i := info.value;
          var best := PickFormatUrl(i.formats, Preferences(quality));
          r := r.(isLive := true, success := true, title := i.title.GetOr("TikTok Live"),
                  viewerCount := i.viewerCount.GetOr(0), thumbnailUrl := Some(i.thumbnail.GetOr("")),
                  streamUrl := best);
        }
      case DownloadError(m) =>
        r := r.(error := Some(DownloadErrorMessage(m)));
      case OtherError(m) =>
        r := r.(error := Some("Error: " + Take(m, 60)));
    }
  }

  // ---------------------------------------------------------------------------
  // Page-scraping strategy

  /** A live room found in the page's JSON; `title` is None when the key is absent. */
  datatype Room = Room(title: Option<string>, viewerCount: int, coverUrl: string, streamData: StreamData)

  /** The already-parsed live page. `sigi` holds the room and the user's nickname when the
      SIGI_STATE script parses and has a non-empty `liveRoomUserInfo.liveRoom`; `next` the room
      when `__NEXT_DATA__` parses and has a non-empty `props.pageProps.liveRoom`. */
  datatype ScrapeOutcome =
    | Page(html: string, sigi: Option<(Room, Option<string>)>, next: Option<Room>)
    | RequestFailed(message: string)
    | Crashed(message: string)

  predicate AsksForVerification(html: string) {
    Contains(Lower(html), "captcha") || Contains(Lower(html), "verify")
  }

  predicate SaysNotLive(html: string) {
    Contains(html, "isn't hosting a LIVE") || Contains(Lower(html), "currently not hosting")
  }

  /** The title the SIGI_STATE branch shows: the room's title unless empty, else the nickname
      (default "TikTok Live"). */
  function SigiTitle(room: Room, nickname: Option<string>): (t: string)
    ensures room.title.Some? && room.title.value != "" ==> t == room.title.value
    ensures (room.title.None? || room.title.value == "") ==> t == nickname.GetOr("TikTok Live")
  {
    var t := room.title.GetOr("");
    if t != "" then t else nickname.GetOr("TikTok Live")
  }

  /** `_try_web_scrape` after the request: a verification page is refused first; then a room in
      SIGI_STATE, then one in `__NEXT_DATA__`, is reported live with its stream URL; otherwise the
      "not hosting" wording gives the not-live error and anything else no error at all. */
  method TryWebScrape(username: string, quality: string, outcome: ScrapeOutcome) returns (r: LiveInfo)
    ensures r.username == username
    ensures r.success <==> outcome.Page? && !AsksForVerification(outcome.html) && (outcome.sigi.Some? || outcome.next.Some?)
    ensures r.success ==> r.isLive && r.error == None
    ensures r.success && outcome.sigi.Some? ==>
      var room := outcome.sigi.value.0;
      && r.title == SigiTitle(room, outcome.sigi.value.1) && r.viewerCount == room.viewerCount
      && r.thumbnailUrl == Some(room.coverUrl)
      && Selected(PutAll([], Writes(room.streamData)), Preferences(quality), r.streamUrl)
    ensures r.success && outcome.sigi.None? ==>
      var room := outcome.next.value;
      && r.title == room.title.GetOr("TikTok Live") && r.viewerCount == room.viewerCount
      && r.thumbnailUrl == Some(room.coverUrl)
      && Selected(PutAll([], Writes(room.streamData)), Preferences(quality), r.streamUrl)
    ensures outcome.Page? && AsksForVerification(outcome.html) ==> r == Blank(username).(error := Some(NeedsCookiesMsg))
    ensures !r.success && outcome.Page? && !AsksForVerification(outcome.html) ==>
      r == Blank(username).(error := if SaysNotLive(outcome.html) then Some(NotLiveMsg) else None)
    ensures outcome.RequestFailed? ==> r == Blank(username).(error := Some("Network error: " + Take(outcome.message, 40)))
    ensures outcome.Crashed? ==> r == Blank(username).(error := Some("Scrape error: " + Take(outcome.message, 40)))
  {
    r := Blank(username);
    match outcome {
      case Page(html, sigi, next) =>
        if Contains(Lower(html), "captcha") || Contains(Lower(html), "verify") {
          r := r.(error := Some(NeedsCookiesMsg));
          return;
        }
        if sigi.Some? {
          var room := sigi.value.0;
          var url := ExtractStreamUrl(room.streamData, quality);
          r := r.(isLive := true, success := true, title := SigiTitle(room, sigi.value.1),
                  viewerCount := room.viewerCount, thumbnailUrl := Some(room.coverUrl), streamUrl := url);
          return;
        }
        if next.Some? {
          var room := next.value;
          var url := ExtractStreamUrl(room.streamData, quality);
          r := r.(isLive := true, success := true, title := room.title.GetOr("TikTok Live"),
                  viewerCount := room.viewerCount, thumbnailUrl := Some(room.coverUrl), streamUrl := url);
          return;
        }
        if Contains(html, "isn't hosting a LIVE") || Contains(Lower(html), "currently not hosting") {
          r := r.(error := Some(NotLiveMsg));
        }
      case RequestFailed(m) =>
        r := r.(error := Some("Network error: " + Take(m, 40)));
      case Crashed(m) =>
        r := r.(error := Some("Scrape error: " + Take(m, 40)));
    }
  }

  // ---------------------------------------------------------------------------
  // get_live_info

  /** The error a failed lookup reports: the first strategy's if set, else the second's, else
      the generic message. It is never empty. */
  function ReportedError(a: LiveInfo, b: LiveInfo): (e: string)
    ensures e != ""
    ensures HasError(a) ==> e == a.error.value
    ensures !HasError(a) && HasError(b) ==> e == b.error.value
    ensures !HasError(a) && !HasError(b) ==> e == UnresolvedMsg
  {
    if HasError(a) then a.error.value
    else if HasError(b) then b.error.value
    else UnresolvedMsg
  }

  /** `get_live_info`, with the two strategies passed in: `ytdlp(url, handle, quality)` and
      `scrape(handle, quality)`. */
  function GetLiveInfo(username: string, quality: string,
                       ytdlp: (string, string, string) -> LiveInfo,
                       scrape: (string, string) -> LiveInfo): (r: LiveInfo)
    ensures r.username == Normalise(username)
    ensures Normalise(username) == "" ==> r == Blank("").(error := Some(EmptyHandleMsg))
    ensures r.success <==>
      Normalise(username) != "" &&
      (ytdlp(LiveUrl(Normalise(username)), Normalise(username), quality).success || scrape(Normalise(username), quality).success)
    ensures !r.success ==> !r.isLive && r.streamUrl == None && r.error.Some? && r.error.value != ""
  {
    var h := Normalise(username);
    if h == "" then Blank(h).(error := Some(EmptyHandleMsg))
    else
      var a := ytdlp(LiveUrl(h), h, quality);
      if a.success then a.(username := h)
      else
        var b := scrape(h, quality);
        if b.success then b.(username := h)
        else Blank(h).(error := Some(ReportedError(a, b)))
  }

  /** The first strategy's successful result is returned as is, apart from the normalised
      handle, and the fallback's answer does not matter. */
  lemma FirstStrategyWins(username: string, quality: string, ytdlp: (string, string, string) -> LiveInfo,
                          scrape1: (string, string) -> LiveInfo, scrape2: (string, string) -> LiveInfo)
    requires Normalise(username) != ""
    requires ytdlp(LiveUrl(Normalise(username)), Normalise(username), quality).success
    ensures GetLiveInfo(username, quality, ytdlp, scrape1) == GetLiveInfo(username, quality, ytdlp, scrape2)
    ensures GetLiveInfo(username, quality, ytdlp, scrape1) ==
            ytdlp(LiveUrl(Normalise(username)), Normalise(username), quality).(username := Normalise(username))
  {
  }

  /** When the first strategy fails, the fallback's successful result is returned whatever the
      first one's error was. */
  lemma FallbackWins(username: string, quality: string, ytdlp: (string, string, string) -> LiveInfo,
                     scrape: (string, string) -> LiveInfo)
    requires Normalise(username) != ""
    requires !ytdlp(LiveUrl(Normalise(username)), Normalise(username), quality).success
    requires scrape(Normalise(username), quality).success
    ensures GetLiveInfo(username, quality, ytdlp, scrape) == scrape(Normalise(username), quality).(username := Normalise(username))
  {
  }

  /** When both fail, the report is the blank result with the error chosen by precedence. */
  lemma BothFail(username: string, quality: string, ytdlp: (string, string, string) -> LiveInfo,
                 scrape: (string, string) -> LiveInfo)
    requires Normalise(username) != ""
    requires !ytdlp(LiveUrl(Normalise(username)), Normalise(username), quality).success
    requires !scrape(Normalise(username), quality).success
    ensures GetLiveInfo(username, quality, ytdlp, scrape) ==
            Blank(Normalise(username)).(error := Some(ReportedError(ytdlp(LiveUrl(Normalise(username)), Normalise(username), quality), scrape(Normalise(username), quality))))
  {
  }

  /** An empty handle is rejected before either strategy is consulted. */
  lemma EmptyHandleRunsNothing(username: string, quality: string,
                               ytdlp1: (string, string, string) -> LiveInfo, scrape1: (string, string) -> LiveInfo,
                               ytdlp2: (string, string, string) -> LiveInfo, scrape2: (string, string) -> LiveInfo)
    requires Normalise(username) == ""
    ensures GetLiveInfo(username, quality, ytdlp1, scrape1) == GetLiveInfo(username, quality, ytdlp2, scrape2)
  {
  }

  /** Two spellings of the same handle ("@Name" and "name") are looked up identically. */
  lemma SpellingsAgree(h: string, quality: string, ytdlp: (string, string, string) -> LiveInfo, scrape: (string, string) -> LiveInfo)
    requires h == "" || !IsSpace(h[0])
    ensures GetLiveInfo("@" + h, quality, ytdlp, scrape) == GetLiveInfo(h, quality, ytdlp, scrape)
  {
    AtSignIgnored(h);
  }
}
