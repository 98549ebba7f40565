/** Stream-URL collection and quality selection of `TikTokAPI`: the insertion-ordered
    candidate dictionary `_extract_stream_url` fills, the `QUALITY_MAP` preference lists, and
    the first-match rule shared with the yt-dlp format choice. */
module StreamUrls {
  import opened Optional
  import opened Text

  // ---------------------------------------------------------------------------
  // Quality tiers

  /** `QUALITY_MAP.get(quality, ['origin'])`. */
  function Preferences(quality: string): (prefs: seq<string>)
    ensures |prefs| >= 1
    ensures forall i :: 0 <= i < |prefs| ==> |prefs[i]| > 0
    ensures quality != "best" && quality != "high" && quality != "medium" && quality != "low" ==> prefs == ["origin"]
  {
    match quality
    case "best" => ["origin", "uhd", "hd", "sd"]
    case "high" => ["hd", "sd"]
    case "medium" => ["sd"]
    case "low" => ["sd", "ld"]
    case _ => ["origin"]
  }

  // ---------------------------------------------------------------------------
  // Insertion-ordered dictionaries (Python's dict), as a sequence of entries

  type UrlMap = seq<(string, string)>

  function Keys(m: UrlMap): (ks: seq<string>)
    ensures |ks| == |m| && forall i :: 0 <= i < |m| ==> ks[i] == m[i].0
  {
    seq(|m|, i requires 0 <= i < |m| => m[i].0)
  }

  predicate DistinctKeys(m: UrlMap) {
    forall i, j :: 0 <= i < j < |m| ==> m[i].0 != m[j].0
  }

  /** `d[k] = v`: a present key keeps its position and takes the new value; a new key goes last. */
  function Put(m: UrlMap, k: string, v: string): UrlMap {
    if m == [] then [(k, v)]
    else if m[0].0 == k then [(k, v)] + m[1..]
    else [m[0]] + Put(m[1..], k, v)
  }

  /** The dictionary after the writes `kvs`, performed in order. */
  function PutAll(m: UrlMap, kvs: seq<(string, string)>): UrlMap {
    if kvs == [] then m else Put(PutAll(m, kvs[..|kvs| - 1]), kvs[|kvs| - 1].0, kvs[|kvs| - 1].1)
  }

  /** The same dictionary as a Dafny map (used where the keys are distinct). */
  function ToMap(m: UrlMap): map<string, string> {
    if m == [] then map[] else ToMap(m[1..])[m[0].0 := m[0].1]
  }

  /** Reference semantics of a sequence of writes on a Dafny map: the last write of a key wins. */
  function Updates(d: map<string, string>, kvs: seq<(string, string)>): map<string, string> {
    if kvs == [] then d else Updates(d, kvs[..|kvs| - 1])[kvs[|kvs| - 1].0 := kvs[|kvs| - 1].1]
  }

  /** The keys of `ks` in the order of their first occurrence. */
  function FirstOccurrences(ks: seq<string>): seq<string> {
    if ks == [] then []
    else if ks[|ks| - 1] in ks[..|ks| - 1] then FirstOccurrences(ks[..|ks| - 1])
    else FirstOccurrences(ks[..|ks| - 1]) + [ks[|ks| - 1]]
  }

  /** Putting a key appends it exactly when it was new, and leaves the other keys in place. */
  lemma {:induction false} PutKeys(m: UrlMap, k: string, v: string)
    ensures Keys(Put(m, k, v)) == if k in Keys(m) then Keys(m) else Keys(m) + [k]
    decreases |m|
  {
    if m != [] && m[0].0 != k {
      var t := m[1..];
      PutKeys(t, k, v);
      var r := Put(t, k, v);
      assert Put(m, k, v) == [m[0]] + r;
      KeysCons(m[0], t);
      KeysCons(m[0], r);
      assert m == [m[0]] + t;
      assert k in Keys(m) <==> k in Keys(t);
    } else if m != [] {
      assert Keys(Put(m, k, v)) == Keys(m);
      assert Keys(m)[0] == k;
    }
  }

  lemma KeysCons(e: (string, string), m: UrlMap)
    ensures Keys([e] + m) == [e.0] + Keys(m)
  {
  }

  /** ... and keeps the keys distinct. */
  lemma PutDistinct(m: UrlMap, k: string, v: string)
    requires DistinctKeys(m)
    ensures DistinctKeys(Put(m, k, v))
  {
    var r := Put(m, k, v);
    PutKeys(m, k, v);
    var ks := Keys(r);
    forall i, j | 0 <= i < j < |r| ensures r[i].0 != r[j].0 {
      assert ks[i] == r[i].0 && ks[j] == r[j].0;
      if k !in Keys(m) && j == |m| {
        assert ks[i] == Keys(m)[i];
      } else {
        assert ks[i] == Keys(m)[i] && ks[j] == Keys(m)[j];
      }
    }
  }

  /** ... and, on distinct keys, behaves as a map update. */
  lemma {:induction false} PutToMap(m: UrlMap, k: string, v: string)
    requires DistinctKeys(m)
    ensures ToMap(Put(m, k, v)) == ToMap(m)[k := v]
    decreases |m|
  {
    if m == [] {
      assert Put(m, k, v)[1..] == [];
    } else if m[0].0 == k {
      assert Put(m, k, v)[1..] == m[1..];
    } else {
      var t := m[1..];
      assert DistinctKeys(t);
      PutToMap(t, k, v);
      assert Put(m, k, v)[0] == m[0] && Put(m, k, v)[1..] == Put(t, k, v);
    }
  }

  lemma {:induction false} FirstOccurrencesDistinct(ks: seq<string>)
    requires forall i, j :: 0 <= i < j < |ks| ==> ks[i] != ks[j]
    ensures FirstOccurrences(ks) == ks
    decreases |ks|
  {
    if ks != [] {
      FirstOccurrencesDistinct(ks[..|ks| - 1]);
      assert ks[..|ks| - 1] + [ks[|ks| - 1]] == ks;
    }
  }

  lemma {:induction false} FirstOccurrencesMembers(ks: seq<string>)
    ensures forall x :: x in FirstOccurrences(ks) <==> x in ks
    decreases |ks|
  {
    if ks != [] {
      FirstOccurrencesMembers(ks[..|ks| - 1]);
      assert ks == ks[..|ks| - 1] + [ks[|ks| - 1]];
    }
  }

  /** The candidate dictionary built by a sequence of writes has distinct keys, maps every key
      to its last written value, and lists the keys in the order they were first written. */
  lemma {:induction false} PutAllSpec(kvs: seq<(string, string)>)
    ensures DistinctKeys(PutAll([], kvs))
    ensures ToMap(PutAll([], kvs)) == Updates(map[], kvs)
    ensures Keys(PutAll([], kvs)) == FirstOccurrences(Keys(kvs))
    decreases |kvs|
  {
    if kvs != [] {
      var init := kvs[..|kvs| - 1];
      var last := kvs[|kvs| - 1];
      PutAllSpec(init);
      PutKeys(PutAll([], init), last.0, last.1);
      PutDistinct(PutAll([], init), last.0, last.1);
      PutToMap(PutAll([], init), last.0, last.1);
      assert Keys(kvs)[..|kvs| - 1] == Keys(init);
      FirstOccurrencesMembers(Keys(init));
    }
  }

  // ---------------------------------------------------------------------------
  // First-match selection

  /** A candidate `(label, url)` suits a preference: the label contains it, ignoring case, and
      the URL is non-empty. */
  predicate Hit(pref: string, c: (string, string)) {
    Contains(Lower(c.0), Lower(pref)) && c.1 != ""
  }

  /** `(i, j)` is the first hit when preferences are tried in order and, for each, the
      candidates in order. */
  ghost predicate FirstHitAt(cs: seq<(string, string)>, prefs: seq<string>, i: int, j: int) {
    && 0 <= i < |prefs| && 0 <= j < |cs| && Hit(prefs[i], cs[j])
    && (forall i', j' :: 0 <= i' < i && 0 <= j' < |cs| ==> !Hit(prefs[i'], cs[j']))
    && (forall j' :: 0 <= j' < j ==> !Hit(prefs[i], cs[j']))
  }

  ghost predicate NoHit(cs: seq<(string, string)>, prefs: seq<string>) {
    forall i, j :: 0 <= i < |prefs| && 0 <= j < |cs| ==> !Hit(prefs[i], cs[j])
  }

  /** The first-match rule with the given fallback when no preference is hit. */
  ghost predicate PreferredOr(cs: seq<(string, string)>, prefs: seq<string>, fallback: Option<string>, r: Option<string>) {
    || (exists i, j :: FirstHitAt(cs, prefs, i, j) && r == Some(cs[j].1))
    || (NoHit(cs, prefs) && r == fallback)
  }

  /** The rule of `_extract_stream_url`: when nothing is preferred, the first entry's URL,
      whatever it is. */
  ghost predicate Selected(urls: UrlMap, prefs: seq<string>, r: Option<string>) {
    PreferredOr(urls, prefs, if urls == [] then None else Some(urls[0].1), r)
  }

  /** The first hit is unique, so the rule picks exactly one URL. */
  lemma FirstHitUnique(cs: seq<(string, string)>, prefs: seq<string>, i1: int, j1: int, i2: int, j2: int)
    requires FirstHitAt(cs, prefs, i1, j1) && FirstHitAt(cs, prefs, i2, j2)
    ensures i1 == i2 && j1 == j2
  {
  }

  lemma PreferredOrUnique(cs: seq<(string, string)>, prefs: seq<string>, fallback: Option<string>, r1: Option<string>, r2: Option<string>)
    requires PreferredOr(cs, prefs, fallback, r1) && PreferredOr(cs, prefs, fallback, r2)
    ensures r1 == r2
  {
    if i1, j1 :| FirstHitAt(cs, prefs, i1, j1) && r1 == Some(cs[j1].1) {
      if i2, j2 :| FirstHitAt(cs, prefs, i2, j2) && r2 == Some(cs[j2].1) {
        FirstHitUnique(cs, prefs, i1, j1, i2, j2);
      }
    }
  }

  /** The selection loop of `_extract_stream_url`: preferences in order, entries in order, the
      first entry whose key contains the preference and whose URL is non-empty; else the first
      entry's URL; None for an empty dictionary. */
  method SelectUrl(urls: UrlMap, prefs: seq<string>) returns (r: Option<string>)
    ensures Selected(urls, prefs, r)
    ensures urls == [] ==> r == None
  {
    for i := 0 to |prefs|
      invariant forall i', j' :: 0 <= i' < i && 0 <= j' < |urls| ==> !Hit(prefs[i'], urls[j'])
    {
      for j := 0 to |urls|
        invariant forall j' :: 0 <= j' < j ==> !Hit(prefs[i], urls[j'])
      {
        if Contains(Lower(urls[j].0), Lower(prefs[i])) && urls[j].1 != "" {
          assert FirstHitAt(urls, prefs, i, j);
          return Some(urls[j].1);
        }
      }
    }
    return if |urls| > 0 then Some(urls[0].1) else None;
  }

  // ---------------------------------------------------------------------------
  // The parsed stream data and the writes `_extract_stream_url` makes

  /** `val["main"]` of one `pull_data.stream_data` entry: which of "flv" / "hls" it has. */
  datatype MainStreams = MainStreams(flv: Option<string>, hls: Option<string>)

  /** `pull_data.options.qualities[*]`: `sdk_key` (default "") and `url` ("" when absent). */
  datatype QualityOption = QualityOption(sdkKey: string, url: string)

  /** A non-empty `pull_data`. `streamData` is None when the "stream_data" key is absent or its
      JSON does not parse; otherwise its "data" entries in order, each None when it is not shaped
      as expected (which ends the loop over them). */
  datatype PullData = PullData(streamData: Option<seq<Option<(string, MainStreams)>>>, qualities: seq<QualityOption>)

  /** `flv_pull_url`: a dictionary, a single string, or neither. */
  datatype FlvPull = FlvMap(entries: seq<(string, string)>) | FlvSingle(url: string) | FlvNone

  /** A room's `streamData`; `pullData` is None when absent or empty. */
  datatype StreamData = StreamData(pullData: Option<PullData>, flvPull: FlvPull, hlsPull: string)

  function EntryWrites(key: string, main: MainStreams): seq<(string, string)> {
    if main.flv.Some? then [(key, main.flv.value)]
    else if main.hls.Some? then [(key + "_hls", main.hls.value)]
    else []
  }

  /** Writes of the "data" loop, up to the first malformed entry. */
  function DataWrites(es: seq<Option<(string, MainStreams)>>): seq<(string, string)> {
    if es == [] then []
    else match es[0]
      case None => []
      case Some(e) => EntryWrites(e.0, e.1) + DataWrites(es[1..])
  }

  function QualityWrites(qs: seq<QualityOption>): seq<(string, string)> {
    if qs == [] then []
    else (if qs[0].url != "" then [(qs[0].sdkKey, qs[0].url)] else []) + QualityWrites(qs[1..])
  }

  function PullWrites(p: Option<PullData>): seq<(string, string)> {
    match p
    case None => []
    case Some(pd) => (if pd.streamData.Some? then DataWrites(pd.streamData.value) else []) + QualityWrites(pd.qualities)
  }

  function FlvWrites(f: FlvPull): seq<(string, string)> {
    match f
    case FlvMap(es) => es
    case FlvSingle(u) => [("flv", u)]
    case FlvNone => []
  }

  /** Every dictionary write of `_extract_stream_url`, in source order. */
  function Writes(sd: StreamData): seq<(string, string)> {
    PullWrites(sd.pullData) + FlvWrites(sd.flvPull) + (if sd.hlsPull != "" then [("hls", sd.hlsPull)] else [])
  }

  lemma {:induction false} DataWritesPrefix(es: seq<Option<(string, MainStreams)>>, i: nat)
    requires i < |es| && es[i].Some? && forall k :: 0 <= k < i ==> es[k].Some?
    ensures DataWrites(es[..i + 1]) == DataWrites(es[..i]) + EntryWrites(es[i].value.0, es[i].value.1)
    decreases i
  {
    if i == 0 {
      assert es[..1][1..] == [];
    } else {
      var t := es[1..];
      DataWritesPrefix(t, i - 1);
      assert es[..i + 1][1..] == t[..i];
      assert es[..i][1..] == t[..i - 1];
    }
  }

  lemma {:induction false} DataWritesStop(es: seq<Option<(string, MainStreams)>>, i: nat)
    requires i <= |es| && (i < |es| ==> es[i].None?) && forall k :: 0 <= k < i ==> es[k].Some?
    ensures DataWrites(es) == DataWrites(es[..i])
    decreases i
  {
    if i == 0 {
    } else {
      DataWritesStop(es[1..], i - 1);
      assert es[..i][1..] == es[1..][..i - 1];
    }
  }

  lemma {:induction false} QualityWritesPrefix(qs: seq<QualityOption>, i: nat)
    requires i < |qs|
    ensures QualityWrites(qs[..i + 1]) == QualityWrites(qs[..i]) + (if qs[i].url != "" then [(qs[i].sdkKey, qs[i].url)] else [])
    decreases i
  {
    if i == 0 {
      assert qs[..1][1..] == [];
    } else {
      QualityWritesPrefix(qs[1..], i - 1);
      assert qs[..i + 1][1..] == qs[1..][..i];
      assert qs[..i][1..] == qs[1..][..i - 1];
    }
  }

  lemma PutAllAppend(m: UrlMap, a: seq<(string, string)>, b: seq<(string, string)>)
    ensures PutAll(m, a + b) == PutAll(PutAll(m, a), b)
    decreases |b|
  {
    if b != [] {
      assert (a + b)[..|a + b| - 1] == a + b[..|b| - 1];
      PutAllAppend(m, a, b[..|b| - 1]);
    } else {
      assert a + b == a;
    }
  }

  /** Applies the writes of one source to the dictionary, one `d[k] = v` at a time. */
  method PutEach(urls: UrlMap, kvs: seq<(string, string)>) returns (r: UrlMap)
    ensures r == PutAll(urls, kvs)
  {
    r := urls;
    for i := 0 to |kvs|
      invariant r == PutAll(urls, kvs[..i])
    {
      assert kvs[..i + 1][..i] == kvs[..i];
      r := Put(r, kvs[i].0, kvs[i].1);
    }
    assert kvs[..|kvs|] == kvs;
  }

  lemma PutAllNonEmpty(m: UrlMap, kvs: seq<(string, string)>)
    ensures kvs != [] ==> PutAll(m, kvs) != []
  {
  }

  /** The "data" loop: one write per well-formed entry, stopping at the first malformed one. */
  method CollectData(es: seq<Option<(string, MainStreams)>>) returns (urls: UrlMap)
    ensures urls == PutAll([], DataWrites(es))
  {
    urls := [];
    var i := 0;
    while i < |es| && es[i].Some?
      invariant 0 <= i <= |es|
      invariant forall k :: 0 <= k < i ==> es[k].Some?
      invariant urls == PutAll([], DataWrites(es[..i]))
    {
      var key := es[i].value.0;
      var main := es[i].value.1;
      DataWritesPrefix(es, i);
      PutAllAppend([], DataWrites(es[..i]), EntryWrites(key, main));
      if main.flv.Some? {
        urls := Put(urls, key, main.flv.value);
      } else if main.hls.Some? {
        urls := Put(urls, key + "_hls", main.hls.value);
      }
      i := i + 1;
    }
    DataWritesStop(es, i);
  }

  /** The "qualities" loop: one write per option with a non-empty URL. */
  method CollectQualities(urls0: UrlMap, qs: seq<QualityOption>) returns (urls: UrlMap)
    ensures urls == PutAll(urls0, QualityWrites(qs))
  {
    urls := urls0;
    for i := 0 to |qs|
      invariant urls == PutAll(urls0, QualityWrites(qs[..i]))
    {
      var w := if qs[i].url != "" then [(qs[i].sdkKey, qs[i].url)] else [];
      QualityWritesPrefix(qs, i);
      PutAllAppend(urls0, QualityWrites(qs[..i]), w);
      if qs[i].url != "" {
        urls := Put(urls, qs[i].sdkKey, qs[i].url);
      }
    }
    assert qs[..|qs|] == qs;
  }

  method CollectPull(p: Option<PullData>) returns (urls: UrlMap)
    ensures urls == PutAll([], PullWrites(p))
  {
    urls := [];
    if p.Some? {
      var pd := p.value;
      if pd.streamData.Some? {
        urls := CollectData(pd.streamData.value);
      }
      var before := if pd.streamData.Some? then DataWrites(pd.streamData.value) else [];
      urls := CollectQualities(urls, pd.qualities);
      PutAllAppend([], before, QualityWrites(pd.qualities));
    }
  }

  /** `_extract_stream_url`: gathers candidates from the four schema locations into one
      dictionary, then picks by the quality's preference list, falling back to the first entry.
      The result is None exactly when no candidate was written. */
  method ExtractStreamUrl(sd: StreamData, quality: string) returns (r: Option<string>)
    ensures Selected(PutAll([], Writes(sd)), Preferences(quality), r)
    ensures r == None <==> Writes(sd) == []
  {
    var urls := CollectPull(sd.pullData);
    match sd.flvPull {
      case FlvMap(es) =>
        urls := PutEach(urls, es);
      case FlvSingle(u) =>
        urls := Put(urls, "flv", u);
      case FlvNone =>
    }
    var hls := if sd.hlsPull != "" then [("hls", sd.hlsPull)] else [];
    if sd.hlsPull != "" {
      urls := Put(urls, "hls", sd.hlsPull);
    }
    PutAllAppend([], PullWrites(sd.pullData), FlvWrites(sd.flvPull));
    PutAllAppend([], PullWrites(sd.pullData) + FlvWrites(sd.flvPull), hls);
    assert urls == PutAll([], Writes(sd));
    PutAllNonEmpty([], Writes(sd));
    if |urls| == 0 {
      return None;
    }
    r := SelectUrl(urls, Preferences(quality));
  }
}
