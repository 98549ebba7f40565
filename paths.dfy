/** The parts of Python's `posixpath` the recorder uses: `splitext`, `dirname`, `basename`
    and `join`, with '/' as the only separator. */
module Paths {
  import opened Text

  /** `s.rfind(c)`: the index of the last `c`, or -1. */
  function LastIndex(s: string, c: char): (i: int)
    ensures -1 <= i < |s|
    ensures i >= 0 ==> s[i] == c
    ensures forall k :: i < k < |s| ==> s[k] != c
  {
    if s == [] then -1
    else if s[|s| - 1] == c then |s| - 1
    else LastIndex(s[..|s| - 1], c)
  }

  /** `os.path.splitext(p)`: the extension starts at the last '.' of the last component,
      unless everything before that '.' in the component is a '.' too (".bashrc", "..x"). */
  function SplitExt(p: string): (r: (string, string))
    ensures r.0 + r.1 == p
    ensures r.1 == "" || r.1[0] == '.'
  {
    var sep := LastIndex(p, '/');
    var dot := LastIndex(p, '.');
    if dot > sep && exists k :: sep + 1 <= k < dot && p[k] != '.' then (p[..dot], p[dot..])
    else (p, "")
  }

  /** `os.path.join(a, b)`. */
  function Join(a: string, b: string): string {
    if StartsWith(b, "/") then b
    else if a == "" || EndsWith(a, "/") then a + b
    else a + "/" + b
  }

  function RStripSlash(s: string): string {
    if |s| > 0 && s[|s| - 1] == '/' then RStripSlash(s[..|s| - 1]) else s
  }

  predicate AllSlashes(s: string) {
    forall i :: 0 <= i < |s| ==> s[i] == '/'
  }

  /** `os.path.dirname(p)`: everything up to the last '/', trailing slashes removed unless
      the head is nothing but slashes. */
  function DirName(p: string): string {
    var head := p[..LastIndex(p, '/') + 1];
    if head != "" && !AllSlashes(head) then RStripSlash(head) else head
  }

  /** `os.path.basename(p)`. */
  function BaseName(p: string): (r: string)
    ensures EndsWith(p, r)
    ensures forall k :: 0 <= k < |r| ==> r[k] != '/'
  {
    p[LastIndex(p, '/') + 1..]
  }

  lemma {:induction false} LastIndexIs(s: string, c: char, i: int)
    requires -1 <= i < |s|
    requires i >= 0 ==> s[i] == c
    requires forall k :: i < k < |s| ==> s[k] != c
    ensures LastIndex(s, c) == i
    decreases |s|
  {
    if s != [] && s[|s| - 1] != c {
      LastIndexIs(s[..|s| - 1], c, i);
    }
  }

  /** The directory part `Join` puts in front of a relative name. */
  function JoinPrefix(dir: string): (r: string)
    ensures r == [] || r[|r| - 1] == '/'
  {
    if dir == "" || EndsWith(dir, "/") then dir else dir + "/"
  }

  lemma JoinRelative(dir: string, name: string)
    requires name == [] || name[0] != '/'
    ensures Join(dir, name) == JoinPrefix(dir) + name
  {
    if name != [] { assert !StartsWith(name, "/"); }
  }

  /** A file name without '/' joined to a directory is the last component of the result. */
  lemma JoinName(dir: string, name: string)
    requires forall k :: 0 <= k < |name| ==> name[k] != '/'
    ensures BaseName(Join(dir, name)) == name
  {
    JoinRelative(dir, name);
    var prefix := JoinPrefix(dir);
    LastSlash(prefix, name);
    assert (prefix + name)[|prefix|..] == name;
  }

  /** Behind a prefix ending in '/', a name without '/' leaves the prefix's '/' the last one. */
  lemma LastSlash(prefix: string, name: string)
    requires prefix == [] || prefix[|prefix| - 1] == '/'
    requires forall k :: 0 <= k < |name| ==> name[k] != '/'
    ensures LastIndex(prefix + name, '/') == |prefix| - 1
  {
    NoSlashAfter(prefix, name);
    LastIndexIs(prefix + name, '/', |prefix| - 1);
  }

  lemma NoSlashAfter(prefix: string, name: string)
    requires forall k :: 0 <= k < |name| ==> name[k] != '/'
    ensures forall k :: |prefix| - 1 < k < |prefix + name| ==> (prefix + name)[k] != '/'
  {
    forall k | |prefix| - 1 < k < |prefix + name| ensures (prefix + name)[k] != '/' {
      assert (prefix + name)[k] == name[k - |prefix|];
    }
  }

  /** Splitting the extension off `dir/stem.ext` gives `dir/stem` back, when the stem has
      no '/' and does not end in '.', and the extension is a '.' followed by neither '/' nor '.'. */
  lemma SplitJoined(dir: string, stem: string, ext: string)
    requires stem != [] && stem[0] != '/' && stem[|stem| - 1] != '.'
    requires forall k :: 0 <= k < |stem| ==> stem[k] != '/'
    requires |ext| >= 1 && ext[0] == '.'
    requires forall k :: 1 <= k < |ext| ==> ext[k] != '/' && ext[k] != '.'
    ensures SplitExt(Join(dir, stem + ext)) == (Join(dir, stem), ext)
  {
    assert (stem + ext)[0] == stem[0];
    JoinRelative(dir, stem + ext);
    JoinRelative(dir, stem);
    SplitBehindPrefix(JoinPrefix(dir), stem, ext);
  }

  /** The same split behind a directory prefix that is empty or ends in '/'. */
  lemma SplitBehindPrefix(prefix: string, stem: string, ext: string)
    requires prefix == [] || prefix[|prefix| - 1] == '/'
    requires stem != [] && stem[|stem| - 1] != '.'
    requires forall k :: 0 <= k < |stem| ==> stem[k] != '/'
    requires |ext| >= 1 && ext[0] == '.'
    requires forall k :: 1 <= k < |ext| ==> ext[k] != '/' && ext[k] != '.'
    ensures SplitExt(prefix + (stem + ext)) == (prefix + stem, ext)
  {
    var p := prefix + (stem + ext);
    var dot := |prefix| + |stem|;
    LastDot(prefix, stem, ext);
    forall k | 0 <= k < |stem + ext| ensures (stem + ext)[k] != '/' {
      if k >= |stem| { assert (stem + ext)[k] == ext[k - |stem|]; }
    }
    LastSlash(prefix, stem + ext);
    assert p[dot - 1] == stem[|stem| - 1];
    SplitExtAt(p, dot);
    assert p[..dot] == prefix + stem;
    assert p[dot..] == ext;
  }

  /** The extension starts at the last '.' when that '.' lies after the last '/' and the
      character before it is neither '/' nor '.'. */
  lemma SplitExtAt(p: string, dot: int)
    requires LastIndex(p, '.') == dot && LastIndex(p, '/') < dot - 1 && p[dot - 1] != '.'
    ensures SplitExt(p) == (p[..dot], p[dot..])
  {
    assert LastIndex(p, '/') + 1 <= dot - 1 < dot;
  }

  /** In `prefix + stem + ext` the last '.' is the one that starts `ext`. */
  lemma LastDot(prefix: string, stem: string, ext: string)
    requires |ext| >= 1 && ext[0] == '.'
    requires forall k :: 1 <= k < |ext| ==> ext[k] != '.'
    ensures LastIndex(prefix + (stem + ext), '.') == |prefix| + |stem|
  {
    var q := stem + ext;
    var p := prefix + q;
    var dot := |prefix| + |stem|;
    assert p[dot] == q[|stem|] == ext[0];
    forall k | dot < k < |p| ensures p[k] != '.' {
      assert p[k] == q[k - |prefix|];
      assert q[k - |prefix|] == ext[k - dot];
    }
    LastIndexIs(p, '.', dot);
  }
}
