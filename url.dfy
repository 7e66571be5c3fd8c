/** The parts of Python's `urllib.parse` the library uses, as CPython 3.11 has
    them: `urlsplit`, `urlparse`, `urlunsplit`, `urljoin`, and `quote` with its
    default safe set `/`. */
module Url {
  import opened Text

  predicate IsAsciiAlpha(c: char) {
    'a' <= c <= 'z' || 'A' <= c <= 'Z'
  }

  predicate IsSchemeChar(c: char) {
    IsAsciiAlpha(c) || IsDigit(c) || c == '+' || c == '-' || c == '.'
  }

  predicate AllSchemeChars(s: string) {
    forall i :: 0 <= i < |s| ==> IsSchemeChar(s[i])
  }

  function LowerChar(c: char): char {
    if 'A' <= c <= 'Z' then (c as int + 32) as char else c
  }

  function Lower(s: string): (r: string)
    ensures |r| == |s|
    ensures forall i :: 0 <= i < |s| ==> r[i] == LowerChar(s[i])
  {
    if s == [] then [] else [LowerChar(s[0])] + Lower(s[1..])
  }

  /** The index of the first character of `s` that is in `cs`, or `|s|`. */
  function IndexOfAny(s: string, cs: set<char>): (i: nat)
    ensures i <= |s|
    ensures i < |s| ==> s[i] in cs
    ensures forall j :: 0 <= j < i ==> s[j] !in cs
  {
    if |s| == 0 then 0
    else if s[0] in cs then 0
    else 1 + IndexOfAny(s[1..], cs)
  }

  predicate Excludes(s: string, cs: set<char>) {
    forall i :: 0 <= i < |s| ==> s[i] !in cs
  }

  /** The scheme of `urlsplit`: the text before the first colon, lower-cased,
      when it is non-empty, starts with an ASCII letter and has only scheme
      characters; the rest of the URL follows it. */
  function SplitScheme(url: string): (r: (string, string))
    ensures AllSchemeChars(r.0)
    ensures r.0 == "" ==> r.1 == url
    ensures r.0 != "" ==> |r.0| < |url| && AllSchemeChars(url[..|r.0|]) && Lower(url[..|r.0|]) == r.0
                          && url == url[..|r.0|] + ":" + r.1
  {
    var i := IndexOf(url, ':');
    if 0 < i < |url| && IsAsciiAlpha(url[0]) && AllSchemeChars(url[..i]) then
      assert forall j :: 0 <= j < i ==> IsSchemeChar(LowerChar(url[j]));
      assert url == url[..i] + ":" + url[i + 1..];
      (Lower(url[..i]), url[i + 1..])
    else ("", url)
  }

  /** The network location after a leading `//`, up to the first `/`, `?` or `#`. */
  function SplitNetloc(s: string): (r: (string, string))
    ensures Excludes(r.0, {'/', '?', '#'})
    ensures !StartsWith(s, "//") ==> r == ("", s)
    ensures StartsWith(s, "//") ==> s == "//" + r.0 + r.1 && (r.1 == "" || r.1[0] in {'/', '?', '#'})
  {
    if StartsWith(s, "//") then
      var t := s[2..];
      var d := IndexOfAny(t, {'/', '?', '#'});
      assert s == s[..2] + t;
      assert t == t[..d] + t[d..];
      (t[..d], t[d..])
    else ("", s)
  }

  /** `s.split(c, 1)` when `c in s`, and `(s, "")` otherwise. */
  function SplitOnce(s: string, c: char): (r: (string, string))
    ensures Excludes(r.0, {c})
    ensures |r.0| == IndexOf(s, c) && r.0 == s[..|r.0|]
    ensures IndexOf(s, c) < |s| ==> s == r.0 + [c] + r.1
    ensures IndexOf(s, c) == |s| ==> r == (s, "")
  {
    var i := IndexOf(s, c);
    if i < |s| then
      assert s == s[..i] + [c] + s[i + 1..];
      (s[..i], s[i + 1..])
    else (s, "")
  }

  datatype SplitResult = SplitResult(scheme: string, netloc: string, path: string, query: string, fragment: string)

  /** `urlsplit(url)`: scheme, then the network location, then the fragment
      after the first `#` and the query after the first `?` before it. */
  function UrlSplit(url: string): (r: SplitResult)
    ensures Excludes(r.netloc, {'/', '?', '#'})
    ensures Excludes(r.path, {'?', '#'})
    ensures Excludes(r.query, {'#'})
    ensures AllSchemeChars(r.scheme)
    ensures r.netloc != "" ==> r.path == "" || r.path[0] == '/'
  {
    var (scheme, afterScheme) := SplitScheme(url);
    var (netloc, rest) := SplitNetloc(afterScheme);
    var (beforeHash, fragment) := SplitOnce(rest, '#');
    var (path, query) := SplitOnce(beforeHash, '?');
    SplitOnceExcludes(beforeHash, '?', {'#'});
    assert forall j :: 0 <= j < |path| ==> path[j] !in {'?', '#'};
    assert netloc != "" && path != "" ==> path[0] == '/' by {
      if netloc != "" && path != "" {
        assert path[0] == beforeHash[0] == rest[0];
      }
    }
    SplitResult(scheme, netloc, path, query, fragment)
  }

  /** Both halves of a split keep out what the whole keeps out. */
  lemma SplitOnceExcludes(s: string, c: char, cs: set<char>)
    requires Excludes(s, cs)
    ensures Excludes(SplitOnce(s, c).0, cs) && Excludes(SplitOnce(s, c).1, cs)
  {
    var r := SplitOnce(s, c);
    if IndexOf(s, c) < |s| {
      assert forall j :: 0 <= j < |r.0| ==> r.0[j] == s[j];
      assert forall j :: 0 <= j < |r.1| ==> r.1[j] == s[|r.0| + 1 + j];
    }
  }

  /** A string without `?` and `#` is all path. */
  lemma NoDelimiters(path: string)
    requires Excludes(path, {'?', '#'})
    ensures SplitOnce(path, '#') == (path, "")
    ensures SplitOnce(path, '?') == (path, "")
  {
    IndexOfIsFirst(path, '#', |path|);
    IndexOfIsFirst(path, '?', |path|);
  }

  lemma IndexOfPast(x: string, y: string, c: char, cs: set<char>)
    requires c in cs && Excludes(x, cs)
    ensures IndexOf(x + y, c) == |x| + IndexOf(y, c)
  {
    IndexOfIsFirst(x, c, |x|);
    IndexOfAppendMiss(x, y, c);
  }

  /** Whether the first `?` comes before the first `#` is decided by the text
      before the first `#`. */
  lemma QueryBeforeFragment(rest: string)
    ensures var bh := SplitOnce(rest, '#').0;
      IndexOf(rest, '?') < IndexOf(rest, '#') <==> IndexOf(bh, '?') < |bh|
  {
    var (bh, f) := SplitOnce(rest, '#');
    if IndexOf(rest, '#') < |rest| {
      assert rest == bh + ("#" + f);
      if IndexOf(bh, '?') < |bh| {
        IndexOfAppendHit(bh, "#" + f, '?');
      } else {
        IndexOfAppendMiss(bh, "#" + f, '?');
      }
    }
  }

  /** `s` when `present`, and nothing otherwise: a delimiter `urlsplit` drops. */
  function Sep(present: bool, s: string): string {
    if present then s else ""
  }

  /** `urlsplit` keeps every character but its delimiters and lowers only the
      scheme: the URL is the scheme as written, `:` when there is a scheme,
      `//` when a network location was split off, the network location, the
      path, `?` when the first `?` comes before the first `#`, the query, `#`
      when there is one, and the fragment. */
  lemma UrlSplitRebuilds(url: string)
    ensures var r := UrlSplit(url);
      var k := |r.scheme| + |Sep(r.scheme != "", ":")|;
      k <= |url| && Lower(url[..|r.scheme|]) == r.scheme &&
      url == url[..|r.scheme|] + Sep(r.scheme != "", ":")
             + Sep(StartsWith(url[k..], "//"), "//") + r.netloc + r.path
             + Sep(IndexOf(url, '?') < IndexOf(url, '#'), "?") + r.query
             + Sep(IndexOf(url, '#') < |url|, "#") + r.fragment
  {
    hide *;
    var sa := SplitScheme(url);
    var scheme, a := sa.0, sa.1;
    var nr := SplitNetloc(a);
    var netloc, rest := nr.0, nr.1;
    var bf := SplitOnce(rest, '#');
    var bh, fragment := bf.0, bf.1;
    var pq := SplitOnce(bh, '?');
    var path, query := pq.0, pq.1;
    UrlSplitStages(url);
    var written, colon := url[..|scheme|], Sep(scheme != "", ":");
    var slashes := Sep(StartsWith(a, "//"), "//");
    var question := Sep(IndexOf(bh, '?') < |bh|, "?");
    var hash := Sep(IndexOf(rest, '#') < |rest|, "#");
    SchemePrefix(url);
    NetlocPrefix(a);
    SplitOnceRebuilds(rest, '#');
    SplitOnceRebuilds(bh, '?');
    QueryBeforeFragment(rest);
    RebuildFrom(url, written, colon, a, slashes, netloc, rest, bh, path, question, query, hash, fragment);
    var r := UrlSplit(url);
    assert r == SplitResult(scheme, netloc, path, query, fragment);
    assert |written| == |scheme|;
    assert url[|scheme| + |colon|..] == a;
  }

  lemma RebuildFrom(url: string, written: string, colon: string, a: string, slashes: string, netloc: string,
                    rest: string, bh: string, path: string, question: string, query: string, hash: string, fragment: string)
    requires url == written + colon + a && Excludes(written + colon, {'?', '#'})
    requires a == slashes + netloc + rest && Excludes(slashes, {'?', '#'}) && Excludes(netloc, {'?', '#'})
    requires rest == bh + hash + fragment && hash == Sep(IndexOf(rest, '#') < |rest|, "#")
    requires bh == path + question + query && question == Sep(IndexOf(bh, '?') < |bh|, "?")
    requires (IndexOf(rest, '?') < IndexOf(rest, '#')) == (IndexOf(bh, '?') < |bh|)
    ensures url == written + colon + slashes + netloc + path + Sep(IndexOf(url, '?') < IndexOf(url, '#'), "?")
                   + query + Sep(IndexOf(url, '#') < |url|, "#") + fragment
  {
    hide *;
    var pn := written + colon + (slashes + netloc);
    ExcludesAppend(slashes, netloc, {'?', '#'});
    ExcludesAppend(written + colon, slashes + netloc, {'?', '#'});
    Reassemble(url, written + colon, a, slashes, netloc, rest, bh, path, question, query, hash, fragment);
    IndexOfPast(pn, rest, '?', {'?', '#'});
    IndexOfPast(pn, rest, '#', {'?', '#'});
  }

  lemma Reassemble(url: string, p: string, a: string, slashes: string, netloc: string, rest: string,
                   bh: string, path: string, question: string, query: string, hash: string, fragment: string)
    requires url == p + a && a == slashes + netloc + rest
    requires rest == bh + hash + fragment && bh == path + question + query
    ensures url == p + (slashes + netloc) + rest
    ensures url == p + slashes + netloc + path + question + query + hash + fragment
  {
  }

  lemma UrlSplitStages(url: string)
    ensures var a := SplitScheme(url);
      var n := SplitNetloc(a.1);
      var f := SplitOnce(n.1, '#');
      var q := SplitOnce(f.0, '?');
      UrlSplit(url) == SplitResult(a.0, n.0, q.0, q.1, f.1)
  {
  }

  /** The scheme as written and its colon, then the rest; neither holds `?` or `#`. */
  lemma SchemePrefix(url: string)
    ensures var sa := SplitScheme(url);
      var p := url[..|sa.0|] + Sep(sa.0 != "", ":");
      |sa.0| <= |url| && url == p + sa.1 && url[|p|..] == sa.1 && Lower(url[..|sa.0|]) == sa.0
      && Excludes(p, {'?', '#'})
  {
    hide SplitScheme, IndexOf;
    var sa := SplitScheme(url);
    var scheme := sa.0;
    var p := url[..|scheme|] + Sep(scheme != "", ":");
    assert url == p + sa.1;
    forall j | 0 <= j < |p|
      ensures p[j] !in {'?', '#'}
    {
      if j < |scheme| {
        assert p[j] == url[..|scheme|][j];
        assert IsSchemeChar(p[j]);
      }
    }
  }

  /** The slashes and the network location, then the rest; neither holds `?` or `#`. */
  lemma NetlocPrefix(a: string)
    ensures var nr := SplitNetloc(a);
      var slashes := Sep(StartsWith(a, "//"), "//");
      a == slashes + nr.0 + nr.1 && Excludes(slashes, {'?', '#'}) && Excludes(nr.0, {'?', '#'})
  {
  }

  lemma ExcludesAppend(x: string, y: string, cs: set<char>)
    requires Excludes(x, cs) && Excludes(y, cs)
    ensures Excludes(x + y, cs)
  {
    forall j | 0 <= j < |x + y|
      ensures (x + y)[j] !in cs
    {
      if j >= |x| {
        assert (x + y)[j] == y[j - |x|];
      }
    }
  }

  lemma SplitOnceRebuilds(s: string, c: char)
    ensures s == SplitOnce(s, c).0 + Sep(IndexOf(s, c) < |s|, [c]) + SplitOnce(s, c).1
  {
  }

  /** Python's `s.split(c)` for a one-character separator. */
  function Split(s: string, c: char): (r: seq<string>)
    ensures |r| > 0
    decreases |s|
  {
    var i := IndexOf(s, c);
    if i == |s| then [s] else [s[..i]] + Split(s[i + 1..], c)
  }

  lemma {:induction false} SplitAround(x: string, y: string, c: char)
    requires forall i :: 0 <= i < |x| ==> x[i] != c
    ensures Split(x + [c] + y, c) == [x] + Split(y, c)
  {
    var s := x + [c] + y;
    assert s[|x|] == c;
    assert IndexOf(s, c) == |x|;
    assert s[..|x|] == x;
    assert s[|x| + 1..] == y;
  }

  lemma {:induction false} JoinSplit(s: string)
    ensures Join("/", Split(s, '/')) == s
    decreases |s|
  {
    var i := IndexOf(s, '/');
    if i < |s| {
      var tl := Split(s[i + 1..], '/');
      JoinSplit(s[i + 1..]);
      var parts := [s[..i]] + tl;
      assert Split(s, '/') == parts;
      assert parts[1..] == tl;
      assert Join("/", parts) == s[..i] + "/" + Join("/", tl);
      assert s == s[..i] + "/" + s[i + 1..];
    }
  }

  /** Which of `/` and `//` a string starts with is decided by its first two characters. */
  lemma NoLeadingSlashes(s: string)
    ensures StartsWith(s, "/") <==> s != "" && s[0] == '/'
    ensures StartsWith(s, "//") <==> |s| >= 2 && s[0] == '/' && s[1] == '/'
  {
    if |s| >= 2 {
      assert s[..2] == [s[0], s[1]];
    }
    if |s| >= 1 {
      assert s[..1] == [s[0]];
    }
  }

  /** A path whose first segment is non-empty does not start with a slash. */
  lemma FirstSegment(s: string)
    requires Split(s, '/')[0] != ""
    ensures s != "" && s[0] != '/'
  {
  }

  /** The schemes `urljoin` resolves relative references for. */
  predicate UsesRelative(scheme: string) {
    scheme in {"", "ftp", "http", "gopher", "nntp", "imap", "wais", "file", "https",
      "shttp", "mms", "prospero", "rtsp", "rtsps", "rtspu", "sftp", "svn", "svn+ssh", "ws", "wss"}
  }

  /** The schemes whose URLs carry a network location. */
  predicate UsesNetloc(scheme: string) {
    scheme in {"", "ftp", "http", "gopher", "nntp", "telnet", "imap", "wais", "file",
      "mms", "https", "shttp", "snews", "prospero", "rtsp", "rtsps", "rtspu", "rsync", "svn", "svn+ssh", "sftp",
      "nfs", "git", "git+ssh", "ws", "wss"}
  }

  /** The schemes whose last path segment may carry `;parameters`. */
  predicate UsesParams(scheme: string) {
    scheme in {"", "ftp", "hdl", "prospero", "http", "imap", "https", "shttp", "rtsp",
      "rtsps", "rtspu", "sip", "sips", "mms", "sftp", "tel"}
  }

  /** `_splitparams`: the path cut at the first `;` of its last segment. */
  function SplitParams(path: string): (r: (string, string))
    ensures r == (path, "") || path == r.0 + ";" + r.1
    ensures Excludes(r.1, {'/'})
  {
    var k := LastIndexOf(path, '/') + 1;
    var last := path[k..];
    var j := IndexOf(last, ';');
    if j < |last| then
      ParamsCut(path, k, j);
      (path[..k + j], last[j + 1..])
    else (path, "")
  }

  lemma ParamsCut(path: string, k: nat, j: nat)
    requires k == LastIndexOf(path, '/') + 1 && j < |path| - k && path[k + j] == ';'
    ensures path == path[..k + j] + ";" + path[k..][j + 1..]
    ensures Excludes(path[k..][j + 1..], {'/'})
  {
    assert path[k..][j + 1..] == path[k + j + 1..];
    CutAt(path, k + j);
    LastSegmentExcludes(path, k + j + 1);
  }

  lemma LastSegmentExcludes(path: string, m: nat)
    requires LastIndexOf(path, '/') < m <= |path|
    ensures Excludes(path[m..], {'/'})
  {
    var tail := path[m..];
    forall i | 0 <= i < |tail|
      ensures tail[i] != '/'
    {
      assert tail[i] == path[m + i];
    }
  }

  lemma CutAt(s: string, i: nat)
    requires i < |s|
    ensures s == s[..i] + [s[i]] + s[i + 1..]
  {
  }

  /** A path without `;` has no parameters. */
  lemma SplitParamsNone(path: string)
    requires Excludes(path, {';'})
    ensures SplitParams(path) == (path, "")
  {
    var k := LastIndexOf(path, '/') + 1;
    var last := path[k..];
    assert forall j :: 0 <= j < |last| ==> last[j] == path[k + j];
    IndexOfIsFirst(last, ';', |last|);
  }

  /** A path ending in a slash has an empty last segment, so no parameters. */
  lemma SplitParamsDirectory(path: string)
    requires path != "" && path[|path| - 1] == '/'
    ensures SplitParams(path) == (path, "")
  {
  }

  /** The six parts of `urlparse`. */
  datatype ParseResult = ParseResult(scheme: string, netloc: string, path: string, params: string, query: string, fragment: string)

  /** `urlparse(url, default)`: `urlsplit`, the default scheme when the URL has
      none, and the parameters of the last segment cut off the path for the
      schemes that take them. */
  function UrlParse(url: string, default: string): ParseResult {
    var s := UrlSplit(url);
    var scheme := if s.scheme == "" then default else s.scheme;
    var (path, params) := if UsesParams(scheme) then SplitParams(s.path) else (s.path, "");
    ParseResult(scheme, s.netloc, path, params, s.query, s.fragment)
  }

  /** `urlunsplit`: `//` and the network location when there is one, or when
      the scheme uses one and the path does not start with `//`; then
      `scheme:` in front, and `?query` and `#fragment` only when non-empty. */
  function UrlUnsplit(scheme: string, netloc: string, path: string, query: string, fragment: string): (r: string)
    ensures netloc != "" || path != "" ==> r != ""
    ensures scheme == "" && netloc == "" ==>
      r == path + (if query == "" then "" else "?" + query) + (if fragment == "" then "" else "#" + fragment)
  {
    var located :=
      if netloc != "" || (scheme != "" && UsesNetloc(scheme) && !StartsWith(path, "//")) then
        "//" + netloc + (if path != "" && path[0] != '/' then "/" + path else path)
      else path;
    var schemed := if scheme != "" then scheme + ":" + located else located;
    var queried := if query != "" then schemed + "?" + query else schemed;
    if fragment != "" then queried + "#" + fragment else queried
  }

  /** `urlunparse`: the parameters go back after a `;`. */
  function UrlUnparse(p: ParseResult): string {
    UrlUnsplit(p.scheme, p.netloc, if p.params != "" then p.path + ";" + p.params else p.path, p.query, p.fragment)
  }

  /** Path segments that `urljoin` keeps verbatim: non-empty and not a dot segment. */
  predicate CleanSegments(segs: seq<string>) {
    forall j :: 0 <= j < |segs| ==> segs[j] != "" && segs[j] != "." && segs[j] != ".."
  }

  predicate NoDotSegments(segs: seq<string>) {
    forall j :: 0 <= j < |segs| ==> segs[j] != "." && segs[j] != ".."
  }

  /** Dot-segment removal: `..` drops the last kept segment (if any), `.` is skipped. */
  function ResolveDots(segs: seq<string>, acc: seq<string>): seq<string>
    decreases |segs|
  {
    if segs == [] then acc
    else if segs[0] == ".." then ResolveDots(segs[1..], if acc == [] then [] else acc[..|acc| - 1])
    else if segs[0] == "." then ResolveDots(segs[1..], acc)
    else ResolveDots(segs[1..], acc + [segs[0]])
  }

  function NonEmpty(segs: seq<string>): (r: seq<string>)
    ensures forall j :: 0 <= j < |r| ==> r[j] != ""
  {
    if segs == [] then [] else (if segs[0] == "" then [] else [segs[0]]) + NonEmpty(segs[1..])
  }

  /** The directory part of a base path's segments: the last segment is
      dropped unless it is empty (the base ends with a slash). */
  function BaseDirectory(baseParts: seq<string>): seq<string>
    requires |baseParts| > 0
  {
    if baseParts[|baseParts| - 1] != "" then baseParts[..|baseParts| - 1] else baseParts
  }

  /** Empty segments strictly between the first and the last are dropped. */
  function CleanInterior(segments: seq<string>): (r: seq<string>)
    ensures |segments| > 0 ==> |r| > 0 && r[|r| - 1] == segments[|segments| - 1]
  {
    if |segments| < 2 then segments
    else [segments[0]] + NonEmpty(segments[1..|segments| - 1]) + [segments[|segments| - 1]]
  }

  /** The segments `urljoin` resolves: those of a reference path that starts
      with a slash, as they are; otherwise the base's directory followed by
      the reference's segments, with the empty segments inside dropped. */
  function JoinSegments(basePath: string, path: string): (r: seq<string>)
    ensures |r| > 0
  {
    if StartsWith(path, "/") then Split(path, '/')
    else CleanInterior(BaseDirectory(Split(basePath, '/')) + Split(path, '/'))
  }

  /** Dot segments resolved, a trailing dot segment leaving a trailing slash,
      and the segments joined with `/` (or `/` itself when nothing is left). */
  function JoinResolved(segments: seq<string>): (r: string)
    requires |segments| > 0
    ensures r != ""
  {
    var resolved := ResolveDots(segments, []);
    var last := segments[|segments| - 1];
    var finished := if last == "." || last == ".." then resolved + [""] else resolved;
    var joined := Join("/", finished);
    if joined == "" then "/" else joined
  }

  /** `urljoin(base, rel)`: an empty side yields the other; a reference with
      another scheme, or one that is not resolved relatively, replaces the
      base; one with a network location keeps it; one with neither a path nor
      parameters takes the base's path (and its query when it has none);
      otherwise the reference's path is resolved against the base's. */
  function UrlJoin(base: string, rel: string): (r: string)
    ensures base == "" ==> r == rel
    ensures base != "" && rel == "" ==> r == base
    ensures base != "" && UrlSplit(base).scheme == "" && UrlSplit(rel).scheme != "" ==> r == rel
  {
    if base == "" then rel
    else if rel == "" then base
    else
      var b := UrlParse(base, "");
      var u := UrlParse(rel, b.scheme);
      if u.scheme != b.scheme || !UsesRelative(u.scheme) then rel
      else if UsesNetloc(u.scheme) && u.netloc != "" then UrlUnparse(u)
      else
        var netloc := if UsesNetloc(u.scheme) then b.netloc else u.netloc;
        if u.path == "" && u.params == "" then
          UrlUnparse(ParseResult(u.scheme, netloc, b.path, b.params, if u.query == "" then b.query else u.query, u.fragment))
        else
          UrlUnparse(ParseResult(u.scheme, netloc, JoinResolved(JoinSegments(b.path, u.path)), u.params, u.query, u.fragment))
  }

  /** A URL without a scheme, a network location, `?` or `#` parses as a path
      with the default scheme. */
  lemma ParsePlain(p: string, default: string)
    requires p == "" || !IsAsciiAlpha(p[0]) || IndexOf(p, ':') == |p|
    requires !StartsWith(p, "//") && Excludes(p, {'?', '#'}) && UsesParams(default)
    ensures UrlParse(p, default) == ParseResult(default, "", SplitParams(p).0, SplitParams(p).1, "", "")
  {
    assert SplitScheme(p) == ("", p);
    assert SplitNetloc(p) == ("", p);
    NoDelimiters(p);
  }

  /** A path that starts with a single slash parses to a non-empty path. */
  lemma ParsedPathNonEmpty(base: string)
    requires base != "" && base[0] == '/' && !StartsWith(base, "//")
    ensures UrlParse(base, "").path != "" && UrlParse(base, "").netloc == "" && UrlParse(base, "").scheme == ""
  {
    assert SplitScheme(base) == ("", base);
    assert SplitNetloc(base) == ("", base);
    var bh := SplitOnce(base, '#').0;
    assert bh != "" && bh[0] == '/';
    var path := SplitOnce(bh, '?').0;
    assert path != "" && path[0] == '/';
    var pp := SplitParams(path);
    assert pp.0 != "";
  }

  /** On a base path that starts with a single slash, joining a non-empty
      reference never gives the empty string. */
  lemma UrlJoinNonEmpty(base: string, rel: string)
    requires rel != ""
    requires base == "" || (base[0] == '/' && !StartsWith(base, "//"))
    ensures UrlJoin(base, rel) != ""
  {
    if base != "" {
      ParsedPathNonEmpty(base);
      JoinKeepsPath(base, rel);
    }
  }

  lemma JoinKeepsPath(base: string, rel: string)
    requires base != "" && rel != "" && UrlParse(base, "").path != ""
    ensures UrlJoin(base, rel) != ""
  {
    hide UrlParse, JoinSegments, JoinResolved, UrlSplit;
    var b := UrlParse(base, "");
    var u := UrlParse(rel, b.scheme);
    if u.scheme == b.scheme && UsesRelative(u.scheme) && !(UsesNetloc(u.scheme) && u.netloc != "") {
      var netloc := if UsesNetloc(u.scheme) then b.netloc else u.netloc;
      if u.path == "" && u.params == "" {
        var path := if b.params != "" then b.path + ";" + b.params else b.path;
        assert path != "";
      } else {
        var joined := JoinResolved(JoinSegments(b.path, u.path));
        assert joined != "";
      }
    }
  }

  /** `urljoin` of two scheme-less paths, the reference's path non-empty:
      the resolved path, then the reference's query. */
  lemma JoinOfPaths(base: string, rel: string, bp: string, bparams: string, up: string, q: string)
    requires base != "" && rel != "" && up != ""
    requires UrlParse(base, "") == ParseResult("", "", bp, bparams, "", "")
    requires UrlParse(rel, "") == ParseResult("", "", up, "", q, "")
    ensures UrlJoin(base, rel) == JoinResolved(JoinSegments(bp, up)) + (if q == "" then "" else "?" + q)
  {
    hide UrlParse, JoinSegments, JoinResolved;
  }

  /** `urljoin` of a scheme-less base path and a bare fragment: the base path
      and the fragment. */
  lemma JoinOfFragment(base: string, rel: string, bp: string, f: string)
    requires base != "" && rel != ""
    requires UrlParse(base, "") == ParseResult("", "", bp, "", "", "")
    requires UrlParse(rel, "") == ParseResult("", "", "", "", "", f)
    ensures UrlJoin(base, rel) == bp + (if f == "" then "" else "#" + f)
  {
    hide UrlParse;
  }

  /** When two references parse alike but for the query, and neither has a
      scheme, a network location or a fragment, their joins differ only by
      the query. */
  lemma JoinAddsQuery(base: string, p: string, rel: string, bp: string, bparams: string, up: string, uparams: string, q: string)
    requires base != "" && p != "" && rel != ""
    requires UrlParse(base, "") == ParseResult("", "", bp, bparams, "", "")
    requires UrlParse(p, "") == ParseResult("", "", up, uparams, "", "")
    requires UrlParse(rel, "") == ParseResult("", "", up, uparams, q, "")
    ensures UrlJoin(base, rel) == UrlJoin(base, p) + (if q == "" then "" else "?" + q)
  {
    hide UrlParse, JoinSegments, JoinResolved;
    if up == "" && uparams == "" {
      UnparseQuery(bp, bparams, q);
    } else {
      UnparseQuery(JoinResolved(JoinSegments(bp, up)), uparams, q);
    }
  }

  lemma UnparseQuery(path: string, params: string, q: string)
    ensures UrlUnparse(ParseResult("", "", path, params, q, ""))
      == UrlUnparse(ParseResult("", "", path, params, "", "")) + (if q == "" then "" else "?" + q)
  {
  }

  lemma {:induction false} NonEmptyClean(segs: seq<string>)
    requires CleanSegments(segs)
    ensures NonEmpty(segs) == segs
  {
    if segs != [] {
      NonEmptyClean(segs[1..]);
      assert segs == [segs[0]] + segs[1..];
    }
  }

  /** Without dot segments, resolution appends the segments unchanged. */
  lemma {:induction false} ResolveDotsPlain(segs: seq<string>, acc: seq<string>)
    requires NoDotSegments(segs)
    ensures ResolveDots(segs, acc) == acc + segs
  {
    if segs != [] {
      ResolveDotsPlain(segs[1..], acc + [segs[0]]);
      assert acc + [segs[0]] + segs[1..] == acc + segs;
    }
  }

  lemma {:induction false} JoinAppend(xs: seq<string>, ys: seq<string>)
    requires |xs| > 0 && |ys| > 0
    ensures Join("/", xs + ys) == Join("/", xs) + "/" + Join("/", ys)
    decreases |xs|
  {
    if |xs| == 1 {
      assert xs + ys == [xs[0]] + ys;
      assert (xs + ys)[1..] == ys;
    } else {
      JoinAppend(xs[1..], ys);
      assert (xs + ys)[1..] == xs[1..] + ys;
    }
  }

  /** The segments of a directory path `/b1/.../bk/`. */
  lemma DirectorySegments(base: string)
    requires StartsWith(base, "/") && EndsWith(base, "/") && |base| >= 2
    ensures Split(base, '/') == [""] + Split(base[1..|base| - 1], '/') + [""]
  {
    var inner := base[1..|base| - 1];
    DirectoryShape(base);
    SplitAround("", inner + "/", '/');
    SplitAppendSlash(inner);
  }

  lemma DirectoryShape(base: string)
    requires StartsWith(base, "/") && EndsWith(base, "/") && |base| >= 2
    ensures base == "" + ['/'] + (base[1..|base| - 1] + "/")
  {
    assert base[..1] == "/";
    assert base[|base| - 1..] == "/";
  }

  lemma CleanInteriorShape(a: string, middle: seq<string>, z: string)
    ensures CleanInterior([a] + middle + [z]) == [a] + NonEmpty(middle) + [z]
  {
    var segments := [a] + middle + [z];
    assert segments[1..|segments| - 1] == middle;
  }

  lemma DropSeparator(bs: seq<string>, m: seq<string>)
    requires CleanSegments(bs) && CleanSegments(m)
    ensures NonEmpty(bs + ([""] + m)) == bs + m
  {
    NonEmptyAppend(bs, [""] + m);
    NonEmptyClean(bs);
    assert ([""] + m)[1..] == m;
    assert NonEmpty([""] + m) == NonEmpty(m);
    NonEmptyClean(m);
  }

  lemma CleanInteriorPlain(bs: seq<string>, rs: seq<string>)
    requires CleanSegments(bs) && |rs| > 0 && CleanSegments(rs[..|rs| - 1])
    ensures CleanInterior([""] + bs + [""] + rs) == [""] + bs + rs
  {
    var m := rs[..|rs| - 1];
    var last := rs[|rs| - 1];
    CleanInteriorShape("", bs + ([""] + m), last);
    DropSeparator(bs, m);
    hide CleanInterior, NonEmpty, CleanSegments;
    assert rs == m + [last];
    assert [""] + bs + [""] + rs == [""] + (bs + ([""] + m)) + [last];
    assert [""] + (bs + m) + [last] == [""] + bs + rs;
  }

  /** Joining `"" :: bs ++ rs` puts a slash before the base segments and one
      between the two groups. */
  lemma JoinRooted(bs: seq<string>, rs: seq<string>)
    requires |bs| > 0 && |rs| > 0
    ensures Join("/", [""] + bs + rs) == "/" + Join("/", bs) + "/" + Join("/", rs)
  {
    var b := Join("/", bs);
    JoinAppend([""] + bs, rs);
    JoinAppend([""], bs);
    assert Join("/", [""]) == "";
    assert Join("/", [""] + bs) == "/" + b;
  }

  lemma ResolveDotsStep(x: string, segs: seq<string>, acc: seq<string>)
    requires x != "." && x != ".."
    ensures ResolveDots([x] + segs, acc) == ResolveDots(segs, acc + [x])
  {
    assert ([x] + segs)[1..] == segs;
  }

  lemma ResolveRooted(t: seq<string>)
    requires CleanSegments(t)
    ensures ResolveDots([""] + t, []) == [""] + t
  {
    ResolveDotsStep("", t, []);
    assert [] + [""] == [""];
    ResolveDotsPlain(t, [""]);
  }

  lemma Bracketed(base: string)
    requires StartsWith(base, "/") && EndsWith(base, "/") && |base| >= 2
    ensures base == "/" + base[1..|base| - 1] + "/"
  {
    assert base == base[..1] + base[1..|base| - 1] + base[|base| - 1..];
  }

  /** Plain segments after a rooted base resolve to themselves. */
  lemma JoinResolvedPlain(bs: seq<string>, rs: seq<string>)
    requires |bs| > 0 && |rs| > 0 && CleanSegments(bs) && CleanSegments(rs)
    ensures JoinResolved(CleanInterior([""] + bs + [""] + rs)) == "/" + Join("/", bs) + "/" + Join("/", rs)
  {
    var cleaned := [""] + bs + rs;
    assert CleanSegments(rs[..|rs| - 1]);
    CleanInteriorPlain(bs, rs);
    assert cleaned == [""] + (bs + rs);
    ResolveRooted(bs + rs);
    var last := cleaned[|cleaned| - 1];
    assert last == rs[|rs| - 1];
    assert last != "." && last != "..";
    JoinRooted(bs, rs);
    var joined := Join("/", cleaned);
    assert joined == "/" + Join("/", bs) + "/" + Join("/", rs);
    assert joined != "";
  }

  /** The branch `urljoin` takes for a relative path under a directory base:
      the reference's segments follow the directory's, the empty ones inside
      are dropped, and the dot segments are resolved. */
  lemma UrlJoinRelative(base: string, rel: string)
    requires StartsWith(base, "/") && EndsWith(base, "/") && |base| >= 2 && base[1] != '/' && Excludes(base, {'?', '#'})
    requires rel != "" && IndexOf(rel, ':') == |rel| && rel[0] != '/' && Excludes(rel, {'?', '#', ';'})
    ensures UrlJoin(base, rel) == JoinResolved(CleanInterior([""] + Split(base[1..|base| - 1], '/') + [""] + Split(rel, '/')))
  {
    hide UrlJoin, UrlParse, JoinResolved, Split, CleanInterior;
    NoLeadingSlashes(base);
    NoLeadingSlashes(rel);
    ParsePlain(base, "");
    SplitParamsDirectory(base);
    ParsePlain(rel, "");
    SplitParamsNone(rel);
    JoinOfPaths(base, rel, base, "", rel, "");
    DirectorySegments(base);
    var inner := Split(base[1..|base| - 1], '/');
    assert BaseDirectory([""] + inner + [""]) == [""] + inner + [""];
  }

  /** With a base directory `/b1/.../bk/` and a relative path `r1/.../rm` whose
      segments are all plain, `urljoin` is concatenation. */
  lemma UrlJoinPlain(base: string, rel: string)
    requires StartsWith(base, "/") && EndsWith(base, "/") && |base| >= 2 && Excludes(base, {'?', '#'})
    requires CleanSegments(Split(base[1..|base| - 1], '/'))
    requires rel != "" && IndexOf(rel, ':') == |rel| && rel[0] != '/' && Excludes(rel, {'?', '#', ';'})
    requires CleanSegments(Split(rel, '/'))
    ensures UrlJoin(base, rel) == base + rel
  {
    var inner := base[1..|base| - 1];
    FirstSegment(inner);
    assert base[1] == inner[0];
    UrlJoinRelative(base, rel);
    JoinResolvedPlain(Split(inner, '/'), Split(rel, '/'));
    JoinSplit(rel);
    JoinSplit(inner);
    Bracketed(base);
    hide UrlJoin, JoinResolved, Split, CleanInterior, Join;
  }

  /** A reference path that starts with a single slash replaces the base
      path, and its empty segments stay: without dot segments the result is
      the reference itself. */
  lemma UrlJoinAbsolute(base: string, rel: string)
    requires base != "" && base[0] == '/' && !StartsWith(base, "//") && Excludes(base, {'?', '#'})
    requires StartsWith(rel, "/") && !StartsWith(rel, "//") && Excludes(rel, {'?', '#', ';'})
    requires NoDotSegments(Split(rel, '/'))
    ensures UrlJoin(base, rel) == rel
  {
    NoLeadingSlashes(base);
    NoLeadingSlashes(rel);
    ParsePlain(base, "");
    ParsePlain(rel, "");
    SplitParamsNone(rel);
    var bp := SplitParams(base);
    JoinOfPaths(base, rel, bp.0, bp.1, rel, "");
    assert JoinSegments(bp.0, rel) == Split(rel, '/');
    ResolvedAsWritten(rel);
  }

  /** A path without dot segments resolves to itself. */
  lemma ResolvedAsWritten(path: string)
    requires path != "" && NoDotSegments(Split(path, '/'))
    ensures JoinResolved(Split(path, '/')) == path
  {
    var segs := Split(path, '/');
    ResolveDotsPlain(segs, []);
    assert [] + segs == segs;
    JoinSplit(path);
  }

  /** A query is carried over as it is, and an empty one is dropped: joining
      `p?q` is joining `p`, then `?q` when `q` is non-empty. */
  lemma UrlJoinQuery(base: string, p: string, q: string)
    requires base != "" && base[0] == '/' && !StartsWith(base, "//") && Excludes(base, {'?', '#'})
    requires p != "" && p[0] != '/' && Excludes(p, {'?', '#', ':'}) && Excludes(q, {'#', ':'})
    ensures UrlJoin(base, p + "?" + q) == UrlJoin(base, p) + (if q == "" then "" else "?" + q)
  {
    var rel := p + "?" + q;
    QueryReference(p, q);
    IndexOfIsFirst(p, ':', |p|);
    ParsePlain(p, "");
    ParsePlain(base, "");
    var bp := SplitParams(base);
    var up := SplitParams(p);
    JoinAddsQuery(base, p, rel, bp.0, bp.1, up.0, up.1, q);
  }

  /** `urlsplit` of `p?q` when neither part holds `:` or `#` and `p` holds no `?`. */
  lemma QueryReference(p: string, q: string)
    requires p != "" && p[0] != '/' && Excludes(p, {'?', '#', ':'}) && Excludes(q, {'#', ':'})
    ensures UrlSplit(p + "?" + q) == SplitResult("", "", p, q, "")
  {
    var rel := p + "?" + q;
    assert Excludes(rel, {':', '#'}) by {
      forall j | 0 <= j < |rel|
        ensures rel[j] != ':' && rel[j] != '#'
      {
        if j < |p| { assert rel[j] == p[j]; }
        else if j > |p| { assert rel[j] == q[j - |p| - 1]; }
      }
    }
    IndexOfIsFirst(rel, ':', |rel|);
    IndexOfIsFirst(rel, '#', |rel|);
    assert rel[0] == p[0];
    assert SplitScheme(rel) == ("", rel);
    assert SplitNetloc(rel) == ("", rel);
    assert SplitOnce(rel, '#') == (rel, "");
    assert rel == p + ['?'] + q;
    IndexOfIsFirst(rel, '?', |p|);
    assert rel[..|p|] == p && rel[|p| + 1..] == q;
    assert SplitOnce(rel, '?') == (p, q);
  }

  /** A reference that is only a fragment keeps the whole base path, whether
      or not it ends with a slash; an empty fragment is dropped. */
  lemma UrlJoinFragment(base: string, f: string)
    requires base != "" && base[0] == '/' && !StartsWith(base, "//") && Excludes(base, {'?', '#', ';'})
    ensures UrlJoin(base, "#" + f) == base + (if f == "" then "" else "#" + f)
  {
    var rel := "#" + f;
    assert SplitScheme(rel) == ("", rel);
    assert SplitNetloc(rel) == ("", rel);
    IndexOfIsFirst(rel, '#', 0);
    assert SplitOnce(rel, '#') == ("", f);
    assert UrlSplit(rel) == SplitResult("", "", "", "", f);
    ParsePlain(base, "");
    SplitParamsNone(base);
    JoinOfFragment(base, rel, base, f);
  }

  lemma {:induction false} SplitAppendSlash(s: string)
    ensures Split(s + "/", '/') == Split(s, '/') + [""]
    decreases |s|
  {
    var i := IndexOf(s, '/');
    if i == |s| {
      SplitAround(s, [], '/');
      assert s + ['/'] + [] == s + "/";
    } else {
      var t := s + "/";
      IndexOfAppendHit(s, "/", '/');
      assert t[..i] == s[..i];
      assert t[i + 1..] == s[i + 1..] + "/";
      SplitAppendSlash(s[i + 1..]);
    }
  }

  lemma {:induction false} NonEmptyAppend(xs: seq<string>, ys: seq<string>)
    ensures NonEmpty(xs + ys) == NonEmpty(xs) + NonEmpty(ys)
    decreases |xs|
  {
    if xs != [] {
      assert (xs + ys)[1..] == xs[1..] + ys;
      NonEmptyAppend(xs[1..], ys);
    } else {
      assert xs + ys == ys;
    }
  }

  /** The characters `quote` leaves alone with its default safe set `/`. */
  predicate IsQuoteSafe(c: char) {
    IsAsciiAlpha(c) || IsDigit(c) || c == '_' || c == '.' || c == '-' || c == '~' || c == '/'
  }

  function HexDigit(n: nat): (c: char)
    requires n < 16
  {
    if n < 10 then DigitChar(n) else ('A' as int + n - 10) as char
  }

  /** The UTF-8 encoding of one character. */
  function Utf8(c: char): (r: seq<int>)
    ensures 1 <= |r| <= 4
    ensures forall j :: 0 <= j < |r| ==> 0 <= r[j] < 256
    ensures (c as int) < 128 ==> r == [c as int]
  {
    var n := c as int;
    if n < 0x80 then [n]
    else if n < 0x800 then [0xC0 + n / 64, 0x80 + n % 64]
    else if n < 0x10000 then [0xE0 + n / 4096, 0x80 + (n / 64) % 64, 0x80 + n % 64]
    else [0xF0 + n / 262144, 0x80 + (n / 4096) % 64, 0x80 + (n / 64) % 64, 0x80 + n % 64]
  }

  /** `%XY` for each byte, with upper-case hexadecimal digits. */
  function PercentEncode(bytes: seq<int>): (r: string)
    requires forall j :: 0 <= j < |bytes| ==> 0 <= bytes[j] < 256
    ensures |r| == 3 * |bytes|
  {
    if bytes == [] then []
    else ['%', HexDigit(bytes[0] / 16), HexDigit(bytes[0] % 16)] + PercentEncode(bytes[1..])
  }

  function QuoteChar(c: char): string {
    if IsQuoteSafe(c) then [c] else PercentEncode(Utf8(c))
  }

  /** `urllib.parse.quote(s)`. */
  function Quote(s: string): (r: string)
    ensures |s| <= |r| <= 12 * |s|
    ensures |r| == |s| <==> forall i :: 0 <= i < |s| ==> IsQuoteSafe(s[i])
  {
    if s == [] then []
    else
      assert forall i :: 1 <= i < |s| ==> s[i] == s[1..][i - 1];
      QuoteChar(s[0]) + Quote(s[1..])
  }

  lemma {:induction false} QuoteAppend(a: string, b: string)
    ensures Quote(a + b) == Quote(a) + Quote(b)
    decreases |a|
  {
    if a != [] {
      assert (a + b)[1..] == a[1..] + b;
      QuoteAppend(a[1..], b);
      hide QuoteChar;
      assert Quote(a + b) == QuoteChar(a[0]) + Quote(a[1..] + b);
      assert Quote(a) == QuoteChar(a[0]) + Quote(a[1..]);
    } else {
      assert a + b == b;
    }
  }

  /** A string of safe characters is quoted to itself. */
  lemma {:induction false} QuoteSafeIdentity(s: string)
    requires forall j :: 0 <= j < |s| ==> IsQuoteSafe(s[j])
    ensures Quote(s) == s
    decreases |s|
  {
    if s != [] {
      QuoteSafeIdentity(s[1..]);
    }
  }

  predicate IsHexDigit(c: char) {
    IsDigit(c) || 'A' <= c <= 'F'
  }

  function HexValue(c: char): (n: nat)
    requires IsHexDigit(c)
    ensures n < 16
  {
    if IsDigit(c) then DigitValue(c) else c as int - 'A' as int + 10
  }

  /** Every character `quote` produces is safe, `%` or an upper-case hex digit. */
  lemma {:induction false} QuoteOutputIsUrlSafe(s: string)
    ensures forall j :: 0 <= j < |Quote(s)| ==> IsQuoteSafe(Quote(s)[j]) || Quote(s)[j] == '%' || IsHexDigit(Quote(s)[j])
    decreases |s|
  {
    if s != [] {
      QuoteOutputIsUrlSafe(s[1..]);
      PercentEncodeChars(Utf8(s[0]));
    }
  }

  lemma {:induction false} PercentEncodeChars(bytes: seq<int>)
    requires forall j :: 0 <= j < |bytes| ==> 0 <= bytes[j] < 256
    ensures forall j :: 0 <= j < |PercentEncode(bytes)| ==> PercentEncode(bytes)[j] == '%' || IsHexDigit(PercentEncode(bytes)[j])
    decreases |bytes|
  {
    if bytes != [] {
      PercentEncodeChars(bytes[1..]);
    }
  }

  /** Percent-decoding of `%XY` escapes, one byte per escape (the inverse of
      `quote` on ASCII text). */
  function UnquoteAscii(s: string): string
    decreases |s|
  {
    if s == [] then []
    else if |s| >= 3 && s[0] == '%' && IsHexDigit(s[1]) && IsHexDigit(s[2]) then
      [(16 * HexValue(s[1]) + HexValue(s[2])) as char] + UnquoteAscii(s[3..])
    else [s[0]] + UnquoteAscii(s[1..])
  }

  predicate IsAscii(s: string) {
    forall j :: 0 <= j < |s| ==> (s[j] as int) < 128
  }

  /** `quote` loses nothing on ASCII text: decoding its escapes gives the text back. */
  lemma {:induction false} UnquoteQuote(s: string)
    requires IsAscii(s)
    ensures UnquoteAscii(Quote(s)) == s
    decreases |s|
  {
    if s != [] {
      UnquoteQuote(s[1..]);
      UnquoteQuoteChar(s[0], Quote(s[1..]));
      hide UnquoteAscii, QuoteChar;
      assert Quote(s) == QuoteChar(s[0]) + Quote(s[1..]);
      assert s == [s[0]] + s[1..];
    }
  }

  /** Decoding gets one ASCII character back from its quoted form. */
  lemma UnquoteQuoteChar(c: char, t: string)
    requires (c as int) < 128
    ensures UnquoteAscii(QuoteChar(c) + t) == [c] + UnquoteAscii(t)
  {
    var q := QuoteChar(c);
    if IsQuoteSafe(c) {
      assert c != '%';
      assert (q + t)[1..] == t;
    } else {
      var n := c as int;
      assert q == ['%', HexDigit(n / 16), HexDigit(n % 16)];
      assert 16 * HexValue(HexDigit(n / 16)) + HexValue(HexDigit(n % 16)) == n;
      assert (q + t)[3..] == t;
    }
  }
}
