/** aubreylib/system.py: locating a file on one of several storage systems
    (local `file://` directories or `http(s)://` servers), building pair-tree
    paths, repairing URLs, and opening files.  Everything that touches the
    outside world goes through an `Io` value of oracle functions. */
module System {
  import opened Wrappers
  import opened Text
  import opened Url
  import Aubrey

  datatype SystemError =
    | UnrecognizedFileName(fileName: string)  // get_file_path: the name does not match
    | InvalidUrl(fileName: string)            // open_args_system_file on a non-URL
    | RangeNotValid(rangeStart: int, rangeEnd: int)  // open_file_range: the request failed
    | CannotLocate(url: string)               // get_other_system: every location failed
    | RequestFailed(url: string)              // urlopen raised and nothing caught it
    | LocalOpenFailed(path: string)           // open(path, 'rb') raised

  datatype Request = Request(verb: string, url: string, headers: map<string, string>)

  /** What an opened file handle was opened on. */
  datatype Handle = Remote(request: Request) | Local(path: string)

  /** The answer of a HEAD request: a status code, or an exception. */
  datatype ProbeResult = Status(code: int) | Raised

  datatype Locations = Locations(metadata: seq<string>, staticFiles: seq<string>)

  /** The outside world: `os.path.exists`, `urlopen` of a HEAD request,
      whether `urlopen` of a request succeeds, whether `open(path, 'rb')`
      succeeds, and the Django settings' location lists when configured. */
  datatype Io = Io(
    pathExists: string -> bool,
    probe: Request -> ProbeResult,
    opens: Request -> bool,
    opensLocal: string -> bool,
    settings: Option<Locations>)

  function GetRequest(url: string): Request {
    Request("GET", url, map[])
  }

  function HeadRequest(url: string, host: string): Request {
    Request("HEAD", url, map["Host" := host])
  }

  /** `^file://` */
  predicate IsFileUrl(s: string) {
    StartsWith(s, "file://")
  }

  /** `^https?://` */
  predicate IsHttpUrl(s: string) {
    StartsWith(s, "http://") || StartsWith(s, "https://")
  }

  /** What `.` matches from the start of `s`: everything up to the first newline. */
  function TakeLine(s: string): (r: string)
    ensures StartsWith(s, r)
    ensures forall i :: 0 <= i < |r| ==> r[i] != '\n'
    ensures |r| < |s| ==> s[|r|] == '\n'
  {
    s[..IndexOf(s, '\n')]
  }

  /** The group captured by `^file:/?/(web/?.+)`: after `file:/` or `file://`
      comes `web` and at least one more character, and the group runs to the
      end of the line. */
  function WebPart(fileName: string): (r: Option<string>)
    ensures r.Some? ==> StartsWith(r.value, "web") && |r.value| > 3
    ensures r.Some? ==> forall i :: 0 <= i < |r.value| ==> r.value[i] != '\n'
    ensures r.Some? ==> StartsWith(fileName, "file:/" + r.value) || StartsWith(fileName, "file://" + r.value)
  {
    var start := if StartsWith(fileName, "file://") then 7 else 6;
    if StartsWith(fileName, "file:/") && StartsWith(fileName[start..], "web") then
      var line := TakeLine(fileName[start + 3..]);
      if |line| > 0 then
        assert fileName[start..][..3 + |line|] == "web" + line;
        assert fileName[..start + 3 + |line|] == fileName[..start] + fileName[start..][..3 + |line|];
        Some("web" + line)
      else None
    else None
  }

  /** The converse: a name of that shape yields that group. */
  lemma WebPartOfShape(prefix: string, line: string, rest: string)
    requires prefix == "file:/" || prefix == "file://"
    requires |line| > 0 && forall i :: 0 <= i < |line| ==> line[i] != '\n'
    requires rest == "" || rest[0] == '\n'
    ensures WebPart(prefix + "web" + line + rest) == Some("web" + line)
  {
    hide TakeLine, IndexOf;
    var f := prefix + "web" + line + rest;
    var start := |prefix|;
    assert f[..6] == "file:/";
    assert StartsWith(f, "file://") <==> prefix == "file://" by {
      if prefix == "file:/" {
        assert f[6] == 'w';
      }
    }
    assert f[start..] == "web" + line + rest;
    assert f[start + 3..] == line + rest;
    TakeLineOf(line, rest);
    assert StartsWith(f[start..], "web");
  }

  /** A line ends at the first newline. */
  lemma TakeLineOf(line: string, rest: string)
    requires forall i :: 0 <= i < |line| ==> line[i] != '\n'
    requires rest == "" || rest[0] == '\n'
    ensures TakeLine(line + rest) == line
  {
    IndexOfAppendMiss(line, rest, '\n');
    assert (line + rest)[..|line|] == line;
  }

  /** `get_file_path`: the pair-tree path of the object joined with the
      `web...` part of a `file:/` or `file://` name; any other name raises. */
  function GetFilePath(pairPath: string -> string, metaId: string, fileName: string): (r: Result<string, SystemError>)
    ensures r.Success? <==> WebPart(fileName).Some?
    ensures r.Success? ==> StartsWith(r.value, pairPath(metaId)) && EndsWith(r.value, WebPart(fileName).value)
    ensures r.Failure? ==> r.error == UnrecognizedFileName(fileName)
  {
    match WebPart(fileName)
    case Some(web) =>
      assert web[0] == 'w';
      Success(PathJoin(pairPath(metaId), web))
    case None => Failure(UnrecognizedFileName(fileName))
  }

  /** `get_complete_filepath`: the file system followed by the pair-tree path
      without its first character. */
  function GetCompleteFilepath(pairPath: string -> string, metaId: string, fileName: string, fileSystem: string): (r: Result<string, SystemError>)
    ensures r.Success? <==> WebPart(fileName).Some?
    ensures r.Success? ==> StartsWith(r.value, fileSystem)
    ensures r.Success? && pairPath(metaId) != "" ==> EndsWith(r.value, WebPart(fileName).value)
    ensures r.Failure? ==> r.error == UnrecognizedFileName(fileName)
  {
    var path :- GetFilePath(pairPath, metaId, fileName);
    var w := WebPart(fileName).value;
    assert pairPath(metaId) != "" ==> |path| > |w| by {
      if pairPath(metaId) != "" {
        assert w[0] == 'w';
      }
    }
    DropFirstKeepsEnds(fileSystem, path, w);
    Success(fileSystem + Drop(path, 1))
  }

  /** Dropping the first character of a path longer than its suffix keeps
      the suffix; the prefix put in front stays a prefix. */
  lemma DropFirstKeepsEnds(prefix: string, path: string, suffix: string)
    requires EndsWith(path, suffix)
    ensures StartsWith(prefix + Drop(path, 1), prefix)
    ensures |path| > |suffix| ==> EndsWith(prefix + Drop(path, 1), suffix)
  {
    var c := prefix + Drop(path, 1);
    assert c[..|prefix|] == prefix;
    if |path| > |suffix| {
      assert c[|c| - |suffix|..] == path[|path| - |suffix|..];
    }
  }

  /** What one storage location contributes to `get_file_system`: a hit
      (path, location) that ends the walk, an exception that escapes it, or a
      miss that keeps `system_path` or sets it to a new value. */
  datatype Probe = Hit(path: string, location: string) | Abort(error: SystemError) | Keep | Assign(systemPath: Option<string>)

  predicate Stops(p: Probe) {
    p.Hit? || p.Abort?
  }

  /** A `file://` location: the file name (for a `file://` name, the complete
      path without its first six characters) must exist locally; the location
      is reported with `file:/` removed. */
  function LocalProbe(io: Io, pairPath: string -> string, metaId: string, filePath: string, location: string): (p: Probe)
    ensures p.Hit? ==> io.pathExists(p.path) && p.location == ReplaceAll(location, "file:/", "")
    ensures p.Abort? ==> StartsWith(filePath, "file://") && WebPart(filePath).None?
    ensures p.Hit? || p.Abort? || p.Keep?
  {
    var absolutePath := ReplaceAll(location, "file:/", "");
    if StartsWith(filePath, "file://") then
      match GetCompleteFilepath(pairPath, metaId, filePath, location)
      case Failure(e) => Abort(e)
      case Success(complete) =>
        var localPath := Drop(complete, 6);
        if io.pathExists(localPath) then Hit(localPath, absolutePath) else Keep
    else if io.pathExists(filePath) then Hit(filePath, absolutePath)
    else Keep
  }

  /** The URL an `http(s)` location is probed at: the location's scheme and
      host with the quoted join of its path and the file path minus its first
      character.  For a `file://` name the pair-tree path is used. */
  function ProbeUrlPath(location: string, httpPath: string): string {
    Quote(UrlJoin(UrlSplit(location).path, Drop(httpPath, 1)))
  }

  /** An `http(s)` location: everything inside the `try`.  `system_path` is
      reused for the location's path component, so an exception from the HEAD
      request leaves that component behind; a non-200 status, or an empty host
      or path, sets it back to None. */
  function HttpProbe(io: Io, pairPath: string -> string, metaId: string, filePath: string, location: string): (p: Probe)
    ensures p.Hit? ==> p.location == location
    ensures p.Hit? ==> io.probe(HeadRequest(p.path, UrlSplit(location).netloc)) == Status(200)
    ensures p.Hit? || p.Keep? || p.Assign?
  {
    var httpPath := if StartsWith(filePath, "file://") then GetFilePath(pairPath, metaId, filePath) else Success(filePath);
    if httpPath.Failure? then Keep
    else
      var parts := UrlSplit(location);
      var path := ProbeUrlPath(location, httpPath.value);
      if parts.netloc != "" && path != "" then
        var url := parts.scheme + "://" + parts.netloc + path;
        match io.probe(HeadRequest(url, parts.netloc))
        case Raised => Assign(Some(parts.path))
        case Status(code) => if code == 200 then Hit(url, location) else Assign(None)
      else Assign(None)
  }

  function ProbeLocation(io: Io, pairPath: string -> string, metaId: string, filePath: string, location: string): (p: Probe)
    ensures !IsFileUrl(location) && !IsHttpUrl(location) ==> p == Keep
  {
    if IsFileUrl(location) then LocalProbe(io, pairPath, metaId, filePath, location)
    else if IsHttpUrl(location) then HttpProbe(io, pairPath, metaId, filePath, location)
    else Keep
  }

  function Probes(io: Io, pairPath: string -> string, metaId: string, filePath: string, locations: seq<string>): (ps: seq<Probe>)
    ensures |ps| == |locations|
    ensures forall i :: 0 <= i < |locations| ==> ps[i] == ProbeLocation(io, pairPath, metaId, filePath, locations[i])
  {
    seq(|locations|, i requires 0 <= i < |locations| => ProbeLocation(io, pairPath, metaId, filePath, locations[i]))
  }

  /** The first location that ends the walk, or the number of locations. */
  function FirstStop(ps: seq<Probe>): (k: nat)
    ensures k <= |ps|
    ensures k < |ps| ==> Stops(ps[k])
    ensures forall j :: 0 <= j < k ==> !Stops(ps[j])
  {
    if ps == [] then 0 else if Stops(ps[0]) then 0 else 1 + FirstStop(ps[1..])
  }

  /** The `system_path` left by a sequence of misses: the last value assigned. */
  function Residue(ps: seq<Probe>): Option<string> {
    if ps == [] then None
    else if ps[|ps| - 1].Assign? then ps[|ps| - 1].systemPath
    else Residue(ps[..|ps| - 1])
  }

  /** The result of `get_file_system`: the pair of the first hit, the error
      of the first escaping exception, or, when every location misses, the
      `system_path` residue with no location. */
  function Resolution(ps: seq<Probe>): (r: Result<(Option<string>, Option<string>), SystemError>)
    ensures (forall j :: 0 <= j < |ps| ==> !Stops(ps[j])) ==> r == Success((Residue(ps), None))
    ensures r.Success? && r.value.1.Some? ==> r.value.0.Some?
    ensures r.Success? && r.value.1.Some? ==>
      exists k :: 0 <= k < |ps| && ps[k] == Hit(r.value.0.value, r.value.1.value) && forall j :: 0 <= j < k ==> !Stops(ps[j])
    ensures r.Failure? ==>
      exists k :: 0 <= k < |ps| && ps[k] == Abort(r.error) && forall j :: 0 <= j < k ==> !Stops(ps[j])
  {
    var k := FirstStop(ps);
    if k == |ps| then Success((Residue(ps), None))
    else if ps[k].Hit? then Success((Some(ps[k].path), Some(ps[k].location)))
    else Failure(ps[k].error)
  }

  /** `get_file_system(meta_id, file_path, location_tuple)`. */
  method GetFileSystem(io: Io, pairPath: string -> string, metaId: string, filePath: string, locationTuple: seq<string>)
    returns (r: Result<(Option<string>, Option<string>), SystemError>)
    ensures r == Resolution(Probes(io, pairPath, metaId, filePath, locationTuple))
  {
    // What one location yields is TryLocation's concern.
    hide ProbeLocation, LocalProbe, HttpProbe;
    ghost var ps := Probes(io, pairPath, metaId, filePath, locationTuple);
    var systemPath: Option<string> := None;
    var fileLocation: Option<string> := None;
    var i := 0;
    while i < |locationTuple|
      invariant 0 <= i <= |locationTuple|
      invariant forall j :: 0 <= j < i ==> !Stops(ps[j])
      invariant systemPath == Residue(ps[..i])
      invariant fileLocation == None
    {
      assert ps[..i + 1][..i] == ps[..i];
      var p := TryLocation(io, pairPath, metaId, filePath, locationTuple[i]);
      assert ps[i] == p;
      if p.Abort? {
        assert FirstStop(ps) == i;
        return Failure(p.error);
      }
      if p.Hit? {
        systemPath := Some(p.path);
        fileLocation := Some(p.location);
        assert FirstStop(ps) == i;
        break;
      }
      if p.Assign? {
        systemPath := p.systemPath;
      }
      i := i + 1;
    }
    if fileLocation == None {
      assert ps[..i] == ps;
    }
    return Success((systemPath, fileLocation));
  }

  /** One pass of `get_file_system`'s loop, for the location `fileSystem`:
      a hit breaks the loop, an escaping exception ends the call, a miss
      leaves `system_path` as it was or assigns it. */
  method TryLocation(io: Io, pairPath: string -> string, metaId: string, filePath: string, fileSystem: string)
    returns (p: Probe)
    ensures p == ProbeLocation(io, pairPath, metaId, filePath, fileSystem)
  {
    // Each step matches the definition call for call.
    hide ReplaceAll, UrlSplit, ProbeUrlPath, GetCompleteFilepath, GetFilePath;
    if IsFileUrl(fileSystem) {
      var absolutePath := ReplaceAll(fileSystem, "file:/", "");
      var localFilePath;
      if StartsWith(filePath, "file://") {
        var complete := GetCompleteFilepath(pairPath, metaId, filePath, fileSystem);
        if complete.Failure? {
          return Abort(complete.error);
        }
        localFilePath := Drop(complete.value, 6);
      } else {
        localFilePath := filePath;
      }
      if io.pathExists(localFilePath) {
        return Hit(localFilePath, absolutePath);
      }
      return Keep;
    } else if IsHttpUrl(fileSystem) {
      var httpFilePath := if StartsWith(filePath, "file://") then GetFilePath(pairPath, metaId, filePath) else Success(filePath);
      // an exception inside the try block is swallowed
      if httpFilePath.Failure? {
        return Keep;
      }
      var parts := UrlSplit(fileSystem);
      var systemPath := Some(parts.path);
      var path := ProbeUrlPath(fileSystem, httpFilePath.value);
      if parts.netloc != "" && path != "" {
        var url := parts.scheme + "://" + parts.netloc + path;
        var status := io.probe(HeadRequest(url, parts.netloc));
        if status.Raised? {
          // the exception leaves the location's path component behind
          return Assign(systemPath);
        }
        if status.code == 200 {
          return Hit(url, fileSystem);
        }
      }
      // a non-200 status, or status_code unbound (or a stale non-200 code)
      return Assign(None);
    }
    return Keep;
  }

  /** Locations after the first one that ends the walk play no part. */
  lemma {:induction false} ResolutionIgnoresLaterLocations(ps: seq<Probe>, more: seq<Probe>)
    requires FirstStop(ps) < |ps|
    ensures FirstStop(ps + more) == FirstStop(ps)
    ensures Resolution(ps + more) == Resolution(ps)
  {
    var k := FirstStop(ps);
    assert forall j :: 0 <= j <= k ==> (ps + more)[j] == ps[j];
  }

  lemma {:induction false} ResidueOfNone(ps: seq<Probe>)
    requires forall j :: 0 <= j < |ps| ==> !(ps[j].Assign? && ps[j].systemPath.Some?)
    ensures Residue(ps) == None
  {
    if ps != [] {
      ResidueOfNone(ps[..|ps| - 1]);
    }
  }

  /** When every location is an `http(s)` server that answers the probe with a
      status other than 200 (or has an empty host or path), nothing is found:
      the result is `(None, None)`. */
  lemma HttpMissesFindNothing(io: Io, pairPath: string -> string, metaId: string, filePath: string, locations: seq<string>)
    requires forall j :: 0 <= j < |locations| ==> IsHttpUrl(locations[j]) && !IsFileUrl(locations[j])
    requires forall req :: io.probe(req).Status? && io.probe(req).code != 200
    ensures Resolution(Probes(io, pairPath, metaId, filePath, locations)) == Success((None, None))
  {
    var ps := Probes(io, pairPath, metaId, filePath, locations);
    forall j | 0 <= j < |ps|
      ensures !Stops(ps[j]) && !(ps[j].Assign? && ps[j].systemPath.Some?)
    {
      assert ps[j] == HttpProbe(io, pairPath, metaId, filePath, locations[j]);
      HttpProbeMisses(io, pairPath, metaId, filePath, locations[j]);
    }
    ResidueOfNone(ps);
  }

  /** A name that exists as given on a local location is found there; the
      location is reported without `file:/` and later locations play no part. */
  lemma LocalHitFirst(io: Io, pairPath: string -> string, metaId: string, filePath: string, location: string, rest: seq<string>)
    requires IsFileUrl(location) && !StartsWith(filePath, "file://") && io.pathExists(filePath)
    ensures Resolution(Probes(io, pairPath, metaId, filePath, [location] + rest))
            == Success((Some(filePath), Some(ReplaceAll(location, "file:/", ""))))
  {
    var ps := Probes(io, pairPath, metaId, filePath, [location] + rest);
    assert ps[0] == LocalProbe(io, pairPath, metaId, filePath, location);
  }

  /** A `file://` name is looked for on a local location under the pair-tree
      path: the location after its `file:/`, then the pair-tree path without
      its leading character. */
  lemma LocalPairTreeHitFirst(io: Io, pairPath: string -> string, metaId: string, filePath: string, location: string, rest: seq<string>)
    requires IsFileUrl(location) && StartsWith(filePath, "file://")
    requires GetFilePath(pairPath, metaId, filePath).Success?
    requires io.pathExists(location[6..] + Drop(GetFilePath(pairPath, metaId, filePath).value, 1))
    ensures Resolution(Probes(io, pairPath, metaId, filePath, [location] + rest))
            == Success((Some(location[6..] + Drop(GetFilePath(pairPath, metaId, filePath).value, 1)), Some(ReplaceAll(location, "file:/", ""))))
  {
    var ps := Probes(io, pairPath, metaId, filePath, [location] + rest);
    LocalPairTreeProbe(io, pairPath, metaId, filePath, location);
    assert ps[0] == LocalProbe(io, pairPath, metaId, filePath, location);
  }

  lemma LocalPairTreeProbe(io: Io, pairPath: string -> string, metaId: string, filePath: string, location: string)
    requires IsFileUrl(location) && StartsWith(filePath, "file://")
    requires GetFilePath(pairPath, metaId, filePath).Success?
    requires io.pathExists(location[6..] + Drop(GetFilePath(pairPath, metaId, filePath).value, 1))
    ensures LocalProbe(io, pairPath, metaId, filePath, location)
            == Hit(location[6..] + Drop(GetFilePath(pairPath, metaId, filePath).value, 1), ReplaceAll(location, "file:/", ""))
  {
    var tail := Drop(GetFilePath(pairPath, metaId, filePath).value, 1);
    var complete := GetCompleteFilepath(pairPath, metaId, filePath, location);
    assert complete == Success(location + tail);
    assert Drop(location + tail, 6) == location[6..] + tail;
  }

  /** On a server location `scheme://host/dir/` with plain directory and file
      segments and only characters `quote` keeps, the probed URL is the
      location followed by the file path without its leading slash, and a 200
      answer makes it the hit.  `httpPath` is the file name, or the pair-tree
      path of a `file://` name. */
  lemma ServerProbeHit(io: Io, pairPath: string -> string, metaId: string, filePath: string,
                       scheme: string, host: string, dir: string, rel: string)
    requires scheme != "" && IsAsciiAlpha(scheme[0]) && AllSchemeChars(scheme) && Lower(scheme) == scheme
    requires host != "" && Excludes(host, {'/', '?', '#'})
    requires StartsWith(dir, "/") && EndsWith(dir, "/") && |dir| >= 2 && Excludes(dir, {'?', '#'})
    requires CleanSegments(Split(dir[1..|dir| - 1], '/'))
    requires rel != "" && IndexOf(rel, ':') == |rel| && rel[0] != '/' && CleanSegments(Split(rel, '/'))
    requires forall j :: 0 <= j < |dir + rel| ==> IsQuoteSafe((dir + rel)[j])
    requires (if StartsWith(filePath, "file://") then GetFilePath(pairPath, metaId, filePath) else Success(filePath)) == Success("/" + rel)
    requires io.probe(HeadRequest(scheme + "://" + host + dir + rel, host)) == Status(200)
    ensures HttpProbe(io, pairPath, metaId, filePath, scheme + "://" + host + dir)
            == Hit(scheme + "://" + host + dir + rel, scheme + "://" + host + dir)
  {
    ConcatAssoc(scheme + "://" + host, dir, rel);
    ServerProbeUrl(scheme, host, dir, rel);
    ProbeHitAt(io, pairPath, metaId, filePath, scheme + "://" + host + dir, "/" + rel, dir + rel);
  }

  lemma ConcatAssoc(a: string, b: string, c: string)
    ensures a + (b + c) == a + b + c
  {
  }

  lemma ProbeHitAt(io: Io, pairPath: string -> string, metaId: string, filePath: string, location: string, httpPath: string, path: string)
    requires (if StartsWith(filePath, "file://") then GetFilePath(pairPath, metaId, filePath) else Success(filePath)) == Success(httpPath)
    requires ProbeUrlPath(location, httpPath) == path && path != "" && UrlSplit(location).netloc != ""
    requires io.probe(HeadRequest(UrlSplit(location).scheme + "://" + UrlSplit(location).netloc + path, UrlSplit(location).netloc)) == Status(200)
    ensures HttpProbe(io, pairPath, metaId, filePath, location) == Hit(UrlSplit(location).scheme + "://" + UrlSplit(location).netloc + path, location)
  {
  }

  lemma ServerProbeUrl(scheme: string, host: string, dir: string, rel: string)
    requires scheme != "" && IsAsciiAlpha(scheme[0]) && AllSchemeChars(scheme) && Lower(scheme) == scheme
    requires Excludes(host, {'/', '?', '#'})
    requires StartsWith(dir, "/") && EndsWith(dir, "/") && |dir| >= 2 && Excludes(dir, {'?', '#'})
    requires CleanSegments(Split(dir[1..|dir| - 1], '/'))
    requires rel != "" && IndexOf(rel, ':') == |rel| && rel[0] != '/' && CleanSegments(Split(rel, '/'))
    requires forall j :: 0 <= j < |dir + rel| ==> IsQuoteSafe((dir + rel)[j])
    ensures UrlSplit(scheme + "://" + host + dir) == SplitResult(scheme, host, dir, "", "")
    ensures ProbeUrlPath(scheme + "://" + host + dir, "/" + rel) == dir + rel
  {
    UrlSplitSimple(scheme, host, dir);
    assert Drop("/" + rel, 1) == rel;
    QuoteSafeRest(dir, rel);
    UrlJoinPlain(dir, rel);
    QuoteSafeIdentity(dir + rel);
  }

  /** What `quote` leaves alone holds no URL delimiter. */
  lemma QuoteSafeRest(dir: string, rel: string)
    requires forall j :: 0 <= j < |dir + rel| ==> IsQuoteSafe((dir + rel)[j])
    ensures Excludes(rel, {'?', '#', ';'})
  {
    forall j | 0 <= j < |rel|
      ensures rel[j] !in {'?', '#', ';'}
    {
      assert IsQuoteSafe((dir + rel)[|dir| + j]);
      assert (dir + rel)[|dir| + j] == rel[j];
    }
  }

  /** A server location with no path and an empty file name: the joined path
      is empty, so nothing is probed and nothing is found. */
  lemma EmptyPathMisses(io: Io, pairPath: string -> string, metaId: string, scheme: string, host: string)
    requires scheme != "" && IsAsciiAlpha(scheme[0]) && AllSchemeChars(scheme) && Lower(scheme) == scheme
    requires Excludes(host, {'/', '?', '#'})
    ensures HttpProbe(io, pairPath, metaId, "", scheme + "://" + host) == Assign(None)
  {
    UrlSplitSimple(scheme, host, "");
    assert scheme + "://" + host + "" == scheme + "://" + host;
    assert ProbeUrlPath(scheme + "://" + host, "") == "";
  }

  /** A server that answers every probe with a status other than 200 never
      yields a hit: the location leaves `system_path` unset or untouched. */
  lemma HttpProbeMisses(io: Io, pairPath: string -> string, metaId: string, filePath: string, location: string)
    requires forall req :: io.probe(req).Status? && io.probe(req).code != 200
    ensures HttpProbe(io, pairPath, metaId, filePath, location) in {Keep, Assign(None)}
  {
  }

  lemma QuoteNonEmpty(s: string)
    requires s != ""
    ensures Quote(s) != ""
  {
  }

  /** A HEAD request that raises leaves the location's path component as the
      first result while the location stays None. */
  lemma RaisedProbeLeavesPathComponent(io: Io, pairPath: string -> string, metaId: string, filePath: string, location: string)
    requires IsHttpUrl(location) && !IsFileUrl(location)
    requires UrlSplit(location).netloc != "" && !StartsWith(UrlSplit(location).path, "//")
    requires !StartsWith(filePath, "file://") && |filePath| >= 2
    requires forall req :: io.probe(req) == Raised
    ensures Resolution(Probes(io, pairPath, metaId, filePath, [location])) == Success((Some(UrlSplit(location).path), None))
  {
    hide UrlJoin, Quote, UrlSplit, Probes, LocalProbe, GetFilePath, ReplaceAll;
    var ps := Probes(io, pairPath, metaId, filePath, [location]);
    UrlJoinNonEmpty(UrlSplit(location).path, Drop(filePath, 1));
    QuoteNonEmpty(UrlJoin(UrlSplit(location).path, Drop(filePath, 1)));
    assert ps[0] == HttpProbe(io, pairPath, metaId, filePath, location);
    assert ps[..0] == [];
  }

  /** The URL `create_valid_url` builds out of a file name: scheme, host and
      the quoted path.  When `urlsplit` mistook a `#` for the start of a
      fragment, the non-word characters between the path and the fragment
      are put back before quoting; the query is dropped. */
  function CreateValidUrl(fileName: string): (r: string)
    ensures StartsWith(r, UrlSplit(fileName).scheme + "://" + UrlSplit(fileName).netloc)
    ensures UrlSplit(fileName).fragment == "" ==> r == UrlSplit(fileName).scheme + "://" + UrlSplit(fileName).netloc + Quote(UrlSplit(fileName).path)
  {
    var parts := UrlSplit(fileName);
    var head := parts.scheme + "://" + parts.netloc;
    var path := if parts.fragment == "" then Quote(parts.path)
                else Quote(parts.path + BadChars(fileName, parts.path, parts.fragment) + parts.fragment);
    assert (head + path)[..|head|] == head;
    head + path
  }

  /** Python's `\w` on a string pattern, ASCII-exact; every character beyond
      ASCII is taken as a word character. */
  predicate IsWordChar(c: char) {
    IsAsciiAlpha(c) || IsDigit(c) || c == '_' || (c as int) >= 128
  }

  /** `escape(raw) ([\W]+) escape(broken) $` matches `s` at `p`. */
  predicate BadMatchAt(s: string, raw: string, broken: string, p: nat) {
    p + |raw| < |s| - |broken|
    && s[p..p + |raw|] == raw
    && s[|s| - |broken|..] == broken
    && forall k :: p + |raw| <= k < |s| - |broken| ==> !IsWordChar(s[k])
  }

  /** The leftmost position, from `p` on, where the bad-character pattern matches. */
  function SearchBad(s: string, raw: string, broken: string, p: nat): (r: Option<nat>)
    ensures r.Some? ==> p <= r.value && BadMatchAt(s, raw, broken, r.value)
    ensures forall q :: p <= q && (r.None? || q < r.value) ==> !BadMatchAt(s, raw, broken, q)
    decreases |s| - p
  {
    if p >= |s| then None
    else if BadMatchAt(s, raw, broken, p) then Some(p)
    else SearchBad(s, raw, broken, p + 1)
  }

  /** The characters group 1 captures, or the empty string without a match. */
  function BadChars(s: string, raw: string, broken: string): (r: string)
    ensures r != "" <==> exists p :: BadMatchAt(s, raw, broken, p)
    ensures forall k :: 0 <= k < |r| ==> !IsWordChar(r[k])
    ensures r != "" ==> |r| + |broken| <= |s| && s[|s| - |broken| - |r|..] == r + broken
  {
    match SearchBad(s, raw, broken, 0)
    case Some(p) =>
      var r := s[p + |raw|..|s| - |broken|];
      assert s[|s| - |broken| - |r|..] == r + s[|s| - |broken|..];
      r
    case None => ""
  }

  /** A name whose `#` was taken for a fragment is rebuilt whole: for
      `scheme://host/path#fragment`, with the path ending in a word
      character, the result quotes `path#fragment` as one path. */
  lemma CreateValidUrlRejoinsFragment(scheme: string, host: string, path: string, frag: string)
    requires scheme != "" && IsAsciiAlpha(scheme[0]) && AllSchemeChars(scheme) && Lower(scheme) == scheme
    requires Excludes(host, {'/', '?', '#'})
    requires |path| > 0 && path[0] == '/' && Excludes(path, {'?', '#'}) && IsWordChar(path[|path| - 1])
    requires frag != ""
    ensures CreateValidUrl(scheme + "://" + host + path + "#" + frag) == scheme + "://" + host + Quote(path + "#" + frag)
  {
    // The three split lemmas give each stage of `urlsplit`.
    hide SplitScheme, SplitNetloc, SplitOnce, BadChars, Quote;
    var url := scheme + "://" + host + path + "#" + frag;
    var afterScheme := "//" + host + path + "#" + frag;
    var rest := path + "#" + frag;
    SchemeOfUrl(scheme, afterScheme);
    assert url == scheme + ":" + afterScheme;
    NetlocOfUrl(host, path + "#" + frag);
    assert afterScheme == "//" + host + rest;
    FragmentOfRest(path, frag);
    var parts := UrlSplit(url);
    assert parts.path == path && parts.netloc == host && parts.fragment == frag;
    var p0 := |scheme| + 3 + |host|;
    assert url == (scheme + "://" + host) + rest;
    assert url[p0..] == rest;
    BadCharsIsHash(url, path, frag, p0);
  }

  lemma SchemeOfUrl(scheme: string, rest: string)
    requires scheme != "" && IsAsciiAlpha(scheme[0]) && AllSchemeChars(scheme) && Lower(scheme) == scheme
    ensures SplitScheme(scheme + ":" + rest) == (scheme, rest)
  {
    var url := scheme + ":" + rest;
    assert forall j :: 0 <= j < |scheme| ==> url[j] == scheme[j] && url[j] != ':';
    IndexOfIsFirst(url, ':', |scheme|);
    assert url[..|scheme|] == scheme;
    assert url[|scheme| + 1..] == rest;
  }

  lemma NetlocOfUrl(host: string, rest: string)
    requires Excludes(host, {'/', '?', '#'})
    requires rest == "" || rest[0] in {'/', '?', '#'}
    ensures SplitNetloc("//" + host + rest) == (host, rest)
  {
    var s := "//" + host + rest;
    assert s[..2] == "//";
    var t := s[2..];
    assert t == host + rest;
    assert forall j :: 0 <= j < |host| ==> t[j] == host[j];
    if rest != "" {
      assert t[|host|] == rest[0];
    }
    IndexOfAnyIsFirst(t, {'/', '?', '#'}, |host|);
    assert t[..|host|] == host;
    assert t[|host|..] == rest;
  }

  lemma IndexOfAnyIsFirst(s: string, cs: set<char>, i: nat)
    requires i <= |s|
    requires i < |s| ==> s[i] in cs
    requires forall j :: 0 <= j < i ==> s[j] !in cs
    ensures IndexOfAny(s, cs) == i
  {
  }

  /** `urlsplit` of `scheme://host/path` without query or fragment. */
  lemma UrlSplitSimple(scheme: string, host: string, path: string)
    requires scheme != "" && IsAsciiAlpha(scheme[0]) && AllSchemeChars(scheme) && Lower(scheme) == scheme
    requires Excludes(host, {'/', '?', '#'})
    requires path == "" || (path[0] == '/' && Excludes(path, {'?', '#'}))
    ensures UrlSplit(scheme + "://" + host + path) == SplitResult(scheme, host, path, "", "")
  {
    hide SplitScheme, SplitNetloc, SplitOnce, Lower, AllSchemeChars;
    var url := scheme + "://" + host + path;
    var afterScheme := "//" + host + path;
    assert url == scheme + ":" + afterScheme by {
      assert "://" == ":" + "//";
    }
    SchemeOfUrl(scheme, afterScheme);
    assert SplitScheme(url) == (scheme, afterScheme);
    NetlocOfUrl(host, path);
    assert SplitNetloc(afterScheme) == (host, path);
    NoDelimiters(path);
    assert SplitOnce(path, '#') == (path, "") && SplitOnce(path, '?') == (path, "");
  }

  lemma FragmentOfRest(path: string, frag: string)
    requires Excludes(path, {'?', '#'})
    ensures SplitOnce(path + "#" + frag, '#') == (path, frag)
    ensures SplitOnce(path, '?') == (path, "")
  {
    var s := path + "#" + frag;
    assert forall j :: 0 <= j < |path| ==> s[j] == path[j];
    IndexOfIsFirst(s, '#', |path|);
    assert s[..|path|] == path;
    assert s[|path| + 1..] == frag;
    IndexOfIsFirst(path, '?', |path|);
  }

  lemma BadCharsIsHash(url: string, path: string, frag: string, p0: nat)
    requires |path| > 0 && IsWordChar(path[|path| - 1]) && frag != ""
    requires p0 + |path| + 1 + |frag| == |url|
    requires url[p0..] == path + "#" + frag
    ensures BadChars(url, path, frag) == "#"
  {
    assert url[p0..p0 + |path|] == path;
    assert url[|url| - |frag|..] == frag;
    assert url[p0 + |path|] == '#';
    assert BadMatchAt(url, path, frag, p0);
    forall q | 0 <= q < p0
      ensures !BadMatchAt(url, path, frag, q)
    {
      // the gap would contain the last character of the path, a word character
      var k := p0 + |path| - 1;
      assert url[k] == path[|path| - 1];
      assert q + |path| <= k < |url| - |frag|;
    }
    var m := SearchBad(url, path, frag, 0);
    assert m == Some(p0);
    assert url[p0 + |path|..|url| - |frag|] == "#";
  }

  /** `open_system_file`: a URL is repaired and opened, and a failed open is
      retried on the other systems; anything else is opened locally. */
  method OpenSystemFile(io: Io, fileName: string) returns (r: Result<Handle, SystemError>)
    ensures !IsHttpUrl(fileName) ==> r == (if io.opensLocal(fileName) then Success(Local(fileName)) else Failure(LocalOpenFailed(fileName)))
    ensures IsHttpUrl(fileName) && io.opens(GetRequest(CreateValidUrl(fileName))) ==> r == Success(Remote(GetRequest(CreateValidUrl(fileName))))
    ensures IsHttpUrl(fileName) && !io.opens(GetRequest(CreateValidUrl(fileName))) ==> r == OtherSystemResult(io, CreateValidUrl(fileName))
  {
    if IsHttpUrl(fileName) {
      var validUrl := CreateValidUrl(fileName);
      if io.opens(GetRequest(validUrl)) {
        return Success(Remote(GetRequest(validUrl)));
      }
      var attempts;
      r, attempts := GetOtherSystem(io, validUrl);
    } else if io.opensLocal(fileName) {
      return Success(Local(fileName));
    } else {
      return Failure(LocalOpenFailed(fileName));
    }
  }

  /** `open_args_system_file`: the repaired URL with the original query
      re-attached after `?`; a non-URL raises. */
  function OpenArgsSystemFile(io: Io, fileName: string): (r: Result<Handle, SystemError>)
    ensures !IsHttpUrl(fileName) ==> r == Failure(InvalidUrl(fileName))
    ensures r.Success? ==> r.value == Remote(GetRequest(CreateValidUrl(fileName) + "?" + UrlSplit(fileName).query))
    ensures IsHttpUrl(fileName) ==> (r.Success? <==> io.opens(GetRequest(CreateValidUrl(fileName) + "?" + UrlSplit(fileName).query)))
  {
    if IsHttpUrl(fileName) then
      var argUrl := CreateValidUrl(fileName) + "?" + UrlSplit(fileName).query;
      if io.opens(GetRequest(argUrl)) then Success(Remote(GetRequest(argUrl))) else Failure(RequestFailed(argUrl))
    else Failure(InvalidUrl(fileName))
  }

  /** The request `open_file_range` sends: the repaired URL with a
      `Range: bytes=<start>-<end>` header. */
  function RangeRequest(fileName: string, rangeStart: int, rangeEnd: int): Request {
    Request("GET", CreateValidUrl(fileName), map["Range" := "bytes=" + IntToString(rangeStart) + "-" + IntToString(rangeEnd)])
  }

  /** `open_file_range`: None for a non-URL; for a URL the range request, or
      an error naming the range when it fails. */
  function OpenFileRange(io: Io, fileName: string, rangeStart: int, rangeEnd: int): (r: Result<Option<Handle>, SystemError>)
    ensures !IsHttpUrl(fileName) ==> r == Success(None)
    ensures IsHttpUrl(fileName) ==> (r.Success? <==> io.opens(RangeRequest(fileName, rangeStart, rangeEnd)))
    ensures IsHttpUrl(fileName) && r.Success? ==> r.value == Some(Remote(RangeRequest(fileName, rangeStart, rangeEnd)))
    ensures r.Failure? ==> r.error == RangeNotValid(rangeStart, rangeEnd)
  {
    if IsHttpUrl(fileName) then
      var req := RangeRequest(fileName, rangeStart, rangeEnd);
      if io.opens(req) then Success(Some(Remote(req))) else Failure(RangeNotValid(rangeStart, rangeEnd))
    else Success(None)
  }

  /** The range header can be read back: both bounds parse to what was asked. */
  lemma RangeHeaderReadsBack(fileName: string, rangeStart: int, rangeEnd: int)
    ensures var h := RangeRequest(fileName, rangeStart, rangeEnd).headers["Range"];
            StartsWith(h, "bytes=")
            && ParseInt(h[6..6 + |IntToString(rangeStart)|]) == Some(rangeStart)
            && ParseInt(h[7 + |IntToString(rangeStart)|..]) == Some(rangeEnd)
  {
    var a := IntToString(rangeStart);
    var b := IntToString(rangeEnd);
    var h := "bytes=" + a + "-" + b;
    assert h[..6] == "bytes=";
    assert h[6..6 + |a|] == a;
    assert h[7 + |a|..] == b;
    ParseIntOfIntToString(rangeStart);
    ParseIntOfIntToString(rangeEnd);
  }

  /** The locations `get_other_system` tries: the configured metadata and
      static-file locations, or the package defaults. */
  function AllLocations(io: Io): seq<string> {
    match io.settings
    case Some(l) => l.metadata + l.staticFiles
    case None => Aubrey.MetadataLocations + Aubrey.StaticFileLocations
  }

  /** Without Django settings there is nowhere to retry. */
  lemma DefaultLocationsEmpty(io: Io)
    requires io.settings.None?
    ensures AllLocations(io) == []
  {
  }

  /** `failed_url.replace(host, replacement_host)`: the host of the failed
      URL replaced, everywhere it occurs, by the host of a location. */
  function SwapHost(failedUrl: string, location: string): (r: string)
    ensures UrlSplit(location).netloc == UrlSplit(failedUrl).netloc ==> r == failedUrl
  {
    ReplaceAll(failedUrl, UrlSplit(failedUrl).netloc, UrlSplit(location).netloc)
  }

  /** For `scheme://host/path`, where the host occurs nowhere else, the
      candidate is the same URL on the location's host. */
  lemma SwapHostReplacesHost(scheme: string, host: string, path: string, location: string)
    requires scheme != "" && IsAsciiAlpha(scheme[0]) && AllSchemeChars(scheme) && Lower(scheme) == scheme
    requires host != "" && Excludes(host, {'/', '?', '#', ':'})
    requires forall i :: 0 <= i < |scheme| ==> scheme[i] != host[0]
    requires path == "" || (path[0] == '/' && Excludes(path, {'?', '#'}))
    requires !Contains(path, host)
    ensures SwapHost(scheme + "://" + host + path, location) == scheme + "://" + UrlSplit(location).netloc + path
  {
    UrlSplitSimple(scheme, host, path);
    hide UrlSplit, ReplaceAll, Lower, AllSchemeChars;
    var head := scheme + "://";
    forall i | 0 <= i < |head|
      ensures head[i] != host[0]
    {
      if i >= |scheme| {
        assert head[i] in {':', '/'};
      }
    }
    assert scheme + "://" + host + path == head + host + path;
    ReplaceFirst(head, host, path, UrlSplit(location).netloc);
  }

  /** A pattern whose first character does not occur before it, and which
      does not occur after it, is replaced exactly once. */
  lemma ReplaceFirst(head: string, pat: string, tail: string, rep: string)
    requires pat != [] && forall i :: 0 <= i < |head| ==> head[i] != pat[0]
    requires !Contains(tail, pat)
    ensures ReplaceAll(head + pat + tail, pat, rep) == head + rep + tail
  {
    assert head + pat + tail == head + (pat + tail);
    ReplaceAllSkip(head, pat + tail, pat, rep);
    var t := pat + tail;
    assert t[..|pat|] == pat && t[|pat|..] == tail;
    ReplaceAllAbsent(tail, pat, rep);
  }

  /** The candidate URLs, one per location, in order. */
  function HostSwaps(failedUrl: string, locations: seq<string>): (r: seq<string>)
    ensures |r| == |locations|
    ensures forall i :: 0 <= i < |locations| ==> r[i] == SwapHost(failedUrl, locations[i])
  {
    seq(|locations|, i requires 0 <= i < |locations| => SwapHost(failedUrl, locations[i]))
  }

  /** The first candidate that opens, as `get_other_system` returns it. */
  function OtherSystemResult(io: Io, failedUrl: string): Result<Handle, SystemError> {
    var cands := HostSwaps(failedUrl, AllLocations(io));
    var k := FirstOpening(io, cands);
    if k < |cands| then Success(Remote(GetRequest(cands[k]))) else Failure(CannotLocate(failedUrl))
  }

  function FirstOpening(io: Io, urls: seq<string>): (k: nat)
    ensures k <= |urls|
    ensures k < |urls| ==> io.opens(GetRequest(urls[k]))
    ensures forall j :: 0 <= j < k ==> !io.opens(GetRequest(urls[j]))
  {
    if urls == [] then 0 else if io.opens(GetRequest(urls[0])) then 0 else 1 + FirstOpening(io, urls[1..])
  }

  /** `get_other_system`: each location's host replaces the failed URL's
      host, in order, and the first URL that opens is returned; after as many
      failed attempts as there are locations it raises.  `attempts` counts
      the `urlopen` calls. */
  method GetOtherSystem(io: Io, failedUrl: string) returns (r: Result<Handle, SystemError>, attempts: nat)
    ensures r == OtherSystemResult(io, failedUrl)
    ensures attempts <= |AllLocations(io)|
    ensures r.Failure? ==> attempts == |AllLocations(io)|
    ensures r.Success? ==> attempts == FirstOpening(io, HostSwaps(failedUrl, AllLocations(io))) + 1
  {
    // The candidates' contracts carry the proof; how a host is swapped plays no part.
    hide SwapHost, FirstOpening, HostSwaps, ReplaceAll, UrlSplit;
    var allLocations := AllLocations(io);
    ghost var cands := HostSwaps(failedUrl, allLocations);
    attempts := 0;
    var i := 0;
    while i < |allLocations|
      invariant 0 <= i <= |allLocations| && attempts == i
      invariant forall j :: 0 <= j < i ==> !io.opens(GetRequest(cands[j]))
    {
      var newUrl := SwapHost(failedUrl, allLocations[i]);
      assert newUrl == cands[i];
      attempts := attempts + 1;
      if io.opens(GetRequest(newUrl)) {
        assert FirstOpening(io, cands) == i;
        return Success(Remote(GetRequest(newUrl))), attempts;
      }
      i := i + 1;
    }
    assert FirstOpening(io, cands) == |cands|;
    return Failure(CannotLocate(failedUrl)), attempts;
  }
}
