/** The behaviour the repository's system tests describe, stated on the model
    as lemmas: the storage locations `file://disk2/` and
    `http://unt.edu/disk2/`, the object `metapthx` (pair-tree path
    `/me/ta/pt/hx/metapthx`) and the file `web/4.jpg`.  The small lemmas
    without a comment each establish one fact about the literals. */
module SystemExamples {
  import opened Wrappers
  import opened Text
  import opened Url
  import opened System

  const Disk: string := "file://disk2/"
  const Server: string := "http://unt.edu/disk2/"
  const MetaId: string := "metapthx"
  const PairTree: string := "/me/ta/pt/hx/metapthx"
  /** The pair-tree path and file without the leading slash. */
  const Rel: string := "me/ta/pt/hx/metapthx/web/4.jpg"
  const Found: string := "http://unt.edu/disk2/me/ta/pt/hx/metapthx/web/4.jpg"

  lemma HttpScheme()
    ensures Lower("http") == "http" && AllSchemeChars("http") && IsAsciiAlpha("http"[0])
  {
  }

  lemma DiskParts()
    ensures |Disk| >= 6 && Disk[..6] == "file:/" && Disk[6..] == "/disk2/"
  {
  }

  lemma DiskAbsoluteRest()
    ensures ReplaceAll("/disk2/", "file:/", "") == "/disk2/"
  {
    ReplaceAllNoLead("/disk2/", "file:/", "");
  }

  /** The local location is reported without its `file:/`. */
  lemma DiskLocation()
    ensures ReplaceAll(Disk, "file:/", "") == "/disk2/"
  {
    DiskParts();
    DiskAbsoluteRest();
  }

  lemma ServerLiteral()
    ensures "http" + "://" + "unt.edu" + "/disk2/" == Server
  {
  }

  lemma ServerParts()
    ensures Excludes("unt.edu", {'/', '?', '#'}) && Excludes("/disk2/", {'?', '#'}) && "/disk2/"[0] == '/'
  {
  }

  lemma ServerSplit()
    ensures UrlSplit(Server) == SplitResult("http", "unt.edu", "/disk2/", "", "")
  {
    HttpScheme();
    ServerParts();
    ServerLiteral();
    UrlSplitSimple("http", "unt.edu", "/disk2/");
  }

  lemma ServerIsHttp()
    ensures IsHttpUrl(Server) && !IsFileUrl(Server) && IsFileUrl(Disk)
  {
    assert Server[..7] == "http://";
    DiffersAt(Server, "file://", 0);
    assert Disk[..7] == "file://";
  }

  lemma PlainName()
    ensures !StartsWith("web/4.jpg", "file://")
  {
    DiffersAt("web/4.jpg", "file://", 0);
  }

  /** A plain file name that exists locally is found on the first, local,
      location, which is reported without its `file:/`. */
  lemma LocalFileFound(io: Io, pairPath: string -> string)
    requires forall p :: io.pathExists(p)
    ensures Resolution(Probes(io, pairPath, MetaId, "web/4.jpg", [Disk, Server])) == Success((Some("web/4.jpg"), Some("/disk2/")))
  {
    hide *;
    DiskLocation();
    ServerIsHttp();
    PlainName();
    LocalHitFirst(io, pairPath, MetaId, "web/4.jpg", Disk, [Server]);
    assert [Disk] + [Server] == [Disk, Server];
  }

  lemma FileNameShape()
    ensures "file://" + "web" + "/4.jpg" + "" == "file://web/4.jpg"
    ensures "web" + "/4.jpg" == "web/4.jpg"
    ensures StartsWith("file://web/4.jpg", "file://")
    ensures forall i :: 0 <= i < |"/4.jpg"| ==> "/4.jpg"[i] != '\n'
  {
  }

  lemma FileNameWeb()
    ensures WebPart("file://web/4.jpg") == Some("web/4.jpg")
  {
    FileNameShape();
    WebPartOfShape("file://", "/4.jpg", "");
  }

  lemma PairTreeLiteral()
    ensures PairTree + "/" + "web/4.jpg" == "/" + Rel
  {
  }

  lemma PairTreeJoin()
    ensures PathJoin(PairTree, "web/4.jpg") == "/" + Rel
  {
    DiffersAt("web/4.jpg", "/", 0);
    assert PairTree[|PairTree| - 1..] == "x";
    PairTreeLiteral();
  }

  lemma FilePathOfName(pairPath: string -> string)
    requires pairPath(MetaId) == PairTree
    ensures GetFilePath(pairPath, MetaId, "file://web/4.jpg") == Success("/" + Rel)
  {
    FileNameWeb();
    PairTreeJoin();
  }

  lemma CompleteOnDisk()
    ensures Disk[6..] + Drop("/" + Rel, 1) == "/disk2/" + Rel
  {
    assert Drop("/" + Rel, 1) == Rel;
    DiskParts();
  }

  lemma OnDiskLiteral()
    ensures "/disk2/" + Rel == "/disk2/me/ta/pt/hx/metapthx/web/4.jpg"
  {
  }

  /** A `file://` name is looked up under the pair-tree path on the disk. */
  lemma LocalFileInPathFound(io: Io, pairPath: string -> string)
    requires forall p :: io.pathExists(p)
    requires pairPath(MetaId) == PairTree
    ensures Resolution(Probes(io, pairPath, MetaId, "file://web/4.jpg", [Disk, Server]))
            == Success((Some("/disk2/me/ta/pt/hx/metapthx/web/4.jpg"), Some("/disk2/")))
  {
    hide *;
    DiskLocation();
    ServerIsHttp();
    FileNameShape();
    FilePathOfName(pairPath);
    CompleteOnDisk();
    OnDiskLiteral();
    LocalPairTreeHitFirst(io, pairPath, MetaId, "file://web/4.jpg", Disk, [Server]);
    assert [Disk] + [Server] == [Disk, Server];
  }

  lemma BareServer()
    ensures "http" + "://" + "unt.edu" == "http://unt.edu"
    ensures IsHttpUrl("http://unt.edu") && !IsFileUrl("http://unt.edu")
  {
    assert "http://unt.edu"[..7] == "http://";
    DiffersAt("http://unt.edu", "file://", 0);
  }

  /** An empty file name on a server location without a path finds nothing,
      whatever the server answers. */
  lemma EmptyPathFindsNothing(io: Io, pairPath: string -> string)
    ensures Resolution(Probes(io, pairPath, MetaId, "", ["http://unt.edu"])) == Success((None, None))
  {
    HttpScheme();
    ServerParts();
    BareServer();
    EmptyPathMisses(io, pairPath, MetaId, "http", "unt.edu");
    var ps := Probes(io, pairPath, MetaId, "", ["http://unt.edu"]);
    assert ps[0] == Assign(None);
    assert ps[..0] == [];
  }

  /** Missing locally and answering 404 on the server: nothing is found. */
  lemma FileNotFound(io: Io, pairPath: string -> string)
    requires forall p :: !io.pathExists(p)
    requires forall req :: io.probe(req) == Status(404)
    ensures Resolution(Probes(io, pairPath, MetaId, "web/4.jpg", [Disk, Server])) == Success((None, None))
  {
    hide UrlSplit, ReplaceAll, Quote, UrlJoin, GetCompleteFilepath, GetFilePath;
    ServerIsHttp();
    PlainName();
    HttpProbeMisses(io, pairPath, MetaId, "web/4.jpg", Server);
    var ps := Probes(io, pairPath, MetaId, "web/4.jpg", [Disk, Server]);
    assert ps[0] == Keep;
    assert ps[1] in {Keep, Assign(None)};
    assert ps[..1] == [Keep];
  }

  lemma OtherFileNameShape()
    ensures "file://" + "web" + "/01_tif/4.jpg" + "" == "file://web/01_tif/4.jpg"
    ensures "web" + "/01_tif/4.jpg" == "web/01_tif/4.jpg"
    ensures forall i :: 0 <= i < |"/01_tif/4.jpg"| ==> "/01_tif/4.jpg"[i] != '\n'
  {
  }

  lemma OtherPairTreeJoin()
    ensures PathJoin("/me/ta/pt/h/metapth", "web/01_tif/4.jpg") == "/me/ta/pt/h/metapth/web/01_tif/4.jpg"
  {
    DiffersAt("web/01_tif/4.jpg", "/", 0);
    var p := "/me/ta/pt/h/metapth";
    assert p[|p| - 1..] == "h";
    assert p + "/" + "web/01_tif/4.jpg" == "/me/ta/pt/h/metapth/web/01_tif/4.jpg";
  }

  /** `get_file_path` puts the `web/...` part under the pair-tree path. */
  lemma FilePathExample(pairPath: string -> string)
    requires pairPath("metapth") == "/me/ta/pt/h/metapth"
    ensures GetFilePath(pairPath, "metapth", "file://web/01_tif/4.jpg") == Success("/me/ta/pt/h/metapth/web/01_tif/4.jpg")
  {
    OtherFileNameShape();
    WebPartOfShape("file://", "/01_tif/4.jpg", "");
    OtherPairTreeJoin();
  }

  /** `get_file_path` rejects a name that is not a `file:/` name. */
  lemma FilePathRejects(pairPath: string -> string)
    ensures GetFilePath(pairPath, MetaId, "/web/01_tif/4.jpg") == Failure(UnrecognizedFileName("/web/01_tif/4.jpg"))
  {
    DiffersAt("/web/01_tif/4.jpg", "file:/", 0);
  }

  lemma FoundLiteral()
    ensures Server + Rel == Found
  {
    assert Found[..|Server|] == Server;
    assert Found[|Server|..] == Rel;
  }

  /** `get_complete_filepath` appends the pair-tree path to the system. */
  lemma CompleteFilepathExample(pairPath: string -> string)
    requires pairPath(MetaId) == PairTree
    ensures GetCompleteFilepath(pairPath, MetaId, "file://web/4.jpg", Server) == Success(Found)
  {
    FilePathOfName(pairPath);
    assert Drop("/" + Rel, 1) == Rel;
    FoundLiteral();
  }

  lemma CommaQuoted()
    ensures Quote(",") == "%2C" && Quote("#") == "%23"
  {
  }

  lemma CommaPathParts()
    ensures Excludes("ex.com", {'/', '?', '#'}) && Excludes("/path,/sdf", {'?', '#'}) && "/path,/sdf"[0] == '/'
    ensures "http" + "://" + "ex.com" + "/path,/sdf" == "http://ex.com/path,/sdf"
    ensures "/path,/sdf" == "/path" + ("," + "/sdf")
    ensures "/path" + ("%2C" + "/sdf") == "/path%2C/sdf"
    ensures "http" + "://" + "ex.com" + "/path%2C/sdf" == "http://ex.com/path%2C/sdf"
  {
  }

  lemma CommaPathSplit()
    ensures UrlSplit("http://ex.com/path,/sdf") == SplitResult("http", "ex.com", "/path,/sdf", "", "")
  {
    HttpScheme();
    CommaPathParts();
    UrlSplitSimple("http", "ex.com", "/path,/sdf");
  }

  lemma CommaPathQuoted()
    ensures Quote("/path,/sdf") == "/path%2C/sdf"
  {
    hide Quote;
    CommaPathParts();
    QuoteAppend("/path", "," + "/sdf");
    QuoteAppend(",", "/sdf");
    QuoteSafeIdentity("/path");
    QuoteSafeIdentity("/sdf");
    CommaQuoted();
  }

  /** A comma in a path is percent-encoded. */
  lemma ValidUrlEncodes()
    ensures CreateValidUrl("http://ex.com/path,/sdf") == "http://ex.com/path%2C/sdf"
  {
    CommaPathSplit();
    CommaPathQuoted();
    CommaPathParts();
  }

  lemma HashPathParts()
    ensures Excludes("ex.com", {'/', '?', '#'}) && Excludes("/path", {'?', '#'})
    ensures "/path"[0] == '/' && IsWordChar("/path"[4])
    ensures "/path" + "#" + "01/seg" == "/path" + ("#" + "01/seg")
  {
  }

  lemma HashPathJoins()
    ensures "http" + "://" + "ex.com" + "/path" + "#" + "01/seg" == "http://ex.com/path#01/seg"
    ensures "/path" + ("%23" + "01/seg") == "/path%2301/seg"
    ensures "http" + "://" + "ex.com" + "/path%2301/seg" == "http://ex.com/path%2301/seg"
  {
  }

  lemma HashPathQuoted()
    ensures Quote("/path" + "#" + "01/seg") == "/path%2301/seg"
  {
    hide Quote;
    HashPathParts();
    HashPathJoins();
    QuoteAppend("/path", "#" + "01/seg");
    QuoteAppend("#", "01/seg");
    QuoteSafeIdentity("/path");
    QuoteSafeIdentity("01/seg");
    CommaQuoted();
  }

  /** A `#` that `urlsplit` took for a fragment is put back and encoded. */
  lemma ValidUrlRejoins()
    ensures CreateValidUrl("http://ex.com/path#01/seg") == "http://ex.com/path%2301/seg"
  {
    HttpScheme();
    HashPathParts();
    HashPathJoins();
    CreateValidUrlRejoinsFragment("http", "ex.com", "/path", "01/seg");
    HashPathQuoted();
  }

  const ArgsUrl: string := "http://example.com/pth/f.jpg?start=123"

  lemma ArgsUrlLiteral()
    ensures ArgsUrl == "http" + ":" + ("//" + "example.com" + ("/pth/f.jpg" + "?" + "start=123"))
  {
  }

  lemma ArgsUrlRejoined()
    ensures "http" + "://" + "example.com" + "/pth/f.jpg" + "?" + "start=123" == ArgsUrl
  {
  }

  lemma ArgsUrlParts()
    ensures Excludes("example.com", {'/', '?', '#'}) && Excludes("/pth/f.jpg", {'?', '#'})
    ensures forall j :: 0 <= j < |"/pth/f.jpg"| ==> IsQuoteSafe("/pth/f.jpg"[j])
    ensures ("/pth/f.jpg" + "?" + "start=123")[0] == '/'
    ensures ArgsUrl[..7] == "http://"
  {
  }

  lemma ArgsRest()
    ensures SplitOnce("/pth/f.jpg" + "?" + "start=123", '#') == ("/pth/f.jpg" + "?" + "start=123", "")
    ensures SplitOnce("/pth/f.jpg" + "?" + "start=123", '?') == ("/pth/f.jpg", "start=123")
  {
    var rest := "/pth/f.jpg" + "?" + "start=123";
    assert forall j :: 0 <= j < |rest| ==> rest[j] != '#';
    IndexOfIsFirst(rest, '#', |rest|);
    assert forall j :: 0 <= j < 10 ==> rest[j] != '?';
    IndexOfIsFirst(rest, '?', 10);
    assert rest[..10] == "/pth/f.jpg" && rest[11..] == "start=123";
  }

  lemma ArgsSplit()
    ensures UrlSplit(ArgsUrl) == SplitResult("http", "example.com", "/pth/f.jpg", "start=123", "")
  {
    HttpScheme();
    ArgsUrlParts();
    ArgsUrlLiteral();
    var rest := "/pth/f.jpg" + "?" + "start=123";
    SchemeOfUrl("http", "//" + "example.com" + rest);
    NetlocOfUrl("example.com", rest);
    ArgsRest();
  }

  /** With arguments the query is re-attached to the repaired URL, which is
      unchanged for a URL that needs no repair. */
  lemma ArgsUrlExample(io: Io)
    requires forall req :: io.opens(req)
    ensures OpenArgsSystemFile(io, ArgsUrl) == Success(Remote(GetRequest(ArgsUrl)))
  {
    hide Quote, UrlSplit;
    ArgsSplit();
    ArgsUrlParts();
    QuoteSafeIdentity("/pth/f.jpg");
    assert CreateValidUrl(ArgsUrl) == "http" + "://" + "example.com" + "/pth/f.jpg";
    ArgsUrlRejoined();
  }

  /** A name that is not a URL is refused. */
  lemma ArgsNonUrl(io: Io)
    ensures OpenArgsSystemFile(io, "/bad/url") == Failure(InvalidUrl("/bad/url"))
  {
    DiffersAt("/bad/url", "http://", 0);
    DiffersAt("/bad/url", "https://", 0);
  }

  lemma RangeDigits()
    ensures IntToString(0) == "0" && IntToString(10) == "10"
    ensures "bytes=" + "0" + "-" + "10" == "bytes=0-10"
  {
    assert NatToString(10) == NatToString(1) + [DigitChar(0)];
  }

  /** The range request carries `bytes=0-10`. */
  lemma FileRangeHeader()
    ensures RangeRequest("http://example.com/path", 0, 10).headers["Range"] == "bytes=0-10"
  {
    RangeDigits();
  }

  /** A local name gives no handle. */
  lemma FileRangeLocal(io: Io)
    ensures OpenFileRange(io, "/this/is/local", 0, 10) == Success(None)
  {
    DiffersAt("/this/is/local", "http://", 0);
    DiffersAt("/this/is/local", "https://", 0);
  }

  const Failed: string := "http://example.com/disk1/noexist"
  const Spares: Locations := Locations(["http://url.com/disk2"], ["http://url2.com/disk2"])

  lemma FailedParts()
    ensures Excludes("example.com", {'/', '?', '#'}) && Excludes("/disk1/noexist", {'?', '#'}) && "/disk1/noexist"[0] == '/'
    ensures Excludes("url.com", {'/', '?', '#'}) && Excludes("url2.com", {'/', '?', '#'})
    ensures Excludes("/disk2", {'?', '#'}) && "/disk2"[0] == '/'
  {
  }

  lemma FailedLiteral()
    ensures "http" + "://" + "example.com" + "/disk1/noexist" == Failed
  {
  }

  lemma SpareLiterals()
    ensures "http" + "://" + "url.com" + "/disk2" == "http://url.com/disk2"
    ensures "http" + "://" + "url2.com" + "/disk2" == "http://url2.com/disk2"
  {
  }

  lemma FailedHost()
    ensures UrlSplit(Failed).netloc == "example.com"
    ensures UrlSplit("http://url.com/disk2").netloc == "url.com"
    ensures UrlSplit("http://url2.com/disk2").netloc == "url2.com"
  {
    HttpScheme();
    FailedParts();
    FailedLiteral();
    SpareLiterals();
    UrlSplitSimple("http", "example.com", "/disk1/noexist");
    UrlSplitSimple("http", "url.com", "/disk2");
    UrlSplitSimple("http", "url2.com", "/disk2");
  }

  lemma SwapParts()
    ensures Failed == "http://" + ("example.com" + "/disk1/noexist")
    ensures ("example.com" + "/disk1/noexist")[..11] == "example.com"
    ensures ("example.com" + "/disk1/noexist")[11..] == "/disk1/noexist"
    ensures forall i :: 0 <= i < |"http://"| ==> "http://"[i] != 'e'
    ensures forall i :: 0 <= i < 14 && 14 - i >= 11 ==> "/disk1/noexist"[i] != 'e'
  {
  }

  lemma CandidateLiterals()
    ensures "http://" + ("url.com" + "/disk1/noexist") == "http://url.com/disk1/noexist"
    ensures "http://" + ("url2.com" + "/disk1/noexist") == "http://url2.com/disk1/noexist"
  {
  }

  lemma SwapHead(host: string)
    ensures ReplaceAll(Failed, "example.com", host) == "http://" + (host + "/disk1/noexist")
  {
    SwapParts();
    ReplaceAllSkip("http://", "example.com" + "/disk1/noexist", "example.com", host);
    ReplaceAllNoLead("/disk1/noexist", "example.com", host);
  }

  /** `get_other_system` tries the failed URL with the host of each
      location in turn: first the metadata location, then the static one. */
  lemma OtherSystemCandidates(io: Io)
    requires io.settings == Some(Spares)
    ensures HostSwaps(Failed, AllLocations(io)) == ["http://url.com/disk1/noexist", "http://url2.com/disk1/noexist"]
  {
    var locations := AllLocations(io);
    assert locations == ["http://url.com/disk2", "http://url2.com/disk2"];
    TwoSwaps(Failed, "http://url.com/disk2", "http://url2.com/disk2");
    FirstSwap();
    SecondSwap();
  }

  lemma TwoSwaps(failed: string, a: string, b: string)
    ensures HostSwaps(failed, [a, b]) == [SwapHost(failed, a), SwapHost(failed, b)]
  {
  }

  lemma FirstSwap()
    ensures SwapHost(Failed, "http://url.com/disk2") == "http://url.com/disk1/noexist"
  {
    FailedHost();
    CandidateLiterals();
    SwapHead("url.com");
  }

  lemma SecondSwap()
    ensures SwapHost(Failed, "http://url2.com/disk2") == "http://url2.com/disk1/noexist"
  {
    FailedHost();
    CandidateLiterals();
    SwapHead("url2.com");
  }

  /** The found file is the first candidate that opens. */
  lemma OtherSystemFindsFile(io: Io)
    requires io.settings == Some(Spares)
    requires forall req :: io.opens(req)
    ensures OtherSystemResult(io, Failed) == Success(Remote(GetRequest("http://url.com/disk1/noexist")))
  {
    OtherSystemCandidates(io);
  }

  /** With every candidate failing, both are tried and the lookup raises. */
  lemma OtherSystemFindsNothing(io: Io)
    requires io.settings == Some(Spares)
    requires forall req :: !io.opens(req)
    ensures OtherSystemResult(io, Failed) == Failure(CannotLocate(Failed))
    ensures |AllLocations(io)| == 2
  {
    OtherSystemCandidates(io);
  }
}
