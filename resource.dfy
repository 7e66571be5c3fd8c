/** aubreylib/resource.py: the module-level helpers and `ResourceObject`,
    which locates a record's METS document, reads its descriptive metadata
    and walks its structure, filling its fields one step at a time.  Every
    step is proved to compute the value a pure definition (here, or in
    modules Mets and Descriptive) gives for it. */
module Resource {
  import opened Wrappers
  import opened Text
  import opened Seqs
  import opened Mets
  import opened Descriptive
  import System

  /** The causes of a `ResourceObjectException`, and of the other exceptions
      that escape `ResourceObject(...)`. */
  datatype ResourceError =
    | MetsNotLocated(metaId: string, pairPath: string)  // get_mets_record_system found no system
    | SystemFailure(cause: System.SystemError)          // raised inside aubreylib/system.py
    | MetsNotOpened(metaId: string)                     // the METS document could not be opened
    | MetsNotParsed                                     // etree.parse raised
    | NoDescriptiveMetadata                             // no dmdSec/mdRef
    | MetadataTypeUnknown                               // no MDTYPE or OTHERMDTYPE
    | MetadataNameUnknown                               // no href attribute: the file name is unbound
    | UnsupportedMetadataType(metadataType: string)     // descriptive metadata other than UNTL
    | UntlNotParsed                                     // the UNTL document could not be read
    | NoStructMap                                       // no structMap
    | NoFileSec                                         // no fileSec
    | FirstFileSetMissing                               // no fileSet div with ORDER 1
    | StaticFilesUnknown(size: string)                  // files_system could not be determined
    | FlocatNotText                                     // get_file_system given a location that is not a string
    | Walk(walkError: WalkError)                            // raised while walking the METS tree

  function WalkResult<T>(r: Result<T, WalkError>): (w: Result<T, ResourceError>)
    ensures w.Success? <==> r.Success?
    ensures r.Success? ==> w.value == r.value
    ensures r.Failure? ==> w.error == Walk(r.error)
  {
    match r
    case Success(v) => Success(v)
    case Failure(e) => Failure(Walk(e))
  }

  /** Everything outside the library that `ResourceObject` consults:
      - the system oracles and `get_pair_path`;
      - what the dimensions file, the METS document and the UNTL document
        decode to once opened (None when decoding raises);
      - what the getCopy and transcriptions URLs return (None when the
        request or the decoding raises);
      - pyuntl's completeness score, the e-mail search of `EMAIL_REGEX`,
        the `REPOSITORY_ADMIN_DICT` setting and today's date. */
  datatype Environment = Environment(
    io: System.Io,
    pairPath: string -> string,
    dimensionsOf: System.Handle -> Option<Dimensions>,
    metsOf: System.Handle -> Option<Element>,
    untlOf: System.Handle -> Option<DescMetadata>,
    getCopyOf: string -> Option<Dict>,
    transcriptionsOf: string -> Option<Transcriptions>,
    completenessOf: DescMetadata -> real,
    findEmail: string -> Option<string>,
    adminContact: Option<map<string, string>>,
    today: Date)

  // ---------------------------------------------------------------------
  // Module-level helpers

  /** `os.path.join(pair_path, meta_id + '.mets.xml')`. */
  function MetsPath(pairPath: string, metaId: string): string {
    PathJoin(pairPath, metaId + ".mets.xml")
  }

  /** What `get_mets_record_system` makes of the probes of the metadata
      locations: the METS file and the location of the first hit; an error
      when the probes raise, or when none of them hits. */
  function MetsRecordOf(ps: seq<System.Probe>, metaId: string, pairPath: string): (r: Result<(string, string), ResourceError>)
    ensures var k := System.FirstStop(ps);
      (r.Success? <==> k < |ps| && ps[k].Hit?) &&
      (r.Success? ==> r.value == (ps[k].path, ps[k].location)) &&
      (k == |ps| ==> r == Failure(MetsNotLocated(metaId, pairPath))) &&
      (k < |ps| && ps[k].Abort? ==> r == Failure(SystemFailure(ps[k].error)))
  {
    match System.Resolution(ps)
    case Failure(e) => Failure(SystemFailure(e))
    case Success((file, system)) =>
      if file.None? || system.None? then Failure(MetsNotLocated(metaId, pairPath))
      else Success((file.value, system.value))
  }

  /** `get_mets_record_system(meta_id, pair_path, metadata_locations)`. */
  method GetMetsRecordSystem(io: System.Io, getPairPath: string -> string, metaId: string, pairPath: string,
                             metadataLocations: seq<string>)
    returns (r: Result<(string, string), ResourceError>)
    ensures r == MetsRecordOf(System.Probes(io, getPairPath, metaId, MetsPath(pairPath, metaId), metadataLocations), metaId, pairPath)
  {
    var resourcePath := MetsPath(pairPath, metaId);
    var found := System.GetFileSystem(io, getPairPath, metaId, resourcePath, metadataLocations);
    match found
    case Failure(e) =>
      r := Failure(SystemFailure(e));
    case Success((metsFilename, metadataSystem)) =>
      if metsFilename.None? || metadataSystem.None? {
        r := Failure(MetsNotLocated(metaId, pairPath));
      } else {
        r := Success((metsFilename.value, metadataSystem.value));
      }
  }

  /** `os.path.split(identifier)[1].split(".")[0]`: the file name up to its
      first dot. */
  function MetaIdOf(identifier: string): (r: string)
    ensures forall i :: 0 <= i < |r| ==> r[i] != '.' && r[i] != '/'
    ensures StartsWith(Basename(identifier), r)
    ensures |r| == |Basename(identifier)| || Basename(identifier)[|r|] == '.'
  {
    var name := PathSplit(identifier).1;
    name[..IndexOf(name, '.')]
  }

  /** The identifier of a METS file `<dir>/<meta_id>.mets.xml` is its meta-id. */
  lemma MetaIdOfMetsFile(dir: string, metaId: string)
    requires forall i :: 0 <= i < |metaId| ==> metaId[i] != '.' && metaId[i] != '/'
    ensures MetaIdOf(dir + "/" + metaId + ".mets.xml") == metaId
  {
    var suffix := ".mets.xml";
    assert suffix[0] == '.' && forall j :: 0 <= j < |suffix| ==> suffix[j] != '/';
    var name := metaId + suffix;
    assert dir + "/" + metaId + suffix == dir + "/" + name;
    FreeOf(metaId, suffix, '/');
    BasenameAfterSlash(dir, name);
    FirstDotAfter(metaId, suffix);
  }

  lemma FreeOf(x: string, y: string, c: char)
    requires forall i :: 0 <= i < |x| ==> x[i] != c
    requires forall i :: 0 <= i < |y| ==> y[i] != c
    ensures forall i :: 0 <= i < |x + y| ==> (x + y)[i] != c
  {
    forall i | 0 <= i < |x + y| ensures (x + y)[i] != c {
      if i < |x| { assert (x + y)[i] == x[i]; } else { assert (x + y)[i] == y[i - |x|]; }
    }
  }

  /** The basename of `dir/name` is `name`, when `name` has no slash. */
  lemma BasenameAfterSlash(dir: string, name: string)
    requires forall i :: 0 <= i < |name| ==> name[i] != '/'
    ensures PathSplit(dir + "/" + name).1 == name
  {
    var p := dir + "/" + name;
    assert p[|dir|] == '/';
    assert forall j :: |dir| < j < |p| ==> p[j] == name[j - |dir| - 1];
    assert LastIndexOf(p, '/') == |dir|;
    assert p[|dir| + 1..] == name;
  }

  /** The first dot of `x + y` starts `y`, when `x` has none and `y` starts with one. */
  lemma FirstDotAfter(x: string, y: string)
    requires forall i :: 0 <= i < |x| ==> x[i] != '.'
    requires |y| > 0 && y[0] == '.'
    ensures (x + y)[..IndexOf(x + y, '.')] == x
  {
    assert forall j :: 0 <= j < |x| ==> (x + y)[j] == x[j];
    assert (x + y)[|x|] == '.';
    IndexOfIsFirst(x + y, '.', |x|);
    assert (x + y)[..|x|] == x;
  }

  /** `mets_file.replace('.mets.xml', '.json')`. */
  function DimensionsFilename(metsFile: string): string {
    ReplaceAll(metsFile, ".mets.xml", ".json")
  }

  lemma MetsSuffixBorderFree()
    ensures BorderFree(".mets.xml")
  {
    var w := ".mets.xml";
    forall k | 0 < k < |w|
      ensures w[..k] != w[|w| - k..]
    {
      if k == 1 { assert w[..k][0] != w[|w| - k..][0]; }
      else if k == 2 { assert w[..k][0] != w[|w| - k..][0]; }
      else if k == 3 { assert w[..k][0] != w[|w| - k..][0]; }
      else if k == 4 { assert w[..k][1] != w[|w| - k..][1]; }
      else if k == 5 { assert w[..k][0] != w[|w| - k..][0]; }
      else if k == 6 { assert w[..k][0] != w[|w| - k..][0]; }
      else if k == 7 { assert w[..k][0] != w[|w| - k..][0]; }
      else { assert w[..k][0] != w[|w| - k..][0]; }
    }
  }

  /** The dimensions file of `<base>.mets.xml` is `<base>.json`, whenever
      `base` itself does not contain `.mets.xml`. */
  lemma DimensionsFilenameOfMets(base: string)
    requires !Contains(base, ".mets.xml")
    ensures DimensionsFilename(base + ".mets.xml") == base + ".json"
  {
    MetsSuffixBorderFree();
    ReplaceAllTrailing(base, ".mets.xml", ".json");
    ReplaceAllAbsent(base, ".mets.xml", ".json");
  }

  /** `"%s%s/" % (getCopy_url, meta_id)`. */
  function GetCopyUrl(getCopyUrl: string, metaId: string): (r: string)
    ensures StartsWith(r, getCopyUrl) && EndsWith(r, "/")
    ensures |r| == |getCopyUrl| + |metaId| + 1 && r[|getCopyUrl|..|r| - 1] == metaId
  {
    var r := getCopyUrl + metaId + "/";
    assert r[..|getCopyUrl|] == getCopyUrl && r[|getCopyUrl|..|r| - 1] == metaId;
    r
  }

  /** Different records have different getCopy URLs. */
  lemma GetCopyUrlInjective(getCopyUrl: string, a: string, b: string)
    requires GetCopyUrl(getCopyUrl, a) == GetCopyUrl(getCopyUrl, b)
    ensures a == b
  {
    var u := GetCopyUrl(getCopyUrl, a);
    assert a == u[|getCopyUrl|..|u| - 1];
    assert b == GetCopyUrl(getCopyUrl, b)[|getCopyUrl|..|u| - 1];
  }

  /** `get_getCopy_data`: the decoded reply, or `{}` when anything raises. */
  function GetCopyData(env: Environment, getCopyUrl: string, metaId: string): (r: Dict)
    ensures env.getCopyOf(getCopyUrl + metaId + "/").None? ==> r == map[]
    ensures env.getCopyOf(getCopyUrl + metaId + "/").Some? ==> r == env.getCopyOf(getCopyUrl + metaId + "/").value
  {
    env.getCopyOf(GetCopyUrl(getCopyUrl, metaId)).GetOr(map[])
  }

  /** `'{}/{}/'.format(server.rstrip('/'), meta_id)`. */
  function TranscriptionsUrl(server: string, metaId: string): (r: string)
    ensures EndsWith(r, "/" + metaId + "/")
    ensures StartsWith(server, r[..|r| - |metaId| - 2])
    ensures |r| == |metaId| + 2 || r[|r| - |metaId| - 3] != '/'
  {
    var base := RStripChar(server, '/');
    var r := base + "/" + metaId + "/";
    assert r[|base|..] == "/" + metaId + "/" && r[..|base|] == base;
    r
  }

  /** A trailing slash on the server URL makes no difference. */
  lemma TranscriptionsUrlTrailingSlash(server: string, metaId: string)
    ensures TranscriptionsUrl(server + "/", metaId) == TranscriptionsUrl(server, metaId)
  {
    var s := server + "/";
    assert s[..|s| - 1] == server;
  }

  /** The transcriptions URL never holds a doubled slash before the meta-id. */
  lemma TranscriptionsUrlShape(server: string, metaId: string)
    ensures var u := TranscriptionsUrl(server, metaId);
      var base := RStripChar(server, '/');
      StartsWith(server, base) && u[..|base|] == base && u[|base|] == '/' && (base == [] || u[|base| - 1] != '/')
  {
  }

  /** Only sounds and videos, with a server configured, have transcriptions. */
  function HasTranscriptions(resourceType: Option<string>, server: Option<string>): (r: bool)
    ensures resourceType != Some("sound") && resourceType != Some("video") ==> !r
    ensures server.None? || server == Some("") ==> !r
  {
    (resourceType == Some("sound") || resourceType == Some("video")) && server.Some? && server.value != ""
  }

  /** `get_transcriptions_data(meta_id, resource_type, server)`. */
  function TranscriptionsData(env: Environment, metaId: string, resourceType: Option<string>, server: Option<string>): (t: Transcriptions)
    ensures !HasTranscriptions(resourceType, server) ==> t == map[]
    ensures HasTranscriptions(resourceType, server) && env.transcriptionsOf(TranscriptionsUrl(server.value, metaId)).None? ==> t == map[]
  {
    if !HasTranscriptions(resourceType, server) then map[]
    else env.transcriptionsOf(TranscriptionsUrl(server.value, metaId)).GetOr(map[])
  }

  /** `desc_MD.get('resourceType')[0].get('content')`, or None for an empty
      or missing list. */
  function ResourceTypeOf(desc: DescMetadata): (r: Option<string>)
    ensures desc.resourceTypes == [] ==> r.None?
    ensures desc.resourceTypes != [] ==> r == desc.resourceTypes[0]
  {
    if desc.resourceTypes == [] then None else desc.resourceTypes[0]
  }

  /** What `open_system_file(file_name)` yields: a local file, the repaired
      URL, or the first other system that has it. */
  function OpenedFile(io: System.Io, fileName: string): (r: Result<System.Handle, System.SystemError>)
    ensures r.Success? && !System.IsHttpUrl(fileName) ==> r.value == System.Local(fileName)
    ensures r.Success? && System.IsHttpUrl(fileName) ==> r.value.Remote?
  {
    if !System.IsHttpUrl(fileName) then
      (if io.opensLocal(fileName) then Success(System.Local(fileName)) else Failure(System.LocalOpenFailed(fileName)))
    else if io.opens(System.GetRequest(System.CreateValidUrl(fileName))) then Success(System.Remote(System.GetRequest(System.CreateValidUrl(fileName))))
    else
      var r := System.OtherSystemResult(io, System.CreateValidUrl(fileName));
      assert r.Success? ==> r.value.Remote?;
      r
  }

  /** `open_system_file` opens what `OpenedFile` says. */
  method OpenFile(io: System.Io, fileName: string) returns (r: Result<System.Handle, System.SystemError>)
    ensures r == OpenedFile(io, fileName)
  {
    r := System.OpenSystemFile(io, fileName);
  }

  /** `get_dimensions_data(mets_file)`: the decoded JSON file next to the
      METS file, or None when it cannot be opened or decoded. */
  function DimensionsOf(env: Environment, metsFile: string): (dims: Option<Dimensions>)
    ensures OpenedFile(env.io, DimensionsFilename(metsFile)).Failure? ==> dims.None?
    ensures !System.IsHttpUrl(DimensionsFilename(metsFile)) ==>
      dims == if env.io.opensLocal(DimensionsFilename(metsFile)) then env.dimensionsOf(System.Local(DimensionsFilename(metsFile))) else None
  {
    match OpenedFile(env.io, DimensionsFilename(metsFile))
    case Success(h) => env.dimensionsOf(h)
    case Failure(_) => None
  }

  method GetDimensionsData(env: Environment, metsFile: string) returns (dims: Option<Dimensions>)
    ensures dims == DimensionsOf(env, metsFile)
  {
    var dimensionsFile := DimensionsFilename(metsFile);
    var handle := OpenFile(env.io, dimensionsFile);
    if handle.Failure? {
      dims := None;
    } else {
      dims := env.dimensionsOf(handle.value);
    }
  }

  /** `get_desc_metadata(metadata_filename, metadata_type)`: the file is
      opened first; only UNTL is supported. */
  function DescMetadataOf(env: Environment, metadataFilename: string, metadataType: string): (r: Result<DescMetadata, ResourceError>)
    ensures r.Success? ==> metadataType == "UNTL" && OpenedFile(env.io, metadataFilename).Success?
    ensures r.Success? ==> env.untlOf(OpenedFile(env.io, metadataFilename).value) == Some(r.value)
    ensures OpenedFile(env.io, metadataFilename).Success? && metadataType != "UNTL" ==> r == Failure(UnsupportedMetadataType(metadataType))
    ensures !System.IsHttpUrl(metadataFilename) && !env.io.opensLocal(metadataFilename) ==>
      r == Failure(SystemFailure(System.LocalOpenFailed(metadataFilename)))
  {
    match OpenedFile(env.io, metadataFilename)
    case Failure(e) => Failure(SystemFailure(e))
    case Success(h) =>
      if metadataType != "UNTL" then Failure(UnsupportedMetadataType(metadataType))
      else if env.untlOf(h).None? then Failure(UntlNotParsed)
      else Success(env.untlOf(h).value)
  }

  method GetDescMetadata(env: Environment, metadataFilename: string, metadataType: string) returns (r: Result<DescMetadata, ResourceError>)
    ensures r == DescMetadataOf(env, metadataFilename, metadataType)
  {
    var handle := OpenFile(env.io, metadataFilename);
    if handle.Failure? {
      return Failure(SystemFailure(handle.error));
    }
    if metadataType == "UNTL" {
      var desc := env.untlOf(handle.value);
      if desc.None? {
        return Failure(UntlNotParsed);
      }
      return Success(desc.value);
    }
    return Failure(UnsupportedMetadataType(metadataType));
  }

  // ---------------------------------------------------------------------
  // The descriptive-metadata reference `dmdSec/mdRef`

  /** `root.xpath('dmdSec/mdRef')`: the mdRef children of the dmdSec
      children, in document order. */
  function MdRefs(root: Element): seq<Element> {
    MdRefsOf(ChildrenTagged(root.children, "dmdSec"))
  }

  function MdRefsOf(sections: seq<Element>): seq<Element>
  {
    if sections == [] then []
    else MdRefsOf(sections[..|sections| - 1]) + ChildrenTagged(sections[|sections| - 1].children, "mdRef")
  }

  /** Every element the path selects is an mdRef. */
  lemma {:induction false} MdRefsTagged(sections: seq<Element>)
    ensures forall x :: x in MdRefsOf(sections) ==> x.tag == "mdRef"
    decreases |sections|
  {
    if sections != [] {
      MdRefsTagged(sections[..|sections| - 1]);
      ChildrenTaggedMembers(sections[|sections| - 1].children, "mdRef");
    }
  }

  predicate HrefCloseAt(s: string, j: int) {
    0 <= j && j + 5 <= |s| && s[j..j + 5] == "}href"
  }

  /** The last position before `n` where `}href` starts, or -1. */
  function LastHrefClose(s: string, n: nat): (j: int)
    requires n <= |s|
    ensures -1 <= j < n
    ensures j >= 0 ==> HrefCloseAt(s, j)
    ensures forall k :: j < k < n ==> !HrefCloseAt(s, k)
  {
    if n == 0 then -1 else if HrefCloseAt(s, n - 1) then n - 1 else LastHrefClose(s, n - 1)
  }

  /** `re.compile(r'(\{[\w\W]*\})href').search(name)`, group 1: from the
      first `{` to the last `}` followed by `href`, when that `}` comes
      after the `{`. */
  function HrefNamespace(name: string): (r: Option<string>)
    ensures r.Some? ==> |r.value| >= 2 && r.value[0] == '{' && r.value[|r.value| - 1] == '}'
    ensures (forall k :: 0 <= k < |name| ==> name[k] != '{') ==> r.None?
  {
    var i := IndexOf(name, '{');
    var j := LastHrefClose(name, |name|);
    if i < |name| && i < j then
      assert name[j] == name[j..j + 5][0];
      Some(name[i..j + 1])
    else None
  }

  /** A qualified `{namespace}href` attribute yields `{namespace}`. */
  lemma HrefNamespaceQualified(ns: string)
    ensures HrefNamespace("{" + ns + "}href") == Some("{" + ns + "}")
  {
    var name := "{" + ns + "}href";
    var n := |name|;
    assert name[n - 5..] == "}href";
    assert HrefCloseAt(name, n - 5);
    assert LastHrefClose(name, n) == n - 5;
    assert name[0] == '{';
    assert IndexOf(name, '{') == 0;
    assert name[..n - 4] == "{" + ns + "}";
  }

  /** The attributes gathered from an mdRef: the href's namespace with the
      basename of its value, and the metadata type. */
  datatype MdRefState = MdRefState(href: Option<(string, string)>, mdType: Option<string>)

  /** One attribute of the loop of `get_metadata_file`. */
  function MdRefStep(st: MdRefState, attr: (string, string)): MdRefState {
    var (key, value) := attr;
    if HrefNamespace(key).Some? then st.(href := Some((HrefNamespace(key).value, Basename(value))))
    else if key == "MDTYPE" then (if value != "OTHER" then st.(mdType := Some(value)) else st)
    else if key == "OTHERMDTYPE" then st.(mdType := Some(value))
    else st
  }

  /** The attributes in order; a later one overrides an earlier one. */
  function MdRefScan(attrs: seq<(string, string)>): MdRefState {
    if attrs == [] then MdRefState(None, None) else MdRefStep(MdRefScan(attrs[..|attrs| - 1]), attrs[|attrs| - 1])
  }

  /** `MDTYPE="OTHER"` leaves the type as it was. */
  lemma MdTypeOtherIgnored(attrs: seq<(string, string)>)
    ensures MdRefScan(attrs + [("MDTYPE", "OTHER")]) == MdRefScan(attrs)
  {
    hide HrefNamespace;
    var a := attrs + [("MDTYPE", "OTHER")];
    assert a[..|a| - 1] == attrs;
    assert HrefNamespace("MDTYPE").None?;
  }

  /** `OTHERMDTYPE` sets the type, whatever came before. */
  lemma OtherMdTypeSets(attrs: seq<(string, string)>, v: string)
    ensures MdRefScan(attrs + [("OTHERMDTYPE", v)]).mdType == Some(v)
  {
    hide HrefNamespace;
    var a := attrs + [("OTHERMDTYPE", v)];
    assert a[..|a| - 1] == attrs;
    assert HrefNamespace("OTHERMDTYPE").None?;
  }

  /** The descriptive-metadata file: under the metadata system at the pair
      path when the METS file came from one, else beside the METS file. */
  function MetadataPath(metadataSystem: Option<string>, pairPath: string, metsFilename: string, name: string): (r: string)
    ensures metadataSystem.None? ==> EndsWith(r, name)
    ensures metadataSystem.Some? && pairPath != [] && !StartsWith(name, "/") ==>
      StartsWith(r, metadataSystem.value) && EndsWith(r, name)
  {
    if metadataSystem.Some? then
      var resourcePath := PathJoin(pairPath, name);
      assert !StartsWith(name, "/") && pairPath != [] ==> |resourcePath| > |name| && EndsWith(Drop(resourcePath, 1), name);
      metadataSystem.value + Drop(resourcePath, 1)
    else PathJoin(PathSplit(metsFilename).0, name)
  }

  /** `get_metadata_file(parsed_mets)`: (xlink namespace, metadata type,
      metadata file). */
  function MetadataFileOf(root: Element, metadataSystem: Option<string>, pairPath: string, metsFilename: string): (r: Result<(string, string, string), ResourceError>)
    ensures MdRefs(root) != [] && MdRefScan(MdRefs(root)[0].attrs).mdType.None? ==> r == Failure(MetadataTypeUnknown)
    ensures MdRefs(root) != [] && MdRefScan(MdRefs(root)[0].attrs).mdType.Some? && MdRefScan(MdRefs(root)[0].attrs).href.None? ==>
      r == Failure(MetadataNameUnknown)
    ensures r.Success? && metadataSystem.None? ==>
      MdRefs(root) != [] && MdRefScan(MdRefs(root)[0].attrs).href.Some? &&
      EndsWith(r.value.2, MdRefScan(MdRefs(root)[0].attrs).href.value.1)
  {
    var refs := MdRefs(root);
    if refs == [] then Failure(NoDescriptiveMetadata)
    else
      var st := MdRefScan(refs[0].attrs);
      if st.mdType.None? then Failure(MetadataTypeUnknown)
      else if st.href.None? then Failure(MetadataNameUnknown)
      else Success((st.href.value.0, st.mdType.value, MetadataPath(metadataSystem, pairPath, metsFilename, st.href.value.1)))
  }

  /** Without an mdRef there is no descriptive metadata; with one, the type
      is the scanned type of the first mdRef and the namespace comes from
      one of its attributes. */
  lemma MetadataFileFacts(root: Element, metadataSystem: Option<string>, pairPath: string, metsFilename: string)
    ensures var r := MetadataFileOf(root, metadataSystem, pairPath, metsFilename);
      && (MdRefs(root) == [] ==> r == Failure(NoDescriptiveMetadata))
      && (r.Success? ==> MdRefs(root) != [] && MdRefScan(MdRefs(root)[0].attrs).mdType == Some(r.value.1))
      && (r.Success? ==>
            exists k :: 0 <= k < |MdRefs(root)[0].attrs| && HrefNamespace(MdRefs(root)[0].attrs[k].0) == Some(r.value.0))
  {
    if MdRefs(root) != [] {
      HrefFromAttribute(MdRefs(root)[0].attrs);
    }
  }

  /** A namespace in the scan comes from one of the attributes. */
  lemma {:induction false} HrefFromAttribute(attrs: seq<(string, string)>)
    ensures MdRefScan(attrs).href.Some? ==>
      exists k :: 0 <= k < |attrs| && HrefNamespace(attrs[k].0) == Some(MdRefScan(attrs).href.value.0)
    decreases |attrs|
  {
    if attrs != [] {
      var init := attrs[..|attrs| - 1];
      HrefFromAttribute(init);
      if HrefNamespace(attrs[|attrs| - 1].0).None? && MdRefScan(attrs).href.Some? {
        var k :| 0 <= k < |init| && HrefNamespace(init[k].0) == Some(MdRefScan(init).href.value.0);
        assert attrs[k] == init[k];
      }
    }
  }

  /** `parsed_mets.getroot().xpath('metsHdr')[0].attrib.get('LASTMODDATE')`. */
  function AcpDateOf(root: Element): Option<string>
  {
    var headers := ChildrenTagged(root.children, "metsHdr");
    if headers == [] then None else Get(headers[0], "LASTMODDATE")
  }

  /** A date found is the LASTMODDATE of a metsHdr child of the root; with no
      metsHdr child there is none. */
  lemma AcpDateFromHeader(root: Element)
    ensures AcpDateOf(root).Some? ==>
      exists h :: h in root.children && h.tag == "metsHdr" && Get(h, "LASTMODDATE") == AcpDateOf(root)
    ensures (forall h :: h in root.children ==> h.tag != "metsHdr") ==> AcpDateOf(root) == None
  {
    var headers := ChildrenTagged(root.children, "metsHdr");
    ChildrenTaggedMembers(root.children, "metsHdr");
    if headers != [] {
      assert headers[0] in headers;
    }
  }

  // ---------------------------------------------------------------------
  // Representative images

  /** What the walk knows of the record while it looks for images. */
  datatype Context = Context(io: System.Io, pairPath: string -> string, metaId: string,
                             staticLocations: seq<string>, ns: string, dims: Option<Dimensions>)

  /** `{'file_mimetype', 'file_name', 'files_system'}` and the image
      dictionary made from it. */
  datatype ImageData = ImageData(mimetype: Value, filename: Value, filesSystem: Option<string>)

  /** `get_file_system(meta_id, file_name, staticFileLocations)[1]`.  A
      location that is not a string reaches `file_path.startswith`: under a
      `file://` location that raises, under an http location the exception
      is swallowed. */
  function StaticSystemOf(c: Context, fileName: Value): (r: Result<Option<string>, ResourceError>)
    ensures !fileName.Str? ==>
      (r.Failure? <==> exists i :: 0 <= i < |c.staticLocations| && System.IsFileUrl(c.staticLocations[i]))
    ensures !fileName.Str? && r.Success? ==> r.value.None?
  {
    if fileName.Str? then
      match System.Resolution(System.Probes(c.io, c.pairPath, c.metaId, fileName.s, c.staticLocations))
      case Failure(e) => Failure(SystemFailure(e))
      case Success(found) => Success(found.1)
    else if exists i :: 0 <= i < |c.staticLocations| && System.IsFileUrl(c.staticLocations[i]) then Failure(FlocatNotText)
    else Success(None)
  }

  /** `get_file_pointers(fileset, fileSec, file_index)`: with an index, the
      group of the first pointer's FILEID through it; without, through an
      XPath search of the fileSec. */
  function FilePointersOf(ns: string, dims: Option<Dimensions>, fileSet: Element, fileSec: Element,
                          index: Option<map<Option<string>, Element>>): (r: Result<FileSetData, WalkError>)
    ensures index.Some? && IndexedGroup(fileSet, index.value).Failure? ==> r == Failure(IndexedGroup(fileSet, index.value).error)
    ensures index.None? && SearchedGroup(fileSet, fileSec).Failure? ==> r == Failure(SearchedGroup(fileSet, fileSec).error)
    ensures r.Success? ==>
      var g := if index.Some? then IndexedGroup(fileSet, index.value) else SearchedGroup(fileSet, fileSec);
      g.Success? && |r.value.ptrs| == |g.value.children|
  {
    var group :- if index.Some? then IndexedGroup(fileSet, index.value) else SearchedGroup(fileSet, fileSec);
    FilePointers(group.children, ns, dims)
  }

  /** `get_fileSet_file(fileSet, fileSec, use)`: the MIME type and location
      of the first pointer with that USE, and the static-file system, which
      is probed only while none is known. */
  function FileSetFileOf(c: Context, fileSet: Element, fileSec: Element, code: string, cached: Option<string>): (r: Result<ImageData, ResourceError>)
    ensures r.Success? && cached.Some? && r.value.filename != Null ==> r.value.filesSystem == cached
    ensures r.Success? && r.value.filesSystem.Some? ==>
      var data := FilePointersOf(c.ns, c.dims, fileSet, fileSec, None);
      data.Success? &&
      var p := PointerWithUse(data.value.ptrs, code);
      p.Some? && r.value.mimetype == DictGet(p.value, "MIMETYPE") && r.value.filename == DictGet(p.value, "flocat")
  {
    var data :- WalkResult(FilePointersOf(c.ns, c.dims, fileSet, fileSec, None));
    FileFromPointers(c, data.ptrs, code, cached)
  }

  /** The part of `get_fileSet_file` after the pointers are known. */
  function FileFromPointers(c: Context, ptrs: seq<Dict>, code: string, cached: Option<string>): (r: Result<ImageData, ResourceError>)
    ensures r.Success? && cached.Some? && r.value.filename != Null ==> r.value.filesSystem == cached
    ensures r.Success? && r.value.filesSystem.Some? ==>
      var p := PointerWithUse(ptrs, code);
      p.Some? && r.value.mimetype == DictGet(p.value, "MIMETYPE") && r.value.filename == DictGet(p.value, "flocat")
  {
    match PointerWithUse(ptrs, code)
    case None => Success(ImageData(Null, Null, None))
    case Some(ptr) => FileFromPointer(c, ptr, cached)
  }

  function FileFromPointer(c: Context, ptr: Dict, cached: Option<string>): (r: Result<ImageData, ResourceError>)
    ensures r.Success? ==> r.value.mimetype == DictGet(ptr, "MIMETYPE") && r.value.filename == DictGet(ptr, "flocat")
    ensures r.Success? && cached.Some? ==> r.value.filesSystem == cached
  {
    var fileName := DictGet(ptr, "flocat");
    var system :- if cached.Some? then Success(cached) else StaticSystemOf(c, fileName);
    Success(ImageData(DictGet(ptr, "MIMETYPE"), fileName, system))
  }

  /** The result of one image lookup: the image dictionary, the primary
      (fileSet ORDER, manifestation ORDER) it found, and the icon MIME type
      it recorded. */
  datatype ImageLookup = ImageLookup(image: ImageData, primary: Option<(Option<string>, Option<string>)>, icon: Option<Value>)

  /** `get_image_data(size_name, fileSec, structMap)`. */
  function ImageDataOf(c: Context, size: Size, fileSec: Element, structMap: Element, cached: Option<string>): (r: Result<ImageLookup, ResourceError>)
    ensures r.Success? ==> r.value.image.filesSystem.Some?
    ensures r.Success? && cached.Some? ==> r.value.image.filesSystem == cached
    ensures SizeDiv(structMap, size).None? && FirstFileSet(structMap).None? ==> r == Failure(FirstFileSetMissing)
    ensures SizeDiv(structMap, size).None? && r.Success? ==>
      r.value.image.mimetype == Null && r.value.image.filename == Null && r.value.icon.Some?
    ensures SizeDiv(structMap, size).Some? && r.Success? ==> r.value.icon.None?
  {
    match SizeDiv(structMap, size)
    case Some(div) =>
      var (file, primary) :- DivImage(c, div, fileSec, structMap, size.UseCode(), cached);
      if file.filesSystem.None? then Failure(StaticFilesUnknown(size.Name()))
      else Success(ImageLookup(file, primary, None))
    case None =>
      match FirstFileSet(structMap)
      case None => Failure(FirstFileSetMissing)
      case Some(first) =>
        var (file, primary) :- DivImage(c, first, fileSec, structMap, HighResCode, cached);
        if file.filesSystem.None? then Failure(StaticFilesUnknown(size.Name()))
        else Success(ImageLookup(ImageData(Null, Null, file.filesSystem), primary, Some(file.mimetype)))
  }

  /** Where `get_image_data` takes its image from: the first div whose TYPE
      is the size's name, read with the size's USE code (`med_res` for
      medium); without one, the ORDER=1 fileSet read with `high_res`, whose
      MIME type becomes the icon.  Either way the div's primary fileSet is
      recorded, and a file with no static-file system raises. */
  lemma ImageDataSource(c: Context, size: Size, fileSec: Element, structMap: Element, cached: Option<string>)
    ensures var r := ImageDataOf(c, size, fileSec, structMap, cached);
      SizeDiv(structMap, size).Some? ==>
      var d := DivImage(c, SizeDiv(structMap, size).value, fileSec, structMap, size.UseCode(), cached);
      (d.Failure? ==> r == Failure(d.error)) &&
      (d.Success? && d.value.0.filesSystem.None? ==> r == Failure(StaticFilesUnknown(size.Name()))) &&
      (d.Success? && d.value.0.filesSystem.Some? ==> r == Success(ImageLookup(d.value.0, d.value.1, None)))
    ensures var r := ImageDataOf(c, size, fileSec, structMap, cached);
      SizeDiv(structMap, size).None? && FirstFileSet(structMap).Some? ==>
      var d := DivImage(c, FirstFileSet(structMap).value, fileSec, structMap, HighResCode, cached);
      (d.Failure? ==> r == Failure(d.error)) &&
      (d.Success? && d.value.0.filesSystem.None? ==> r == Failure(StaticFilesUnknown(size.Name()))) &&
      (d.Success? && d.value.0.filesSystem.Some? ==>
        r == Success(ImageLookup(ImageData(Null, Null, d.value.0.filesSystem), d.value.1, Some(d.value.0.mimetype))))
  {
  }

  /** The primary fileSet of a div and its file with the given USE. */
  function DivImage(c: Context, div: Element, fileSec: Element, structMap: Element, code: string, cached: Option<string>)
    : (r: Result<(ImageData, Option<(Option<string>, Option<string>)>), ResourceError>)
    ensures PrimaryOf(div, structMap).Failure? ==> r == Failure(Walk(PrimaryOf(div, structMap).error))
    ensures r.Success? ==> FileSetFileOf(c, div, fileSec, code, cached) == Success(r.value.0) && PrimaryOf(div, structMap) == Success(r.value.1)
  {
    var primary :- WalkResult(PrimaryOf(div, structMap));
    var file :- FileSetFileOf(c, div, fileSec, code, cached);
    Success((file, primary))
  }

  /** A later finding replaces an earlier one; no finding keeps it. */
  function Latest<T>(earlier: Option<T>, later: Option<T>): (r: Option<T>)
    ensures later.Some? ==> r == later
    ensures later.None? ==> r == earlier
  {
    if later.Some? then later else earlier
  }

  /** The three representative images `get_structMap` records, with the
      primary (fileSet ORDER, manifestation ORDER) and the icon MIME type as
      they stand afterwards. */
  datatype Images = Images(thumbnail: ImageData, square: ImageData, medium: ImageData,
                           primary: Option<(Option<string>, Option<string>)>, icon: Option<Value>)

  /** `thumbnail`, `square` and `medium`, in that order, on an object with
      no static-file system yet: the thumbnail's probe settles the system
      the other two reuse. */
  function ImagesOf(c: Context, fileSec: Element, structMap: Element,
                    primary0: Option<(Option<string>, Option<string>)>, icon0: Option<Value>): (r: Result<Images, ResourceError>)
    ensures ImageDataOf(c, Size.Thumbnail, fileSec, structMap, None).Failure? ==>
      r == Failure(ImageDataOf(c, Size.Thumbnail, fileSec, structMap, None).error)
    ensures r.Success? ==> r.value.thumbnail.filesSystem.Some?
    ensures r.Success? ==>
      r.value.square.filesSystem == r.value.thumbnail.filesSystem && r.value.medium.filesSystem == r.value.thumbnail.filesSystem
  {
    var t :- ImageDataOf(c, Size.Thumbnail, fileSec, structMap, None);
    var s :- ImageDataOf(c, Size.Square, fileSec, structMap, t.image.filesSystem);
    var m :- ImageDataOf(c, Size.Medium, fileSec, structMap, t.image.filesSystem);
    Success(Images(t.image, s.image, m.image,
                   Latest(Latest(Latest(primary0, t.primary), s.primary), m.primary),
                   Latest(Latest(Latest(icon0, t.icon), s.icon), m.icon)))
  }

  /** Each lookup overwrites the primary fileSet and the icon when it finds
      one, so the medium image's finding wins, then the square's, then the
      thumbnail's, and only when none finds one does the old value stay. */
  lemma ImagesLastFindingWins(c: Context, fileSec: Element, structMap: Element,
                              primary0: Option<(Option<string>, Option<string>)>, icon0: Option<Value>)
    requires ImagesOf(c, fileSec, structMap, primary0, icon0).Success?
    ensures var t := ImageDataOf(c, Size.Thumbnail, fileSec, structMap, None);
      t.Success? &&
      var s := ImageDataOf(c, Size.Square, fileSec, structMap, t.value.image.filesSystem);
      var m := ImageDataOf(c, Size.Medium, fileSec, structMap, t.value.image.filesSystem);
      var r := ImagesOf(c, fileSec, structMap, primary0, icon0).value;
      s.Success? && m.Success? &&
      r.primary == (if m.value.primary.Some? then m.value.primary
                    else if s.value.primary.Some? then s.value.primary
                    else if t.value.primary.Some? then t.value.primary
                    else primary0) &&
      r.icon == (if m.value.icon.Some? then m.value.icon
                 else if s.value.icon.Some? then s.value.icon
                 else if t.value.icon.Some? then t.value.icon
                 else icon0)
  {
  }

  /** `manifestation_dict`, `manifestation_view_types`,
      `manifestation_labels` and `pdf_dict` after `get_manifestations`. */
  datatype Manifested = Manifested(dict: map<int, map<int, FileSetEntry>>, viewTypes: map<int, string>,
                                   labels: map<int, Option<string>>, pdf: Option<PdfInfo>)

  /** The dictionaries built from the manifestations the walk saw, in order. */
  function ManifestedOf(rows: seq<ManifestRow>): (r: Manifested)
    ensures forall i :: 0 <= i < |rows| && LastWithOrder(rows, i) ==>
      rows[i].order in r.dict && r.dict[rows[i].order] == FileSetMap(rows[i].fileSets)
    ensures forall i :: 0 <= i < |rows| && LastWithOrder(rows, i) ==>
      rows[i].order in r.viewTypes && r.viewTypes[rows[i].order] == ManifestViewType(rows[i])
    ensures forall i :: 0 <= i < |rows| && LastWithOrder(rows, i) ==>
      rows[i].order in r.labels && r.labels[rows[i].order] == rows[i].manifestLabel
  {
    ManifestedLastWins(rows);
    Manifested(ToMap(ManifestPairs(rows)), ToMap(ViewTypePairs(rows)), ToMap(LabelPairs(rows)), PdfAcross(rows))
  }

  /** No later manifestation shares the ORDER of `rows[i]`. */
  predicate LastWithOrder(rows: seq<ManifestRow>, i: nat) {
    i < |rows| && forall j :: i < j < |rows| ==> rows[j].order != rows[i].order
  }

  /** The entries of a manifestation's ORDER are those of the last
      manifestation with it. */
  lemma ManifestedLastWins(rows: seq<ManifestRow>)
    ensures forall i :: 0 <= i < |rows| && LastWithOrder(rows, i) ==>
      rows[i].order in ToMap(ManifestPairs(rows)) && ToMap(ManifestPairs(rows))[rows[i].order] == FileSetMap(rows[i].fileSets)
    ensures forall i :: 0 <= i < |rows| && LastWithOrder(rows, i) ==>
      rows[i].order in ToMap(ViewTypePairs(rows)) && ToMap(ViewTypePairs(rows))[rows[i].order] == ManifestViewType(rows[i])
    ensures forall i :: 0 <= i < |rows| && LastWithOrder(rows, i) ==>
      rows[i].order in ToMap(LabelPairs(rows)) && ToMap(LabelPairs(rows))[rows[i].order] == rows[i].manifestLabel
  {
    forall i | 0 <= i < |rows| && LastWithOrder(rows, i)
      ensures rows[i].order in ToMap(ManifestPairs(rows)) && ToMap(ManifestPairs(rows))[rows[i].order] == FileSetMap(rows[i].fileSets)
      ensures rows[i].order in ToMap(ViewTypePairs(rows)) && ToMap(ViewTypePairs(rows))[rows[i].order] == ManifestViewType(rows[i])
      ensures rows[i].order in ToMap(LabelPairs(rows)) && ToMap(LabelPairs(rows))[rows[i].order] == rows[i].manifestLabel
    {
      LastWinsAt(rows, i);
    }
  }

  lemma LastWinsAt(rows: seq<ManifestRow>, i: nat)
    requires i < |rows| && LastWithOrder(rows, i)
    ensures rows[i].order in ToMap(ManifestPairs(rows)) && ToMap(ManifestPairs(rows))[rows[i].order] == FileSetMap(rows[i].fileSets)
    ensures rows[i].order in ToMap(ViewTypePairs(rows)) && ToMap(ViewTypePairs(rows))[rows[i].order] == ManifestViewType(rows[i])
    ensures rows[i].order in ToMap(LabelPairs(rows)) && ToMap(LabelPairs(rows))[rows[i].order] == rows[i].manifestLabel
  {
    DictLastWins(rows, i);
    ViewTypeLastWins(rows, i);
    LabelLastWins(rows, i);
  }

  lemma DictLastWins(rows: seq<ManifestRow>, i: nat)
    requires i < |rows| && LastWithOrder(rows, i)
    ensures rows[i].order in ToMap(ManifestPairs(rows)) && ToMap(ManifestPairs(rows))[rows[i].order] == FileSetMap(rows[i].fileSets)
  {
    var kvs := ManifestPairs(rows);
    assert forall j :: 0 <= j < |rows| ==> kvs[j].0 == rows[j].order;
    ToMapLast(kvs, i);
  }

  lemma ViewTypeLastWins(rows: seq<ManifestRow>, i: nat)
    requires i < |rows| && LastWithOrder(rows, i)
    ensures rows[i].order in ToMap(ViewTypePairs(rows)) && ToMap(ViewTypePairs(rows))[rows[i].order] == ManifestViewType(rows[i])
  {
    var kvs := ViewTypePairs(rows);
    assert forall j :: 0 <= j < |rows| ==> kvs[j].0 == rows[j].order;
    ToMapLast(kvs, i);
  }

  lemma LabelLastWins(rows: seq<ManifestRow>, i: nat)
    requires i < |rows| && LastWithOrder(rows, i)
    ensures rows[i].order in ToMap(LabelPairs(rows)) && ToMap(LabelPairs(rows))[rows[i].order] == rows[i].manifestLabel
  {
    var kvs := LabelPairs(rows);
    assert forall j :: 0 <= j < |rows| ==> kvs[j].0 == rows[j].order;
    ToMapLast(kvs, i);
  }

  /** The three dictionaries have one key per manifestation ORDER. */
  lemma ManifestedKeys(rows: seq<ManifestRow>)
    ensures var r := ManifestedOf(rows);
      r.dict.Keys == r.viewTypes.Keys == r.labels.Keys == set i | 0 <= i < |rows| :: rows[i].order
  {
    KeysAreOrders(rows, ManifestPairs(rows));
    KeysAreOrders(rows, ViewTypePairs(rows));
    KeysAreOrders(rows, LabelPairs(rows));
  }

  /** Pairs keyed by the manifestations' ORDERs give a dictionary with one
      key per ORDER. */
  lemma KeysAreOrders<V>(rows: seq<ManifestRow>, kvs: seq<(int, V)>)
    requires |kvs| == |rows| && forall j :: 0 <= j < |rows| ==> kvs[j].0 == rows[j].order
    ensures ToMap(kvs).Keys == set i | 0 <= i < |rows| :: rows[i].order
  {
    ToMapKeys(kvs);
  }

  /** `get_structMap(parsed_mets)`: the first structMap and fileSec, then the
      images, then the manifestations, whose walk uses the file index. */
  function StructMapOf(c: Context, transcriptions: Transcriptions, root: Element,
                       primary0: Option<(Option<string>, Option<string>)>, icon0: Option<Value>)
    : (r: Result<(Images, Manifested), ResourceError>)
    ensures Search(root, "structMap", []) == [] ==> r == Failure(NoStructMap)
    ensures Search(root, "structMap", []) != [] && Search(root, "fileSec", []) == [] ==> r == Failure(NoFileSec)
    ensures r.Success? ==> r.value.0.thumbnail.filesSystem.Some?
    ensures r.Success? ==> r.value.1.dict.Keys == r.value.1.viewTypes.Keys == r.value.1.labels.Keys
  {
    var structMaps := Search(root, "structMap", []);
    if structMaps == [] then Failure(NoStructMap)
    else
      var fileSecs := Search(root, "fileSec", []);
      if fileSecs == [] then Failure(NoFileSec)
      else
        SectionsOf(c, transcriptions, fileSecs[0].1, structMaps[0].1, primary0, icon0)
  }

  /** What `get_structMap` does once it has its structMap and fileSec: the
      images, then the manifestations, whose walk uses the file index. */
  function SectionsOf(c: Context, transcriptions: Transcriptions, fileSec: Element, structMap: Element,
                      primary0: Option<(Option<string>, Option<string>)>, icon0: Option<Value>)
    : (r: Result<(Images, Manifested), ResourceError>)
    ensures ImagesOf(c, fileSec, structMap, primary0, icon0).Failure? ==>
      r == Failure(ImagesOf(c, fileSec, structMap, primary0, icon0).error)
    ensures r.Success? ==> r.value.0.thumbnail.filesSystem.Some?
    ensures r.Success? ==> r.value.1.dict.Keys == r.value.1.viewTypes.Keys == r.value.1.labels.Keys
  {
    var images :- ImagesOf(c, fileSec, structMap, primary0, icon0);
    var rows :- WalkResult(Collect(Manifestations(structMap), ManifestStepOf(FileIndex(fileSec), c.ns, c.dims, transcriptions)));
    ManifestedKeys(rows);
    Success((images, ManifestedOf(rows)))
  }

  // ---------------------------------------------------------------------
  // When the constructor raises

  /** What the first part of the constructor settles: the meta-id, its pair
      path, the METS file, the metadata system and the dimensions. */
  datatype Located = Located(metaId: string, pairPath: string, metsFilename: string,
                             metadataSystem: Option<string>, dims: Option<Dimensions>)

  /** The identifier resolved: a `.mets.xml` name is the METS file itself;
      any other identifier is a meta-id whose METS file
      `get_mets_record_system` looks up, and whose failure is raised. */
  function LocatedOf(env: Environment, metadataLocations: seq<string>, identifier: string): Result<Located, ResourceError> {
    if EndsWith(identifier, ".mets.xml") then
      var metaId := MetaIdOf(identifier);
      Success(Located(metaId, env.pairPath(metaId), identifier, None, DimensionsOf(env, identifier)))
    else
      var pairPath := env.pairPath(identifier);
      var record :- MetsRecordOf(System.Probes(env.io, env.pairPath, identifier, MetsPath(pairPath, identifier), metadataLocations), identifier, pairPath);
      Success(Located(identifier, pairPath, record.0, Some(record.1), DimensionsOf(env, record.0)))
  }

  /** `get_metadata_file` on the METS document, then `get_desc_metadata` on
      the file it names: the (namespace, type, file) triple and the record. */
  function DescriptionOf(env: Environment, root: Element, at: Located): Result<((string, string, string), DescMetadata), ResourceError> {
    var file :- MetadataFileOf(root, at.metadataSystem, at.pairPath, at.metsFilename);
    var desc :- DescMetadataOf(env, file.2, file.1);
    Success((file, desc))
  }

  /** The exception `get_structMap` raises, or `Pass`. */
  function StructureOutcome(c: Context, transcriptions: Transcriptions, root: Element,
                            primary0: Option<(Option<string>, Option<string>)>, icon0: Option<Value>): Outcome<ResourceError> {
    match StructMapOf(c, transcriptions, root, primary0, icon0)
    case Failure(e) => Fail(e)
    case Success(_) => Pass
  }

  /** The steps of `StructureOutcome`, for the proofs that keep it folded. */
  lemma StructureOutcomeSteps(c: Context, transcriptions: Transcriptions, root: Element,
                              primary0: Option<(Option<string>, Option<string>)>, icon0: Option<Value>)
    ensures var spec := StructMapOf(c, transcriptions, root, primary0, icon0);
      (spec.Failure? ==> StructureOutcome(c, transcriptions, root, primary0, icon0) == Fail(spec.error)) &&
      (spec.Success? ==> StructureOutcome(c, transcriptions, root, primary0, icon0) == Pass)
  {
  }

  /** The constructor's outcome on the parsed METS document: the descriptive
      record's exception, else the structMap walk's. */
  function AnalysisOutcome(env: Environment, at: Located, staticLocations: seq<string>, root: Element, server: Option<string>,
                           primary0: Option<(Option<string>, Option<string>)>, icon0: Option<Value>): Outcome<ResourceError> {
    match DescriptionOf(env, root, at)
    case Failure(e) => Fail(e)
    case Success((file, desc)) =>
      var c := Context(env.io, env.pairPath, at.metaId, staticLocations, file.0, at.dims);
      StructureOutcome(c, TranscriptionsData(env, at.metaId, ResourceTypeOf(desc), server), root, primary0, icon0)
  }

  /** The constructor's outcome once the METS file is known: it must open
      and parse before it is analysed. */
  function MetsOutcome(env: Environment, at: Located, staticLocations: seq<string>, server: Option<string>,
                       primary0: Option<(Option<string>, Option<string>)>, icon0: Option<Value>): Outcome<ResourceError> {
    match OpenedFile(env.io, at.metsFilename)
    case Failure(_) => Fail(MetsNotOpened(at.metaId))
    case Success(h) =>
      match env.metsOf(h)
      case None => Fail(MetsNotParsed)
      case Some(root) => AnalysisOutcome(env, at, staticLocations, root, server, primary0, icon0)
  }

  /** `ResourceObject(identifier, ...)`: the exception the constructor
      raises, or `Pass` when it completes. */
  function LoadOutcome(env: Environment, metadataLocations: seq<string>, staticLocations: seq<string>,
                       identifier: string, server: Option<string>): Outcome<ResourceError> {
    match LocatedOf(env, metadataLocations, identifier)
    case Failure(e) => Fail(e)
    case Success(at) => MetsOutcome(env, at, staticLocations, server, None, None)
  }

  /** The steps of `LocatedOf`, for the proofs that keep it folded. */
  lemma LocatedOfSteps(env: Environment, metadataLocations: seq<string>, identifier: string)
    ensures EndsWith(identifier, ".mets.xml") ==>
      LocatedOf(env, metadataLocations, identifier) ==
      Success(Located(MetaIdOf(identifier), env.pairPath(MetaIdOf(identifier)), identifier, None, DimensionsOf(env, identifier)))
    ensures !EndsWith(identifier, ".mets.xml") ==>
      var record := MetsRecordOf(System.Probes(env.io, env.pairPath, identifier, MetsPath(env.pairPath(identifier), identifier), metadataLocations),
                                 identifier, env.pairPath(identifier));
      (record.Failure? ==> LocatedOf(env, metadataLocations, identifier) == Failure(record.error)) &&
      (record.Success? ==>
        LocatedOf(env, metadataLocations, identifier) ==
        Success(Located(identifier, env.pairPath(identifier), record.value.0, Some(record.value.1), DimensionsOf(env, record.value.0))))
  {
  }

  /** The steps of `DescriptionOf`, for the proofs that keep it folded. */
  lemma DescriptionOfSteps(env: Environment, root: Element, at: Located)
    ensures var file := MetadataFileOf(root, at.metadataSystem, at.pairPath, at.metsFilename);
      (file.Failure? ==> DescriptionOf(env, root, at) == Failure(file.error)) &&
      (file.Success? ==> var desc := DescMetadataOf(env, file.value.2, file.value.1);
        (desc.Failure? ==> DescriptionOf(env, root, at) == Failure(desc.error)) &&
        (desc.Success? ==> DescriptionOf(env, root, at) == Success((file.value, desc.value))))
  {
  }

  /** The steps of `AnalysisOutcome`, for the proofs that keep it folded. */
  lemma AnalysisOutcomeSteps(env: Environment, at: Located, staticLocations: seq<string>, root: Element, server: Option<string>,
                             primary0: Option<(Option<string>, Option<string>)>, icon0: Option<Value>)
    ensures var d := DescriptionOf(env, root, at);
      var r := AnalysisOutcome(env, at, staticLocations, root, server, primary0, icon0);
      (d.Failure? ==> r == Fail(d.error)) &&
      (d.Success? ==>
        var c := Context(env.io, env.pairPath, at.metaId, staticLocations, d.value.0.0, at.dims);
        r == StructureOutcome(c, TranscriptionsData(env, at.metaId, ResourceTypeOf(d.value.1), server), root, primary0, icon0))
  {
  }

  /** The steps of `MetsOutcome`, for the proofs that keep it folded. */
  lemma MetsOutcomeSteps(env: Environment, at: Located, staticLocations: seq<string>, server: Option<string>,
                         primary0: Option<(Option<string>, Option<string>)>, icon0: Option<Value>)
    ensures var r := MetsOutcome(env, at, staticLocations, server, primary0, icon0);
      var h := OpenedFile(env.io, at.metsFilename);
      (h.Failure? ==> r == Fail(MetsNotOpened(at.metaId))) &&
      (h.Success? && env.metsOf(h.value).None? ==> r == Fail(MetsNotParsed)) &&
      (h.Success? && env.metsOf(h.value).Some? ==> r == AnalysisOutcome(env, at, staticLocations, env.metsOf(h.value).value, server, primary0, icon0))
  {
  }

  /** The steps of `LoadOutcome`, for the proofs that keep it folded. */
  lemma LoadOutcomeSteps(env: Environment, metadataLocations: seq<string>, staticLocations: seq<string>,
                         identifier: string, server: Option<string>)
    ensures var located := LocatedOf(env, metadataLocations, identifier);
      var r := LoadOutcome(env, metadataLocations, staticLocations, identifier, server);
      (located.Failure? ==> r == Fail(located.error)) &&
      (located.Success? ==> r == MetsOutcome(env, located.value, staticLocations, server, None, None))
  {
  }

  // ---------------------------------------------------------------------
  // The object

  class ResourceObject {
    const env: Environment
    const metadataLocations: seq<string>
    const staticFileLocations: seq<string>

    var metaId: string
    var pairPath: string
    var metsFilename: string
    var metadataSystem: Option<string>
    var dimensions: Option<Dimensions>
    var getCopyData: Dict
    var acpModificationDate: Option<string>
    var xlinkNamespace: string
    var metadataType: string
    var metadataFile: string
    var descMD: DescMetadata
    var transcriptions: Transcriptions
    var thumbnailMimetype: Value
    var thumbnailFilename: Value
    var filesSystem: Option<string>
    var squareMimetype: Value
    var squareFilename: Value
    var mediumMimetype: Value
    var mediumFilename: Value
    var thumbnailIconMimetype: Option<Value>
    /** (`primary_fileSet`, `primary_manifestation`), None while unset. */
    var primary: Option<(Option<string>, Option<string>)>
    var manifestationDict: map<int, map<int, FileSetEntry>>
    var manifestationViewTypes: map<int, string>
    var manifestationLabels: map<int, Option<string>>
    /** `pdf_dict`, None for `{}` or unset. */
    var pdfDict: Option<PdfInfo>
    var embargoInfo: EmbargoInfo
    var authorCitationString: string
    var completeness: real

    constructor(env: Environment, metadataLocations: seq<string>, staticFileLocations: seq<string>)
      ensures this.env == env && this.metadataLocations == metadataLocations && this.staticFileLocations == staticFileLocations
      ensures filesSystem == None && primary == None && pdfDict == None && thumbnailIconMimetype == None
    {
      this.env := env;
      this.metadataLocations := metadataLocations;
      this.staticFileLocations := staticFileLocations;
      metaId, pairPath, metsFilename := "", "", "";
      metadataSystem, dimensions, getCopyData, acpModificationDate := None, None, map[], None;
      xlinkNamespace, metadataType, metadataFile := "", "", "";
      descMD, transcriptions := DescMetadata([], [], []), map[];
      thumbnailMimetype, thumbnailFilename, filesSystem := Null, Null, None;
      squareMimetype, squareFilename, mediumMimetype, mediumFilename := Null, Null, Null, Null;
      thumbnailIconMimetype, primary := None, None;
      manifestationDict, manifestationViewTypes, manifestationLabels, pdfDict := map[], map[], map[], None;
      embargoInfo, authorCitationString, completeness := NoEmbargo, "", 0.0;
    }

    /** What the first part of the constructor has settled; the proofs
        that hide every definition still see which fields it gathers. */
    function Where(): (w: Located)
      reads this`metaId, this`pairPath, this`metsFilename, this`metadataSystem, this`dimensions
      ensures w == Located(metaId, pairPath, metsFilename, metadataSystem, dimensions)
    {
      Located(metaId, pairPath, metsFilename, metadataSystem, dimensions)
    }

    /** What the walk reads from the object's fields. */
    function Ctx(): (c: Context)
      reads this`metaId, this`xlinkNamespace, this`dimensions
      ensures c == Context(env.io, env.pairPath, metaId, staticFileLocations, xlinkNamespace, dimensions)
    {
      Context(env.io, env.pairPath, metaId, staticFileLocations, xlinkNamespace, dimensions)
    }

    /** The `ResourceObject(identifier, ...)` constructor, after the fields
        are created: an identifier ending in `.mets.xml` is the METS file
        itself, anything else is a meta-id whose METS file is looked up. */
    method Load(identifier: string, getCopyUrl: Option<string>, transcriptionsServerUrl: Option<string>)
      returns (outcome: Outcome<ResourceError>)
      modifies this
      ensures outcome.Pass? ==> metaId == (if EndsWith(identifier, ".mets.xml") then MetaIdOf(identifier) else identifier)
      ensures outcome.Pass? ==> pairPath == env.pairPath(metaId)
      ensures outcome.Pass? && EndsWith(identifier, ".mets.xml") ==> metsFilename == identifier && metadataSystem == None
      ensures outcome.Pass? && !EndsWith(identifier, ".mets.xml") ==>
        var record := MetsRecordOf(System.Probes(env.io, env.pairPath, identifier, MetsPath(pairPath, identifier), metadataLocations), identifier, pairPath);
        record.Success? && (metsFilename, metadataSystem) == (record.value.0, Some(record.value.1))
      ensures outcome.Pass? ==> getCopyData == (if getCopyUrl.Some? && getCopyUrl.value != "" then GetCopyData(env, getCopyUrl.value, metaId) else map[])
      ensures outcome.Pass? ==> metadataType == "UNTL"
      ensures outcome.Pass? ==> Success(descMD) == DescMetadataOf(env, metadataFile, metadataType)
      ensures outcome.Pass? ==> transcriptions == TranscriptionsData(env, metaId, ResourceTypeOf(descMD), transcriptionsServerUrl)
      ensures outcome.Pass? ==> filesSystem.Some?
      ensures outcome.Pass? ==> embargoInfo == EmbargoOf(descMD.dates, descMD.creators, env.today, env.adminContact, env.findEmail)
      ensures outcome.Pass? ==> authorCitationString == Citation(descMD.creators)
      ensures outcome.Pass? ==> completeness == env.completenessOf(descMD)
      ensures outcome.Pass? ==> manifestationDict.Keys == manifestationViewTypes.Keys == manifestationLabels.Keys
      ensures outcome == LoadOutcome(env, metadataLocations, staticFileLocations, identifier, transcriptionsServerUrl)
    {
      // Each step's own contract carries the proof; no definition is needed.
      hide *;
      outcome := Locate(identifier, getCopyUrl);
      if outcome.Fail? {
        LoadOutcomeSteps(env, metadataLocations, staticFileLocations, identifier, transcriptionsServerUrl);
        return;
      }
      ghost var located := (metaId, pairPath, metsFilename, metadataSystem, getCopyData);
      ghost var expected := MetsOutcome(env, Where(), staticFileLocations, transcriptionsServerUrl, None, None);
      assert expected == LoadOutcome(env, metadataLocations, staticFileLocations, identifier, transcriptionsServerUrl) by {
        LoadOutcomeSteps(env, metadataLocations, staticFileLocations, identifier, transcriptionsServerUrl);
      }
      outcome := ReadMets(transcriptionsServerUrl, expected);
      assert (metaId, pairPath, metsFilename, metadataSystem, getCopyData) == located;
    }

    /** The located METS file opened, parsed and analysed. */
    method ReadMets(transcriptionsServerUrl: Option<string>, ghost expected: Outcome<ResourceError>)
      returns (outcome: Outcome<ResourceError>)
      requires filesSystem.None? && pdfDict.None?
      requires expected == MetsOutcome(env, Where(), staticFileLocations, transcriptionsServerUrl, primary, thumbnailIconMimetype)
      modifies this`acpModificationDate, this`xlinkNamespace, this`metadataType, this`metadataFile, this`descMD, this`transcriptions,
        this`thumbnailMimetype, this`thumbnailFilename, this`filesSystem, this`squareMimetype, this`squareFilename,
        this`mediumMimetype, this`mediumFilename, this`thumbnailIconMimetype, this`primary,
        this`manifestationDict, this`manifestationViewTypes, this`manifestationLabels, this`pdfDict,
        this`embargoInfo, this`authorCitationString, this`completeness
      ensures outcome == expected
      ensures outcome.Pass? ==> OpenedFile(env.io, metsFilename).Success? && env.metsOf(OpenedFile(env.io, metsFilename).value).Some?
      ensures outcome.Pass? ==> metadataType == "UNTL"
      ensures outcome.Pass? ==> Success(descMD) == DescMetadataOf(env, metadataFile, metadataType)
      ensures outcome.Pass? ==> transcriptions == TranscriptionsData(env, metaId, ResourceTypeOf(descMD), transcriptionsServerUrl)
      ensures outcome.Pass? ==> filesSystem.Some?
      ensures outcome.Pass? ==> embargoInfo == EmbargoOf(descMD.dates, descMD.creators, env.today, env.adminContact, env.findEmail)
      ensures outcome.Pass? ==> authorCitationString == Citation(descMD.creators)
      ensures outcome.Pass? ==> completeness == env.completenessOf(descMD)
      ensures outcome.Pass? ==> manifestationDict.Keys == manifestationViewTypes.Keys == manifestationLabels.Keys
    {
      hide MetsOutcome, AnalysisOutcome, OpenedFile, DescriptionOf, StructMapOf, DescMetadataOf, TranscriptionsData, ResourceTypeOf,
        EmbargoOf, Citation;
      MetsOutcomeSteps(env, Where(), staticFileLocations, transcriptionsServerUrl, primary, thumbnailIconMimetype);
      var metsHandle := OpenFile(env.io, metsFilename);
      if metsHandle.Failure? {
        return Fail(MetsNotOpened(metaId));
      }
      var parsed := env.metsOf(metsHandle.value);
      if parsed.None? {
        return Fail(MetsNotParsed);
      }
      outcome := Analyze(parsed.value, transcriptionsServerUrl,
        AnalysisOutcome(env, Where(), staticFileLocations, parsed.value, transcriptionsServerUrl, primary, thumbnailIconMimetype));
    }

    /** The constructor's steps on the parsed METS document: the
        descriptive record, the structMap, the embargo, the citation and
        the completeness. */
    method Analyze(root: Element, transcriptionsServerUrl: Option<string>, ghost expected: Outcome<ResourceError>)
      returns (outcome: Outcome<ResourceError>)
      requires filesSystem.None? && pdfDict.None?
      requires expected == AnalysisOutcome(env, Where(), staticFileLocations, root, transcriptionsServerUrl, primary, thumbnailIconMimetype)
      modifies this`acpModificationDate, this`xlinkNamespace, this`metadataType, this`metadataFile, this`descMD, this`transcriptions,
        this`thumbnailMimetype, this`thumbnailFilename, this`filesSystem, this`squareMimetype, this`squareFilename,
        this`mediumMimetype, this`mediumFilename, this`thumbnailIconMimetype, this`primary,
        this`manifestationDict, this`manifestationViewTypes, this`manifestationLabels, this`pdfDict,
        this`embargoInfo, this`authorCitationString, this`completeness
      ensures outcome.Pass? ==> metadataType == "UNTL"
      ensures outcome.Pass? ==> Success(descMD) == DescMetadataOf(env, metadataFile, metadataType)
      ensures outcome.Pass? ==> transcriptions == TranscriptionsData(env, metaId, ResourceTypeOf(descMD), transcriptionsServerUrl)
      ensures outcome.Pass? ==> filesSystem.Some?
      ensures outcome.Pass? ==> embargoInfo == EmbargoOf(descMD.dates, descMD.creators, env.today, env.adminContact, env.findEmail)
      ensures outcome.Pass? ==> authorCitationString == Citation(descMD.creators)
      ensures outcome.Pass? ==> completeness == env.completenessOf(descMD)
      ensures outcome.Pass? ==> manifestationDict.Keys == manifestationViewTypes.Keys == manifestationLabels.Keys
      ensures outcome == expected
    {
      // Each step's own contract carries the proof; no definition is needed.
      hide *;
      outcome := ReadDescriptive(root, transcriptionsServerUrl, expected);
      if outcome.Fail? {
        return;
      }
      ghost var read := (metadataType, metadataFile, descMD, transcriptions);
      outcome := ReadStructure(root);
      assert (metadataType, metadataFile, descMD, transcriptions) == read;
    }

    /** The constructor after the descriptive record is read: the structMap
        walk, then the embargo, citation and completeness of the record. */
    method ReadStructure(root: Element) returns (outcome: Outcome<ResourceError>)
      requires filesSystem.None? && pdfDict.None?
      modifies this`thumbnailMimetype, this`thumbnailFilename, this`filesSystem, this`squareMimetype, this`squareFilename,
        this`mediumMimetype, this`mediumFilename, this`thumbnailIconMimetype, this`primary,
        this`manifestationDict, this`manifestationViewTypes, this`manifestationLabels, this`pdfDict,
        this`embargoInfo, this`authorCitationString, this`completeness
      ensures outcome == StructureOutcome(old(Ctx()), old(transcriptions), root, old(primary), old(thumbnailIconMimetype))
      ensures outcome.Pass? ==> filesSystem.Some?
      ensures outcome.Pass? ==> embargoInfo == EmbargoOf(descMD.dates, descMD.creators, env.today, env.adminContact, env.findEmail)
      ensures outcome.Pass? ==> authorCitationString == Citation(descMD.creators)
      ensures outcome.Pass? ==> completeness == env.completenessOf(descMD)
      ensures outcome.Pass? ==> manifestationDict.Keys == manifestationViewTypes.Keys == manifestationLabels.Keys
    {
      hide *;
      StructureOutcomeSteps(Ctx(), transcriptions, root, primary, thumbnailIconMimetype);
      outcome := GetStructMap(root);
      if outcome.Fail? {
        return;
      }
      Describe();
    }

    /** The first part of the constructor: the meta-id, its pair path, the
        METS record and its system, the dimensions and the getCopy data. */
    method Locate(identifier: string, getCopyUrl: Option<string>) returns (outcome: Outcome<ResourceError>)
      modifies this`metaId, this`pairPath, this`metsFilename, this`metadataSystem, this`dimensions, this`getCopyData,
        this`filesSystem, this`primary, this`pdfDict, this`thumbnailIconMimetype
      ensures filesSystem.None? && primary.None? && pdfDict.None? && thumbnailIconMimetype.None?
      ensures outcome.Pass? ==> metaId == (if EndsWith(identifier, ".mets.xml") then MetaIdOf(identifier) else identifier)
      ensures outcome.Pass? ==> pairPath == env.pairPath(metaId)
      ensures outcome.Pass? && EndsWith(identifier, ".mets.xml") ==> metsFilename == identifier && metadataSystem == None
      ensures outcome.Pass? && !EndsWith(identifier, ".mets.xml") ==>
        var record := MetsRecordOf(System.Probes(env.io, env.pairPath, identifier, MetsPath(pairPath, identifier), metadataLocations), identifier, pairPath);
        record.Success? && (metsFilename, metadataSystem) == (record.value.0, Some(record.value.1))
      ensures outcome.Pass? ==> getCopyData == (if getCopyUrl.Some? && getCopyUrl.value != "" then GetCopyData(env, getCopyUrl.value, metaId) else map[])
      ensures outcome.Fail? ==> !EndsWith(identifier, ".mets.xml")
      ensures var located := LocatedOf(env, metadataLocations, identifier);
        (located.Failure? ==> outcome == Fail(located.error)) &&
        (located.Success? ==> outcome == Pass && Where() == located.value)
    {
      // The callees' contracts carry the proof.
      hide *;
      LocatedOfSteps(env, metadataLocations, identifier);
      // a fresh object has none of these attributes yet
      filesSystem, primary, pdfDict, thumbnailIconMimetype := None, None, None, None;
      if EndsWith(identifier, ".mets.xml") {
        metsFilename := identifier;
        metaId := MetaIdOf(identifier);
        pairPath := env.pairPath(metaId);
        metadataSystem := None;
      } else {
        metaId := identifier;
        pairPath := env.pairPath(metaId);
        var record := GetMetsRecordSystem(env.io, env.pairPath, metaId, pairPath, metadataLocations);
        if record.Failure? {
          return Fail(record.error);
        }
        metsFilename, metadataSystem := record.value.0, Some(record.value.1);
      }
      dimensions := GetDimensionsData(env, metsFilename);
      if getCopyUrl.Some? && getCopyUrl.value != "" {
        getCopyData := GetCopyData(env, getCopyUrl.value, metaId);
      } else {
        getCopyData := map[];
      }
      return Pass;
    }

    /** The constructor's steps on the parsed METS document before the
        structMap: the ACP date, the metadata file, the descriptive record
        and the transcriptions. */
    method ReadDescriptive(root: Element, transcriptionsServerUrl: Option<string>, ghost expected: Outcome<ResourceError>)
      returns (outcome: Outcome<ResourceError>)
      requires expected == AnalysisOutcome(env, Where(), staticFileLocations, root, transcriptionsServerUrl, primary, thumbnailIconMimetype)
      modifies this`acpModificationDate, this`xlinkNamespace, this`metadataType, this`metadataFile, this`descMD, this`transcriptions
      ensures acpModificationDate == AcpDateOf(root)
      ensures var spec := DescriptionOf(env, root, Where());
        (outcome.Pass? <==> spec.Success?) && (spec.Failure? ==> outcome == Fail(spec.error)) &&
        (spec.Success? ==> (xlinkNamespace, metadataType, metadataFile) == spec.value.0 && descMD == spec.value.1)
      ensures outcome.Fail? ==> outcome == expected
      ensures outcome.Pass? ==> expected == StructureOutcome(Ctx(), transcriptions, root, primary, thumbnailIconMimetype)
      ensures outcome.Pass? ==> metadataType == "UNTL"
      ensures outcome.Pass? ==> Success(descMD) == DescMetadataOf(env, metadataFile, metadataType)
      ensures outcome.Pass? ==> transcriptions == TranscriptionsData(env, metaId, ResourceTypeOf(descMD), transcriptionsServerUrl)
    {
      hide *;
      DescriptionOfSteps(env, root, Where());
      AnalysisOutcomeSteps(env, Where(), staticFileLocations, root, transcriptionsServerUrl, primary, thumbnailIconMimetype);
      GetAcpLastModificationDate(root);
      outcome := GetMetadataFile(root);
      if outcome.Fail? {
        return;
      }
      var desc := GetDescMetadata(env, metadataFile, metadataType);
      if desc.Failure? {
        return Fail(desc.error);
      }
      descMD := desc.value;
      transcriptions := TranscriptionsData(env, metaId, ResourceTypeOf(descMD), transcriptionsServerUrl);
    }

    /** The constructor's last steps: the embargo, the author citation and
        the completeness score of the descriptive record. */
    method Describe()
      modifies this`embargoInfo, this`authorCitationString, this`completeness
      ensures embargoInfo == EmbargoOf(descMD.dates, descMD.creators, env.today, env.adminContact, env.findEmail)
      ensures authorCitationString == Citation(descMD.creators)
      ensures completeness == env.completenessOf(descMD)
    {
      GetEmbargo();
      authorCitationString := GetAuthorCitationString(descMD);
      completeness := env.completenessOf(descMD);
    }

    /** `get_metadata_file(parsed_mets)`. */
    method GetMetadataFile(root: Element) returns (outcome: Outcome<ResourceError>)
      modifies this`xlinkNamespace, this`metadataType, this`metadataFile
      ensures var spec := MetadataFileOf(root, old(metadataSystem), old(pairPath), old(metsFilename));
        (outcome.Pass? <==> spec.Success?) && (spec.Failure? ==> outcome == Fail(spec.error)) &&
        (spec.Success? ==> (xlinkNamespace, metadataType, metadataFile) == spec.value)
    {
      ghost var spec := MetadataFileOf(root, metadataSystem, pairPath, metsFilename);
      var refs := MdRefs(root);
      if refs == [] {
        return Fail(NoDescriptiveMetadata);
      }
      var href, mdType := ScanMdRef(refs[0].attrs);
      if mdType.None? {
        assert spec == Failure(MetadataTypeUnknown);
        return Fail(MetadataTypeUnknown);
      }
      if href.None? {
        assert spec == Failure(MetadataNameUnknown);
        return Fail(MetadataNameUnknown);
      }
      var name := href.value.1;
      assert spec == Success((href.value.0, mdType.value, MetadataPath(metadataSystem, pairPath, metsFilename, name)));
      xlinkNamespace := href.value.0;
      metadataType := mdType.value;
      if metadataSystem.Some? {
        var resourcePath := PathJoin(pairPath, name);
        metadataFile := metadataSystem.value + Drop(resourcePath, 1);
      } else {
        var pathPart := PathSplit(metsFilename).0;
        metadataFile := PathJoin(pathPart, name);
      }
      return Pass;
    }

    /** `get_acp_last_modification_date(parsed_mets)`. */
    method GetAcpLastModificationDate(root: Element)
      modifies this`acpModificationDate
      ensures acpModificationDate == AcpDateOf(root)
    {
      var headers := ChildrenTagged(root.children, "metsHdr");
      if headers != [] {
        acpModificationDate := Get(headers[0], "LASTMODDATE");
      } else {
        acpModificationDate := None;
      }
    }

    /** The images as the object holds them. */
    function HeldImages(): Images
      reads this`thumbnailMimetype, this`thumbnailFilename, this`filesSystem, this`squareMimetype, this`squareFilename,
        this`mediumMimetype, this`mediumFilename, this`primary, this`thumbnailIconMimetype
    {
      Images(ImageData(thumbnailMimetype, thumbnailFilename, filesSystem), ImageData(squareMimetype, squareFilename, filesSystem),
             ImageData(mediumMimetype, mediumFilename, filesSystem), primary, thumbnailIconMimetype)
    }

    /** The manifestation dictionaries as the object holds them. */
    function HeldManifestations(): Manifested
      reads this`manifestationDict, this`manifestationViewTypes, this`manifestationLabels, this`pdfDict
    {
      Manifested(manifestationDict, manifestationViewTypes, manifestationLabels, pdfDict)
    }

    /** `get_structMap(parsed_mets)`: the first structMap and fileSec, the
        file index, the three representative images and the
        manifestations. */
    method GetStructMap(root: Element) returns (outcome: Outcome<ResourceError>)
      requires filesSystem.None? && pdfDict.None?
      modifies this`thumbnailMimetype, this`thumbnailFilename, this`filesSystem, this`squareMimetype, this`squareFilename,
        this`mediumMimetype, this`mediumFilename, this`thumbnailIconMimetype, this`primary,
        this`manifestationDict, this`manifestationViewTypes, this`manifestationLabels, this`pdfDict
      ensures var spec := StructMapOf(old(Ctx()), old(transcriptions), root, old(primary), old(thumbnailIconMimetype));
        (outcome.Pass? <==> spec.Success?) && (spec.Failure? ==> outcome == Fail(spec.error)) &&
        (spec.Success? ==> HeldImages() == spec.value.0 && HeldManifestations() == spec.value.1)
      ensures outcome.Pass? ==> filesSystem.Some? && manifestationDict.Keys == manifestationViewTypes.Keys == manifestationLabels.Keys
    {
      hide SectionsOf, Search;
      var structMaps := Search(root, "structMap", []);
      if structMaps == [] {
        return Fail(NoStructMap);
      }
      var structMap := structMaps[0].1;
      var fileSecs := Search(root, "fileSec", []);
      if fileSecs == [] {
        return Fail(NoFileSec);
      }
      outcome := ReadSections(fileSecs[0].1, structMap);
    }

    /** The part of `get_structMap` after the structMap and fileSec are found. */
    method ReadSections(fileSec: Element, structMap: Element) returns (outcome: Outcome<ResourceError>)
      requires filesSystem.None? && pdfDict.None?
      modifies this`thumbnailMimetype, this`thumbnailFilename, this`filesSystem, this`squareMimetype, this`squareFilename,
        this`mediumMimetype, this`mediumFilename, this`thumbnailIconMimetype, this`primary,
        this`manifestationDict, this`manifestationViewTypes, this`manifestationLabels, this`pdfDict
      ensures var spec := SectionsOf(old(Ctx()), old(transcriptions), fileSec, structMap, old(primary), old(thumbnailIconMimetype));
        (outcome.Pass? <==> spec.Success?) && (spec.Failure? ==> outcome == Fail(spec.error)) &&
        (spec.Success? ==> HeldImages() == spec.value.0 && HeldManifestations() == spec.value.1)
    {
      hide ImagesOf, ImageDataOf, ManifestStep, FileSetStep, Collect, Search, FileIndex, ManifestedOf;
      var fileIndex := BuildFileIndex(fileSec);
      outcome := GetImages(fileSec, structMap);
      if outcome.Fail? {
        return;
      }
      var walked := GetManifestations(fileSec, structMap, fileIndex);
      if walked.Fail? {
        return Fail(Walk(walked.error));
      }
      return Pass;
    }

    /** The `thumbnail`, `square` and `medium` calls of `get_structMap`. */
    method GetImages(fileSec: Element, structMap: Element) returns (outcome: Outcome<ResourceError>)
      requires filesSystem.None?
      modifies this`thumbnailMimetype, this`thumbnailFilename, this`filesSystem, this`squareMimetype, this`squareFilename,
        this`mediumMimetype, this`mediumFilename, this`thumbnailIconMimetype, this`primary
      ensures var spec := ImagesOf(old(Ctx()), fileSec, structMap, old(primary), old(thumbnailIconMimetype));
        (outcome.Pass? <==> spec.Success?) && (spec.Failure? ==> outcome == Fail(spec.error)) &&
        (spec.Success? ==> HeldImages() == spec.value)
    {
      hide ImageDataOf;
      ghost var c := Ctx();
      outcome := Thumbnail(fileSec, structMap, c);
      if outcome.Fail? {
        return;
      }
      outcome := Square(fileSec, structMap, c);
      if outcome.Fail? {
        return;
      }
      outcome := Medium(fileSec, structMap, c);
    }

    /** The ID -> group index of the fileSec, built by the nested loop. */
    method BuildFileIndex(fileSec: Element) returns (fileIndex: map<Option<string>, Element>)
      ensures fileIndex == FileIndex(fileSec)
    {
      var groups := fileSec.children;
      fileIndex := map[];
      var i := 0;
      while i < |groups|
        invariant 0 <= i <= |groups|
        invariant fileIndex == ToMap(IndexEntries(groups[..i]))
      {
        var group := groups[i];
        ghost var before := IndexEntries(groups[..i]);
        assert before + GroupEntries(group)[..0] == before;
        var j := 0;
        while j < |group.children|
          invariant 0 <= j <= |group.children|
          invariant fileIndex == ToMap(before + GroupEntries(group)[..j])
        {
          GroupEntriesStep(before, group, j);
          ghost var entries := before + GroupEntries(group)[..j + 1];
          assert fileIndex[Get(group.children[j], "ID") := group] == ToMap(entries);
          fileIndex := fileIndex[Get(group.children[j], "ID") := group];
          assert fileIndex == ToMap(entries);
          j := j + 1;
        }
        IndexEntriesStep(groups, i);
        i := i + 1;
      }
      assert groups[..i] == groups;
    }

    /** `thumbnail(fileSec, structMap)`: also records the static-file system. */
    method Thumbnail(fileSec: Element, structMap: Element, ghost c: Context) returns (outcome: Outcome<ResourceError>)
      requires c == Ctx()
      modifies this`thumbnailMimetype, this`thumbnailFilename, this`filesSystem, this`primary, this`thumbnailIconMimetype
      ensures var spec := ImageDataOf(c, Size.Thumbnail, fileSec, structMap, old(filesSystem));
        (outcome.Pass? <==> spec.Success?) && (spec.Failure? ==> outcome == Fail(spec.error)) &&
        (spec.Success? ==>
          thumbnailMimetype == spec.value.image.mimetype && thumbnailFilename == spec.value.image.filename &&
          filesSystem == spec.value.image.filesSystem &&
          primary == Latest(old(primary), spec.value.primary) &&
          thumbnailIconMimetype == Latest(old(thumbnailIconMimetype), spec.value.icon))
    {
      var image := GetImageData(Size.Thumbnail, fileSec, structMap, c);
      if image.Failure? {
        return Fail(image.error);
      }
      thumbnailMimetype := image.value.mimetype;
      thumbnailFilename := image.value.filename;
      filesSystem := image.value.filesSystem;
      return Pass;
    }

    /** `square(fileSec, structMap)`. */
    method Square(fileSec: Element, structMap: Element, ghost c: Context) returns (outcome: Outcome<ResourceError>)
      requires c == Ctx()
      modifies this`squareMimetype, this`squareFilename, this`primary, this`thumbnailIconMimetype
      ensures var spec := ImageDataOf(c, Size.Square, fileSec, structMap, old(filesSystem));
        (outcome.Pass? <==> spec.Success?) && (spec.Failure? ==> outcome == Fail(spec.error)) &&
        (spec.Success? ==>
          squareMimetype == spec.value.image.mimetype && squareFilename == spec.value.image.filename &&
          primary == Latest(old(primary), spec.value.primary) &&
          thumbnailIconMimetype == Latest(old(thumbnailIconMimetype), spec.value.icon))
    {
      var image := GetImageData(Size.Square, fileSec, structMap, c);
      if image.Failure? {
        return Fail(image.error);
      }
      squareMimetype := image.value.mimetype;
      squareFilename := image.value.filename;
      return Pass;
    }

    /** `medium(fileSec, structMap)`. */
    method Medium(fileSec: Element, structMap: Element, ghost c: Context) returns (outcome: Outcome<ResourceError>)
      requires c == Ctx()
      modifies this`mediumMimetype, this`mediumFilename, this`primary, this`thumbnailIconMimetype
      ensures var spec := ImageDataOf(c, Size.Medium, fileSec, structMap, old(filesSystem));
        (outcome.Pass? <==> spec.Success?) && (spec.Failure? ==> outcome == Fail(spec.error)) &&
        (spec.Success? ==>
          mediumMimetype == spec.value.image.mimetype && mediumFilename == spec.value.image.filename &&
          primary == Latest(old(primary), spec.value.primary) &&
          thumbnailIconMimetype == Latest(old(thumbnailIconMimetype), spec.value.icon))
    {
      var image := GetImageData(Size.Medium, fileSec, structMap, c);
      if image.Failure? {
        return Fail(image.error);
      }
      mediumMimetype := image.value.mimetype;
      mediumFilename := image.value.filename;
      return Pass;
    }

    /** `get_image_data(size_name, fileSec, structMap)`. */
    method GetImageData(size: Size, fileSec: Element, structMap: Element, ghost c: Context) returns (r: Result<ImageData, ResourceError>)
      requires c == Ctx()
      modifies this`primary, this`thumbnailIconMimetype
      ensures var spec := ImageDataOf(c, size, fileSec, structMap, old(filesSystem));
        (r.Success? <==> spec.Success?) && (spec.Failure? ==> r == Failure(spec.error)) &&
        (spec.Success? ==>
          r.value == spec.value.image &&
          primary == Latest(old(primary), spec.value.primary) &&
          thumbnailIconMimetype == Latest(old(thumbnailIconMimetype), spec.value.icon))
    {
      hide DivImage, SizeDiv, FirstFileSet, Latest, PrimaryOf, FileSetFileOf, Search, Get, Manifestations, HolderOf;
      ghost var cached := filesSystem;
      var foundImage := SizeDiv(structMap, size);
      var image: ImageData;
      if foundImage.Some? {
        var file := GetDivImage(foundImage.value, fileSec, structMap, size.UseCode(), c);
        if file.Failure? {
          return file;
        }
        image := file.value;
      } else {
        var firstFileSet := FirstFileSet(structMap);
        if firstFileSet.None? {
          // get_first_fileSet raises
          return Failure(FirstFileSetMissing);
        }
        var file := GetDivImage(firstFileSet.value, fileSec, structMap, HighResCode, c);
        ghost var found := DivImage(c, firstFileSet.value, fileSec, structMap, HighResCode, cached);
        if file.Failure? {
          assert found.Failure?;
          return file;
        }
        ghost var primary1 := primary;
        thumbnailIconMimetype := Some(file.value.mimetype);
        image := ImageData(Null, Null, file.value.filesSystem);
        assert found.Success? && found.value.0 == file.value && primary == primary1 == Latest(old(primary), found.value.1);
        assert Ctx() == c && filesSystem == cached;
      }
      if image.filesSystem.None? {
        return Failure(StaticFilesUnknown(size.Name()));
      }
      return Success(image);
    }

    /** The two calls `get_image_data` makes on the div it settles on. */
    method GetDivImage(div: Element, fileSec: Element, structMap: Element, code: string, ghost c: Context)
      returns (r: Result<ImageData, ResourceError>)
      requires c == Ctx()
      modifies this`primary
      ensures match DivImage(c, div, fileSec, structMap, code, old(filesSystem))
        case Failure(e) => r == Failure(e)
        case Success((file, found)) => r == Success(file) && primary == Latest(old(primary), found)
    {
      var p := GetPrimaryFileSet(div, structMap);
      if p.Fail? {
        return Failure(Walk(p.error));
      }
      r := GetFileSetFile(div, fileSec, code);
    }

    /** `get_primary_fileSet(div, structMap)`: the first manifestation
        holding a pointer to the div's first FILEID. */
    method GetPrimaryFileSet(div: Element, structMap: Element) returns (outcome: Outcome<WalkError>)
      modifies this`primary
      ensures match PrimaryOf(div, structMap)
        case Failure(e) => outcome == Fail(e)
        case Success(found) => outcome == Pass && primary == Latest(old(primary), found)
    {
      var thumbnailId: Option<string> := None;
      var bound := false;
      if div.children != [] {
        thumbnailId := Get(div.children[0], "FILEID");
        bound := true;
      }
      var manifestations := Manifestations(structMap);
      var i := 0;
      while i < |manifestations|
        invariant 0 <= i <= |manifestations|
        invariant bound <==> div.children != []
        invariant bound ==> thumbnailId == Get(div.children[0], "FILEID")
        invariant i > 0 ==> bound
        invariant forall j :: 0 <= j < i ==> PointersTo(manifestations[j], IdText(thumbnailId)) == []
        invariant primary == old(primary)
      {
        if !bound {
          // `thumbnail_id` was never assigned
          return Fail(NoFilePointer);
        }
        var manifest := manifestations[i];
        var thumbnailPtr := PointersTo(manifest, IdText(thumbnailId));
        if |thumbnailPtr| != 0 {
          primary := Some((Get(thumbnailPtr[0].0, "ORDER"), Get(manifest, "ORDER")));
          HolderOfFirst(manifestations, IdText(thumbnailId), i);
          return Pass;
        }
        i := i + 1;
      }
      return Pass;
    }

    /** `get_fileSet_file(fileSet, fileSec, use_type)`. */
    method GetFileSetFile(fileSet: Element, fileSec: Element, useType: string) returns (r: Result<ImageData, ResourceError>)
      ensures r == FileSetFileOf(Ctx(), fileSet, fileSec, useType, filesSystem)
    {
      var data := GetFilePointers(fileSet, fileSec, None, xlinkNamespace, dimensions);
      if data.Failure? {
        return Failure(Walk(data.error));
      }
      assert FileSetFileOf(Ctx(), fileSet, fileSec, useType, filesSystem) == FileFromPointers(Ctx(), data.value.ptrs, useType, filesSystem);
      var ptr := FirstWithUse(data.value.ptrs, useType);
      if ptr.None? {
        return Success(ImageData(Null, Null, None));
      }
      r := FilePointerData(ptr.value);
    }

    /** The file a `get_fileSet_file` pointer names, and the static-file
        system, probed only while none is known. */
    method FilePointerData(ptr: Dict) returns (r: Result<ImageData, ResourceError>)
      ensures r == FileFromPointer(Ctx(), ptr, filesSystem)
    {
      var fileName := DictGet(ptr, "flocat");
      var system: Option<string>;
      if filesSystem.None? {
        var found := StaticFileSystem(fileName);
        if found.Failure? {
          return Failure(found.error);
        }
        system := found.value;
      } else {
        system := filesSystem;
      }
      return Success(ImageData(DictGet(ptr, "MIMETYPE"), fileName, system));
    }

    /** The static-file probe of `get_fileSet_file`. */
    method StaticFileSystem(fileName: Value) returns (r: Result<Option<string>, ResourceError>)
      ensures r == StaticSystemOf(Ctx(), fileName)
    {
      if fileName.Str? {
        var found := System.GetFileSystem(env.io, env.pairPath, metaId, fileName.s, staticFileLocations);
        if found.Failure? {
          return Failure(SystemFailure(found.error));
        }
        return Success(found.value.1);
      }
      var i := 0;
      while i < |staticFileLocations|
        invariant 0 <= i <= |staticFileLocations|
        invariant forall j :: 0 <= j < i ==> !System.IsFileUrl(staticFileLocations[j])
      {
        if System.IsFileUrl(staticFileLocations[i]) {
          // `file_path.startswith` raises outside the try
          return Failure(FlocatNotText);
        }
        i := i + 1;
      }
      return Success(None);
    }

    /** `get_manifestations(fileSec, structMap, file_index)`. */
    method GetManifestations(fileSec: Element, structMap: Element, fileIndex: map<Option<string>, Element>)
      returns (outcome: Outcome<WalkError>)
      requires pdfDict.None?
      modifies this`manifestationDict, this`manifestationViewTypes, this`manifestationLabels, this`pdfDict
      ensures var walk := Collect(Manifestations(structMap), ManifestStepOf(fileIndex, old(xlinkNamespace), old(dimensions), old(transcriptions)));
        (outcome.Pass? <==> walk.Success?) && (walk.Failure? ==> outcome == Fail(walk.error)) &&
        (walk.Success? ==> HeldManifestations() == ManifestedOf(walk.value))
    {
      hide ManifestStep, FileSetStep;
      ghost var step := ManifestStepOf(fileIndex, xlinkNamespace, dimensions, transcriptions);
      manifestationDict, manifestationViewTypes, manifestationLabels := map[], map[], map[];
      var manifestations := Manifestations(structMap);
      ghost var rows: seq<ManifestRow> := [];
      var i := 0;
      while i < |manifestations|
        invariant 0 <= i <= |manifestations|
        invariant Collect(manifestations[..i], step) == Success(rows)
        invariant HeldManifestations() == ManifestedOf(rows)
      {
        var manifest := manifestations[i];
        var data, row := GetFileSets(manifest, fileSec, fileIndex);
        ghost var spec := step(manifest);
        if data.Failure? {
          assert spec.Failure? && spec.error == data.error;
          CollectFails(manifestations, i, step, rows);
          return Fail(data.error);
        }
        assert spec == Success(row);
        manifestationDict := manifestationDict[row.order := data.value];
        ManifestRowsStep(rows, row);
        CollectSnoc(manifestations, i, step, rows, row);
        rows := rows + [row];
        i := i + 1;
      }
      assert manifestations[..i] == manifestations;
      return Pass;
    }

    /** `get_fileSets(manifest, fileSec, file_index)`: the fileSet dictionary
        of one manifestation; it records the manifestation's view type and
        label and carries `pdf_dict` along.  `row` is the manifestation as
        the walk sees it. */
    method GetFileSets(manifest: Element, fileSec: Element, fileIndex: map<Option<string>, Element>)
      returns (r: Result<map<int, FileSetEntry>, WalkError>, row: ManifestRow)
      modifies this`manifestationViewTypes, this`manifestationLabels, this`pdfDict
      ensures var spec := ManifestStep(manifest, fileIndex, old(xlinkNamespace), old(dimensions), old(transcriptions));
        (r.Success? <==> spec.Success?) && (spec.Failure? ==> r == Failure(spec.error)) &&
        (spec.Success? ==>
          row == spec.value && r.value == FileSetMap(row.fileSets) &&
          manifestationViewTypes == old(manifestationViewTypes)[row.order := ManifestViewType(row)] &&
          manifestationLabels == old(manifestationLabels)[row.order := row.manifestLabel] &&
          pdfDict == PdfInManifest(old(pdfDict), row.order, row.fileSets))
    {
      hide *;
      row := ManifestRow(0, None, []);
      var walked := ManifestWalk(manifest, fileSec, fileIndex, pdfDict, xlinkNamespace, dimensions, transcriptions);
      if walked.Failure? {
        return Failure(walked.error), row;
      }
      var (fileSetDict, manifestViewType, representativePdf, walkedRow) := walked.value;
      row := walkedRow;
      pdfDict := representativePdf;
      manifestationViewTypes := manifestationViewTypes[row.order := manifestViewType];
      manifestationLabels := manifestationLabels[row.order := row.manifestLabel];
      return Success(fileSetDict), row;
    }

    /** `get_embargo()`. */
    method GetEmbargo()
      modifies this`embargoInfo
      ensures embargoInfo == EmbargoOf(descMD.dates, descMD.creators, env.today, env.adminContact, env.findEmail)
    {
      embargoInfo := EmbargoOfDates(descMD.dates, descMD.creators, env.today, env.adminContact, env.findEmail);
    }
  }

  /** The loop of `get_embargo` over the record's dates, building
      `embargo_info` from `{}`. */
  method EmbargoOfDates(dateList: seq<DateEntry>, creators: seq<Content>, today: Date,
                        admin: Option<map<string, string>>, findEmail: string -> Option<string>)
    returns (info: EmbargoInfo)
    ensures info == EmbargoOf(dateList, creators, today, admin, findEmail)
  {
    info := NoEmbargo;
    var i := 0;
    while i < |dateList|
      invariant 0 <= i <= |dateList|
      invariant info == EmbargoOf(dateList[..i], creators, today, admin, findEmail)
    {
      var dateItem := dateList[i];
      assert dateList[..i + 1] == dateList[..i] + [dateItem];
      EmbargoOfStep(dateList[..i], dateItem, creators, today, admin, findEmail);
      if dateItem.qualifier == Some("embargoUntil") {
        info := info.(embargo := true);
        var dateString := dateItem.content;
        var embargoDate := if dateString.Some? then ParseDate(dateString.value) else None;
        if embargoDate.Some? {
          info := info.(untilDate := dateString);
          if !Before(today, embargoDate.value) {
            info := info.(embargo := false);
          } else {
            info := info.(embargo := true);
          }
        }
        info := info.(adminContact := admin.GetOr(DefaultAdminContact));
        var contacts := AppendAuthorContacts(info.authorContacts, creators, findEmail);
        info := info.(authorContacts := contacts);
      }
      i := i + 1;
    }
    assert dateList[..i] == dateList;
  }

  /** The inner loop of `get_embargo`: one contact per creator whose `info`
      holds an e-mail address, appended to `author_contacts`. */
  method AppendAuthorContacts(contacts: seq<Contact>, creators: seq<Content>, findEmail: string -> Option<string>)
    returns (r: seq<Contact>)
    ensures r == contacts + AuthorContacts(creators, findEmail)
  {
    r := contacts;
    var j := 0;
    while j < |creators|
      invariant 0 <= j <= |creators|
      invariant r == contacts + AuthorContacts(creators[..j], findEmail)
    {
      var creatorItem := creators[j];
      assert creators[..j + 1][..j] == creators[..j];
      assert AuthorContacts(creators[..j + 1], findEmail) == AuthorContacts(creators[..j], findEmail) + CreatorContact(creatorItem, findEmail);
      if creatorItem.Fields? {
        var creatorInfo := Field(creatorItem, "info", "");
        var emailResult := findEmail(creatorInfo);
        if emailResult.Some? {
          var creatorName := Field(creatorItem, "name", "No Name Listed");
          r := r + [Contact(creatorName, emailResult.value)];
        }
      }
      j := j + 1;
    }
    assert creators[..j] == creators;
  }

  /** The part of `get_fileSets(manifest, fileSec, file_index)` that does
      not touch the resource's attributes: the manifestation's ORDER, then
      the walk over its file sets starting from `pdf_dict` = `pdf0`. */
  method ManifestWalk(manifest: Element, fileSec: Element, fileIndex: map<Option<string>, Element>, pdf0: Option<PdfInfo>,
                      ns: string, dims: Option<Dimensions>, transcriptions: Transcriptions)
    returns (r: Result<(map<int, FileSetEntry>, string, Option<PdfInfo>, ManifestRow), WalkError>)
    ensures match ManifestStep(manifest, fileIndex, ns, dims, transcriptions)
      case Failure(e) => r == Failure(e)
      case Success(row) =>
        r == Success((FileSetMap(row.fileSets), ManifestViewType(row), PdfInManifest(pdf0, row.order, row.fileSets), row))
  {
    hide FileSetStep, FilePointers, IndexedGroup, SearchedGroup;
    var manifestNum := OrderOf(manifest);
    if manifestNum.Failure? {
      return Failure(manifestNum.error);
    }
    var m := manifestNum.value;
    var walked := FileSetsOf(m, manifest.children, fileSec, fileIndex, pdf0, ns, dims, transcriptions);
    if walked.Failure? {
      return Failure(walked.error);
    }
    var (fileSetDict, manifestViewType, representativePdf, rows) := walked.value;
    return Success((fileSetDict, manifestViewType, representativePdf, ManifestRow(m, Get(manifest, "LABEL"), rows)));
  }

  /** The loop of `get_fileSets` over the file sets of manifestation `m`:
      the fileSet dictionary, the view type and `pdf_dict` it leaves, and
      the file sets as the walk sees them. */
  method FileSetsOf(m: int, fileSets: seq<Element>, fileSec: Element, fileIndex: map<Option<string>, Element>, pdf0: Option<PdfInfo>,
                    ns: string, dims: Option<Dimensions>, transcriptions: Transcriptions)
    returns (r: Result<(map<int, FileSetEntry>, string, Option<PdfInfo>, seq<FileSetRow>), WalkError>)
    ensures match Collect(fileSets, FileSetStepOf(m, fileIndex, ns, dims, transcriptions))
      case Failure(e) => r == Failure(e)
      case Success(rows) => r == Success((FileSetMap(rows), ViewTypeFold(FileSetTypes(rows)), PdfInManifest(pdf0, m, rows), rows))
  {
    // What a file set's step computes plays no part in the loop's proof.
    hide FileSetStep, FilePointers, IndexedGroup, SearchedGroup;
    ghost var step := FileSetStepOf(m, fileIndex, ns, dims, transcriptions);
    var fileSetDict: map<int, FileSetEntry> := map[];
    var manifestViewType := "";
    var representativePdf := pdf0;
    var multiplePdfs := false;
    var rows: seq<FileSetRow> := [];
    assert FileSetTypes(rows) == [] && SkipBlank([]) == [] && FileSetPairs(rows) == [];
    assert FileSetsFold(PdfState(pdf0, false), m, rows) == FileSetsAcc(map[], "", PdfState(pdf0, false));
    var i := 0;
    while i < |fileSets|
      invariant 0 <= i <= |fileSets|
      invariant Collect(fileSets[..i], step) == Success(rows)
      invariant FileSetsAcc(fileSetDict, manifestViewType, PdfState(representativePdf, multiplePdfs)) == FileSetsFold(PdfState(pdf0, false), m, rows)
    {
      var fileSet := fileSets[i];
      var found := FileSetRowOf(m, fileSet, fileSec, fileIndex, ns, dims, transcriptions);
      assert step(fileSet) == found;
      if found.Failure? {
        CollectFails(fileSets, i, step, rows);
        return Failure(found.error);
      }
      var fsRow := found.value;
      FileSetsFoldStep(PdfState(pdf0, false), m, rows, fsRow);
      fileSetDict, manifestViewType, representativePdf, multiplePdfs :=
        RecordFileSet(m, fsRow, fileSetDict, manifestViewType, representativePdf, multiplePdfs);
      CollectSnoc(fileSets, i, step, rows, fsRow);
      rows := rows + [fsRow];
      i := i + 1;
    }
    assert fileSets[..i] == fileSets;
    return Success((fileSetDict, manifestViewType, representativePdf, rows));
  }

  /** The body of the loop of `get_fileSets` once a file set's row is known:
      its entry, the view type fold and the search for a single pdf. */
  method RecordFileSet(m: int, fsRow: FileSetRow, fileSetDict: map<int, FileSetEntry>, manifestViewType: string,
                       representativePdf: Option<PdfInfo>, multiplePdfs: bool)
    returns (dict': map<int, FileSetEntry>, viewType': string, pdf': Option<PdfInfo>, multiple': bool)
    ensures FileSetsAcc(dict', viewType', PdfState(pdf', multiple')) ==
            FileSetsAccStep(FileSetsAcc(fileSetDict, manifestViewType, PdfState(representativePdf, multiplePdfs)), m, fsRow)
  {
    dict' := fileSetDict[fsRow.order := fsRow.entry];
    viewType' := manifestViewType;
    if manifestViewType == "" {
      viewType' := fsRow.entry.viewType;
    } else if manifestViewType != fsRow.entry.viewType {
      viewType' := MixedViewType;
    }
    pdf', multiple' := representativePdf, multiplePdfs;
    var pdf := fsRow.pdf;
    if pdf.Some? && pdf.value != "" && representativePdf.None? && !multiplePdfs {
      pdf' := Some(PdfInfo(m, fsRow.order, pdf.value));
    } else if pdf.Some? && pdf.value != "" && representativePdf.Some? && representativePdf.value.manifestation == m {
      // no single representative pdf exists
      pdf' := None;
      multiple' := true;
    }
  }

  /** A file set's step finds its pointers as `get_file_pointers` does
      with the index. */
  lemma FileSetStepByPointers(m: int, fileSet: Element, fileSec: Element, index: map<Option<string>, Element>,
                              ns: string, dims: Option<Dimensions>, t: Transcriptions)
    ensures FileSetStep(m, fileSet, index, ns, dims, t) ==
      match OrderOf(fileSet)
      case Failure(e) => Failure(e)
      case Success(order) =>
        match FilePointersOf(ns, dims, fileSet, fileSec, Some(index))
        case Failure(e) => Failure(e)
        case Success(data) =>
          var ts := TranscriptionsFor(t, m, order);
          Success(FileSetRow(order,
            FileSetEntry(data.ptrs + ts, Get(fileSet, "ORDERLABEL"), Get(fileSet, "LABEL"), data.viewType, data.zoom, VttFlags(ts)),
            data.pdf))
  {
    hide FilePointers, IndexedGroup, TranscriptionsFor, VttFlags, Get;
  }

  /** One fileSet of manifestation `m`, the body of the loop of
      `get_fileSets`. */
  method FileSetRowOf(m: int, fileSet: Element, fileSec: Element, fileIndex: map<Option<string>, Element>,
                      ns: string, dims: Option<Dimensions>, transcriptions: Transcriptions)
    returns (r: Result<FileSetRow, WalkError>)
    ensures r == FileSetStep(m, fileSet, fileIndex, ns, dims, transcriptions)
  {
    FileSetStepByPointers(m, fileSet, fileSec, fileIndex, ns, dims, transcriptions);
    hide *;
    var fileSetNum := OrderOf(fileSet);
    if fileSetNum.Failure? {
      return Failure(fileSetNum.error);
    }
    var f := fileSetNum.value;
    var fileSetTranscriptions := TranscriptionsFor(transcriptions, m, f);
    var data := GetFilePointers(fileSet, fileSec, Some(fileIndex), ns, dims);
    if data.Failure? {
      return Failure(data.error);
    }
    var fileSetData := data.value;
    var entry := FileSetEntry(fileSetData.ptrs + fileSetTranscriptions, Get(fileSet, "ORDERLABEL"), Get(fileSet, "LABEL"),
                              fileSetData.viewType, fileSetData.zoom, VttFlags(fileSetTranscriptions));
    return Success(FileSetRow(f, entry, fileSetData.pdf));
  }

  /** `get_file_pointers(fileset, fileSec, file_index)`. */
  method GetFilePointers(fileSet: Element, fileSec: Element, fileIndex: Option<map<Option<string>, Element>>,
                        ns: string, dims: Option<Dimensions>)
    returns (r: Result<FileSetData, WalkError>)
    ensures r == FilePointersOf(ns, dims, fileSet, fileSec, fileIndex)
  {
    if fileSet.children == [] {
      // `first_file` was never assigned
      return Failure(NoFilePointer);
    }
    var groupFound := if fileIndex.Some? then IndexedGroup(fileSet, fileIndex.value) else SearchedGroup(fileSet, fileSec);
    if groupFound.Failure? {
      return Failure(groupFound.error);
    }
    r := FilePointersOfGroup(groupFound.value.children, ns, dims);
  }

  /** The loop of `get_file_pointers` over the files of the group. */
  method FilePointersOfGroup(files: seq<Element>, ns: string, dims: Option<Dimensions>) returns (r: Result<FileSetData, WalkError>)
    ensures r == FilePointers(files, ns, dims)
  {
    ghost var step := FileStepOf(ns, dims);
    var filePtrs: seq<Dict> := [];
    var fileSetViewType := "";
    var zoom := false;
    var pdf: Option<string> := None;
    ghost var infos: seq<FileInfo> := [];
    assert files[..0] == [];
    var i := 0;
    while i < |files|
      invariant 0 <= i <= |files|
      invariant Collect(files[..i], step) == Success(infos)
      invariant FileSetData(filePtrs, fileSetViewType, zoom, pdf) == FileSetDataOf(infos)
    {
      var ptrFile := files[i];
      var info := FileDict(ptrFile, ns, dims);
      assert step(ptrFile) == info;
      if info.Failure? {
        CollectFails(files, i, step, infos);
        return Failure(info.error);
      }
      var fileDict := info.value;
      FileSetDataStep(infos, fileDict);
      filePtrs, fileSetViewType, zoom, pdf := AddFilePointer(filePtrs, fileSetViewType, zoom, pdf, fileDict);
      ghost var prev := infos;
      infos := infos + [fileDict];
      i := i + 1;
      assert Collect(files[..i], step) == Success(infos) by {
        CollectSnoc(files, i - 1, step, prev, fileDict);
      }
    }
    assert files[..i] == files;
    return Success(FileSetData(filePtrs, fileSetViewType, zoom, pdf));
  }

  /** What the loop of `get_file_pointers` does with one file's dictionary:
      the high-resolution file sets the pdf name and the view type, a zoom
      file sets the zoom flag, and every file is appended to the pointers. */
  method AddFilePointer(filePtrs: seq<Dict>, fileSetViewType: string, zoom: bool, pdf: Option<string>, fileDict: FileInfo)
    returns (filePtrs': seq<Dict>, fileSetViewType': string, zoom': bool, pdf': Option<string>)
    ensures FileSetData(filePtrs', fileSetViewType', zoom', pdf') == PointerStep(FileSetData(filePtrs, fileSetViewType, zoom, pdf), fileDict)
  {
    filePtrs', fileSetViewType', zoom', pdf' := filePtrs, fileSetViewType, zoom, pdf;
    if fileDict.use == Some(HighResCode) {
      if fileDict.pdf.Some? {
        pdf' := fileDict.pdf;
      }
      if fileSetViewType' == "" {
        fileSetViewType' := fileDict.viewType;
      } else if fileSetViewType' != fileDict.viewType {
        fileSetViewType' := MixedViewType;
      }
    } else if fileDict.use == Some(ZoomCode) {
      zoom' := true;
    }
    filePtrs' := filePtrs' + [fileDict.dict];
  }

  /** The body of the loop of `get_file_pointers` for one `file`: its kept
      attributes, its `flocat`, its dimensions and, for the
      high-resolution file, its view type and pdf name. */
  method FileDict(ptrFile: Element, ns: string, dims: Option<Dimensions>) returns (r: Result<FileInfo, WalkError>)
    ensures r == FileStep(ptrFile, ns, dims)
  {
    hide Mimetype, PdfName, Aubrey.ViewTypeOf, KeptFields;
    var use := Get(ptrFile, "USE");
    var highRes := use == Some(HighResCode);
    var fileDict := KeptFieldsOf(ptrFile.attrs, highRes);
    if ptrFile.children != [] {
      var href := Get(ptrFile.children[0], ns + "href");
      fileDict := fileDict["flocat" := match href case Some(v) => Str(v) case None => Null];
    }
    if dims.Some? {
      if "flocat" !in fileDict {
        // `file_dict['flocat']` raises KeyError
        return Failure(FlocatMissing);
      }
      var location := fileDict["flocat"];
      if location.Str? && location.s in dims.value {
        fileDict := fileDict + dims.value[location.s];
      } else {
        assert fileDict + DimensionsFor(dims.value, location) == fileDict;
      }
    }
    if !highRes {
      return Success(FileInfo(fileDict, use, "", None));
    }
    var ptrViewType := Aubrey.ViewTypeOf(Mimetype(fileDict));
    var pdf := PdfName(fileDict);
    if pdf.Failure? {
      return Failure(pdf.error);
    }
    return Success(FileInfo(fileDict, use, ptrViewType, pdf.value));
  }

  /** The loop of `file_dict` over the file's attributes: SIZE only for the
      high-resolution file, and none of the ignored fields. */
  method KeptFieldsOf(attrs: seq<(string, string)>, highRes: bool) returns (fileDict: Dict)
    ensures fileDict == KeptFields(attrs, highRes)
  {
    fileDict := map[];
    var j := 0;
    while j < |attrs|
      invariant 0 <= j <= |attrs|
      invariant fileDict == KeptFields(attrs[..j], highRes)
    {
      var (key, value) := attrs[j];
      KeptFieldsStep(attrs, j, highRes);
      if key == "SIZE" {
        if highRes {
          fileDict := fileDict[key := Str(value)];
        }
      } else if key !in IgnoredFields {
        fileDict := fileDict[key := Str(value)];
      }
      j := j + 1;
    }
    assert attrs[..j] == attrs;
  }

  lemma GroupEntriesStep(before: seq<(Option<string>, Element)>, group: Element, j: nat)
    requires j < |group.children|
    ensures ToMap(before + GroupEntries(group)[..j + 1]) == ToMap(before + GroupEntries(group)[..j])[Get(group.children[j], "ID") := group]
  {
    var es := GroupEntries(group);
    assert before + es[..j + 1] == (before + es[..j]) + [es[j]];
    ToMapSnoc(before + es[..j], es[j]);
  }

  lemma IndexEntriesStep(groups: seq<Element>, i: nat)
    requires i < |groups|
    ensures IndexEntries(groups[..i]) + GroupEntries(groups[i])[..|groups[i].children|] == IndexEntries(groups[..i + 1])
  {
    assert groups[..i + 1][..i] == groups[..i];
    assert GroupEntries(groups[i])[..|groups[i].children|] == GroupEntries(groups[i]);
  }

  /** What the loop of `get_fileSets` keeps: the fileSet dictionary, the
      view type and the pdf accumulator. */
  datatype FileSetsAcc = FileSetsAcc(dict: map<int, FileSetEntry>, viewType: string, pdf: PdfState)

  function FileSetsFold(st: PdfState, m: int, rows: seq<FileSetRow>): FileSetsAcc {
    FileSetsAcc(FileSetMap(rows), ViewTypeFold(FileSetTypes(rows)), PdfRows(st, m, rows))
  }

  /** One pass of the loop of `get_fileSets`. */
  function FileSetsAccStep(acc: FileSetsAcc, m: int, row: FileSetRow): FileSetsAcc {
    FileSetsAcc(acc.dict[row.order := row.entry], MergeViewType(acc.viewType, row.entry.viewType), PdfStep(acc.pdf, m, row))
  }

  lemma FileSetsFoldStep(st: PdfState, m: int, rows: seq<FileSetRow>, row: FileSetRow)
    ensures FileSetsFold(st, m, rows + [row]) == FileSetsAccStep(FileSetsFold(st, m, rows), m, row)
  {
    FileSetRowsStep(rows, row, m, st);
  }

  /** The folds of `get_fileSets` over one more file set. */
  lemma FileSetRowsStep(rows: seq<FileSetRow>, row: FileSetRow, m: int, st: PdfState)
    ensures FileSetMap(rows + [row]) == FileSetMap(rows)[row.order := row.entry]
    ensures ViewTypeFold(FileSetTypes(rows + [row])) == MergeViewType(ViewTypeFold(FileSetTypes(rows)), row.entry.viewType)
    ensures PdfRows(st, m, rows + [row]) == PdfStep(PdfRows(st, m, rows), m, row)
  {
    var s := rows + [row];
    assert s[..|rows|] == rows;
    assert FileSetPairs(s) == FileSetPairs(rows) + [(row.order, row.entry)];
    ToMapSnoc(FileSetPairs(rows), (row.order, row.entry));
    assert FileSetTypes(s) == FileSetTypes(rows) + [row.entry.viewType];
    ViewTypeFoldStep(FileSetTypes(rows), row.entry.viewType);
  }

  /** The dictionaries of `get_manifestations` and `pdf_dict` over one more
      manifestation. */
  lemma ManifestRowsStep(rows: seq<ManifestRow>, row: ManifestRow)
    ensures var before := ManifestedOf(rows);
      ManifestedOf(rows + [row]) ==
        Manifested(before.dict[row.order := FileSetMap(row.fileSets)], before.viewTypes[row.order := ManifestViewType(row)],
                   before.labels[row.order := row.manifestLabel], PdfInManifest(before.pdf, row.order, row.fileSets))
  {
    var s := rows + [row];
    assert s[..|rows|] == rows;
    assert ManifestPairs(s) == ManifestPairs(rows) + [(row.order, FileSetMap(row.fileSets))];
    assert ViewTypePairs(s) == ViewTypePairs(rows) + [(row.order, ManifestViewType(row))];
    assert LabelPairs(s) == LabelPairs(rows) + [(row.order, row.manifestLabel)];
    ToMapSnoc(ManifestPairs(rows), (row.order, FileSetMap(row.fileSets)));
    ToMapSnoc(ViewTypePairs(rows), (row.order, ManifestViewType(row)));
    ToMapSnoc(LabelPairs(rows), (row.order, row.manifestLabel));
  }

  /** One pass of the loop of `get_file_pointers`. */
  function PointerStep(d: FileSetData, info: FileInfo): FileSetData {
    var highRes := info.use == Some(HighResCode);
    FileSetData(d.ptrs + [info.dict],
                if highRes then MergeViewType(d.viewType, info.viewType) else d.viewType,
                d.zoom || (!highRes && info.use == Some(ZoomCode)),
                if highRes && info.pdf.Some? then info.pdf else d.pdf)
  }

  /** The pdf of a file is recorded only for the high-resolution file. */
  lemma FileSetDataStep(infos: seq<FileInfo>, info: FileInfo)
    requires info.use != Some(HighResCode) ==> info.pdf.None?
    ensures FileSetDataOf(infos + [info]) == PointerStep(FileSetDataOf(infos), info)
  {
    FileInfoStep(infos, info);
    ViewTypeFoldStep(HighResTypes(infos), info.viewType);
    if info.use != Some(HighResCode) {
      assert HighResTypes(infos + [info]) == HighResTypes(infos);
    }
  }

  /** The folds of `get_file_pointers` over one more file. */
  lemma FileInfoStep(infos: seq<FileInfo>, info: FileInfo)
    ensures Dicts(infos + [info]) == Dicts(infos) + [info.dict]
    ensures HighResTypes(infos + [info]) == HighResTypes(infos) + if info.use == Some(HighResCode) then [info.viewType] else []
    ensures AnyZoom(infos + [info]) <==> AnyZoom(infos) || info.use == Some(ZoomCode)
    ensures LastPdf(infos + [info]) == if info.pdf.Some? then info.pdf else LastPdf(infos)
  {
    var s := infos + [info];
    assert s[..|infos|] == infos;
    assert s[|infos|] == info;
    assert forall k :: 0 <= k < |infos| ==> s[k] == infos[k];
  }

  /** Assigning one more pair. */
  lemma ToMapSnoc<K, V>(kvs: seq<(K, V)>, kv: (K, V))
    ensures ToMap(kvs + [kv]) == ToMap(kvs)[kv.0 := kv.1]
  {
    var s := kvs + [kv];
    assert s[..|s| - 1] == kvs;
  }

  /** The manifestation a loop stops at is the one `HolderOf` names. */
  lemma HolderOfFirst(ms: seq<Element>, id: string, i: nat)
    requires i < |ms| && PointersTo(ms[i], id) != []
    requires forall j :: 0 <= j < i ==> PointersTo(ms[j], id) == []
    ensures HolderOf(ms, id) == Some(Holding(ms[i], id))
  {
    var r := HolderOf(ms, id);
    assert r.Some?;
    var k :| FirstHolder(ms, id, k) && r.value == Holding(ms[k], id);
    assert k == i;
  }

  /** The loop of `get_metadata_file` over the mdRef's attributes. */
  method ScanMdRef(attrs: seq<(string, string)>) returns (href: Option<(string, string)>, mdType: Option<string>)
    ensures MdRefState(href, mdType) == MdRefScan(attrs)
  {
    href, mdType := None, None;
    var i := 0;
    while i < |attrs|
      invariant 0 <= i <= |attrs|
      invariant MdRefState(href, mdType) == MdRefScan(attrs[..i])
    {
      var (key, value) := attrs[i];
      assert attrs[..i + 1][..i] == attrs[..i];
      var ns := HrefNamespace(key);
      if ns.Some? {
        href := Some((ns.value, Basename(value)));
      } else if key == "MDTYPE" {
        if value != "OTHER" {
          mdType := Some(value);
        }
      } else if key == "OTHERMDTYPE" {
        mdType := Some(value);
      }
      i := i + 1;
    }
    assert attrs[..i] == attrs;
  }

  /** The loop of `get_fileSet_file` over the pointers: the first whose USE
      is `useType`. */
  method FirstWithUse(ptrs: seq<Dict>, useType: string) returns (r: Option<Dict>)
    ensures r == PointerWithUse(ptrs, useType)
  {
    var i := 0;
    while i < |ptrs|
      invariant 0 <= i <= |ptrs|
      invariant forall j :: 0 <= j < i ==> DictGet(ptrs[j], "USE") != Str(useType)
    {
      if DictGet(ptrs[i], "USE") == Str(useType) {
        PointerWithUseFirst(ptrs, useType, i);
        return Some(ptrs[i]);
      }
      i := i + 1;
    }
    return None;
  }

  /** The pointer a loop stops at is the one `PointerWithUse` names. */
  lemma PointerWithUseFirst(ptrs: seq<Dict>, code: string, i: nat)
    requires i < |ptrs| && DictGet(ptrs[i], "USE") == Str(code)
    requires forall j :: 0 <= j < i ==> DictGet(ptrs[j], "USE") != Str(code)
    ensures PointerWithUse(ptrs, code) == Some(ptrs[i])
  {
    var r := PointerWithUse(ptrs, code);
    assert r.Some?;
    var k :| 0 <= k < |ptrs| && r.value == ptrs[k] && forall j :: 0 <= j < k ==> DictGet(ptrs[j], "USE") != Str(code);
    assert k == i;
  }
}
