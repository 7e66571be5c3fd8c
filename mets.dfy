/** What `ResourceObject` in aubreylib/resource.py reads out of a parsed METS
    document, as pure definitions: the element tree, the XPath searches it
    uses, the pointer dictionary of each `file`, the view-type fold, the
    representative-pdf accumulator and the transcription flags.  The class
    in module Resource walks the tree step by step and is proved to compute
    exactly these values. */
module Mets {
  import opened Wrappers
  import opened Text
  import opened Seqs
  import Aubrey

  /** An XML element as lxml presents it: its tag, its attributes in document
      order, and its child elements. */
  datatype Element = Element(tag: string, attrs: seq<(string, string)>, children: seq<Element>)

  /** `attrib.get(name)`.  XML attribute names are unique; were one repeated,
      the last would count, as in a dictionary built from the list. */
  function Lookup(attrs: seq<(string, string)>, name: string): Option<string>
    decreases |attrs|
  {
    if attrs == [] then None
    else if attrs[|attrs| - 1].0 == name then Some(attrs[|attrs| - 1].1)
    else Lookup(attrs[..|attrs| - 1], name)
  }

  /** A found value is one of the pairs; nothing is found exactly when no
      attribute has the name. */
  lemma {:induction false} LookupMeaning(attrs: seq<(string, string)>, name: string)
    ensures Lookup(attrs, name).Some? ==> (name, Lookup(attrs, name).value) in attrs
    ensures Lookup(attrs, name).None? <==> forall i :: 0 <= i < |attrs| ==> attrs[i].0 != name
    decreases |attrs|
  {
    if attrs != [] && attrs[|attrs| - 1].0 != name {
      LookupMeaning(attrs[..|attrs| - 1], name);
    }
  }

  function Get(e: Element, name: string): Option<string> {
    Lookup(e.attrs, name)
  }

  /** `element.get(name, default)`. */
  function GetOr(e: Element, name: string, default: string): string {
    Get(e, name).GetOr(default)
  }

  /** The elements strictly below `e` in document order, each with its parent:
      what `.//x` and `getparent()` range over. */
  function Descendants(e: Element): seq<(Element, Element)>
    decreases e
  {
    Below(e, e.children)
  }

  function Below(parent: Element, cs: seq<Element>): seq<(Element, Element)>
    decreases cs, 0
  {
    if cs == [] then [] else [(parent, cs[0])] + Descendants(cs[0]) + Below(parent, cs[1..])
  }

  /** `tag[@k1="v1"][@k2="v2"]...` */
  predicate Matches(e: Element, tag: string, conds: seq<(string, string)>) {
    e.tag == tag && forall i :: 0 <= i < |conds| ==> Get(e, conds[i].0) == Some(conds[i].1)
  }

  /** The pairs whose element matches, in their order. */
  function Filter(ps: seq<(Element, Element)>, tag: string, conds: seq<(string, string)>): seq<(Element, Element)>
  {
    if ps == [] then []
    else if Matches(ps[0].1, tag, conds) then [ps[0]] + Filter(ps[1..], tag, conds)
    else Filter(ps[1..], tag, conds)
  }

  /** Filter keeps exactly the matching pairs. */
  lemma {:induction false} FilterMembers(ps: seq<(Element, Element)>, tag: string, conds: seq<(string, string)>)
    ensures forall x :: x in Filter(ps, tag, conds) <==> x in ps && Matches(x.1, tag, conds)
  {
    if ps != [] {
      FilterMembers(ps[1..], tag, conds);
      assert ps == [ps[0]] + ps[1..];
    }
  }

  /** `k` is the first position of `ps` whose element matches. */
  predicate FirstMatchAt(ps: seq<(Element, Element)>, k: int, tag: string, conds: seq<(string, string)>) {
    0 <= k < |ps| && Matches(ps[k].1, tag, conds) && forall j :: 0 <= j < k ==> !Matches(ps[j].1, tag, conds)
  }

  /** The first pair Filter keeps is the first matching one. */
  lemma {:induction false} FilterFirst(ps: seq<(Element, Element)>, tag: string, conds: seq<(string, string)>)
    requires Filter(ps, tag, conds) != []
    ensures exists k :: FirstMatchAt(ps, k, tag, conds) && ps[k] == Filter(ps, tag, conds)[0]
  {
    if !Matches(ps[0].1, tag, conds) {
      FilterFirst(ps[1..], tag, conds);
      var k :| FirstMatchAt(ps[1..], k, tag, conds) && ps[1..][k] == Filter(ps[1..], tag, conds)[0];
      assert FirstMatchAt(ps, k + 1, tag, conds);
    } else {
      assert FirstMatchAt(ps, 0, tag, conds);
    }
  }

  /** `e.xpath('.//tag[@k="v"]...')`, each hit with its parent. */
  function Search(e: Element, tag: string, conds: seq<(string, string)>): seq<(Element, Element)> {
    Filter(Descendants(e), tag, conds)
  }

  /** The elements of (parent, element) pairs. */
  function Nodes(ps: seq<(Element, Element)>): seq<Element>
  {
    seq(|ps|, i requires 0 <= i < |ps| => ps[i].1)
  }

  /** `e.xpath('tag')`: the children with that tag. */
  function ChildrenTagged(cs: seq<Element>, tag: string): seq<Element>
  {
    if cs == [] then []
    else (if cs[0].tag == tag then [cs[0]] else []) + ChildrenTagged(cs[1..], tag)
  }

  /** ChildrenTagged keeps exactly the children with the tag. */
  lemma {:induction false} ChildrenTaggedMembers(cs: seq<Element>, tag: string)
    ensures forall x :: x in ChildrenTagged(cs, tag) <==> x in cs && x.tag == tag
  {
    if cs != [] {
      ChildrenTaggedMembers(cs[1..], tag);
      assert cs == [cs[0]] + cs[1..];
    }
  }

  /** A decoded JSON scalar, or Python's `None`. */
  datatype Value = Null | Bool(b: bool) | Int(i: int) | Str(s: string)

  /** A dictionary with string keys, as the pointer and transcription
      dictionaries are. */
  type Dict = map<string, Value>

  /** `d.get(k)` */
  function DictGet(d: Dict, k: string): Value {
    if k in d then d[k] else Null
  }

  /** The decoded dimensions file: for each `flocat`, a dictionary such as
      `{"width": 1500, "height": 1154}`. */
  type Dimensions = map<string, Dict>

  /** The decoded transcriptions structure: manifestation ORDER, then fileSet
      ORDER (both as strings), then the list of transcription dictionaries. */
  type Transcriptions = map<string, map<string, seq<Dict>>>

  /** The ways the walk raises; each names the Python exception's cause. */
  datatype WalkError =
    | NoFilePointer                    // a div without a child: `first_file` or `thumbnail_id` unbound
    | NoFileId                         // `FILEID` missing where it is concatenated into an XPath
    | UnknownFileId(id: Option<string>)  // no group for that FILEID (KeyError or IndexError)
    | FlocatMissing                    // dimensions loaded but the file has no FLocat child
    | NotText(key: string)             // `'pdf' in x` on a value that is not a string
    | BadOrder(order: string)          // `int(ORDER)` raised ValueError

  /** `str(USE['high_res'])`, `str(USE['zoom'])` and `str(USE['thumbnail'])`,
      `str(USE['square'])`, `str(USE['med_res'])`. */
  const HighResCode: string := "1"
  const ZoomCode: string := "8"
  const ThumbnailCode: string := "2"
  const SquareCode: string := "10"
  const MedResCode: string := "3"

  /** The codes above are those of the USE table. */
  lemma UseCodeStrings()
    ensures HighResCode == IntToString(Aubrey.Use["high_res"])
    ensures ZoomCode == IntToString(Aubrey.Use["zoom"])
    ensures ThumbnailCode == IntToString(Aubrey.Use["thumbnail"])
    ensures SquareCode == IntToString(Aubrey.Use["square"])
    ensures MedResCode == IntToString(Aubrey.Use["med_res"])
  {
    assert NatToString(1) == "1";
    assert NatToString(8) == "8";
    assert NatToString(2) == "2";
    assert NatToString(3) == "3";
    assert NatToString(1) == [DigitChar(1)];
    assert NatToString(10) == NatToString(1) + [DigitChar(0)];
  }

  /** The file attributes a pointer dictionary never keeps. */
  const IgnoredFields: set<string> := {"ID", "CHECKSUMTYPE", "CHECKSUM", "CREATED", "OWNERID"}

  /** `SIZE` is kept for the high-resolution file only; the ignored fields
      never; everything else always. */
  predicate KeepsField(name: string, highRes: bool) {
    if name == "SIZE" then highRes else name !in IgnoredFields
  }

  function Names(attrs: seq<(string, string)>): set<string> {
    set i | 0 <= i < |attrs| :: attrs[i].0
  }

  /** The attributes a pointer dictionary starts from. */
  function KeptFields(attrs: seq<(string, string)>, highRes: bool): Dict
  {
    NamesFound(attrs);
    map k | k in Names(attrs) && KeepsField(k, highRes) :: Str(Lookup(attrs, k).value)
  }

  /** The keys kept are the attribute names the filter keeps, each mapped to
      its attribute's value. */
  lemma KeptFieldsKeys(attrs: seq<(string, string)>, highRes: bool)
    ensures forall k :: k in KeptFields(attrs, highRes) <==> k in Names(attrs) && KeepsField(k, highRes)
    ensures forall k :: k in KeptFields(attrs, highRes) ==> Lookup(attrs, k) == Some(KeptFields(attrs, highRes)[k].s)
  {
    NamesFound(attrs);
  }

  /** Every attribute name is found. */
  lemma NamesFound(attrs: seq<(string, string)>)
    ensures forall k :: k in Names(attrs) ==> Lookup(attrs, k).Some?
  {
    forall k | k in Names(attrs)
      ensures Lookup(attrs, k).Some?
    {
      LookupMeaning(attrs, k);
    }
  }

  /** Adding one attribute to those already seen. */
  lemma KeptFieldsStep(attrs: seq<(string, string)>, i: nat, highRes: bool)
    requires i < |attrs|
    ensures KeptFields(attrs[..i + 1], highRes) ==
      if KeepsField(attrs[i].0, highRes) then KeptFields(attrs[..i], highRes)[attrs[i].0 := Str(attrs[i].1)]
      else KeptFields(attrs[..i], highRes)
  {
    var p := attrs[..i];
    var q := attrs[..i + 1];
    assert q[..i] == p;
    assert Names(q) == Names(p) + {attrs[i].0};
    forall k | k in Names(p) && k != attrs[i].0
      ensures Lookup(q, k) == Lookup(p, k)
    {
    }
  }

  /** `file_dict.get(key, '')` where the code needs a string. */
  function TextOf(d: Dict, key: string): Result<string, WalkError> {
    if key !in d then Success("")
    else if d[key].Str? then Success(d[key].s)
    else Failure(NotText(key))
  }

  /** `file_dict.get('MIMETYPE', None)` as a key of the view-type table; a
      value that is not a string is no key of it. */
  function Mimetype(d: Dict): Option<string> {
    if "MIMETYPE" in d && d["MIMETYPE"].Str? then Some(d["MIMETYPE"].s) else None
  }

  /** `sub in d[key]` for a string entry. */
  predicate HasText(d: Dict, key: string, sub: string) {
    key in d && d[key].Str? && Contains(d[key].s, sub)
  }

  /** The pdf test of a high-resolution pointer: `'pdf'` in its MIME type and
      in its location; the location's basename when both hold. */
  function PdfName(d: Dict): (r: Result<Option<string>, WalkError>)
    ensures r.Success? && r.value.Some? ==>
      HasText(d, "MIMETYPE", "pdf") && HasText(d, "flocat", "pdf") && r.value.value == Basename(d["flocat"].s)
    ensures r.Success? && r.value.None? ==> !HasText(d, "MIMETYPE", "pdf") || !HasText(d, "flocat", "pdf")
    ensures r.Failure? ==> r.error == NotText("MIMETYPE") || (HasText(d, "MIMETYPE", "pdf") && r.error == NotText("flocat"))
  {
    var mime :- TextOf(d, "MIMETYPE");
    if !Contains(mime, "pdf") then Success(None)
    else
      var location :- TextOf(d, "flocat");
      if Contains(location, "pdf") then Success(Some(Basename(location))) else Success(None)
  }

  /** A pointer dictionary with its file's USE, view type and pdf name. */
  datatype FileInfo = FileInfo(dict: Dict, use: Option<string>, viewType: string, pdf: Option<string>)

  /** `self.dimensions.get(file_dict['flocat'])`, with no entry as no change. */
  function DimensionsFor(dims: Dimensions, location: Value): Dict {
    if location.Str? && location.s in dims then dims[location.s] else map[]
  }

  /** One `file` of the chosen group: the kept attributes, the `href` of its
      first child as `flocat`, the dimensions entry laid over both, and for
      the high-resolution file its view type and pdf name. */
  function FileStep(file: Element, ns: string, dims: Option<Dimensions>): (r: Result<FileInfo, WalkError>)
    ensures r.Success? ==> r.value.use == Get(file, "USE")
    ensures r.Success? && r.value.use != Some(HighResCode) ==> r.value.viewType == "" && r.value.pdf == None
    ensures r.Success? && r.value.use == Some(HighResCode) ==> r.value.viewType == Aubrey.ViewTypeOf(Mimetype(r.value.dict))
    ensures r.Success? && file.children != [] && dims.None? ==>
      "flocat" in r.value.dict && r.value.dict["flocat"] == (match Get(file.children[0], ns + "href") case Some(v) => Str(v) case None => Null)
    ensures dims.Some? && file.children == [] && "flocat" !in Names(file.attrs) ==> r == Failure(FlocatMissing)
  {
    var use := Get(file, "USE");
    var highRes := use == Some(HighResCode);
    var kept := KeptFields(file.attrs, highRes);
    var located :=
      if file.children == [] then kept
      else kept["flocat" := match Get(file.children[0], ns + "href") case Some(v) => Str(v) case None => Null];
    if dims.Some? && "flocat" !in located then Failure(FlocatMissing)
    else
      var d := if dims.Some? then located + DimensionsFor(dims.value, located["flocat"]) else located;
      if !highRes then Success(FileInfo(d, use, "", None))
      else
        var pdf :- PdfName(d);
        Success(FileInfo(d, use, Aubrey.ViewTypeOf(Mimetype(d)), pdf))
  }

  function FileStepOf(ns: string, dims: Option<Dimensions>): Element -> Result<FileInfo, WalkError> {
    file => FileStep(file, ns, dims)
  }

  /** The files' dictionaries, in order. */
  function Dicts(infos: seq<FileInfo>): (r: seq<Dict>)
    ensures |r| == |infos| && forall i :: 0 <= i < |infos| ==> r[i] == infos[i].dict
  {
    if infos == [] then [] else Dicts(infos[..|infos| - 1]) + [infos[|infos| - 1].dict]
  }

  /** The view types of the high-resolution files, in order. */
  function HighResTypes(infos: seq<FileInfo>): seq<string> {
    if infos == [] then []
    else
      var last := infos[|infos| - 1];
      HighResTypes(infos[..|infos| - 1]) + if last.use == Some(HighResCode) then [last.viewType] else []
  }

  predicate AnyZoom(infos: seq<FileInfo>) {
    exists i :: 0 <= i < |infos| && infos[i].use == Some(ZoomCode)
  }

  /** The pdf name of the last file that has one. */
  function LastPdf(infos: seq<FileInfo>): Option<string> {
    if infos == [] then None
    else if infos[|infos| - 1].pdf.Some? then infos[|infos| - 1].pdf
    else LastPdf(infos[..|infos| - 1])
  }

  /** What `get_file_pointers` returns for a group. */
  datatype FileSetData = FileSetData(ptrs: seq<Dict>, viewType: string, zoom: bool, pdf: Option<string>)

  function FileSetDataOf(infos: seq<FileInfo>): FileSetData {
    FileSetData(Dicts(infos), ViewTypeFold(HighResTypes(infos)), AnyZoom(infos), LastPdf(infos))
  }

  /** The pointers of a group: one dictionary per file, in order, when every
      file's step succeeds; otherwise the error of the first file that fails. */
  function FilePointers(files: seq<Element>, ns: string, dims: Option<Dimensions>): (r: Result<FileSetData, WalkError>)
    ensures r.Success? <==> forall i :: 0 <= i < |files| ==> FileStep(files[i], ns, dims).Success?
    ensures r.Success? ==> |r.value.ptrs| == |files|
    ensures r.Success? ==> forall i :: 0 <= i < |files| ==> r.value.ptrs[i] == FileStep(files[i], ns, dims).value.dict
    ensures r.Success? ==>
      (r.value.zoom <==> exists i :: 0 <= i < |files| && FileStep(files[i], ns, dims).value.use == Some(ZoomCode))
    ensures r.Failure? ==>
      exists i :: 0 <= i < |files| && FileStep(files[i], ns, dims) == Failure(r.error) &&
        (forall j :: 0 <= j < i ==> FileStep(files[j], ns, dims).Success?)
  {
    var f := FileStepOf(ns, dims);
    CollectMeaning(files, f);
    assert forall i :: 0 <= i < |files| ==> f(files[i]) == FileStep(files[i], ns, dims);
    var infos :- Collect(files, f);
    Success(FileSetDataOf(infos))
  }

  /** The types left once leading `""`s are skipped. */
  function SkipBlank(ts: seq<string>): seq<string>
  {
    if ts != [] && ts[0] == "" then SkipBlank(ts[1..]) else ts
  }

  /** What SkipBlank leaves is a suffix that is empty or starts with a type,
      and what it drops is blank. */
  lemma {:induction false} SkipBlankMeaning(ts: seq<string>)
    ensures var r := SkipBlank(ts);
      (r == [] || r[0] != "") && |r| <= |ts| && r == ts[|ts| - |r|..] &&
      forall i :: 0 <= i < |ts| - |r| ==> ts[i] == ""
  {
    if ts != [] && ts[0] == "" {
      SkipBlankMeaning(ts[1..]);
    }
  }

  /** `VIEW_TYPE_MIMETYPES[None]`, the view type of a mixed list. */
  const MixedViewType: string := "file"

  lemma MixedViewTypeIsFallback()
    ensures MixedViewType == Aubrey.ViewTypeOf(None)
  {
    Aubrey.ViewTypeImages();
  }

  predicate AllSame(ts: seq<string>) {
    forall i :: 0 <= i < |ts| ==> ts[i] == ts[0]
  }

  lemma AllSameAppend(ts: seq<string>, t: string)
    requires ts != []
    ensures AllSame(ts + [t]) <==> AllSame(ts) && t == ts[0]
  {
    var u := ts + [t];
    if AllSame(u) {
      forall i | 0 <= i < |ts|
        ensures ts[i] == ts[0]
      {
        assert u[i] == u[0];
      }
      assert u[|ts|] == u[0];
    }
  }

  /** The view type of a list of view types: `""` when every entry is `""`;
      otherwise, after the leading `""`s, the common value when all agree, and
      the view type of an unknown MIME type, `"file"`, when they do not. */
  function Uniform(ts: seq<string>): string {
    var rest := SkipBlank(ts);
    if rest == [] then ""
    else if AllSame(rest) then rest[0]
    else MixedViewType
  }

  /** One step of the folds at resource.py:466-473 and 563-570. */
  function MergeViewType(acc: string, t: string): string {
    if acc == "" then t
    else if acc != t then MixedViewType
    else acc
  }

  /** The fold itself, from `""`, one view type at a time. */
  function ViewTypeFold(ts: seq<string>): (r: string)
    ensures r == "" <==> forall i :: 0 <= i < |ts| ==> ts[i] == ""
    ensures r != "" ==> r == MixedViewType || r in ts
    decreases |ts|
  {
    if ts == [] then "" else MergeViewType(ViewTypeFold(ts[..|ts| - 1]), ts[|ts| - 1])
  }

  /** The fold over one more view type. */
  lemma ViewTypeFoldStep(ts: seq<string>, t: string)
    ensures ViewTypeFold(ts + [t]) == MergeViewType(ViewTypeFold(ts), t)
  {
    assert (ts + [t])[..|ts|] == ts;
  }

  lemma {:induction false} SkipBlankAppend(ts: seq<string>, t: string)
    ensures SkipBlank(ts + [t]) == if SkipBlank(ts) == [] then SkipBlank([t]) else SkipBlank(ts) + [t]
    decreases |ts|
  {
    if ts != [] && ts[0] == "" {
      assert (ts + [t])[1..] == ts[1..] + [t];
      SkipBlankAppend(ts[1..], t);
    } else if ts == [] {
      assert ts + [t] == [t];
    }
  }

  /** The step-by-step fold computes `Uniform`. */
  lemma UniformStep(ts: seq<string>, t: string)
    ensures Uniform(ts + [t]) == MergeViewType(Uniform(ts), t)
  {
    SkipBlankAppend(ts, t);
    var rest := SkipBlank(ts);
    var rest' := SkipBlank(ts + [t]);
    if rest == [] {
      assert Uniform(ts) == "";
      if t == "" {
        assert [t][1..] == [];
        assert rest' == [];
      } else {
        assert rest' == [t];
        assert AllSame(rest');
      }
    } else {
      assert rest' == rest + [t];
      AllSameAppend(rest, t);
      var u := Uniform(ts);
      if AllSame(rest) {
        SkipBlankMeaning(ts);
        assert u == rest[0] && u != "";
        if t == u {
          assert AllSame(rest');
          assert Uniform(ts + [t]) == rest'[0] == u;
        } else {
          assert !AllSame(rest');
        }
      } else {
        assert u == MixedViewType;
        assert !AllSame(rest');
      }
    }
  }

  /** The fold computes the closed form `Uniform`. */
  lemma {:induction false} ViewTypeFoldUniform(ts: seq<string>)
    ensures ViewTypeFold(ts) == Uniform(ts)
    decreases |ts|
  {
    if ts != [] {
      var init := ts[..|ts| - 1];
      ViewTypeFoldUniform(init);
      assert init + [ts[|ts| - 1]] == ts;
      UniformStep(init, ts[|ts| - 1]);
    }
  }

  /** The asymmetry of the fold: blanks before the first type are skipped... */
  lemma {:induction false} UniformBlankFirst(bs: seq<string>, ts: seq<string>)
    requires forall i :: 0 <= i < |bs| ==> bs[i] == ""
    ensures Uniform(bs + ts) == Uniform(ts)
    decreases |bs|
  {
    if bs != [] {
      assert (bs + ts)[1..] == bs[1..] + ts;
      UniformBlankFirst(bs[1..], ts);
    } else {
      assert bs + ts == ts;
    }
  }

  /** A list that starts with a type and later differs from it is mixed. */
  lemma UniformMixed(ts: seq<string>, i: nat)
    requires i < |ts| && ts[0] != "" && ts[i] != ts[0]
    ensures Uniform(ts) == MixedViewType
  {
    assert SkipBlank(ts) == ts;
  }

  /** ... while a blank anywhere after a type makes the list mixed. */
  lemma UniformBlankLast(ts: seq<string>, k: nat, i: nat)
    requires k < i < |ts| && ts[k] != "" && ts[i] == ""
    ensures Uniform(ts) == MixedViewType
  {
    SkipBlankMeaning(ts);
    var rest := SkipBlank(ts);
    var off := |ts| - |rest|;
    assert k >= off;
    assert rest[i - off] == ts[i];
  }

  /** A list with no blank entry: `""` only when empty, its common value when
      all agree, `"file"` otherwise. */
  lemma UniformNonBlank(ts: seq<string>)
    requires forall i :: 0 <= i < |ts| ==> ts[i] != ""
    ensures ts == [] ==> Uniform(ts) == ""
    ensures ts != [] && (forall i :: 0 <= i < |ts| ==> ts[i] == ts[0]) ==> Uniform(ts) == ts[0]
    ensures ts != [] && !AllSame(ts) ==> Uniform(ts) == "file"
  {
    assert SkipBlank(ts) == ts;
  }

  /** The assignments `file_index[file.get('ID')] = group` of one group, file
      by file. */
  function GroupEntries(g: Element): seq<(Option<string>, Element)>
  {
    seq(|g.children|, i requires 0 <= i < |g.children| => (Get(g.children[i], "ID"), g))
  }

  /** The assignments of all groups, group by group. */
  function IndexEntries(groups: seq<Element>): seq<(Option<string>, Element)>
    decreases |groups|
  {
    if groups == [] then [] else IndexEntries(groups[..|groups| - 1]) + GroupEntries(groups[|groups| - 1])
  }

  /** The ID -> group index of a fileSec, as the nested loop leaves it: an ID
      is indexed iff some group holds a file with it, and is indexed to such
      a group. */
  function FileIndex(fileSec: Element): (r: map<Option<string>, Element>)
    ensures forall id :: id in r <==> exists k :: 0 <= k < |fileSec.children| && HoldsId(fileSec.children[k], id)
    ensures forall id :: id in r ==> r[id] in fileSec.children && HoldsId(r[id], id)
  {
    FileIndexHolders(fileSec.children);
    ToMap(IndexEntries(fileSec.children))
  }

  predicate HoldsId(g: Element, id: Option<string>) {
    exists i :: 0 <= i < |g.children| && Get(g.children[i], "ID") == id
  }

  lemma {:induction false} FileIndexHolders(groups: seq<Element>)
    ensures forall id :: id in ToMap(IndexEntries(groups)) <==> exists k :: 0 <= k < |groups| && HoldsId(groups[k], id)
    ensures forall id :: id in ToMap(IndexEntries(groups)) ==>
      ToMap(IndexEntries(groups))[id] in groups && HoldsId(ToMap(IndexEntries(groups))[id], id)
    decreases |groups|
  {
    if groups != [] {
      var init := groups[..|groups| - 1];
      var last := groups[|groups| - 1];
      FileIndexHolders(init);
      ToMapAppend(IndexEntries(init), GroupEntries(last));
      forall id
        ensures id in ToMap(IndexEntries(groups)) <==> exists k :: 0 <= k < |groups| && HoldsId(groups[k], id)
        ensures id in ToMap(IndexEntries(groups)) ==>
          ToMap(IndexEntries(groups))[id] in groups && HoldsId(ToMap(IndexEntries(groups))[id], id)
      {
        GroupEntriesKeys(last, id);
        if exists k :: 0 <= k < |groups| && HoldsId(groups[k], id) {
          var k :| 0 <= k < |groups| && HoldsId(groups[k], id);
          assert k < |groups| - 1 ==> init[k] == groups[k];
        }
        assert forall k :: 0 <= k < |init| ==> init[k] == groups[k];
      }
    }
  }

  lemma GroupEntriesKeys(g: Element, id: Option<string>)
    ensures id in ToMap(GroupEntries(g)) <==> HoldsId(g, id)
    ensures id in ToMap(GroupEntries(g)) ==> ToMap(GroupEntries(g))[id] == g
  {
    var es := GroupEntries(g);
    ToMapConst(es, g);
    ToMapKeys(es);
    if HoldsId(g, id) {
      var i :| 0 <= i < |g.children| && Get(g.children[i], "ID") == id;
      assert es[i].0 == id;
    }
    if id in ToMap(es) {
      var i :| 0 <= i < |es| && es[i].0 == id;
      assert Get(g.children[i], "ID") == id;
    }
  }

  /** A file ID is indexed to the last group holding a file with that ID: a
      later duplicate overwrites an earlier one. */
  lemma {:induction false} FileIndexLastWins(groups: seq<Element>, k: nat, id: Option<string>)
    requires k < |groups| && HoldsId(groups[k], id)
    requires forall j :: k < j < |groups| ==> !HoldsId(groups[j], id)
    ensures id in ToMap(IndexEntries(groups)) && ToMap(IndexEntries(groups))[id] == groups[k]
    decreases |groups|
  {
    var init := groups[..|groups| - 1];
    var last := groups[|groups| - 1];
    ToMapAppend(IndexEntries(init), GroupEntries(last));
    GroupEntriesKeys(last, id);
    if k < |groups| - 1 {
      FileIndexLastWins(init, k, id);
    }
  }

  /** An ID no group holds is not indexed. */
  lemma {:induction false} FileIndexMissing(groups: seq<Element>, id: Option<string>)
    requires forall j :: 0 <= j < |groups| ==> !HoldsId(groups[j], id)
    ensures id !in ToMap(IndexEntries(groups))
    decreases |groups|
  {
    if groups != [] {
      var init := groups[..|groups| - 1];
      var last := groups[|groups| - 1];
      ToMapAppend(IndexEntries(init), GroupEntries(last));
      GroupEntriesKeys(last, id);
      FileIndexMissing(init, id);
    }
  }

  /** The group of a file set, through the index: that of its first pointer's
      FILEID. */
  function IndexedGroup(fileSet: Element, index: map<Option<string>, Element>): (r: Result<Element, WalkError>)
    ensures fileSet.children == [] ==> r == Failure(NoFilePointer)
    ensures fileSet.children != [] ==> var id := Get(fileSet.children[0], "FILEID");
      (id in index ==> r == Success(index[id])) && (id !in index ==> r == Failure(UnknownFileId(id)))
  {
    if fileSet.children == [] then Failure(NoFilePointer)
    else
      var id := Get(fileSet.children[0], "FILEID");
      if id in index then Success(index[id]) else Failure(UnknownFileId(id))
  }

  /** The group of a file set, through the XPath `.//file[@ID="..."]`: the
      parent of the first file with its first pointer's FILEID. */
  function SearchedGroup(fileSet: Element, fileSec: Element): (r: Result<Element, WalkError>)
    ensures fileSet.children == [] ==> r == Failure(NoFilePointer)
    ensures fileSet.children != [] && Get(fileSet.children[0], "FILEID").None? ==> r == Failure(NoFileId)
    ensures fileSet.children != [] && Get(fileSet.children[0], "FILEID").Some? ==>
      var conds := [("ID", Get(fileSet.children[0], "FILEID").value)];
      (r == Failure(UnknownFileId(Get(fileSet.children[0], "FILEID"))) <==>
        forall x :: x in Descendants(fileSec) ==> !Matches(x.1, "file", conds))
      && (r.Success? ==> exists k :: FirstMatchAt(Descendants(fileSec), k, "file", conds) && Descendants(fileSec)[k].0 == r.value)
  {
    if fileSet.children == [] then Failure(NoFilePointer)
    else
      match Get(fileSet.children[0], "FILEID")
      case None => Failure(NoFileId)
      case Some(id) =>
        var conds := [("ID", id)];
        var hits := Search(fileSec, "file", conds);
        FilterMembers(Descendants(fileSec), "file", conds);
        if hits == [] then Failure(UnknownFileId(Some(id)))
        else
          assert hits[0] in hits;
          FilterFirst(Descendants(fileSec), "file", conds);
          Success(hits[0].0)
  }

  /** The representative-pdf record `{'manifestation', 'fileSet', 'filename'}`. */
  datatype PdfInfo = PdfInfo(manifestation: int, fileSet: int, filename: string)

  /** `self.pdf_dict` (None for `{}`) and `multiple_pdfs`. */
  datatype PdfState = PdfState(pdf: Option<PdfInfo>, multiple: bool)

  /** The transcription entries of one file set,
      `transcriptions.get(str(m), {}).get(str(f), [])`. */
  function TranscriptionsFor(t: Transcriptions, m: int, f: int): seq<Dict> {
    var byFileSet := if IntToString(m) in t then t[IntToString(m)] else map[];
    if IntToString(f) in byFileSet then byFileSet[IntToString(f)] else []
  }

  /** `has_vtt_type(transcriptions, kind)`. */
  function HasVttType(ts: seq<Dict>, kind: string): (r: bool)
    ensures r <==> exists i :: 0 <= i < |ts| && DictGet(ts[i], "vtt_kind") == Str(kind)
  {
    if ts == [] then false
    else DictGet(ts[0], "vtt_kind") == Str(kind) || (assert forall i :: 0 <= i < |ts| - 1 ==> ts[1..][i] == ts[i + 1]; HasVttType(ts[1..], kind))
  }

  /** The six kinds behind the `has_vtt_<kind>` flags. */
  const VttKinds: set<string> := {"captions", "subtitles", "descriptions", "chapters", "thumbnails", "metadata"}

  function VttFlags(ts: seq<Dict>): (r: map<string, bool>)
    ensures r.Keys == VttKinds
    ensures forall k :: k in r ==> (r[k] <==> exists i :: 0 <= i < |ts| && DictGet(ts[i], "vtt_kind") == Str(k))
  {
    map k | k in VttKinds :: HasVttType(ts, k)
  }

  /** One entry of a manifestation's fileSet dictionary. */
  datatype FileSetEntry = FileSetEntry(
    filePtrs: seq<Dict>,
    orderLabel: Option<string>,
    fileSetLabel: Option<string>,
    viewType: string,
    zoom: bool,
    vtt: map<string, bool>)

  /** A file set as the walk sees it: its ORDER, its entry and its pdf name. */
  datatype FileSetRow = FileSetRow(order: int, entry: FileSetEntry, pdf: Option<string>)

  /** `int(element.get("ORDER", '1'))`. */
  function OrderOf(e: Element): (r: Result<int, WalkError>)
    ensures Get(e, "ORDER") == None ==> r == Success(1)
    ensures r.Success? ==> ParseInt(GetOr(e, "ORDER", "1")) == Some(r.value)
  {
    var order := GetOr(e, "ORDER", "1");
    assert Get(e, "ORDER") == None ==> ParseInt(order) == Some(1) by {
      if Get(e, "ORDER") == None {
        ParseIntOfIntToString(1);
        assert NatToString(1) == "1";
      }
    }
    match ParseInt(order)
    case Some(n) => Success(n)
    case None => Failure(BadOrder(order))
  }

  /** One file set of manifestation `m`: its ORDER, its transcriptions, its
      group's pointers with the transcriptions appended, labels, view type,
      zoom flag and the six `has_vtt` flags. */
  function FileSetStep(m: int, fileSet: Element, index: map<Option<string>, Element>, ns: string,
                       dims: Option<Dimensions>, t: Transcriptions): (r: Result<FileSetRow, WalkError>)
  {
    var order :- OrderOf(fileSet);
    var ts := TranscriptionsFor(t, m, order);
    var group :- IndexedGroup(fileSet, index);
    var data :- FilePointers(group.children, ns, dims);
    Success(FileSetRow(order,
      FileSetEntry(data.ptrs + ts, Get(fileSet, "ORDERLABEL"), Get(fileSet, "LABEL"), data.viewType, data.zoom, VttFlags(ts)),
      data.pdf))
  }

  /** A file set's entry is keyed by its ORDER, holds its labels, and has one
      pointer per file of its group followed by its transcriptions, whose
      kinds its `has_vtt` flags record; a bad ORDER or an unindexed FILEID
      is the error. */
  lemma FileSetStepFacts(m: int, fileSet: Element, index: map<Option<string>, Element>, ns: string,
                         dims: Option<Dimensions>, t: Transcriptions)
    ensures var r := FileSetStep(m, fileSet, index, ns, dims, t);
      && (OrderOf(fileSet).Failure? ==> r == Failure(OrderOf(fileSet).error))
      && (OrderOf(fileSet).Success? && IndexedGroup(fileSet, index).Failure? ==> r == Failure(IndexedGroup(fileSet, index).error))
    ensures var r := FileSetStep(m, fileSet, index, ns, dims, t);
      r.Success? ==>
        OrderOf(fileSet) == Success(r.value.order) &&
        r.value.entry.orderLabel == Get(fileSet, "ORDERLABEL") && r.value.entry.fileSetLabel == Get(fileSet, "LABEL") &&
        r.value.entry.vtt == VttFlags(TranscriptionsFor(t, m, r.value.order)) &&
        IndexedGroup(fileSet, index).Success? &&
        |r.value.entry.filePtrs| == |IndexedGroup(fileSet, index).value.children| + |TranscriptionsFor(t, m, r.value.order)| &&
        r.value.entry.filePtrs[|r.value.entry.filePtrs| - |TranscriptionsFor(t, m, r.value.order)|..] == TranscriptionsFor(t, m, r.value.order)
  {
    var r := FileSetStep(m, fileSet, index, ns, dims, t);
    if r.Success? {
      var ts := TranscriptionsFor(t, m, r.value.order);
      var ptrs := r.value.entry.filePtrs;
      assert ptrs[|ptrs| - |ts|..] == ts;
    }
  }

  function FileSetStepOf(m: int, index: map<Option<string>, Element>, ns: string,
                         dims: Option<Dimensions>, t: Transcriptions): Element -> Result<FileSetRow, WalkError> {
    fileSet => FileSetStep(m, fileSet, index, ns, dims, t)
  }

  /** A manifestation as the walk sees it. */
  datatype ManifestRow = ManifestRow(order: int, manifestLabel: Option<string>, fileSets: seq<FileSetRow>)

  function ManifestStep(manifest: Element, index: map<Option<string>, Element>, ns: string,
                        dims: Option<Dimensions>, t: Transcriptions): (r: Result<ManifestRow, WalkError>)
    ensures OrderOf(manifest).Failure? ==> r == Failure(OrderOf(manifest).error)
    ensures r.Success? <==>
      OrderOf(manifest).Success? &&
      forall i :: 0 <= i < |manifest.children| ==> FileSetStep(OrderOf(manifest).value, manifest.children[i], index, ns, dims, t).Success?
    ensures r.Success? ==> r.value.manifestLabel == Get(manifest, "LABEL")
  {
    hide FileSetStep, Collect;
    var order :- OrderOf(manifest);
    var f := FileSetStepOf(order, index, ns, dims, t);
    CollectSucceeds(manifest.children, f);
    assert forall i :: 0 <= i < |manifest.children| ==> f(manifest.children[i]) == FileSetStep(order, manifest.children[i], index, ns, dims, t);
    var rows :- Collect(manifest.children, f);
    Success(ManifestRow(order, Get(manifest, "LABEL"), rows))
  }

  /** A manifestation's entry is keyed by its ORDER and holds one row per
      file set. */
  lemma ManifestStepFacts(manifest: Element, index: map<Option<string>, Element>, ns: string,
                          dims: Option<Dimensions>, t: Transcriptions)
    ensures var r := ManifestStep(manifest, index, ns, dims, t);
      r.Success? ==> OrderOf(manifest) == Success(r.value.order) && |r.value.fileSets| == |manifest.children|
  {
    var order := OrderOf(manifest);
    if order.Success? {
      CollectMeaning(manifest.children, FileSetStepOf(order.value, index, ns, dims, t));
    }
  }

  function ManifestStepOf(index: map<Option<string>, Element>, ns: string,
                          dims: Option<Dimensions>, t: Transcriptions): Element -> Result<ManifestRow, WalkError> {
    manifest => ManifestStep(manifest, index, ns, dims, t)
  }

  /** `structMap.xpath('.//div[@TYPE="manifestation"]')`. */
  function Manifestations(structMap: Element): seq<Element> {
    Nodes(Search(structMap, "div", [("TYPE", "manifestation")]))
  }

  function FileSetPairs(rows: seq<FileSetRow>): seq<(int, FileSetEntry)>
  {
    if rows == [] then [] else FileSetPairs(rows[..|rows| - 1]) + [(rows[|rows| - 1].order, rows[|rows| - 1].entry)]
  }

  function FileSetTypes(rows: seq<FileSetRow>): seq<string>
  {
    if rows == [] then [] else FileSetTypes(rows[..|rows| - 1]) + [rows[|rows| - 1].entry.viewType]
  }

  /** A manifestation's fileSet dictionary: a later duplicate ORDER overwrites. */
  function FileSetMap(rows: seq<FileSetRow>): map<int, FileSetEntry> {
    ToMap(FileSetPairs(rows))
  }

  /** A manifestation's view type: the fold of its file sets' view types. */
  function ManifestViewType(m: ManifestRow): string {
    ViewTypeFold(FileSetTypes(m.fileSets))
  }

  /** `manifestation_dict[ORDER] = {fileSet ORDER: entry}`, manifestation by
      manifestation. */
  function ManifestPairs(ms: seq<ManifestRow>): (r: seq<(int, map<int, FileSetEntry>)>)
    ensures |r| == |ms| && forall i :: 0 <= i < |ms| ==> r[i] == (ms[i].order, FileSetMap(ms[i].fileSets))
  {
    if ms == [] then [] else ManifestPairs(ms[..|ms| - 1]) + [(ms[|ms| - 1].order, FileSetMap(ms[|ms| - 1].fileSets))]
  }

  /** `manifestation_view_types[ORDER]`, manifestation by manifestation. */
  function ViewTypePairs(ms: seq<ManifestRow>): (r: seq<(int, string)>)
    ensures |r| == |ms| && forall i :: 0 <= i < |ms| ==> r[i] == (ms[i].order, ManifestViewType(ms[i]))
  {
    if ms == [] then [] else ViewTypePairs(ms[..|ms| - 1]) + [(ms[|ms| - 1].order, ManifestViewType(ms[|ms| - 1]))]
  }

  /** `manifestation_labels[ORDER]`, manifestation by manifestation. */
  function LabelPairs(ms: seq<ManifestRow>): (r: seq<(int, Option<string>)>)
    ensures |r| == |ms| && forall i :: 0 <= i < |ms| ==> r[i] == (ms[i].order, ms[i].manifestLabel)
  {
    if ms == [] then [] else LabelPairs(ms[..|ms| - 1]) + [(ms[|ms| - 1].order, ms[|ms| - 1].manifestLabel)]
  }

  predicate IsPdfRow(r: FileSetRow) {
    r.pdf.Some? && r.pdf.value != ""
  }

  /** One file set's turn at the representative-pdf accumulator. */
  function PdfStep(st: PdfState, m: int, row: FileSetRow): PdfState {
    if IsPdfRow(row) && st.pdf.None? && !st.multiple then PdfState(Some(PdfInfo(m, row.order, row.pdf.value)), st.multiple)
    else if IsPdfRow(row) && st.pdf.Some? && st.pdf.value.manifestation == m then PdfState(None, true)
    else st
  }

  /** The accumulator over the file sets of manifestation `m`. */
  function PdfRows(st: PdfState, m: int, rows: seq<FileSetRow>): PdfState {
    if rows == [] then st else PdfStep(PdfRows(st, m, rows[..|rows| - 1]), m, rows[|rows| - 1])
  }

  /** `pdf_dict` after `get_fileSets`, which starts with `multiple_pdfs = False`. */
  function PdfInManifest(pdf: Option<PdfInfo>, m: int, rows: seq<FileSetRow>): Option<PdfInfo> {
    PdfRows(PdfState(pdf, false), m, rows).pdf
  }

  /** `p` names manifestation `m` and one of its file sets that has a pdf. */
  predicate PdfFromRows(m: int, rows: seq<FileSetRow>, p: PdfInfo) {
    exists j :: 0 <= j < |rows| && IsPdfRow(rows[j]) && p == PdfInfo(m, rows[j].order, rows[j].pdf.value)
  }

  /** The accumulator either keeps its record, empties it, or records one of
      the file sets it was given. */
  lemma {:induction false} PdfRowsSource(st: PdfState, m: int, rows: seq<FileSetRow>)
    ensures var p := PdfRows(st, m, rows).pdf;
      p == None || p == st.pdf || PdfFromRows(m, rows, p.value)
    decreases |rows|
  {
    if rows != [] {
      var init := rows[..|rows| - 1];
      PdfRowsSource(st, m, init);
      var p := PdfRows(st, m, init).pdf;
      if p.Some? && p != st.pdf {
        var j :| 0 <= j < |init| && IsPdfRow(init[j]) && p.value == PdfInfo(m, init[j].order, init[j].pdf.value);
        assert rows[j] == init[j];
      }
      assert IsPdfRow(rows[|rows| - 1]) ==>
        PdfFromRows(m, rows, PdfInfo(m, rows[|rows| - 1].order, rows[|rows| - 1].pdf.value));
    }
  }

  /** `pdf_dict` after the manifestations, in order, from an empty one: when
      set, it names a manifestation and one of its file sets that has a pdf. */
  function PdfAcross(ms: seq<ManifestRow>): (r: Option<PdfInfo>)
    ensures r.Some? ==> exists i :: 0 <= i < |ms| && PdfFromRows(ms[i].order, ms[i].fileSets, r.value)
  {
    if ms == [] then None
    else
      var init := ms[..|ms| - 1];
      var last := ms[|ms| - 1];
      PdfRowsSource(PdfState(PdfAcross(init), false), last.order, last.fileSets);
      assert forall i :: 0 <= i < |init| ==> init[i] == ms[i];
      PdfInManifest(PdfAcross(init), last.order, last.fileSets)
  }

  /** The file sets that hold a representative pdf candidate. */
  function PdfRowsOf(rows: seq<FileSetRow>): (r: seq<FileSetRow>)
    ensures forall i :: 0 <= i < |r| ==> IsPdfRow(r[i])
    ensures forall x :: x in r <==> x in rows && IsPdfRow(x)
    ensures |r| <= |rows|
  {
    if rows == [] then []
    else
      var init := rows[..|rows| - 1];
      assert rows == init + [rows[|rows| - 1]];
      PdfRowsOf(init) + if IsPdfRow(rows[|rows| - 1]) then [rows[|rows| - 1]] else []
  }

  /** The pdf rows of two runs of file sets are those of each, in order. */
  lemma {:induction false} PdfRowsOfAppend(xs: seq<FileSetRow>, ys: seq<FileSetRow>)
    ensures PdfRowsOf(xs + ys) == PdfRowsOf(xs) + PdfRowsOf(ys)
    decreases |ys|
  {
    if ys == [] {
      assert xs + ys == xs;
    } else {
      var init := ys[..|ys| - 1];
      var last := ys[|ys| - 1];
      assert (xs + ys)[..|xs + ys| - 1] == xs + init;
      PdfRowsOfAppend(xs, init);
    }
  }

  /** The pdf of a manifestation with exactly one pdf file set. */
  function SinglePdf(m: ManifestRow): Option<PdfInfo> {
    var ps := PdfRowsOf(m.fileSets);
    if |ps| == 1 then Some(PdfInfo(m.order, ps[0].order, ps[0].pdf.value)) else None
  }

  /** The pdf of the first manifestation, in document order, that holds
      exactly one pdf file set. */
  function FirstSinglePdf(ms: seq<ManifestRow>): Option<PdfInfo> {
    if ms == [] then None
    else if FirstSinglePdf(ms[..|ms| - 1]).Some? then FirstSinglePdf(ms[..|ms| - 1])
    else SinglePdf(ms[|ms| - 1])
  }

  /** Within one manifestation, from an empty record: no pdf leaves it empty,
      one pdf fills it, a second voids it for good. */
  lemma {:induction false} PdfRowsFromEmpty(m: int, rows: seq<FileSetRow>)
    ensures var st := PdfRows(PdfState(None, false), m, rows);
      var ps := PdfRowsOf(rows);
      (|ps| == 0 ==> st == PdfState(None, false)) &&
      (|ps| == 1 ==> st == PdfState(Some(PdfInfo(m, ps[0].order, ps[0].pdf.value)), false)) &&
      (|ps| >= 2 ==> st == PdfState(None, true))
    decreases |rows|
  {
    if rows != [] {
      var init := rows[..|rows| - 1];
      PdfRowsFromEmpty(m, init);
      var ps := PdfRowsOf(init);
      if IsPdfRow(rows[|rows| - 1]) && |ps| == 0 {
        assert PdfRowsOf(rows) == ps + [rows[|rows| - 1]];
      }
    }
  }

  /** A record filled by another manifestation stays as it is. */
  lemma {:induction false} PdfRowsKeep(p: PdfInfo, m: int, rows: seq<FileSetRow>)
    requires p.manifestation != m
    ensures PdfRows(PdfState(Some(p), false), m, rows) == PdfState(Some(p), false)
    decreases |rows|
  {
    if rows != [] {
      PdfRowsKeep(p, m, rows[..|rows| - 1]);
    }
  }

  /** With distinct manifestation ORDERs, `pdf_dict` ends as the pdf of the
      first manifestation holding exactly one pdf file set, or empty. */
  lemma {:induction false} PdfAcrossFirstSingle(ms: seq<ManifestRow>)
    requires forall i, j :: 0 <= i < j < |ms| ==> ms[i].order != ms[j].order
    ensures PdfAcross(ms) == FirstSinglePdf(ms)
    ensures PdfAcross(ms).Some? ==> exists k :: 0 <= k < |ms| && PdfAcross(ms).value.manifestation == ms[k].order
    decreases |ms|
  {
    if ms != [] {
      var init := ms[..|ms| - 1];
      var last := ms[|ms| - 1];
      PdfAcrossFirstSingle(init);
      var before := PdfAcross(init);
      if before.Some? {
        var k :| 0 <= k < |init| && before.value.manifestation == init[k].order;
        assert ms[k].order != last.order;
        PdfRowsKeep(before.value, last.order, last.fileSets);
        assert ms[k] == init[k];
      } else {
        PdfRowsFromEmpty(last.order, last.fileSets);
        assert |ms| - 1 < |ms|;
      }
    }
  }

  /** The three representative image sizes and the USE code each one reads
      (medium reads `med_res`). */
  datatype Size = Thumbnail | Square | Medium {
    function Name(): string {
      match this
      case Thumbnail => "thumbnail"
      case Square => "square"
      case Medium => "medium"
    }

    function UseCode(): string {
      match this
      case Thumbnail => ThumbnailCode
      case Square => SquareCode
      case Medium => MedResCode
    }
  }

  /** The first element of a search, if any. */
  function FirstNode(ps: seq<(Element, Element)>): (r: Option<Element>)
    ensures r.Some? <==> ps != []
    ensures r.Some? ==> r.value == ps[0].1
  {
    if ps == [] then None else Some(ps[0].1)
  }

  /** `structMap.xpath('.//div[@TYPE="<size>"]')[0]`. */
  function SizeDiv(structMap: Element, size: Size): Option<Element> {
    FirstNode(Search(structMap, "div", [("TYPE", size.Name())]))
  }

  /** `structMap.xpath('.//div[@TYPE="fileSet"][@ORDER="1"]')[0]`. */
  function FirstFileSet(structMap: Element): Option<Element> {
    FirstNode(Search(structMap, "div", [("TYPE", "fileSet"), ("ORDER", "1")]))
  }

  /** `"%s" % fptr.get('FILEID')`: a missing FILEID is spelled `None`. */
  function IdText(id: Option<string>): string {
    match id
    case Some(s) => s
    case None => "None"
  }

  /** The fptrs below a manifestation that point at `id`. */
  function PointersTo(manifest: Element, id: string): seq<(Element, Element)> {
    Search(manifest, "fptr", [("FILEID", id)])
  }

  /** `ms[i]` is the first manifestation holding a pointer to `id`. */
  predicate FirstHolder(ms: seq<Element>, id: string, i: int) {
    0 <= i < |ms| && PointersTo(ms[i], id) != [] && forall j :: 0 <= j < i ==> PointersTo(ms[j], id) == []
  }

  /** (the ORDER of the first pointer's parent, the manifestation's ORDER) */
  function Holding(m: Element, id: string): (Option<string>, Option<string>)
    requires PointersTo(m, id) != []
  {
    (Get(PointersTo(m, id)[0].0, "ORDER"), Get(m, "ORDER"))
  }

  /** The pair (fileSet ORDER, manifestation ORDER) of the first
      manifestation holding a pointer to `id`: the parent of its first such
      pointer and the manifestation itself. */
  function HolderOf(ms: seq<Element>, id: string): (r: Option<(Option<string>, Option<string>)>)
    ensures r.None? <==> forall i :: 0 <= i < |ms| ==> PointersTo(ms[i], id) == []
    ensures r.Some? ==> exists i :: FirstHolder(ms, id, i) && r.value == Holding(ms[i], id)
  {
    hide PointersTo, Holding;
    if ms == [] then None
    else
      var hits := PointersTo(ms[0], id);
      if hits != [] then Some(Holding(ms[0], id))
      else
        assert forall i :: 0 <= i < |ms| - 1 ==> ms[1..][i] == ms[i + 1];
        var r := HolderOf(ms[1..], id);
        assert r.Some? ==> exists i :: FirstHolder(ms[1..], id, i) && r.value == Holding(ms[1..][i], id);
        assert r.Some? ==> exists i :: FirstHolder(ms, id, i) && r.value == Holding(ms[i], id) by {
          if r.Some? {
            var i :| FirstHolder(ms[1..], id, i) && r.value == Holding(ms[1..][i], id);
            assert ms[1..][i] == ms[i + 1];
            forall j | 0 <= j < i + 1
              ensures PointersTo(ms[j], id) == []
            {
              if j > 0 {
                assert ms[j] == ms[1..][j - 1];
              }
            }
            assert FirstHolder(ms, id, i + 1);
          }
        }
        r
  }

  /** What `get_primary_fileSet(div, structMap)` records: nothing when no
      manifestation holds the div's first pointer, an error when the div has
      no child to take that pointer from and some manifestation is searched. */
  function PrimaryOf(div: Element, structMap: Element): (r: Result<Option<(Option<string>, Option<string>)>, WalkError>)
    ensures Manifestations(structMap) == [] ==> r == Success(None)
    ensures Manifestations(structMap) != [] && div.children == [] ==> r == Failure(NoFilePointer)
  {
    var ms := Manifestations(structMap);
    if ms == [] then Success(None)
    else if div.children == [] then Failure(NoFilePointer)
    else Success(HolderOf(ms, IdText(Get(div.children[0], "FILEID"))))
  }

  /** The first pointer dictionary whose USE is `code`. */
  function PointerWithUse(ptrs: seq<Dict>, code: string): (r: Option<Dict>)
    ensures r.Some? ==> r.value in ptrs && DictGet(r.value, "USE") == Str(code)
    ensures r.None? <==> forall i :: 0 <= i < |ptrs| ==> DictGet(ptrs[i], "USE") != Str(code)
    ensures r.Some? ==> exists i :: 0 <= i < |ptrs| && r.value == ptrs[i] && forall j :: 0 <= j < i ==> DictGet(ptrs[j], "USE") != Str(code)
  {
    if ptrs == [] then None
    else if DictGet(ptrs[0], "USE") == Str(code) then Some(ptrs[0])
    else
      assert forall i :: 0 <= i < |ptrs| - 1 ==> ptrs[1..][i] == ptrs[i + 1];
      var r := PointerWithUse(ptrs[1..], code);
      assert r.Some? ==> exists i :: 1 <= i < |ptrs| && r.value == ptrs[i] && forall j :: 0 <= j < i ==> DictGet(ptrs[j], "USE") != Str(code);
      r
  }
}
