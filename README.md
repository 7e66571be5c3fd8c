# aubreylib in Dafny

A model of the core of `aubreylib`, the University of North Texas library
that finds a digital object's files on the storage systems of the digital
library and reads the object's METS record into a `ResourceObject`.

The model covers three source files.

- `aubreylib/__init__.py` (module `Aubrey`, file `aubrey.dfy`): the METS `USE`
  codes, the MIME-type to view-type table and the default location tuples.
- `aubreylib/system.py` (module `System`, file `system.dfy`): the location
  resolver `get_file_system`, which tries local `file://` directories and
  `http(s)://` servers in order; the pair-tree path builders `get_file_path`
  and `get_complete_filepath`; `create_valid_url`, which repairs a URL that
  `urlsplit` cut at a `#`; the open functions; and `get_other_system`, which
  retries a failed URL on every configured host.
- `aubreylib/resource.py` (module `Resource`, file `resource.dfy`, built on
  modules `Mets` in `mets.dfy` and `Descriptive` in `descriptive.dfy`): the
  module-level helpers and the class `ResourceObject`.
  - `ResourceObject` locates the METS record, opens and parses it, and finds
    the descriptive metadata file.
  - It reads the UNTL metadata and the transcriptions.
  - It walks the `structMap` and `fileSec` into the thumbnail, square and
    medium images, the primary fileSet, and the manifestation and fileSet
    dictionaries with their view types, zoom flags, transcription flags and
    representative pdf.
  - It computes the embargo information, the author citation string and
    the completeness score.

Every step that changes state is an imperative method of
`Resource.ResourceObject` or of `System`, with its loops. Each is proved
against a pure definition. Each definition then has its own lemmas about
what the source promises: a first match, a last write wins, an
if-and-only-if, a round trip, or agreement between a fold and a closed form.

Supporting modules:

- `Text` (`text.dfy`) holds the Python string and `posixpath` operations the
  source uses.
- `Url` (`url.dfy`) holds `urllib.parse.urlsplit`, `urljoin` and `quote`.
- `Seqs` (`seqs.dfy`) holds the "map over a list, stop at the first
  exception" combinator and list-to-dictionary conversion.
- `Wrappers` (`wrappers.dfy`) holds `Option`, `Result` and `Outcome`.
- `SystemExamples` (`system_examples.dfy`) restates the repository's
  `tests/test_system.py` cases as lemmas about the model.

Everything outside the library is a parameter:

- `System.Io` holds `os.path.exists`, the HEAD request, whether `urlopen`
  or `open` succeeds, and the Django location settings.
- `Resource.Environment` adds `get_pair_path` and the decoders of the JSON
  dimensions, getCopy and transcriptions documents.
- It also adds lxml's parse of the METS document and pyuntl's parse of the
  UNTL document.
- It also adds pyuntl's completeness score, the `EMAIL_REGEX` search, the
  `REPOSITORY_ADMIN_DICT` setting and today's date.

A parsed XML document is a `Mets.Element` tree of tags, ordered attributes
and children. An exception is a `Failure` or `Fail` value naming its cause.

## Model

| member | source | states |
|---|---|---|
| Aubrey.UseCodes | aubreylib/__init__.py:2-13 | the USE table has exactly the ten names, its codes are 1 to 10 and distinct, and high_res, thumbnail, med_res, zoom and square are 1, 2, 3, 8 and 10 |
| Aubrey.ViewTypeOf | aubreylib/__init__.py:16-34 | a view type is one of the seven kinds, and a MIME type missing from the table gets the fallback `file` |
| Aubrey.ViewTypeImages | aubreylib/__init__.py:17-21 | table entries: the four image types view as `image`; no MIME type views as `file` |
| Aubrey.ViewTypeFiles | aubreylib/__init__.py:22-30 | table entries: pdf, tiff, octet-stream and zip view as `file` |
| Aubrey.ViewTypeMedia | aubreylib/__init__.py:25-32 | table entries: the audio, video, html, plain-text and xml types get their own view types |
| Aubrey.ViewTypesNonEmpty | aubreylib/__init__.py:16-34 | no MIME type has the empty view type, which the fold uses to mean "nothing seen yet" |
| System.DefaultLocationsEmpty | aubreylib/__init__.py:39-42 | without Django settings, the default location tuples leave nowhere to retry |
| Text.IndexOf | aubreylib/resource.py:151 | the position of the first occurrence of c, or the length when c is absent |
| Text.ReplaceAll | aubreylib/system.py:195 | `str.replace` changes nothing when the replacement is the pattern, or when the string is shorter than the pattern |
| Text.Strip | aubreylib/resource.py:90 | `strip` never lengthens, leaves no whitespace at either end, and leaves a string without whitespace unchanged |
| Text.LastIndexOf | aubreylib/resource.py:239 | the position of the last occurrence of c, or -1 |
| Text.ReplaceAllAbsent | aubreylib/resource.py:114 | `str.replace` leaves a string without the pattern unchanged |
| Text.ReplaceAllNoLead | aubreylib/system.py:26 | `str.replace` leaves a string unchanged when the pattern's first character never starts a long enough window |
| Text.ReplaceAllSkip | aubreylib/system.py:195 | `str.replace` passes over a prefix that never holds the pattern's first character |
| Text.ReplaceAllTrailing | aubreylib/resource.py:114 | a trailing occurrence of a pattern that overlaps no copy of itself is replaced |
| Text.TrimStart | aubreylib/resource.py:90 | only leading whitespace is removed, and what remains starts with a non-space |
| Text.TrimEnd | aubreylib/resource.py:94 | only trailing whitespace is removed, and what remains ends with a non-space |
| Text.StripNoSpace | aubreylib/resource.py:90 | `strip` leaves a string without whitespace unchanged |
| Text.RStripChar | aubreylib/resource.py:125 | `rstrip('/')` removes exactly the trailing slashes |
| Text.Basename | aubreylib/resource.py:222 | `os.path.basename` is the slash-free suffix that follows the last `/`, or the whole path when it has no slash |
| Text.PathSplit | aubreylib/resource.py:239 | the tail of `os.path.split` is the base name |
| Text.PathSplitHead | aubreylib/resource.py:239 | the head of `os.path.split` is the part before the tail without its trailing slashes, unless that part is all slashes, in which case it is kept whole |
| Text.PathJoin | aubreylib/system.py:86 | `os.path.join` ends with its second argument, is that argument when it is absolute, and otherwise extends the first |
| Text.NatToString | aubreylib/resource.py:382 | `str` of a natural number is a non-empty run of digits |
| Text.IntToString | aubreylib/system.py:161 | `str` of an integer is non-empty and holds no whitespace |
| Text.ParseInt | aubreylib/resource.py:427 | `int(s)` succeeds exactly when the stripped string is a run of ASCII digits, single underscores allowed between digits, with an optional `+` or `-` in front; a negative result needs the `-`; plain digits read as their decimal value |
| Text.ParseIntSign | aubreylib/resource.py:427 | `int("-d")` is the negation of `int("d")`, and `int("+d")` is `int("d")` |
| Text.DigitsOfNat | aubreylib/resource.py:445-446 | the decimal digits of a natural number read back as that number |
| Text.ParseIntOfIntToString | aubreylib/resource.py:445-446 | `int(str(n)) == n`, so the string keys of the transcriptions find the integer ORDERs |
| Text.IntToStringInjective | aubreylib/resource.py:445-446 | distinct ORDERs have distinct string keys |
| Url.Lower | aubreylib/system.py:48 | lower-casing keeps the length and lowers character by character |
| Url.SplitScheme | aubreylib/system.py:48 | the scheme holds only scheme characters, and without a scheme the rest is the whole URL |
| Url.SplitNetloc | aubreylib/system.py:48 | the network location holds no `/`, `?` or `#`, and is empty when the text does not start with `//` |
| Url.SplitOnce | aubreylib/system.py:137 | splitting at the first c: the head lacks c and the parts rebuild the input; with no c the tail is empty |
| Url.UrlSplit | aubreylib/system.py:135 | `urlsplit` returns a netloc without `/?#`, a path without `?#`, a query without `#`, and a valid scheme |
| Url.UrlSplitRebuilds | aubreylib/system.py:135 | the input is its scheme (lower-cased in the result), `:`, `//`, the netloc, the path, `?` and the query, `#` and the fragment, each delimiter present exactly when the input has it |
| System.UrlSplitSimple | aubreylib/system.py:135 | a `scheme://host/path` URL without `?` or `#` splits into exactly those parts |
| Url.JoinSplit | aubreylib/system.py:50 | joining the `/`-segments of a path with `/` gives the path back |
| Url.UrlJoin | aubreylib/system.py:50 | an empty base gives the reference, an empty reference gives the base, and a reference with a scheme on a base without one is returned as it is |
| Url.UrlJoinRelative | aubreylib/system.py:50 | `urljoin` of a directory path and a relative reference without `?`, `#` or `;` resolves the reference's segments after the directory's, with the empty segments between them dropped |
| Url.UrlJoinPlain | aubreylib/system.py:50 | `urljoin` of a directory path and a relative reference free of `?`, `#`, `;`, dot segments and empty segments is their concatenation |
| Url.UrlJoinAbsolute | aubreylib/system.py:50 | a reference path that starts with a single `/` and has no dot segments replaces the base path, keeping its empty segments |
| Url.UrlJoinQuery | aubreylib/system.py:50 | a reference's query is carried over after the joined path, and an empty query is dropped |
| Url.UrlJoinFragment | aubreylib/system.py:50 | a fragment-only reference keeps the whole base path, and an empty fragment is dropped |
| Url.UrlJoinNonEmpty | aubreylib/system.py:50-53 | on a path base, a non-empty reference never joins to the empty string |
| Url.Utf8 | aubreylib/system.py:52 | a character encodes as one to four bytes, and an ASCII character as itself |
| Url.Quote | aubreylib/system.py:52 | `quote` never shortens and at most multiplies the length by twelve; it keeps the length exactly when every character is safe |
| Url.PercentEncode | aubreylib/system.py:52 | each byte becomes exactly three characters |
| Url.QuoteAppend | aubreylib/system.py:139 | `quote` works character by character: the quote of a concatenation is the concatenation of the quotes |
| Url.QuoteSafeIdentity | aubreylib/system.py:139 | `quote` leaves letters, digits, `_.-~` and `/` alone |
| Url.QuoteOutputIsUrlSafe | aubreylib/system.py:52 | `quote`'s output holds only safe characters, `%` and hexadecimal digits |
| Url.PercentEncodeChars | aubreylib/system.py:52 | percent-encoding produces only `%` and hexadecimal digits |
| Url.UnquoteQuote | aubreylib/system.py:152 | on ASCII text, unquoting the quoted string gives the string back, so quoting loses nothing |
| Url.UnquoteQuoteChar | aubreylib/system.py:152 | unquoting the quote of one ASCII character gives that character back, whatever follows |
| System.TakeLine | aubreylib/system.py:80 | the text `.+` can match runs to just before the first newline |
| System.TakeLineOf | aubreylib/system.py:80 | `.+` captures exactly a line that is followed by a newline or the end of the name |
| System.WebPart | aubreylib/system.py:80-82 | the captured `web...` part has more than three characters, no newline, and follows `file:/` or `file://` in the name |
| System.WebPartOfShape | aubreylib/system.py:80-82 | every `file:/` or `file://` name followed by `web` and a one-line rest matches, and captures exactly `web` plus that rest |
| System.GetFilePath | aubreylib/system.py:75-88 | succeeds exactly when the name matches; the result starts with the pair path and ends with the captured part; otherwise the error names the file |
| System.GetCompleteFilepath | aubreylib/system.py:92-101 | succeeds exactly when `get_file_path` does; the result starts with the file system and ends with the captured part; otherwise the same error |
| System.DropFirstKeepsEnds | aubreylib/system.py:99 | dropping the pair path's leading slash keeps the system prefix and the file's suffix |
| System.LocalProbe | aubreylib/system.py:25-37 | a `file://` location hits only on an existing path and reports the location without `file:/`; an unrecognised `file://` name aborts the search |
| System.HttpProbe | aubreylib/system.py:39-70 | an `http(s)` location hits only when the HEAD request with the Host header answers 200, and reports the location as given; it never aborts |
| System.ProbeLocation | aubreylib/system.py:23-39 | a location that is neither `file://` nor `http(s)://` changes nothing |
| System.Probes | aubreylib/system.py:23 | one probe outcome per location, in order |
| System.FirstStop | aubreylib/system.py:37 | the index of the first hit or abort: every earlier probe went on |
| System.Resolution | aubreylib/system.py:18-72 | when nothing hits or aborts, the `system_path` residue with no location; a location always comes with a path, from a hit with only misses before it; a failure is the first abort's error |
| System.GetFileSystem | aubreylib/system.py:18-72 | the loop returns the first hit's pair, or the first escaping error, or, when every location misses, the `system_path` residue with no location |
| System.TryLocation | aubreylib/system.py:24-70 | one loop iteration computes exactly that location's probe outcome |
| System.ResolutionIgnoresLaterLocations | aubreylib/system.py:37 | after a hit or an abort, appending locations changes nothing |
| System.ResidueOfNone | aubreylib/system.py:19 | when no location assigned a path, `system_path` stays None |
| System.HttpMissesFindNothing | aubreylib/system.py:67-68 | when every server answers with a status other than 200, the search returns (None, None) |
| System.HttpProbeMisses | aubreylib/system.py:67-68 | a non-200 answer leaves or resets `system_path` to None and never hits |
| System.LocalHitFirst | aubreylib/system.py:29-37 | a plain file name that exists locally is found on the first `file://` location, whatever follows |
| System.LocalPairTreeHitFirst | aubreylib/system.py:29-37 | a `file://` name whose pair-tree path exists under the first location is found there, whatever follows |
| System.LocalPairTreeProbe | aubreylib/system.py:29-37 | the local path tried for a `file://` name is the location without `file:/` followed by the pair-tree path |
| System.ServerProbeHit | aubreylib/system.py:43-66 | a file answering 200 on `scheme://host/dir/` is found at `scheme://host/dir/` plus its relative path, reported with the location |
| System.ProbeHitAt | aubreylib/system.py:53-66 | a 200 answer for the joined and quoted URL is a hit on that URL |
| System.ServerProbeUrl | aubreylib/system.py:48-52 | for a clean directory and relative path, the joined and quoted path is their concatenation |
| System.EmptyPathMisses | aubreylib/system.py:53-61 | an empty file path on a server with an empty path sets `system_path` to None without a request |
| System.RaisedProbeLeavesPathComponent | aubreylib/system.py:48-70 | when the HEAD request raises, `system_path` keeps the location's path component and the location stays None |
| System.CreateValidUrl | aubreylib/system.py:132-154 | the result starts with the scheme and host, and without a fragment it is the host followed by the quoted path |
| System.SearchBad | aubreylib/system.py:145-150 | finds the leftmost position where the path, a run of non-word characters and the fragment end the URL, or reports that none exists |
| System.BadChars | aubreylib/system.py:143-150 | non-empty exactly when the pattern matches somewhere; holds only non-word characters; sits right before the fragment at the end of the URL |
| System.CreateValidUrlRejoinsFragment | aubreylib/system.py:140-154 | a URL cut at `#` is rebuilt with the `#` and the whole path-plus-fragment quoted |
| System.BadCharsIsHash | aubreylib/system.py:145-148 | for a path ending in a word character, the bad characters between path and fragment are exactly `#` |
| System.OpenSystemFile | aubreylib/system.py:104-117 | a non-URL opens locally or fails naming the path; a URL opens its repaired form, or else falls back to `get_other_system` |
| System.OpenArgsSystemFile | aubreylib/system.py:120-129 | a non-URL is an invalid-URL error; a URL opens if and only if the repaired URL with `?` and its query opens, and then the handle is that request |
| System.OpenFileRange | aubreylib/system.py:157-170 | a non-URL gives None; a URL succeeds if and only if the ranged GET opens, and a failure names the range |
| System.RangeHeaderReadsBack | aubreylib/system.py:161 | the Range header starts with `bytes=` and its two numbers read back as the start and end |
| System.HostSwaps | aubreylib/system.py:193-195 | one candidate per location, in order, each the failed URL with its host replaced by the location's host |
| System.SwapHost | aubreylib/system.py:191-195 | a location with the failed URL's own host leaves the URL unchanged |
| System.SwapHostReplacesHost | aubreylib/system.py:191-195 | in `scheme://host/path` where the host occurs once, the host becomes the location's host and nothing else changes |
| System.FirstOpening | aubreylib/system.py:193-199 | the first candidate that opens; every earlier one failed |
| System.GetOtherSystem | aubreylib/system.py:173-200 | returns the first candidate that opens, else cannot-locate; it tries exactly up to and including that candidate, or all of them on failure |
| SystemExamples.LocalFileFound | tests/test_system.py:13-20 | `web/4.jpg` existing locally resolves to (`web/4.jpg`, `/disk2/`) |
| SystemExamples.LocalFileInPathFound | tests/test_system.py:23-32 | `file://web/4.jpg` resolves to `/disk2/me/ta/pt/hx/metapthx/web/4.jpg` on `/disk2/` |
| SystemExamples.EmptyPathFindsNothing | tests/test_system.py:63-70 | an empty path on `http://unt.edu` finds nothing |
| SystemExamples.FileNotFound | tests/test_system.py:74-82 | with no local file and 404 from the server, nothing is found |
| SystemExamples.FileNameWeb | tests/test_system.py:87-91 | the captured part of `file://web/4.jpg` is `web/4.jpg` |
| SystemExamples.FilePathExample | tests/test_system.py:87-91 | `file://web/01_tif/4.jpg` for `metapth` becomes `/me/ta/pt/h/metapth/web/01_tif/4.jpg` |
| SystemExamples.FilePathRejects | tests/test_system.py:93-96 | `/web/01_tif/4.jpg` is not a recognised file name |
| SystemExamples.CompleteFilepathExample | tests/test_system.py:101-107 | the complete path on `http://unt.edu/disk2/` is the server followed by the pair-tree path |
| SystemExamples.ArgsUrlExample | tests/test_system.py:141-147 | `http://example.com/pth/f.jpg?start=123` is opened as exactly that URL |
| SystemExamples.ArgsNonUrl | tests/test_system.py:149-152 | `/bad/url` is an invalid URL |
| SystemExamples.ValidUrlEncodes | tests/test_system.py:157-160 | `http://ex.com/path,/sdf` becomes `http://ex.com/path%2C/sdf` |
| SystemExamples.ValidUrlRejoins | tests/test_system.py:162-167 | `http://ex.com/path#01/seg` becomes `http://ex.com/path%2301/seg` |
| SystemExamples.FileRangeHeader | tests/test_system.py:174-180 | the range (0, 10) is requested with the header `bytes=0-10` |
| SystemExamples.FileRangeLocal | tests/test_system.py:182-185 | a local name gives None |
| SystemExamples.OtherSystemCandidates | tests/test_system.py:190-198 | the candidates for the failed URL are the `url.com` and `url2.com` versions, in that order |
| SystemExamples.OtherSystemFindsNothing | tests/test_system.py:193-198 | when nothing opens, the result is cannot-locate after two attempts |
| SystemExamples.OtherSystemFindsFile | tests/test_system.py:203-208 | when everything opens, the `url.com` candidate is returned |
| Seqs.CollectMeaning | aubreylib/resource.py:425-430 | a walk succeeds with one result per element, in order, or fails with the first element's exception |
| Seqs.CollectSucceeds | aubreylib/resource.py:425-430 | a walk succeeds exactly when every element does |
| Seqs.CollectStep | aubreylib/resource.py:441-464 | the walk of one more element is the walk so far, followed by that element's result |
| Seqs.CollectSnoc | aubreylib/resource.py:441-464 | a successful element extends a successful walk by its result |
| Seqs.CollectFails | aubreylib/resource.py:441-464 | the first failing element's exception is the walk's |
| Seqs.CollectSticks | aubreylib/resource.py:441-464 | once the walk of a prefix fails, the whole walk fails the same way |
| Seqs.ToMapKeys | aubreylib/resource.py:452 | the dictionary built from the assignments has exactly their keys |
| Seqs.ToMapAppend | aubreylib/resource.py:452 | later assignments override earlier ones |
| Seqs.ToMapLast | aubreylib/resource.py:280 | a key's value is the one from its last assignment |
| Seqs.ToMapConst | aubreylib/resource.py:280 | assignments of one value give a dictionary with only that value |
| Mets.LookupMeaning | aubreylib/resource.py:251 | `attrib.get` finds an attribute that is present, and returns None exactly when no attribute has that name |
| Mets.FilterMembers | aubreylib/resource.py:407-409 | an XPath search with a tag and attribute conditions keeps exactly the matching descendants |
| Mets.ChildrenTaggedMembers | aubreylib/resource.py:209-211 | a child step keeps exactly the children with that tag |
| Mets.FilterFirst | aubreylib/resource.py:513-517 | the first result of an XPath search is the first match in document order |
| Mets.UseCodeStrings | aubreylib/resource.py:535 | the USE codes compared with the `USE` attribute are the strings of the table's numbers |
| Mets.KeptFieldsKeys | aubreylib/resource.py:525-538 | the pointer dictionary keeps exactly the attributes outside the ignore list, with SIZE only for high-resolution files, each with its value |
| Mets.KeptFieldsStep | aubreylib/resource.py:533-538 | one more attribute is added exactly when it is kept |
| Mets.PdfName | aubreylib/resource.py:556-558 | a pdf name exists exactly when both MIMETYPE and flocat contain `pdf`, and is the flocat's base name; a non-string value raises |
| Mets.FileStep | aubreylib/resource.py:524-570 | a file's record has its USE; only high-resolution files have a view type (the table's) and a pdf name; the flocat comes from the first child's href; loaded dimensions with no FLocat raise |
| Mets.FilePointers | aubreylib/resource.py:519-579 | succeeds exactly when every file does; one pointer per file, each that file's record; zoom exactly when some file has the zoom USE; otherwise the first failing file's exception |
| Mets.SkipBlankMeaning | aubreylib/resource.py:561-562 | skipping leading blanks leaves a suffix that is empty or starts with a real view type |
| Mets.ViewTypeFold | aubreylib/resource.py:559-567 | `""` exactly when every view type is blank; otherwise the mixed type or one of the given types |
| Mets.MixedViewTypeIsFallback | aubreylib/resource.py:567 | the mixed view type is the table's entry for None |
| Mets.AllSameAppend | aubreylib/resource.py:565 | a list stays uniform after one more entry exactly when that entry equals the first |
| Mets.ViewTypeFoldStep | aubreylib/resource.py:561-567 | the fold over one more view type merges it into the fold so far |
| Mets.SkipBlankAppend | aubreylib/resource.py:561-562 | appending to a list changes what remains after the leading blanks only at the end |
| Mets.UniformStep | aubreylib/resource.py:561-567 | the closed form takes the same step as the fold |
| Mets.ViewTypeFoldUniform | aubreylib/resource.py:466-473 | the fold equals the closed form: `""` when all blank; otherwise, after the leading blanks, the common type, or `file` when they differ |
| Mets.UniformBlankFirst | aubreylib/resource.py:561-562 | any run of blanks in front of a list leaves the closed form unchanged |
| Mets.UniformMixed | aubreylib/resource.py:471-473 | a list that starts with a type and later differs from it is mixed |
| Mets.UniformBlankLast | aubreylib/resource.py:563-567 | any blank after a real view type makes the list mixed |
| Mets.UniformNonBlank | aubreylib/resource.py:559-567 | without blanks, the result is `""` for none, the common type when all agree, else `file` |
| Mets.GroupEntriesKeys | aubreylib/resource.py:278-280 | a group contributes exactly the IDs of its files, each mapped to the group |
| Mets.FileIndexLastWins | aubreylib/resource.py:276-280 | an ID maps to the last group holding it |
| Mets.FileIndexMissing | aubreylib/resource.py:276-280 | an ID no group holds is absent from the index |
| Mets.FileIndex | aubreylib/resource.py:276-280 | an ID is a key exactly when some group holds it, and then maps to a group of the fileSec that holds it |
| Mets.FileIndexHolders | aubreylib/resource.py:276-280 | the same, for the assignments of any list of groups |
| Mets.IndexedGroup | aubreylib/resource.py:502-510 | a fileSet with no file pointer raises; the first pointer's FILEID gives its group when the index has it, and otherwise raises `KeyError` naming it |
| Mets.SearchedGroup | aubreylib/resource.py:502-517 | a fileSet with no file pointer raises, and so does a pointer without FILEID; the search fails exactly when no `file` has that ID; otherwise the group is the parent of the first such `file` in document order |
| Mets.HasVttType | aubreylib/resource.py:493-497 | true exactly when some transcription has that `vtt_kind` |
| Mets.VttFlags | aubreylib/resource.py:458-463 | one flag per caption kind, each true exactly when a transcription of that kind exists |
| Mets.OrderOf | aubreylib/resource.py:443 | a missing ORDER is 1, and a present one is its integer value |
| Mets.FileSetStepFacts | aubreylib/resource.py:441-464 | an ORDER or group exception passes on; a fileSet's entry has its ORDER, ORDERLABEL and LABEL, the flags of its transcriptions, and one pointer per file of its group followed by those transcriptions |
| Mets.ManifestStepFacts | aubreylib/resource.py:433-441 | a manifestation has its ORDER and one row per fileSet |
| Mets.ManifestStep | aubreylib/resource.py:433-441 | an ORDER exception passes on; succeeds exactly when the ORDER parses and every fileSet succeeds; the row keeps the LABEL |
| Mets.PdfRowsOf | aubreylib/resource.py:476 | keeps exactly the fileSets that have a pdf, and no more rows than it was given |
| Mets.PdfRowsOfAppend | aubreylib/resource.py:476 | selecting pdf rows distributes over concatenation, so the kept rows stay in order |
| Mets.PdfRowsFromEmpty | aubreylib/resource.py:474-488 | from an empty dict, a manifestation with one pdf records it, and one with two or more records none and marks multiple pdfs |
| Mets.PdfRowsKeep | aubreylib/resource.py:484-485 | a pdf recorded by an earlier manifestation is kept |
| Mets.PdfRowsSource | aubreylib/resource.py:474-488 | one manifestation's turn keeps the pdf, clears it, or takes it from its own pdf rows |
| Mets.PdfAcross | aubreylib/resource.py:436-488 | a representative pdf always comes from the pdf rows of some manifestation |
| Mets.PdfAcrossFirstSingle | aubreylib/resource.py:436-488 | across manifestations with distinct ORDERs, the representative pdf is that of the first manifestation with exactly one pdf |
| Mets.HolderOf | aubreylib/resource.py:317-325 | no holder exactly when no manifestation points to the id; otherwise the first manifestation that does |
| Mets.PrimaryOf | aubreylib/resource.py:309-325 | with no manifestation nothing is recorded; a div without a file pointer raises |
| Mets.PointerWithUse | aubreylib/resource.py:381-383 | the first pointer whose USE is the code; none exactly when no pointer has it |
| Descriptive.LeadOrgSingle | aubreylib/resource.py:84-95 | a single creator contributes its lead organisation or its person name |
| Descriptive.PersonNamesAppend | aubreylib/resource.py:89-90 | person names are collected in order across creator lists |
| Descriptive.LeadOrgAppend | aubreylib/resource.py:91-95 | an organisation leads only when no person and no organisation came before it |
| Descriptive.GetAuthorCitationString | aubreylib/resource.py:79-109 | the loop computes the citation of the creator list |
| Descriptive.Citation | aubreylib/resource.py:79-109 | no creators give `""`; one person without a leading organisation is cited by name; more than six persons end with ` et al.` |
| Descriptive.ScanStep | aubreylib/resource.py:84-95 | one creator's turn adds its person name, or ends the scan with an organisation that leads |
| Descriptive.CitationCapped | aubreylib/resource.py:96-101 | once seven person names are collected, the citation is the first six joined by `; ` and ` et al.` |
| Descriptive.CitationLeadingOrg | tests/test_resource.py:23-28 | a first creator of type `org` or `''` is the whole citation |
| Descriptive.CitationSkipsNonDict | aubreylib/resource.py:85-87 | a creator whose content is not a dictionary is ignored |
| Descriptive.CitationTwoPersons | tests/test_resource.py:30-42 | two persons followed by non-persons are cited as `A & B` |
| Descriptive.NoPersonNames | aubreylib/resource.py:103 | creators that are not persons give no names |
| Descriptive.ParseDate | aubreylib/resource.py:606-607 | a parsed date is a valid calendar date from a ten-character string |
| Descriptive.Digits | aubreylib/resource.py:606-607 | a fixed-width field is exactly w digits |
| Descriptive.DigitsValueOf | aubreylib/resource.py:606-607 | a zero-padded field reads back as its number |
| Descriptive.FormatDate | aubreylib/resource.py:606-607 | `YYYY-MM-DD` has ten characters |
| Descriptive.ParseFormatDate | aubreylib/resource.py:606-607 | every valid date written as `YYYY-MM-DD` parses back to itself |
| Descriptive.Repeat | aubreylib/resource.py:636-655 | n copies of the contacts one after another: n times as many, starting and ending with the contacts, and each entry equal to the one a whole copy later |
| Descriptive.CreatorContact | aubreylib/resource.py:639-655 | at most one contact, present exactly when the content is a dictionary whose info holds an e-mail, and then with that e-mail |
| Descriptive.LastEmbargoEntry | aubreylib/resource.py:596-601 | there is a last `embargoUntil` entry exactly when there is any |
| Descriptive.EmbargoOfStep | aubreylib/resource.py:596-655 | one date entry's turn: other qualifiers change nothing; an `embargoUntil` sets the flag from its date (true when it does not parse), replaces the until-date only when it parses, sets the contact and appends the author contacts |
| Descriptive.EmbargoOf | aubreylib/resource.py:581-655 | without `embargoUntil` entries there is no embargo; an embargo or an until-date needs such an entry; the author contacts come once per entry |
| Descriptive.NoParsedDate | aubreylib/resource.py:589 | without `embargoUntil` entries the until-date stays None |
| Descriptive.AuthorContactsPerEntry | aubreylib/resource.py:636-655 | the embargo's author contacts are the creators' contacts, in creator order, repeated once per `embargoUntil` entry |
| Descriptive.EmbargoFollowsLastDate | aubreylib/resource.py:612-617 | when the last entry is an `embargoUntil` that parses, the embargo holds exactly when today is before it, and the until-date is its text |
| Descriptive.UnparsedDateKeepsEmbargo | aubreylib/resource.py:605-609 | an unparseable `embargoUntil` turns the embargo on and keeps the previous until-date |
| Resource.MetsRecordOf | aubreylib/resource.py:24-42 | success exactly when the search hits, with the hit's path and location; no hit is not-located naming the id and pair path; an abort passes its error on |
| Resource.GetMetsRecordSystem | aubreylib/resource.py:24-42 | the METS record is searched for at the pair path joined with `<id>.mets.xml` on the metadata locations |
| Resource.MetaIdOf | aubreylib/resource.py:151 | the meta-id of a file name has no `.` or `/` and starts its base name |
| Resource.MetaIdOfMetsFile | aubreylib/resource.py:148-151 | `<dir>/<id>.mets.xml` gives back `<id>` |
| Resource.DimensionsFilenameOfMets | aubreylib/resource.py:114 | the dimensions file of `<base>.mets.xml` is `<base>.json` |
| Resource.GetCopyUrlInjective | aubreylib/resource.py:70 | distinct meta-ids give distinct getCopy URLs |
| Resource.GetCopyUrl | aubreylib/resource.py:67-70 | the getCopy URL, then the meta-id, then `/` |
| Resource.GetCopyData | aubreylib/resource.py:67-76 | the decoded reply fetched from the getCopy URL for the meta-id, or `{}` when the fetch fails |
| Resource.ResourceTypeOf | aubreylib/resource.py:190-194 | `None` when the record has no `resourceType` entry, otherwise the first entry's content |
| Resource.TranscriptionsUrlTrailingSlash | aubreylib/resource.py:125 | a trailing slash on the server URL makes no difference |
| Resource.TranscriptionsUrl | aubreylib/resource.py:125 | ends with `/<id>/`, starts with a prefix of the server URL, and has no doubled slash before the id |
| Resource.TranscriptionsUrlShape | aubreylib/resource.py:125 | the URL is the server without trailing slashes, then `/`, with no doubled slash |
| Resource.TranscriptionsData | aubreylib/resource.py:121-130 | empty unless the resource is a sound or a video and a server is given; empty when the fetch fails |
| Resource.HasTranscriptions | aubreylib/resource.py:123 | false for a type other than sound or video, and for a missing or empty server |
| Resource.OpenedFile | aubreylib/system.py:104-117 | a local name opens as itself; a URL opens as a remote request |
| Resource.OpenFile | aubreylib/system.py:104-117 | the open method computes `open_system_file`'s outcome |
| Resource.DimensionsOf | aubreylib/resource.py:112-118 | None when the dimensions file cannot be opened; for a local name, its decoded contents if it opens |
| Resource.GetDimensionsData | aubreylib/resource.py:112-118 | the method computes the dimensions data |
| Resource.DescMetadataOf | aubreylib/resource.py:45-64 | success only for UNTL from a file that opens, with pyuntl's parse; another type raises unsupported; a local file that does not open raises its open error |
| Resource.GetDescMetadata | aubreylib/resource.py:45-64 | the method computes the descriptive metadata |
| Resource.MdRefsTagged | aubreylib/resource.py:209-211 | every element found is an `mdRef` |
| Resource.LastHrefClose | aubreylib/resource.py:219 | the last `}href` position before n, or -1 when there is none |
| Resource.HrefNamespace | aubreylib/resource.py:219-221 | the namespace captured is `{...}`; a name without `{` has none |
| Resource.HrefNamespaceQualified | aubreylib/resource.py:219-221 | `{ns}href` captures `{ns}` |
| Resource.MdTypeOtherIgnored | aubreylib/resource.py:223-225 | `MDTYPE="OTHER"` does not set the type |
| Resource.OtherMdTypeSets | aubreylib/resource.py:226-227 | `OTHERMDTYPE` sets the type |
| Resource.HrefFromAttribute | aubreylib/resource.py:218-222 | the namespace and file name come from an href attribute of the mdRef |
| Resource.ScanMdRef | aubreylib/resource.py:218-227 | the attribute loop computes the href and type scan |
| Resource.MetadataPath | aubreylib/resource.py:233-241 | the metadata file ends with its name, and on a metadata system it starts with that system |
| Resource.MetadataFileFacts | aubreylib/resource.py:208-245 | no mdRef raises; on success the type is the scan's and the namespace comes from an href attribute of the first mdRef |
| Resource.MetadataFileOf | aubreylib/resource.py:208-245 | a first mdRef without a type raises unknown type, one without an href unknown name; without a metadata system the file ends with the href's file name |
| Resource.AcpDateFromHeader | aubreylib/resource.py:247-253 | a date comes from the LASTMODDATE of a `metsHdr` child; without one it is None |
| Resource.StaticSystemOf | aubreylib/resource.py:386-391 | a non-string file name raises exactly when some static location is `file://`, and otherwise finds nothing |
| Resource.ResourceObject.StaticFileSystem | aubreylib/resource.py:386-391 | the method computes the static file system |
| Resource.FileSetFileOf | aubreylib/resource.py:373-400 | a known files system is reused; a found system comes with the MIME type and flocat of the first pointer with that USE |
| Resource.ResourceObject.GetFileSetFile | aubreylib/resource.py:373-400 | the method computes the file data from the current files system |
| Resource.FileFromPointers | aubreylib/resource.py:381-400 | the same facts, once the pointers are known |
| Resource.FileFromPointer | aubreylib/resource.py:383-398 | the data has the pointer's MIME type and flocat, and a known files system is reused |
| Resource.ResourceObject.FilePointerData | aubreylib/resource.py:383-398 | the method computes one pointer's file data |
| Resource.FirstWithUse | aubreylib/resource.py:381-382 | the loop finds the first pointer with that USE |
| Resource.PointerWithUseFirst | aubreylib/resource.py:381-383 | a pointer with the code and none before it is the one chosen |
| Resource.ImageDataOf | aubreylib/resource.py:327-371 | a success has a files system, the known one if set; no size div and no first fileSet raises; the first-fileSet fallback has no image but an icon; a size div sets no icon |
| Resource.ImageDataSource | aubreylib/resource.py:327-371 | with a div of the size's TYPE, the image and primary fileSet are those of that div read with the size's USE code (`med_res`, 3, for medium); without one, the ORDER=1 fileSet read with `high_res` gives the files system, the primary fileSet and the icon; the div's exception passes on, and a file with no files system raises `StaticFilesUnknown` naming the size |
| Resource.ResourceObject.GetImageData | aubreylib/resource.py:327-371 | the method returns the image data and records the primary fileSet and icon that `ImageDataOf` gives, whose source `ImageDataSource` states |
| Resource.DivImage | aubreylib/resource.py:340-351 | a primary-fileSet exception passes on; a success is the file data and the holder found |
| Resource.ResourceObject.GetDivImage | aubreylib/resource.py:340-351 | the method computes the div's image and updates the primary fileSet |
| Resource.ManifestedKeys | aubreylib/resource.py:418-491 | the manifestation dict, view types and labels have the same keys: the manifestations' ORDERs |
| Resource.ImagesOf | aubreylib/resource.py:281-307 | a thumbnail exception passes on; on success thumbnail, square and medium share the files system the thumbnail found |
| Resource.ImagesLastFindingWins | aubreylib/resource.py:281-325 | on success the three lookups all succeed; the primary file set and icon are the medium lookup's when it found one, else the square's, else the thumbnail's, else the values held before |
| Resource.ManifestedOf | aubreylib/resource.py:418-491 | each manifestation that is the last with its ORDER gives that ORDER its fileSets, view type and label in the three dictionaries |
| Resource.ManifestedLastWins | aubreylib/resource.py:425-430 | the same, for the dictionaries built from the assignment lists |
| Resource.KeysAreOrders | aubreylib/resource.py:425-430 | the dictionary built from one assignment per manifestation has exactly the manifestations' ORDERs as keys |
| Resource.StructMapOf | aubreylib/resource.py:256-288 | no structMap raises, then no fileSec raises; a success has found a files system, and its three manifestation dictionaries share their keys |
| Resource.SectionsOf | aubreylib/resource.py:281-288 | an image exception passes on; a success has found a files system and has three dictionaries with equal keys |
| Resource.ResourceObject.constructor | aubreylib/resource.py:141-143 | keeps the environment and locations; no files system, primary fileSet, pdf or icon yet |
| Resource.ResourceObject.Load | aubreylib/resource.py:135-206 | the outcome is exactly `LoadOutcome`: the search's error for a meta-id whose METS record is not found; `MetsNotOpened` naming the meta-id, or `MetsNotParsed`, for a METS file that does not open or parse; the metadata-file and UNTL errors; the structMap and image errors; and `Pass` otherwise. On success: the meta-id and pair path from the identifier; a `.mets.xml` identifier is the METS file itself, any other gives the record and metadata system `get_mets_record_system` found; the getCopy data; UNTL metadata whose record is the parse of the metadata file; the transcriptions, embargo, citation and completeness of that record; a files system; and manifestation dictionaries with equal key sets |
| Resource.ResourceObject.Locate | aubreylib/resource.py:146-171 | fails exactly when `LocatedOf` does, with its error: only a meta-id whose record search fails; otherwise the fields hold the located meta-id, pair path, METS file, system and dimensions. A `.mets.xml` identifier is used directly, a meta-id's record and system are recorded, and the getCopy data is fetched only for a non-empty URL |
| Resource.ResourceObject.Analyze | aubreylib/resource.py:182-206 | the outcome is exactly `AnalysisOutcome` of the state it starts in: the metadata-file and UNTL errors first, then the structMap walk's. On success: UNTL metadata whose record is the parse of the metadata file, and all the other analysis facts listed for Load |
| Resource.ResourceObject.ReadMets | aubreylib/resource.py:172-206 | the outcome is exactly `MetsOutcome` of the state it starts in: `MetsNotOpened` naming the meta-id when the METS file does not open, `MetsNotParsed` when it does not parse, and otherwise the analysis outcome; on success the analysis facts of Analyze hold |
| Resource.ResourceObject.ReadStructure | aubreylib/resource.py:201-206 | the outcome is exactly `StructureOutcome`: it fails exactly when `StructMapOf` does, with its error. On success: a files system, the embargo, citation and completeness of the record, and manifestation dictionaries with equal key sets |
| Resource.ResourceObject.ReadDescriptive | aubreylib/resource.py:182-199 | the modification date is set; it fails exactly when `DescriptionOf` does (no mdRef, no type, no file name, the open, unsupported-type and UNTL errors), with its error, which is then the error of `AnalysisOutcome`; on success the namespace, type, file and record are those `DescriptionOf` gives, the metadata is UNTL and the transcriptions follow its resource type |
| Resource.ResourceObject.Describe | aubreylib/resource.py:202-206 | sets the embargo, citation and completeness of the metadata |
| Resource.ResourceObject.GetMetadataFile | aubreylib/resource.py:208-245 | sets the namespace, type and metadata file exactly when the definition succeeds, and fails with its error otherwise |
| Resource.ResourceObject.GetAcpLastModificationDate | aubreylib/resource.py:247-253 | sets the modification date from the METS header |
| Resource.ResourceObject.GetStructMap | aubreylib/resource.py:256-288 | succeeds exactly when the walk does, and then holds its images and manifestations; a success has a files system and equal key sets |
| Resource.ResourceObject.ReadSections | aubreylib/resource.py:276-288 | succeeds exactly when `SectionsOf` does, fails with its error, and on success holds its images and manifestations |
| Resource.ResourceObject.GetImages | aubreylib/resource.py:281-286 | the three image steps, in order, hold the images of the definition |
| Resource.ResourceObject.BuildFileIndex | aubreylib/resource.py:276-280 | the nested loop builds the ID to group index |
| Resource.ResourceObject.Thumbnail | aubreylib/resource.py:290-295 | sets the thumbnail MIME type, file name and files system, and the primary fileSet and icon when found |
| Resource.ResourceObject.Square | aubreylib/resource.py:297-301 | sets the square MIME type and file name |
| Resource.ResourceObject.Medium | aubreylib/resource.py:303-307 | sets the medium MIME type and file name |
| Resource.ResourceObject.GetPrimaryFileSet | aubreylib/resource.py:309-325 | records the fileSet and manifestation ORDER of the first manifestation pointing to the div's first file, and otherwise keeps the old value |
| Resource.ResourceObject.GetManifestations | aubreylib/resource.py:418-430 | succeeds exactly when every manifestation does, and then holds the dictionaries the definition gives |
| Resource.ResourceObject.GetFileSets | aubreylib/resource.py:433-491 | returns the manifestation's fileSet dictionary, and records its view type, label and pdf |
| Resource.ManifestWalk | aubreylib/resource.py:433-491 | the walk of one manifestation gives the step's exception, or its fileSet dictionary, view type, pdf and row |
| Resource.FileSetsOf | aubreylib/resource.py:441-488 | the fileSet loop gives the dictionary, the folded view type and the pdf of the definition, or the first exception |
| Resource.RecordFileSet | aubreylib/resource.py:452-488 | one fileSet's turn updates the dictionary, view type and pdf state as the fold's step does |
| Resource.FileSetRowOf | aubreylib/resource.py:442-464 | computes one fileSet's row |
| Resource.GetFilePointers | aubreylib/resource.py:502-579 | returns the group's pointer data, found through the index or by search |
| Resource.FilePointersOf | aubreylib/resource.py:502-579 | the group lookup's exception passes on, through the index or the search; a success has one pointer per file of the group |
| Resource.FilePointersOfGroup | aubreylib/resource.py:519-579 | the file loop computes the pointer list, folded view type, zoom flag and last pdf |
| Resource.AddFilePointer | aubreylib/resource.py:548-571 | one file's turn updates the pointer data as the fold's step does |
| Resource.FileDict | aubreylib/resource.py:524-570 | the attribute loop computes the file's record |
| Resource.KeptFieldsOf | aubreylib/resource.py:533-538 | the attribute loop computes the kept fields of a file |
| Resource.ResourceObject.GetEmbargo | aubreylib/resource.py:581-655 | sets the embargo information of the metadata |
| Resource.EmbargoOfDates | aubreylib/resource.py:587-655 | the date loop computes the embargo information |
| Resource.AppendAuthorContacts | aubreylib/resource.py:637-655 | the creator loop appends the creators' contacts, in order |
| Resource.GroupEntriesStep | aubreylib/resource.py:279-280 | one file's assignment updates the index at its ID |
| Resource.IndexEntriesStep | aubreylib/resource.py:278-280 | one group's assignments extend the index |
| Resource.FileSetsFoldStep | aubreylib/resource.py:441-488 | the fileSet fold over one more row takes one step |
| Resource.FileSetRowsStep | aubreylib/resource.py:452-488 | one more row sets its entry, merges its view type and updates the pdf state |
| Resource.ManifestRowsStep | aubreylib/resource.py:425-430 | one more manifestation sets its entries at its ORDER and updates the pdf |
| Resource.FileSetDataStep | aubreylib/resource.py:523-571 | the file fold over one more file takes one step |
| Resource.FileInfoStep | aubreylib/resource.py:548-571 | one more file appends its dictionary, its high-resolution view type, its zoom flag and its pdf name |
| Resource.HolderOfFirst | aubreylib/resource.py:317-325 | the first manifestation that points to the id is the holder |

## Left out

- XML parsing with lxml is not modelled: a parsed document is a `Mets.Element` tree. The XPath queries are written out for the paths the library uses, and `getparent` is the group that holds a file.
- pyuntl's parsing and normalisation of UNTL documents are parameters of `Resource.Environment`. So is its completeness score.
- `get_pair_path` from pypairtree is a parameter.
- JSON decoding, `urlopen`, `open` and `os.path.exists` are oracles in `System.Io` and `Resource.Environment`. Their timeouts, file handle closing and reading are not modelled.
- `EMAIL_REGEX` is not matched: the search it performs is the `findEmail` parameter.
- Django settings (`METADATA_LOCATIONS`, `STATIC_FILE_LOCATIONS`, `REPOSITORY_ADMIN_DICT`) are parameters. The import failure that makes them fall back to the package defaults is the `None` case.
- `strptime` is modelled as strict `YYYY-MM-DD` of exactly ten characters. Python also accepts some unpadded fields.
- `Url.UrlJoin` follows CPython 3.11's `urljoin`, including its `uses_relative` and `uses_netloc` scheme lists. Its lemmas are stated for path bases, the only kind `get_file_system` passes.
- `Url.UnquoteQuote` is proved for ASCII text only. Non-ASCII characters are quoted as UTF-8 bytes.
- The repository's tests mock Python 2's `httplib` and `urllib2`. Under the Python 3 code, `urlopen` raises on a 404, so `system_path` keeps the location's path component. `System.RaisedProbeLeavesPathComponent` states this, and `SystemExamples.FileNotFound` models a 404 as a status answer.
- The HTTP hit example of tests/test_system.py:36-60 is covered by the general `System.ServerProbeHit`, not by a literal instance.
- The test at tests/test_resource.py:69-95 reads a METS file from the repository's test data. That file is not part of this model.
- When an `embargoUntil` date does not parse, the code leaves the until-date as it was. The library's specification says it becomes None; the model follows the code (`Descriptive.UnparsedDateKeepsEmbargo`).
- The `mimetypeIconsPath` and `use` constructor arguments are not kept: the USE table is the constant `Aubrey.Use`.
- Resource.ResourceObject.Load: does not state the thumbnail, square and medium fields or the pdf. Those are stated by `GetStructMap` against `StructMapOf`, and keeping them all in one contract is too costly to verify.
- Url.UrlSplit: does not strip leading C0 control characters and spaces, does not remove `\t`, `\r` and `\n` from inside the URL, and does not raise `ValueError` on a malformed bracketed network location or on an NFKC-normalisation clash. URLs holding such characters are split as they are written.
- SearchBad: `\W` is modelled as "not an ASCII letter, digit or `_`, and not a non-ASCII character"; Python's `\W` on a str pattern also matches non-ASCII punctuation and spaces such as `\u00a0`. The same holds for `System.IsWordChar` and `System.BadChars`.
- ParseInt: does not accept the non-ASCII decimal digits (`"\u0661"`) that Python's `int()` accepts. Such an ORDER raises in the model.
- The XPath queries at aubreylib/resource.py:513-515 and 319-321 are built by concatenating the FILEID into a quoted string, so lxml raises on a FILEID that holds `"`. `Mets.Search` compares the FILEID literally and does not model that exception.
