/** The rules aubreylib/resource.py applies to a record's descriptive (UNTL)
    metadata: the author citation string, and the embargo information with
    its `YYYY-MM-DD` dates and contacts. */
module Descriptive {
  import opened Wrappers
  import opened Text

  /** The `content` of a `creator` entry: a dictionary of strings (a missing
      `content` reads as the empty dictionary), or a value of another kind. */
  datatype Content = Fields(fields: map<string, string>) | NotDict

  /** A `date` entry: its `qualifier` and its `content`, either of which may
      be missing. */
  datatype DateEntry = DateEntry(qualifier: Option<string>, content: Option<string>)

  /** The normalised UNTL dictionary, as far as the library reads it: the
      `creator` and `date` lists (empty when the key is missing) and the
      `content` of each `resourceType` entry. */
  datatype DescMetadata = DescMetadata(creators: seq<Content>, dates: seq<DateEntry>, resourceTypes: seq<Option<string>>)

  /** `content.get(key, default)`. */
  function Field(c: Content, key: string, default: string): string
    requires c.Fields?
  {
    if key in c.fields then c.fields[key] else default
  }

  predicate IsPerson(c: Content) {
    c.Fields? && Field(c, "type", "") == "per"
  }

  /** An organisation, or a creator of no stated type. */
  predicate IsOrgLike(c: Content) {
    c.Fields? && (Field(c, "type", "") == "org" || Field(c, "type", "") == "")
  }

  /** `content.get('name', '').strip()`. */
  function CitedName(c: Content): string
    requires c.Fields?
  {
    Strip(Field(c, "name", ""))
  }

  /** The name one creator contributes to the list of persons. */
  function PersonName(c: Content): seq<string> {
    if IsPerson(c) then [CitedName(c)] else []
  }

  /** The names of the personal creators, in order. */
  function PersonNames(cs: seq<Content>): seq<string> {
    if cs == [] then [] else PersonName(cs[0]) + PersonNames(cs[1..])
  }

  /** What one creator decides about the lead organisation: `Some(None)` for
      a person, `Some(Some(name))` for an organisation or untyped creator,
      `None` when it is skipped. */
  function LeadOf(c: Content): Option<Option<string>> {
    if IsPerson(c) then Some(None)
    else if IsOrgLike(c) then Some(Some(CitedName(c)))
    else None
  }

  /** The name of an organisation or untyped creator met before any person. */
  function LeadOrg(cs: seq<Content>): Option<string> {
    if cs == [] then None
    else match LeadOf(cs[0])
      case Some(decided) => decided
      case None => LeadOrg(cs[1..])
  }

  lemma LeadOrgSingle(c: Content)
    ensures LeadOrg([c]) == LeadOf(c).GetOr(None) && PersonNames([c]) == PersonName(c)
  {
    assert [c][0] == c && [c][1..] == [];
  }

  /** Up to six personal names: one alone, several joined by `'; '` with
      `' & '` before the last; seven or more: the first six and `' et al.'`. */
  function NameList(names: seq<string>): string {
    if |names| == 0 then ""
    else if |names| == 1 then names[0]
    else if |names| > 6 then Join("; ", names[..6]) + " et al."
    else Join("; ", names[..|names| - 1]) + " & " + names[|names| - 1]
  }

  /** The citation `get_author_citation_string` builds. */
  function Citation(cs: seq<Content>): (r: string)
    ensures cs == [] ==> r == ""
    ensures LeadOrg(cs).None? && |PersonNames(cs)| == 1 ==> r == PersonNames(cs)[0]
    ensures LeadOrg(cs).None? && |PersonNames(cs)| > 6 ==> EndsWith(r, " et al.")
  {
    match LeadOrg(cs)
    case Some(name) => name
    case None => NameList(PersonNames(cs))
  }

  lemma {:induction false} PersonNamesAppend(xs: seq<Content>, ys: seq<Content>)
    ensures PersonNames(xs + ys) == PersonNames(xs) + PersonNames(ys)
    decreases |xs|
  {
    if xs == [] {
      assert xs + ys == ys;
    } else {
      assert (xs + ys)[0] == xs[0];
      assert (xs + ys)[1..] == xs[1..] + ys;
      PersonNamesAppend(xs[1..], ys);
    }
  }

  /** The lead organisation of a concatenation: that of the first part when it
      has one or names a person, else that of the second part. */
  lemma {:induction false} LeadOrgAppend(xs: seq<Content>, ys: seq<Content>)
    ensures LeadOrg(xs + ys) == if LeadOrg(xs).Some? || PersonNames(xs) != [] then LeadOrg(xs) else LeadOrg(ys)
    decreases |xs|
  {
    if xs == [] {
      assert xs + ys == ys;
    } else {
      assert (xs + ys)[0] == xs[0];
      assert (xs + ys)[1..] == xs[1..] + ys;
      LeadOrgAppend(xs[1..], ys);
    }
  }

  /** `get_author_citation_string(desc_MD)`. */
  method GetAuthorCitationString(desc: DescMetadata) returns (citation: string)
    ensures citation == Citation(desc.creators)
  {
    var creators := desc.creators;
    citation := "";
    var names: seq<string> := [];
    var i := 0;
    while i < |creators|
      invariant 0 <= i <= |creators|
      invariant names == PersonNames(creators[..i]) && |names| <= 6
      invariant LeadOrg(creators[..i]) == None
    {
      var content := creators[i];
      ScanStep(creators, i);
      if content.Fields? {
        var kind := Field(content, "type", "");
        if kind == "per" {
          names := names + [Strip(Field(content, "name", ""))];
        } else if names == [] && (kind == "org" || kind == "") {
          // the first creator is an organisation or untyped: that is enough
          citation := Strip(Field(content, "name", ""));
          return;
        }
      }
      if |names| > 6 {
        citation := Join("; ", names[..6]) + " et al.";
        CitationCapped(creators, i + 1);
        return;
      }
      i := i + 1;
    }
    assert creators[..i] == creators;
    if names != [] {
      if |names| == 1 {
        citation := names[0];
      } else {
        citation := Join("; ", names[..|names| - 1]) + " & " + names[|names| - 1];
      }
    }
  }

  /** One creator's turn in the scan of `get_author_citation_string`. */
  lemma ScanStep(cs: seq<Content>, i: nat)
    requires i < |cs| && LeadOrg(cs[..i]) == None
    ensures PersonNames(cs[..i + 1]) == PersonNames(cs[..i]) + PersonName(cs[i])
    ensures LeadOrg(cs[..i + 1]) == if PersonNames(cs[..i]) == [] then LeadOf(cs[i]).GetOr(None) else None
    ensures LeadOrg(cs[..i + 1]).Some? ==> Citation(cs) == LeadOrg(cs[..i + 1]).value
  {
    // The append lemmas say all that is needed of the scan.
    hide PersonNames, LeadOrg, NameList;
    assert cs[..i + 1] == cs[..i] + [cs[i]];
    PersonNamesAppend(cs[..i], [cs[i]]);
    LeadOrgAppend(cs[..i], [cs[i]]);
    LeadOrgSingle(cs[i]);
    assert cs[..i + 1] + cs[i + 1..] == cs;
    LeadOrgAppend(cs[..i + 1], cs[i + 1..]);
  }

  /** Seven personal names before any lead organisation: the citation is the
      first six and `' et al.'`. */
  lemma CitationCapped(cs: seq<Content>, i: nat)
    requires i <= |cs| && LeadOrg(cs[..i]) == None && |PersonNames(cs[..i])| > 6
    ensures Citation(cs) == Join("; ", PersonNames(cs[..i])[..6]) + " et al."
  {
    // The two append lemmas say all that is needed of the scan.
    hide PersonNames, LeadOrg, Join;
    assert cs[..i] + cs[i..] == cs;
    PersonNamesAppend(cs[..i], cs[i..]);
    LeadOrgAppend(cs[..i], cs[i..]);
    var names := PersonNames(cs);
    assert LeadOrg(cs) == None;
    assert names[..6] == PersonNames(cs[..i])[..6];
  }

  /** An organisation or untyped creator listed first is the whole citation,
      whatever follows it. */
  lemma CitationLeadingOrg(c: Content, rest: seq<Content>)
    requires IsOrgLike(c)
    ensures Citation([c] + rest) == CitedName(c)
  {
    assert ([c] + rest)[0] == c;
  }

  /** A creator whose content is not a dictionary is skipped. */
  lemma CitationSkipsNonDict(xs: seq<Content>, ys: seq<Content>)
    ensures Citation(xs + [NotDict] + ys) == Citation(xs + ys)
  {
    assert xs + [NotDict] + ys == xs + ([NotDict] + ys);
    assert ([NotDict] + ys)[0] == NotDict && ([NotDict] + ys)[1..] == ys;
    assert PersonNames([NotDict] + ys) == PersonNames(ys);
    assert LeadOrg([NotDict] + ys) == LeadOrg(ys);
    PersonNamesAppend(xs, [NotDict] + ys);
    LeadOrgAppend(xs, [NotDict] + ys);
    PersonNamesAppend(xs, ys);
    LeadOrgAppend(xs, ys);
    assert PersonNames(xs + [NotDict] + ys) == PersonNames(xs + ys);
    assert LeadOrg(xs + [NotDict] + ys) == LeadOrg(xs + ys);
  }

  /** Two persons and then organisations and untyped creators: the two names
      joined by `' & '`. */
  lemma CitationTwoPersons(p: Content, q: Content, others: seq<Content>)
    requires IsPerson(p) && IsPerson(q) && forall i :: 0 <= i < |others| ==> !IsPerson(others[i])
    ensures Citation([p, q] + others) == CitedName(p) + " & " + CitedName(q)
  {
    var cs := [p, q] + others;
    assert cs[0] == p && cs[1..] == [q] + others;
    assert ([q] + others)[0] == q && ([q] + others)[1..] == others;
    NoPersonNames(others);
    assert PersonNames([q] + others) == [CitedName(q)];
    assert PersonNames(cs) == [CitedName(p), CitedName(q)];
    assert [CitedName(p), CitedName(q)][..1] == [CitedName(p)];
  }

  lemma {:induction false} NoPersonNames(cs: seq<Content>)
    requires forall i :: 0 <= i < |cs| ==> !IsPerson(cs[i])
    ensures PersonNames(cs) == []
    decreases |cs|
  {
    if cs != [] {
      assert forall i :: 0 <= i < |cs| - 1 ==> cs[1..][i] == cs[i + 1];
      NoPersonNames(cs[1..]);
    }
  }

  // ---------------------------------------------------------------------
  // Calendar dates in `YYYY-MM-DD` form

  datatype Date = Date(year: int, month: int, day: int)

  predicate IsLeapYear(y: int) {
    y % 4 == 0 && (y % 100 != 0 || y % 400 == 0)
  }

  function DaysInMonth(y: int, m: int): int {
    if m == 2 then (if IsLeapYear(y) then 29 else 28)
    else if m == 4 || m == 6 || m == 9 || m == 11 then 30
    else 31
  }

  /** A date `datetime.date` accepts. */
  predicate ValidDate(d: Date) {
    1 <= d.year <= 9999 && 1 <= d.month <= 12 && 1 <= d.day <= DaysInMonth(d.year, d.month)
  }

  /** `a` is strictly earlier than `b`. */
  predicate Before(a: Date, b: Date) {
    a.year < b.year || (a.year == b.year && (a.month < b.month || (a.month == b.month && a.day < b.day)))
  }

  /** `datetime.strptime(s, "%Y-%m-%d")` for the strict form: four-digit
      year, two-digit month and day, and a real calendar date. */
  function ParseDate(s: string): (r: Option<Date>)
    ensures r.Some? ==> ValidDate(r.value) && |s| == 10
  {
    if |s| == 10 && s[4] == '-' && s[7] == '-' && AllDigits(s[..4]) && AllDigits(s[5..7]) && AllDigits(s[8..]) then
      var d := Date(DigitsValue(s[..4]), DigitsValue(s[5..7]), DigitsValue(s[8..]));
      if ValidDate(d) then Some(d) else None
    else None
  }

  function Pow10(w: nat): nat {
    if w == 0 then 1 else 10 * Pow10(w - 1)
  }

  /** The last `w` decimal digits of `n`, with leading zeros. */
  function Digits(n: nat, w: nat): (s: string)
    ensures |s| == w && AllDigits(s)
  {
    if w == 0 then [] else Digits(n / 10, w - 1) + [DigitChar(n % 10)]
  }

  lemma {:induction false} DigitsValueOf(n: nat, w: nat)
    requires n < Pow10(w)
    ensures DigitsValue(Digits(n, w)) == n
    decreases w
  {
    if w > 0 {
      var s := Digits(n, w);
      assert s[..|s| - 1] == Digits(n / 10, w - 1);
      DigitsValueOf(n / 10, w - 1);
    }
  }

  /** The `YYYY-MM-DD` spelling of a date. */
  function FormatDate(d: Date): (s: string)
    requires ValidDate(d)
    ensures |s| == 10
  {
    Digits(d.year, 4) + "-" + Digits(d.month, 2) + "-" + Digits(d.day, 2)
  }

  /** Every date reads back from its `YYYY-MM-DD` spelling. */
  lemma ParseFormatDate(d: Date)
    requires ValidDate(d)
    ensures ParseDate(FormatDate(d)) == Some(d)
  {
    var y := Digits(d.year, 4);
    var m := Digits(d.month, 2);
    var dd := Digits(d.day, 2);
    var s := FormatDate(d);
    assert s[..4] == y && s[5..7] == m && s[8..] == dd && s[4] == '-' && s[7] == '-';
    assert Pow10(2) == 100 && Pow10(4) == 10000;
    DigitsValueOf(d.year, 4);
    DigitsValueOf(d.month, 2);
    DigitsValueOf(d.day, 2);
  }

  /** The parse of a date field's content; a missing content does not parse. */
  function ParsedContent(e: DateEntry): Option<Date> {
    match e.content
    case Some(s) => ParseDate(s)
    case None => None
  }

  // ---------------------------------------------------------------------
  // Embargo information

  datatype Contact = Contact(name: string, email: string)

  /** `embargo_info`: whether the record is embargoed, the until-date as
      written, the repository contact (empty when there is no embargo date)
      and the author contacts. */
  datatype EmbargoInfo = EmbargoInfo(embargo: bool, untilDate: Option<string>,
                                     adminContact: map<string, string>, authorContacts: seq<Contact>)

  const NoEmbargo: EmbargoInfo := EmbargoInfo(false, None, map[], [])

  const DefaultAdminContact: map<string, string> :=
    map["name" := "Repository Administrator", "email" := "untrepository@unt.edu"]

  predicate IsEmbargoUntil(e: DateEntry) {
    e.qualifier == Some("embargoUntil")
  }

  /** The contact drawn from one creator: the e-mail address found in its
      `info`, with its `name` or `'No Name Listed'`. */
  function CreatorContact(c: Content, findEmail: string -> Option<string>): (r: seq<Contact>)
    ensures |r| <= 1
    ensures r != [] <==> c.Fields? && findEmail(Field(c, "info", "")).Some?
    ensures r != [] ==> r[0].email == findEmail(Field(c, "info", "")).value
  {
    if c.Fields? then
      match findEmail(Field(c, "info", ""))
      case Some(email) => [Contact(Field(c, "name", "No Name Listed"), email)]
      case None => []
    else []
  }

  /** The contacts of all creators, in order. */
  function AuthorContacts(cs: seq<Content>, findEmail: string -> Option<string>): seq<Contact> {
    if cs == [] then [] else AuthorContacts(cs[..|cs| - 1], findEmail) + CreatorContact(cs[|cs| - 1], findEmail)
  }

  /** `xs` repeated `n` times. */
  function Repeat(xs: seq<Contact>, n: nat): (r: seq<Contact>)
    ensures |r| == n * |xs|
    ensures n > 0 ==> r[..|xs|] == xs && r[|r| - |xs|..] == xs
    ensures forall k :: 0 <= k < |r| - |xs| ==> r[k + |xs|] == r[k]
  {
    if n == 0 then []
    else
      var before := Repeat(xs, n - 1);
      var r := before + xs;
      assert forall k :: 0 <= k < |r| - |xs| ==> r[k + |xs|] == r[k] by {
        if n > 1 {
          forall k | 0 <= k && |before| - |xs| <= k < |before|
            ensures r[k + |xs|] == r[k]
          {
            assert r[k] == before[|before| - |xs|..][k - (|before| - |xs|)];
          }
        }
      }
      r
  }

  function EmbargoCount(ds: seq<DateEntry>): nat {
    if ds == [] then 0 else EmbargoCount(ds[..|ds| - 1]) + if IsEmbargoUntil(ds[|ds| - 1]) then 1 else 0
  }

  /** The last `embargoUntil` entry. */
  function LastEmbargoEntry(ds: seq<DateEntry>): (r: Option<DateEntry>)
    ensures r.Some? <==> EmbargoCount(ds) > 0
  {
    if ds == [] then None
    else if IsEmbargoUntil(ds[|ds| - 1]) then Some(ds[|ds| - 1])
    else LastEmbargoEntry(ds[..|ds| - 1])
  }

  /** The content of the last `embargoUntil` entry that parses as a date. */
  function LastParsedDate(ds: seq<DateEntry>): Option<string> {
    if ds == [] then None
    else if IsEmbargoUntil(ds[|ds| - 1]) && ParsedContent(ds[|ds| - 1]).Some? then ds[|ds| - 1].content
    else LastParsedDate(ds[..|ds| - 1])
  }

  /** What `get_embargo` leaves in `embargo_info`: nothing without an
      `embargoUntil` date; otherwise the embargo holds unless the last such
      date parses and is not after `today`, the until-date is the last one
      that parses, the repository contact is the configured one (or the
      default), and the creators' contacts appear once per `embargoUntil`
      entry. */
  function EmbargoOf(ds: seq<DateEntry>, creators: seq<Content>, today: Date,
                     admin: Option<map<string, string>>, findEmail: string -> Option<string>): (r: EmbargoInfo)
    ensures EmbargoCount(ds) == 0 ==> r == NoEmbargo
    ensures r.embargo || r.untilDate.Some? ==> EmbargoCount(ds) > 0
    ensures |r.authorContacts| == EmbargoCount(ds) * |AuthorContacts(creators, findEmail)|
  {
    var n := EmbargoCount(ds);
    if n == 0 then NoEmbargo
    else
      EmbargoInfo(
        match ParsedContent(LastEmbargoEntry(ds).value) case Some(d) => Before(today, d) case None => true,
        LastParsedDate(ds),
        admin.GetOr(DefaultAdminContact),
        Repeat(AuthorContacts(creators, findEmail), n))
  }

  /** One date entry's turn, as the loop of `get_embargo` takes it. */
  lemma EmbargoOfStep(ds: seq<DateEntry>, e: DateEntry, creators: seq<Content>, today: Date,
                      admin: Option<map<string, string>>, findEmail: string -> Option<string>)
    ensures var before := EmbargoOf(ds, creators, today, admin, findEmail);
      EmbargoOf(ds + [e], creators, today, admin, findEmail) ==
        if !IsEmbargoUntil(e) then before
        else EmbargoInfo(
          match ParsedContent(e) case Some(d) => Before(today, d) case None => true,
          if ParsedContent(e).Some? then e.content else before.untilDate,
          admin.GetOr(DefaultAdminContact),
          before.authorContacts + AuthorContacts(creators, findEmail))
  {
    var ds' := ds + [e];
    assert ds'[..|ds'| - 1] == ds;
    if EmbargoCount(ds) == 0 {
      NoParsedDate(ds);
    }
    assert EmbargoCount(ds') == EmbargoCount(ds) + if IsEmbargoUntil(e) then 1 else 0;
    assert LastEmbargoEntry(ds') == if IsEmbargoUntil(e) then Some(e) else LastEmbargoEntry(ds);
    assert LastParsedDate(ds') == if IsEmbargoUntil(e) && ParsedContent(e).Some? then e.content else LastParsedDate(ds);
    hide EmbargoCount, LastEmbargoEntry, LastParsedDate, ParsedContent, AuthorContacts;
  }

  lemma {:induction false} NoParsedDate(ds: seq<DateEntry>)
    requires EmbargoCount(ds) == 0
    ensures LastParsedDate(ds) == None
    decreases |ds|
  {
    if ds != [] {
      NoParsedDate(ds[..|ds| - 1]);
    }
  }

  /** The creators' contacts appear once per `embargoUntil` entry: the list
      is those contacts, in creator order, over and over. */
  lemma AuthorContactsPerEntry(ds: seq<DateEntry>, creators: seq<Content>, today: Date,
                               admin: Option<map<string, string>>, findEmail: string -> Option<string>)
    ensures var contacts := EmbargoOf(ds, creators, today, admin, findEmail).authorContacts;
      var each := AuthorContacts(creators, findEmail);
      |contacts| == EmbargoCount(ds) * |each| &&
      (EmbargoCount(ds) > 0 ==> contacts[..|each|] == each) &&
      forall k :: 0 <= k < |contacts| - |each| ==> contacts[k + |each|] == contacts[k]
  {
  }

  /** A record whose last `embargoUntil` date parses is embargoed exactly
      while that date is after `today`, and carries it as its until-date. */
  lemma EmbargoFollowsLastDate(ds: seq<DateEntry>, creators: seq<Content>, today: Date,
                               admin: Option<map<string, string>>, findEmail: string -> Option<string>, d: Date)
    requires ds != [] && IsEmbargoUntil(ds[|ds| - 1]) && ParsedContent(ds[|ds| - 1]) == Some(d)
    ensures var info := EmbargoOf(ds, creators, today, admin, findEmail);
      (info.embargo <==> Before(today, d)) && info.untilDate == ds[|ds| - 1].content
  {
  }

  /** An `embargoUntil` entry that does not parse keeps the embargo on and
      the until-date of the entries before it. */
  lemma UnparsedDateKeepsEmbargo(ds: seq<DateEntry>, e: DateEntry, creators: seq<Content>, today: Date,
                                 admin: Option<map<string, string>>, findEmail: string -> Option<string>)
    requires IsEmbargoUntil(e) && ParsedContent(e).None?
    ensures var info := EmbargoOf(ds + [e], creators, today, admin, findEmail);
      info.embargo && info.untilDate == EmbargoOf(ds, creators, today, admin, findEmail).untilDate
  {
    EmbargoOfStep(ds, e, creators, today, admin, findEmail);
  }
}
