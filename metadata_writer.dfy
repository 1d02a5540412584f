/** `MetadataWriter`: reads the bibliographic fields of one item from its rdf
    (Dublin Core) record and its METS record, and writes a thesis to the
    thesis store when none with the item's identifier exists yet.

    Each field rule is a function over the node texts of a parsed document;
    the three rules the source computes with a loop (contributors, date,
    identifier) also have a method with that loop, proved to compute the
    function. An exception the source lets escape is a `Raise` result. */
module MetadataWriter {
  import opened Base
  import opened Strings
  import opened Documents

  // ---------------------------------------------------------------------
  // Contributors: advisors and departments

  /** A contributor is a department when its text names the institute or a
      department. */
  predicate IsDepartment(text: string) {
    Contains(text, "Massachusetts Institute") || Contains(text, "Dept") || Contains(text, "Department")
  }

  predicate AllPresent(texts: seq<Text>) {
    forall i | 0 <= i < |texts| :: texts[i].Some?
  }

  function Present(texts: seq<Text>): (r: seq<string>)
    requires AllPresent(texts)
    ensures |r| == |texts| && forall i | 0 <= i < |texts| :: texts[i] == Some(r[i])
  {
    seq(|texts|, i requires 0 <= i < |texts| => texts[i].value)
  }

  /** The texts that are departments (`departments == true`) or advisors, in
      their original order. */
  function Select(texts: seq<string>, departments: bool): seq<string>
    decreases |texts|
  {
    if |texts| == 0 then []
    else
      var last := texts[|texts| - 1];
      Select(texts[..|texts| - 1], departments) + (if IsDepartment(last) == departments then [last] else [])
  }

  /** What `extract_contributors` returns, `(advisors, departments)`; a
      contributor element without text makes `'...' in None` raise TypeError. */
  function ContributorRoles(contributors: seq<Text>): Result<(seq<string>, seq<string>)> {
    if AllPresent(contributors) then
      var texts := Present(contributors);
      Ok((Select(texts, false), Select(texts, true)))
    else Raise(TypeError)
  }

  /** Every contributor lands in exactly one of the two lists: the lists
      together hold every text as often as the input does, departments only
      department texts and advisors only the others. */
  lemma {:induction false} SelectPartitions(texts: seq<string>)
    ensures multiset(Select(texts, false)) + multiset(Select(texts, true)) == multiset(texts)
    decreases |texts|
  {
    if |texts| > 0 {
      var init, last := texts[..|texts| - 1], texts[|texts| - 1];
      SelectPartitions(init);
      LastMultiset(texts);
      var mine := [last];
      if IsDepartment(last) {
        LastMultiset(Select(init, true) + mine);
      } else {
        LastMultiset(Select(init, false) + mine);
      }
    }
  }

  /** A non-empty sequence's multiset is its front's plus its last element. */
  lemma LastMultiset(s: seq<string>)
    requires |s| > 0
    ensures multiset(s) == multiset(s[..|s| - 1]) + multiset{s[|s| - 1]}
  {
    assert s == s[..|s| - 1] + [s[|s| - 1]];
  }

  /** Each side of the partition holds only texts of its own role. */
  lemma {:induction false} SelectKeepsRole(texts: seq<string>, departments: bool)
    ensures forall t | t in Select(texts, departments) :: IsDepartment(t) == departments
    decreases |texts|
  {
    if |texts| > 0 {
      SelectKeepsRole(texts[..|texts| - 1], departments);
    }
  }

  /** Selection keeps the original order: selecting from a concatenation
      concatenates the selections. */
  lemma {:induction false} SelectConcat(a: seq<string>, b: seq<string>, departments: bool)
    ensures Select(a + b, departments) == Select(a, departments) + Select(b, departments)
    decreases |b|
  {
    if |b| > 0 {
      var init := b[..|b| - 1];
      SelectConcat(a, init, departments);
      assert (a + b)[..|a + b| - 1] == a + init;
      assert (a + b)[|a + b| - 1] == b[|b| - 1];
    } else {
      assert a + b == a;
    }
  }

  /** The partition stated on `extract_contributors`'s result. */
  lemma ContributorsPartition(contributors: seq<Text>)
    ensures ContributorRoles(contributors).Raise? <==> exists i | 0 <= i < |contributors| :: contributors[i].None?
    ensures ContributorRoles(contributors).Ok? ==>
      var (advisors, departments) := ContributorRoles(contributors).value;
      && multiset(advisors) + multiset(departments) == multiset(Present(contributors))
      && |advisors| + |departments| == |contributors|
      && (forall t | t in departments :: IsDepartment(t))
      && (forall t | t in advisors :: !IsDepartment(t))
  {
    if AllPresent(contributors) {
      SelectPartitions(Present(contributors));
      var (advisors, departments) := ContributorRoles(contributors).value;
      assert |multiset(advisors) + multiset(departments)| == |advisors| + |departments|;
      SelectKeepsRole(Present(contributors), true);
      SelectKeepsRole(Present(contributors), false);
    }
  }

  /** `extract_contributors`: the loop over `.//dc:contributor`. */
  method ExtractContributors(contributors: seq<Text>) returns (r: Result<(seq<string>, seq<string>)>)
    ensures r == ContributorRoles(contributors)
  {
    var advisors: seq<string> := [];
    var departments: seq<string> := [];
    for i := 0 to |contributors|
      invariant AllPresent(contributors[..i])
      invariant Select(Present(contributors[..i]), false) == advisors
      invariant Select(Present(contributors[..i]), true) == departments
    {
      if contributors[i].None? {
        return Raise(TypeError);
      }
      var text := contributors[i].value;
      if IsDepartment(text) {
        departments := departments + [text];
      } else {
        advisors := advisors + [text];
      }
      assert Present(contributors[..i + 1])[..i] == Present(contributors[..i]);
    }
    assert contributors[..|contributors|] == contributors;
    return Ok((advisors, departments));
  }

  // ---------------------------------------------------------------------
  // Date: the earliest four-digit year

  /** The value `extract_date` returns when no date is a year. */
  const NoYear: int := 20000

  /** `re.match(r'^[0-9]{4}$', text)`: four digits, then the end of the text
      or a final newline (Python's `$` also matches before a trailing
      newline). */
  predicate IsYear(text: string) {
    (|text| == 4 || (|text| == 5 && text[4] == '\n')) && AllDigits(text[..4])
  }

  predicate IsYearText(t: Text) {
    t.Some? && IsYear(t.value)
  }

  /** `int(text)` of a year text (`int` ignores the trailing newline). */
  function YearOf(t: Text): (year: nat)
    requires IsYearText(t)
    ensures year < 10000
  {
    DigitsValueBound(t.value[..4]);
    assert Pow10(4) == 10000;
    DigitsValue(t.value[..4])
  }

  /** What `extract_date` returns: the least year among the dates, NoYear
      when there is none; a date element without text makes `re.match` raise
      TypeError. */
  function EarliestYear(dates: seq<Text>): (r: Result<int>)
    ensures r.Raise? <==> exists i | 0 <= i < |dates| :: dates[i].None?
    ensures r.Raise? ==> r.exc == TypeError
    ensures r.Ok? ==> r.value <= NoYear
    ensures r.Ok? ==> forall i | 0 <= i < |dates| && IsYearText(dates[i]) :: r.value <= YearOf(dates[i])
    ensures r.Ok? && r.value < NoYear ==> exists i | 0 <= i < |dates| :: IsYearText(dates[i]) && YearOf(dates[i]) == r.value
    ensures r.Ok? && r.value == NoYear ==> forall i | 0 <= i < |dates| :: !IsYearText(dates[i])
    decreases |dates|
  {
    if |dates| == 0 then Ok(NoYear)
    else
      var init := dates[..|dates| - 1];
      var last := dates[|dates| - 1];
      assert forall i | 0 <= i < |init| :: init[i] == dates[i];
      match EarliestYear(init)
      case Raise(e) => Raise(e)
      case Ok(earliest) =>
        if last.None? then Raise(TypeError)
        else if IsYearText(last) && YearOf(last) < earliest then Ok(YearOf(last))
        else Ok(earliest)
  }

  /** `extract_date`: the loop over `.//dc:date` that lowers `earliest`. */
  method ExtractDate(dates: seq<Text>) returns (r: Result<int>)
    ensures r == EarliestYear(dates)
  {
    var earliest := NoYear;
    for i := 0 to |dates|
      invariant EarliestYear(dates[..i]) == Ok(earliest)
    {
      if dates[i].None? {
        return Raise(TypeError);
      }
      if IsYear(dates[i].value) {
        var year := YearOf(dates[i]);
        if year < earliest {
          earliest := year;
        }
      }
      assert dates[..i + 1][..i] == dates[..i];
    }
    assert dates[..|dates|] == dates;
    return Ok(earliest);
  }

  /** The example dates `1801`, `2025`, `notayear`, `1999` give 1801; dates
      without a year give the NoYear value. */
  lemma EarliestYearExamples()
    ensures EarliestYear([Some("1801"), Some("2025"), Some("notayear"), Some("1999")]) == Ok(1801)
    ensures EarliestYear([Some("notayear"), Some("19999")]) == Ok(NoYear)
  {
    var dates := [Some("1801"), Some("2025"), Some("notayear"), Some("1999")];
    FourDigitsValue("1801");
    FourDigitsValue("2025");
    FourDigitsValue("1999");
    assert "1801"[..4] == "1801" && "2025"[..4] == "2025" && "1999"[..4] == "1999";
    assert IsYearText(dates[0]) && YearOf(dates[0]) == 1801;
    assert IsYearText(dates[1]) && YearOf(dates[1]) == 2025;
    assert !IsYearText(dates[2]);
    assert IsYearText(dates[3]) && YearOf(dates[3]) == 1999;
    var none := [Some("notayear"), Some("19999")];
    assert !IsYearText(none[0]);
    assert !IsYearText(none[1]) by { assert none[1].value[4] != '\n'; }
  }

  // ---------------------------------------------------------------------
  // Identifier: the number of the first handle URL

  /** The part of the handle pattern after `http[s]?`; each `.` in it is the
      regex wildcard. */
  const HandleTemplate: string := "://hdl.handle.net/1721.1/"

  /** `u` starts with `template`, where `.` stands for any character but a
      newline. */
  predicate MatchesTemplate(u: string, template: string) {
    && |u| >= |template|
    && forall i | 0 <= i < |template| :: if template[i] == '.' then u[i] != '\n' else u[i] == template[i]
  }

  /** `re.match(r'http[s]?://hdl.handle.net/1721.1/([0-9]*)', text)`: the
      digit group it captures (possibly empty), or None when it does not
      match. `[s]?` is tried with the `s` first, then without. */
  function HandleDigits(text: string): (group: Option<string>)
    ensures group.Some? ==> AllDigits(group.value)
  {
    if |text| >= 5 && text[..5] == "https" && MatchesTemplate(text[5..], HandleTemplate) then
      Some(LeadingDigits(text[5 + |HandleTemplate|..]))
    else if |text| >= 4 && text[..4] == "http" && MatchesTemplate(text[4..], HandleTemplate) then
      Some(LeadingDigits(text[4 + |HandleTemplate|..]))
    else None
  }

  /** The identifiers before index `k` are texts that are not handle URLs. */
  predicate NoHandleBefore(identifiers: seq<Text>, k: int)
    requires 0 <= k <= |identifiers|
  {
    forall j | 0 <= j < k :: identifiers[j].Some? && HandleDigits(identifiers[j].value).None?
  }

  /** What `extract_identifier` returns: the number in the first identifier
      that is a handle URL, None when there is none. A text-less identifier
      before it raises TypeError and an empty digit group raises ValueError
      (`int('')`); the `except AttributeError` catches neither. */
  function FirstHandleId(identifiers: seq<Text>): (r: Result<Option<int>>)
    ensures r == Ok(None) <==> NoHandleBefore(identifiers, |identifiers|)
    ensures r.Ok? && r.value.Some? ==> exists k | 0 <= k < |identifiers| ::
      && NoHandleBefore(identifiers, k)
      && identifiers[k].Some? && HandleDigits(identifiers[k].value).Some?
      && HandleDigits(identifiers[k].value).value != ""
      && r.value.value == DigitsValue(HandleDigits(identifiers[k].value).value)
    decreases |identifiers|
  {
    if |identifiers| == 0 then Ok(None)
    else
      var rest := identifiers[1..];
      assert forall j | 0 <= j < |rest| :: rest[j] == identifiers[j + 1];
      match identifiers[0]
      case None => Raise(TypeError)
      case Some(text) =>
        match HandleDigits(text)
        case None =>
          var r := FirstHandleId(rest);
          assert r == Ok(None) <==> NoHandleBefore(identifiers, |identifiers|) by {
            assert NoHandleBefore(identifiers, |identifiers|) <==> NoHandleBefore(rest, |rest|);
          }
          assert r.Ok? && r.value.Some? ==> exists k | 0 <= k < |identifiers| ::
            && NoHandleBefore(identifiers, k)
            && identifiers[k].Some? && HandleDigits(identifiers[k].value).Some?
            && HandleDigits(identifiers[k].value).value != ""
            && r.value.value == DigitsValue(HandleDigits(identifiers[k].value).value)
          by {
            if r.Ok? && r.value.Some? {
              var k :| 0 <= k < |rest| && NoHandleBefore(rest, k)
                && rest[k].Some? && HandleDigits(rest[k].value).Some?
                && HandleDigits(rest[k].value).value != ""
                && r.value.value == DigitsValue(HandleDigits(rest[k].value).value);
              assert NoHandleBefore(identifiers, k + 1);
            }
          }
          r
        case Some(group) => if group == "" then Raise(ValueError) else Ok(Some(DigitsValue(group)))
  }

  /** The first identifier that is not a plain non-handle text decides the
      result: a text-less one raises TypeError, a handle URL without digits
      raises ValueError, any other handle URL gives its number, and a
      non-handle text passes the decision to the identifiers after it. */
  lemma {:induction false} FirstHandleIdAt(identifiers: seq<Text>, k: int)
    requires 0 <= k < |identifiers| && NoHandleBefore(identifiers, k)
    ensures var t := identifiers[k];
      && (t.None? ==> FirstHandleId(identifiers) == Raise(TypeError))
      && (t.Some? && HandleDigits(t.value) == Some("") ==> FirstHandleId(identifiers) == Raise(ValueError))
      && (t.Some? && HandleDigits(t.value).Some? && HandleDigits(t.value).value != "" ==>
            FirstHandleId(identifiers) == Ok(Some(DigitsValue(HandleDigits(t.value).value))))
      && (t.Some? && HandleDigits(t.value).None? ==> FirstHandleId(identifiers) == FirstHandleId(identifiers[k + 1..]))
    decreases k
  {
    if k > 0 {
      var rest := identifiers[1..];
      assert identifiers[0].Some? && HandleDigits(identifiers[0].value).None?;
      assert NoHandleBefore(rest, k - 1) by {
        forall j | 0 <= j < k - 1
          ensures rest[j].Some? && HandleDigits(rest[j].value).None?
        {
          assert rest[j] == identifiers[j + 1];
        }
      }
      FirstHandleIdAt(rest, k - 1);
      assert rest[k - 1] == identifiers[k];
      assert rest[k..] == identifiers[k + 1..];
    }
  }

  /** Identifiers after the first handle URL (or after a failure) are ignored. */
  lemma {:induction false} FirstHandleIdIgnoresLater(identifiers: seq<Text>, later: seq<Text>)
    requires FirstHandleId(identifiers) != Ok(None)
    ensures FirstHandleId(identifiers + later) == FirstHandleId(identifiers)
    decreases |identifiers|
  {
    var all := identifiers + later;
    assert all[0] == identifiers[0];
    assert all[1..] == identifiers[1..] + later;
    if identifiers[0].Some? && HandleDigits(identifiers[0].value).None? {
      FirstHandleIdIgnoresLater(identifiers[1..], later);
    }
  }

  /** The handle URL of item number `n`, with the plain or the secure scheme. */
  function HandleUrl(secure: bool, n: nat): string {
    (if secure then "https" else "http") + HandleTemplate + DecimalString(n)
  }

  /** Round trip: the identifier read back from an item's handle URL is its
      number, whatever identifiers follow. */
  lemma HandleUrlRoundTrip(secure: bool, n: nat, later: seq<Text>)
    ensures FirstHandleId([Some(HandleUrl(secure, n))] + later) == Ok(Some(n))
  {
    var digits := DecimalString(n);
    var text := HandleUrl(secure, n);
    var start := if secure then 5 else 4;
    assert text[start..] == HandleTemplate + digits;
    assert text[start + |HandleTemplate|..] == digits;
    assert MatchesTemplate(text[start..], HandleTemplate);
    if secure {
      assert text[..5] == "https";
    } else {
      assert text[..4] == "http";
      assert text[..5] != "https" by { assert text[4] == ':'; }
    }
    LeadingDigitsOfDigits(digits);
    assert HandleDigits(text) == Some(digits);
    DecimalRoundTrip(n);
  }

  /** A handle URL without digits makes `int('')` raise ValueError, which
      escapes `extract_identifier`. */
  lemma EmptyHandleNumberRaises(later: seq<Text>)
    ensures FirstHandleId([Some("http" + HandleTemplate)] + later) == Raise(ValueError)
  {
    var text := "http" + HandleTemplate;
    assert text[4..] == HandleTemplate;
    assert text[..5] != "https" by { assert text[4] == ':'; }
    assert HandleDigits(text) == Some("");
  }

  /** `extract_identifier`: the loop over `.//dc:identifier` that returns at
      the first handle URL. */
  method ExtractIdentifier(identifiers: seq<Text>) returns (r: Result<Option<int>>)
    ensures r == FirstHandleId(identifiers)
  {
    var i := 0;
    assert identifiers[0..] == identifiers;
    while i < |identifiers|
      invariant 0 <= i <= |identifiers|
      invariant FirstHandleId(identifiers[i..]) == FirstHandleId(identifiers)
    {
      if identifiers[i].None? {
        return Raise(TypeError);
      }
      var group := HandleDigits(identifiers[i].value);
      if group.Some? {
        if group.value == "" {
          return Raise(ValueError);
        }
        return Ok(Some(DigitsValue(group.value)));
      }
      assert identifiers[i..][1..] == identifiers[i + 1..];
      i := i + 1;
    }
    return Ok(None);
  }

  // ---------------------------------------------------------------------
  // Title and PDF URL, from the METS record

  /** `extract_title`: the text of the first `mods:title` element. A missing
      element gives `''` (the bare `except` catches `None.text`), but a
      present element without text gives None. */
  function ExtractTitle(titles: seq<Text>): (title: Text)
    ensures |titles| == 0 ==> title == Some("")
    ensures title.None? <==> |titles| > 0 && titles[0].None?
    ensures |titles| > 0 ==> title == titles[0]
  {
    if |titles| == 0 then Some("") else titles[0]
  }

  /** The href handling `extract_url` and both `get_pdf_url`s share: a truthy
      URL has every `http://` rewritten to `https://`; None and `''` are
      returned as they are. */
  function SecureHref(href: Option<string>): (url: Option<string>)
    ensures url.None? <==> href.None?
    ensures Truthy(url) <==> Truthy(href)
    ensures url.Some? ==> !Contains(url.value, PlainScheme)
    ensures Truthy(href) ==> url == Some(UpgradeScheme(href.value))
  {
    if Truthy(href) then
      UpgradeRemovesPlainScheme(href.value);
      assert |UpgradeScheme(href.value)| > 0;
      Some(UpgradeScheme(href.value))
    else href
  }

  /** `extract_url`: the href of the first PDF locator. With no PDF locator
      (a withdrawn item) `record` is None and `record.get` raises
      AttributeError. */
  function ExtractUrl(locators: seq<Locator>): (r: Result<Option<string>>)
    ensures r.Raise? <==> |locators| == 0
    ensures r.Raise? ==> r.exc == AttributeError
    ensures r.Ok? ==> r.value == SecureHref(locators[0].href)
  {
    if |locators| == 0 then Raise(AttributeError) else Ok(SecureHref(locators[0].href))
  }

  // ---------------------------------------------------------------------
  // The metadata record and the write to the thesis store

  /** The dictionary `extract_metadata` returns. */
  datatype Metadata = Metadata(
    authors: seq<Text>,
    advisors: seq<string>,
    date: int,
    departments: seq<string>,
    id: Option<int>,
    title: Text,
    url: Option<string>)

  /** `extract_metadata(metadata_dc, metadata_mets)`: None when either body
      does not parse; otherwise every field rule, in the order the source
      applies them, and the first exception one of them raises. */
  function ExtractMetadata(dc: Parsed, mets: Parsed): (r: Result<Option<Metadata>>)
    ensures r == Ok(None) <==> dc.None? || mets.None?
    ensures dc.Some? && mets.Some? && |mets.value.pdfLocators| == 0 ==> r.Raise?
    ensures r.Ok? && r.value.Some? ==> r.value.value.date <= NoYear
    ensures r.Ok? && r.value.Some? && r.value.value.url.Some? ==> !Contains(r.value.value.url.value, PlainScheme)
    ensures dc.Some? && mets.Some? ==>
      (r.Raise? <==> || ContributorRoles(dc.value.contributors).Raise?
                     || EarliestYear(dc.value.dates).Raise?
                     || FirstHandleId(dc.value.identifiers).Raise?
                     || ExtractUrl(mets.value.pdfLocators).Raise?)
    ensures r.Ok? && r.value.Some? ==>
      var md := r.value.value;
      && md.authors == dc.value.creators
      && ContributorRoles(dc.value.contributors) == Ok((md.advisors, md.departments))
      && EarliestYear(dc.value.dates) == Ok(md.date)
      && FirstHandleId(dc.value.identifiers) == Ok(md.id)
      && md.title == ExtractTitle(mets.value.titles)
      && ExtractUrl(mets.value.pdfLocators) == Ok(md.url)
  {
    if dc.None? || mets.None? then Ok(None)
    else
      var d := dc.value;
      var m := mets.value;
      match ContributorRoles(d.contributors)
      case Raise(e) => Raise(e)
      case Ok(roles) =>
        match EarliestYear(d.dates)
        case Raise(e) => Raise(e)
        case Ok(date) =>
          match FirstHandleId(d.identifiers)
          case Raise(e) => Raise(e)
          case Ok(id) =>
            match ExtractUrl(m.pdfLocators)
            case Raise(e) => Raise(e)
            case Ok(url) => Ok(Some(Metadata(d.creators, roles.0, date, roles.1, id, ExtractTitle(m.titles), url)))
  }

  /** A row of the thesis table as `Thesis.objects.create` and the two
      `add_people` calls fill it. */
  datatype Thesis = Thesis(title: string, url: string, year: int, authors: seq<Text>, advisors: seq<string>)

  /** The thesis store, by identifier. */
  type Store = map<int, Thesis>

  /** The identifier the metadata of a write carries, when it parses and
      raises nothing. */
  predicate WritesIdentifier(dc: Parsed, mets: Parsed, id: int) {
    var md := ExtractMetadata(dc, mets);
    md.Ok? && md.value.Some? && md.value.value.id == Some(id)
  }

  /** `write(metadata_dc, metadata_mets)`: False (and no change) on unusable
      metadata; otherwise True, creating a thesis only when the store has none
      with the identifier. The identifier, title and url columns are NOT NULL,
      so creating a row with one of them None raises IntegrityError. */
  function Write(dc: Parsed, mets: Parsed, store: Store): (r: Result<(bool, Store)>)
    ensures (r.Ok? && !r.value.0) <==> dc.None? || mets.None?
    ensures r.Ok? && !r.value.0 ==> r.value.1 == store
    ensures r.Ok? ==> store.Keys <= r.value.1.Keys && forall k | k in store :: r.value.1[k] == store[k]
    ensures r.Ok? ==> forall k | k in r.value.1 && k !in store :: WritesIdentifier(dc, mets, k)
    ensures r.Ok? && r.value.0 ==> exists k | k in r.value.1 :: WritesIdentifier(dc, mets, k)
  {
    match ExtractMetadata(dc, mets)
    case Raise(e) => Raise(e)
    case Ok(None) => Ok((false, store))
    case Ok(Some(md)) =>
      if md.id.Some? && md.id.value in store then Ok((true, store))
      else if md.id.None? || md.title.None? || md.url.None? then Raise(IntegrityError)
      else
        var thesis := Thesis(md.title.value, md.url.value, md.date, md.authors, md.advisors);
        Ok((true, store[md.id.value := thesis]))
  }

  /** What `write` does with metadata `md` that parsed: nothing but True when
      a thesis with its identifier exists; otherwise a new row under the
      identifier holding its title, URL, year, authors and advisors, or
      IntegrityError when the identifier, the title or the URL is None. An
      exception of a field rule escapes unchanged. */
  lemma WriteOutcome(dc: Parsed, mets: Parsed, store: Store, md: Metadata)
    requires ExtractMetadata(dc, mets) == Ok(Some(md))
    ensures md.id.Some? && md.id.value in store ==> Write(dc, mets, store) == Ok((true, store))
    ensures md.id.Some? && md.id.value !in store && md.title.Some? && md.url.Some? ==>
      Write(dc, mets, store) == Ok((true, store[md.id.value := Thesis(md.title.value, md.url.value, md.date, md.authors, md.advisors)]))
    ensures md.id.None? || (md.id.value !in store && (md.title.None? || md.url.None?)) ==>
      Write(dc, mets, store) == Raise(IntegrityError)
  {
  }

  /** A field rule's exception escapes `write`. */
  lemma WriteRaises(dc: Parsed, mets: Parsed, store: Store)
    requires ExtractMetadata(dc, mets).Raise?
    ensures Write(dc, mets, store) == Raise(ExtractMetadata(dc, mets).exc)
  {
  }

  /** Writing the same records again changes nothing and gives the same answer. */
  lemma WriteIdempotent(dc: Parsed, mets: Parsed, store: Store)
    requires Write(dc, mets, store).Ok?
    ensures Write(dc, mets, Write(dc, mets, store).value.1) == Write(dc, mets, store)
  {
  }
}
