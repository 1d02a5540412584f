/** The OAI-PMH side of harvesting, common to both harvesters: the query
    parameters of the ListIdentifiers and GetRecord requests, and the
    conversion of each listed header into an item (handle, identifier,
    set memberships). */
module OaiPmh {
  import opened Base
  import opened Strings
  import opened Documents

  /** The query parameters of an OAI-PMH request. */
  type Query = map<string, string>

  /** Section 4.3 of OAI-PMH 2.0: ListIdentifiers requires metadataPrefix
      and admits the optional arguments from, until and set. */
  predicate IsListIdentifiersRequest(q: Query) {
    && "verb" in q && q["verb"] == "ListIdentifiers"
    && "metadataPrefix" in q
    && q.Keys <= {"verb", "metadataPrefix", "from", "until", "set"}
  }

  /** Section 4.1 of OAI-PMH 2.0: GetRecord takes exactly the required
      arguments identifier and metadataPrefix. */
  predicate IsGetRecordRequest(q: Query) {
    && q.Keys == {"verb", "identifier", "metadataPrefix"}
    && q["verb"] == "GetRecord"
  }

  /** The parameters `get_record_list` sends: the verb, the metadata format,
      and `from` / `until` only for a truthy start or end date. */
  function ListIdentifiersQuery(metadataFormat: string, startDate: Option<string>, endDate: Option<string>): (q: Query)
    ensures IsListIdentifiersRequest(q) && "set" !in q
    ensures q["metadataPrefix"] == metadataFormat
    ensures ("from" in q <==> Truthy(startDate)) && ("from" in q ==> q["from"] == startDate.value)
    ensures ("until" in q <==> Truthy(endDate)) && ("until" in q ==> q["until"] == endDate.value)
  {
    var required := map["verb" := "ListIdentifiers", "metadataPrefix" := metadataFormat];
    var withStart := if Truthy(startDate) then required["from" := startDate.value] else required;
    if Truthy(endDate) then withStart["until" := endDate.value] else withStart
  }

  /** The parameters `get_record` sends: the item's identifier behind the
      repository's OAI identifier prefix, and the metadata format. */
  function GetRecordQuery(oaiPrefix: string, identifier: string, metadataFormat: string): (q: Query)
    ensures IsGetRecordRequest(q)
    ensures q["identifier"] == oaiPrefix + identifier && q["metadataPrefix"] == metadataFormat
  {
    map["verb" := "GetRecord", "identifier" := oaiPrefix + identifier, "metadataPrefix" := metadataFormat]
  }

  /** A listed item: `{'handle': ..., 'identifier': ..., 'sets': [...]}`. */
  datatype Item = Item(handle: string, identifier: string, sets: seq<Text>)

  const RepositoryPrefix: string := "oai:dspace.mit.edu:"
  const HandlePrefix: string := "1721.1-"

  /** The handle of an item: its OAI identifier without the repository prefix,
      every `/` turned into `-`, so that it can name a local file. */
  function HandleOf(oaiIdentifier: string): (handle: string)
    ensures '/' !in handle
  {
    var local := ReplaceAll(oaiIdentifier, RepositoryPrefix, "");
    ReplaceCharRemoves(local, '/', "-");
    ReplaceAll(local, "/", "-")
  }

  /** The identifier of an item: its handle without the `1721.1-` prefix. */
  function IdentifierOf(handle: string): (identifier: string)
    ensures '/' !in handle ==> '/' !in identifier
  {
    ReplaceAllChars(handle, HandlePrefix, "", '/');
    ReplaceAll(handle, HandlePrefix, "")
  }

  function ItemOf(oaiIdentifier: string, sets: seq<Text>): (item: Item)
    ensures '/' !in item.handle && '/' !in item.identifier
  {
    var handle := HandleOf(oaiIdentifier);
    Item(handle, IdentifierOf(handle), sets)
  }

  /** A header whose identifier text can be read (`record.find(...).text`
      neither on a missing element nor None). */
  predicate ReadableHeader(h: Header) {
    h.identifier.Some? && h.identifier.value.Some?
  }

  /** What the `parse_record_list` generator yields before it stops: the items
      in header order, and the exception that stops it early, if any. */
  datatype Listing = Listing(items: seq<Item>, failure: Option<Exc>)

  /** The generator over the headers: one item per header, in order, until a
      header without a readable identifier raises AttributeError. */
  function ParseHeaders(headers: seq<Header>): (l: Listing)
    ensures |l.items| <= |headers|
    ensures forall i | 0 <= i < |l.items| ::
      && ReadableHeader(headers[i])
      && l.items[i] == ItemOf(headers[i].identifier.value.value, headers[i].setSpecs)
    ensures l.failure.None? ==> |l.items| == |headers|
    ensures l.failure.Some? ==> l.failure == Some(AttributeError) && |l.items| < |headers| && !ReadableHeader(headers[|l.items|])
    decreases |headers|
  {
    if |headers| == 0 then Listing([], None)
    else if !ReadableHeader(headers[0]) then Listing([], Some(AttributeError))
    else
      var rest := ParseHeaders(headers[1..]);
      Listing([ItemOf(headers[0].identifier.value.value, headers[0].setSpecs)] + rest.items, rest.failure)
  }

  /** `parse_record_list(record_xml)`: an unparseable response raises
      ET.ParseError before the first item. */
  function ParseRecordList(response: Parsed): (l: Listing)
    ensures response.None? ==> l == Listing([], Some(ParseError))
    ensures response.Some? ==> l == ParseHeaders(response.value.headers)
    ensures forall i | 0 <= i < |l.items| :: '/' !in l.items[i].handle
  {
    match response
    case None => Listing([], Some(ParseError))
    case Some(doc) => ParseHeaders(doc.headers)
  }

  /** A DSpace identifier `oai:dspace.mit.edu:1721.1/<digits>` becomes the
      handle `1721.1-<digits>` and the identifier `<digits>`; requesting that
      identifier behind the prefix `oai:dspace.mit.edu:1721.1/` names the
      listed item again. */
  lemma HandleRoundTrip(digits: string, sets: seq<Text>, metadataFormat: string)
    requires AllDigits(digits)
    ensures ItemOf(RepositoryPrefix + "1721.1/" + digits, sets).handle == HandlePrefix + digits
    ensures ItemOf(RepositoryPrefix + "1721.1/" + digits, sets).identifier == digits
    ensures GetRecordQuery(RepositoryPrefix + "1721.1/", ItemOf(RepositoryPrefix + "1721.1/" + digits, sets).identifier, metadataFormat)["identifier"]
            == RepositoryPrefix + "1721.1/" + digits
  {
    var local := "1721.1/" + digits;
    assert RepositoryPrefix + "1721.1/" + digits == RepositoryPrefix + local;
    StripRepositoryPrefix(digits);
    SlashToDash(digits);
    assert HandleOf(RepositoryPrefix + local) == HandlePrefix + digits;
    StripHandlePrefix(digits);
  }

  /** Removing the repository prefix from a listed identifier leaves its
      local part. */
  lemma StripRepositoryPrefix(digits: string)
    requires AllDigits(digits)
    ensures ReplaceAll(RepositoryPrefix + ("1721.1/" + digits), RepositoryPrefix, "") == "1721.1/" + digits
  {
    var local := "1721.1/" + digits;
    ReplaceAllLeadingMatch(RepositoryPrefix, local, "");
    DigitsLack(digits, 'o');
    assert 'o' !in local;
    MissingCharMeansNoMatch(local, RepositoryPrefix, 0);
    ReplaceAllWithoutMatch(local, RepositoryPrefix, "");
    assert "" + local == local;
  }

  /** The slash of a local identifier becomes the dash of its handle. */
  lemma SlashToDash(digits: string)
    requires AllDigits(digits)
    ensures ReplaceAll("1721.1/" + digits, "/", "-") == HandlePrefix + digits
  {
    DigitsLack(digits, '/');
    MissingCharMeansNoMatch(digits, "/", 0);
    ReplaceOnlyOccurrence("1721.1", digits, "/", "-");
    assert "1721.1" + "/" == "1721.1/" && "1721.1" + "-" == HandlePrefix;
  }

  /** Removing `1721.1-` from a handle leaves its digits. */
  lemma StripHandlePrefix(digits: string)
    requires AllDigits(digits)
    ensures ReplaceAll(HandlePrefix + digits, HandlePrefix, "") == digits
  {
    ReplaceAllLeadingMatch(HandlePrefix, digits, "");
    DigitsLack(digits, '-');
    MissingCharMeansNoMatch(digits, HandlePrefix, 6);
    ReplaceAllWithoutMatch(digits, HandlePrefix, "");
    assert "" + digits == digits;
  }

  /** A digit string holds no other character. */
  lemma DigitsLack(digits: string, c: char)
    requires AllDigits(digits) && !IsDigit(c)
    ensures c !in digits
  {
    forall i | 0 <= i < |digits| ensures digits[i] != c {
      assert IsDigit(digits[i]);
    }
  }
}
