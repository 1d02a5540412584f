/** Parsed XML documents, reduced to what the harvesting code reads from
    them. The XML parser and the ElementPath engine are not modelled: a
    document is given as the sequence of node texts each query returns, in
    document order. */
module Documents {
  import opened Base

  /** The text of an XML element as ElementTree's `.text` gives it: None for
      an element that has no text. */
  type Text = Option<string>

  /** One element visited by `find('.//mets:file[@MIMETYPE="application/pdf"]/')`
      (ElementPath reads a trailing slash as "every child element", so these
      are the children of the PDF file elements): its `xlink:href` attribute, and
      how many child elements it has itself. */
  datatype Locator = Locator(href: Option<string>, children: nat)

  /** An `oai:header` of a ListIdentifiers response: the text of its first
      `oai:identifier` child (None when it has no such child) and the texts
      of its `oai:setSpec` children. */
  datatype Header = Header(identifier: Option<Text>, setSpecs: seq<Text>)

  /** A parsed document: the node collections the code queries. A METS
      record, an rdf record and a ListIdentifiers response are all of this
      type; the queries that do not apply to a format find nothing in it. */
  datatype Doc = Doc(
    headers: seq<Header>,       // .//oai:header
    creators: seq<Text>,        // .//dc:creator
    contributors: seq<Text>,    // .//dc:contributor
    dates: seq<Text>,           // .//dc:date
    identifiers: seq<Text>,     // .//dc:identifier
    titles: seq<Text>,          // .//mods:title
    pdfLocators: seq<Locator>)  // .//mets:file[@MIMETYPE="application/pdf"]/

  /** A response body after `ET.fromstring`: None when the body is not
      well-formed XML and the parser raises ET.ParseError. */
  type Parsed = Option<Doc>
}
