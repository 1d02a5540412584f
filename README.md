# The OAI-PMH thesis harvester, in Dafny

This project models the harvesting core of the thesis-recommendation
repository. The core lists a DSpace repository's items over OAI-PMH, keeps
the theses, optionally records their metadata, downloads each thesis PDF and
turns it into a text file in a training or a test directory. That pipeline
exists twice in the source:

- the newer `DocFetcher` with its `MetadataWriter`, in
  `hamlet/neural/train_neural_net.py`;
- the older `DocYielder`, in `neural/train_neural_net.py`. It has no
  metadata store and no dry run, takes the metadata format as a parameter,
  and stops after fifty thesis items.

Modules, in dependency order:

- `Base`: `Option`, `Result`, and the Python exceptions that can escape
  (`Exc`).
- `Strings`: Python's `p in s` and `str.replace`, the `http://` to
  `https://` rewrite, and decimal digits.
- `Documents`: parsed XML, reduced to the node texts each query returns.
  ElementTree's `.text` of an empty element is `None`.
- `OaiPmh`: the ListIdentifiers and GetRecord query parameters (sections 4.3
  and 4.1 of OAI-PMH 2.0), and `parse_record_list` from header to item.
- `MetadataWriter`: the `extract_*` rules and `write` over a store that maps
  an identifier to a thesis.
- `HarvestCache`: the per-handle cache `DOCS_CACHE`, the file system as a map
  from path to content, and the cache steps both harvesters share.
- `Fetcher` and `Yielder`: each run is specified as functions over the
  harvester's state. A class (`DocFetcher`, `DocYielder`) holds that state in
  fields, and its methods update those fields in place. Each method is proved
  to follow the functions.

## Modelling choices

- An exception is a `Raise` result or a `raised` value. `get_network_files`
  has no handler, so an exception in any step ends the whole run, and the
  state stays as it was at that point. Per-item errors are not caught.
- The OAI-PMH endpoint, the PDF server, the text-extraction service and the
  random training/test choice are the oracles in `HarvestCache.Env`:
  - `server` gives a parsed response, or None for a body that is not XML.
  - `download` gives a body, or None for a response that
    `raise_for_status` rejects.
  - `tika` answers for a file's contents.
  - `pick` chooses the subdirectory.
- `THESIS_SET_LIST`, `CUR_DIR` and `DSPACE_OAI_IDENTIFIER` are fields of
  `HarvestCache.Config`.
- The two regular expressions are written out by hand:
  - In the handle pattern, `.` is a wildcard that does not match a newline,
    `[s]?` first tries the `s`, and `re.match` matches a prefix only.
  - In the year pattern, `$` also matches before a final newline, so
    `"1999\n"` is a year.
- `find('.//mets:file[@MIMETYPE="application/pdf"]/')` (with its trailing
  slash) yields the child elements of the PDF file nodes. An element's
  truthiness is its number of children, so `Documents.Locator` records that
  number.
- The thesis store refuses a row whose identifier, title or URL is None
  (IntegrityError), as the NOT NULL columns of the thesis table do. The
  migration that declares them is not part of this model.

Behaviours of the code as written that the model keeps and proves:

- The newer `get_pdf_url` tests `if not record`. A PDF locator without child
  elements is therefore treated as missing, and the URL is discarded
  (`Fetcher.PdfUrlAgreesWithWriter`).
- A thesis without a downloaded PDF still reaches `extract_text`, whose
  `['filename']` lookup raises KeyError and ends the run
  (`Fetcher.MissingPdfAbortsRun`).
- `extract_title` of a present but empty title node is None, not `''`.
- `extract_url` and the older `get_pdf_url` raise AttributeError when there
  is no PDF locator.
- `extract_identifier` raises ValueError on an empty digit group
  (`int('')`), and TypeError on an identifier node without text. The
  `except AttributeError` catches neither
  (`MetadataWriter.EmptyHandleNumberRaises`).

## Model

| member | source | states |
|---|---|---|
| OaiPmh.ListIdentifiersQuery | neural/train_neural_net.py:119-133 | The listing request is a ListIdentifiers request of OAI-PMH 2.0 section 4.3 with the given metadata prefix and no `set`; `from` is present iff the start date is truthy and `until` iff the end date is, each carrying that date |
| Fetcher.RecordListQuery | hamlet/neural/train_neural_net.py:253-267 | The newer listing request is an OAI-PMH 2.0 section 4.3 request that always asks for `mets`; `from` and `until` are present iff the dates are truthy, and then hold those dates |
| OaiPmh.GetRecordQuery | hamlet/neural/train_neural_net.py:242-251 | The record request carries exactly the verb, identifier and metadataPrefix of OAI-PMH 2.0 section 4.1, the identifier being the repository prefix followed by the item's identifier |
| OaiPmh.HandleOf | hamlet/neural/train_neural_net.py:317-318 | A handle never contains `/` |
| OaiPmh.IdentifierOf | hamlet/neural/train_neural_net.py:319 | Removing `1721.1-` from a handle without `/` leaves an identifier without `/` |
| OaiPmh.ItemOf | hamlet/neural/train_neural_net.py:317-322 | Neither the handle nor the identifier of an item contains `/` |
| OaiPmh.ParseHeaders | neural/train_neural_net.py:137-144 | One item per header, in header order, each built from that header's identifier text and set texts; a header without a readable identifier stops the generator with AttributeError after the items before it; without one every header yields an item |
| OaiPmh.ParseRecordList | hamlet/neural/train_neural_net.py:313-322 | An unparseable listing raises ParseError before any item; a parsed one yields what `ParseHeaders` gives for its headers; no yielded handle contains `/` |
| OaiPmh.HandleRoundTrip | hamlet/neural/train_neural_net.py:317-319 | The identifier `oai:dspace.mit.edu:1721.1/<digits>` gives the handle `1721.1-<digits>` and the identifier `<digits>`, and requesting that identifier behind `oai:dspace.mit.edu:1721.1/` asks for the listed identifier again |
| Strings.UpgradeRemovesPlainScheme | neural/train_neural_net.py:163-167 | After `replace('http://', 'https://')` no `http://` is left |
| Strings.UpgradeIdempotent | neural/train_neural_net.py:163-167 | Rewriting the scheme twice equals rewriting it once |
| Strings.UpgradeKeepsSecureUrl | hamlet/neural/train_neural_net.py:152-153 | An `https://` URL without `http://` in it is left as it is |
| Strings.ReplaceAllWithoutMatch | hamlet/neural/train_neural_net.py:318-319 | `str.replace` leaves a string without the pattern unchanged |
| Strings.ReplaceAll | hamlet/neural/train_neural_net.py:318-319 | Python's `str.replace`: every non-overlapping occurrence, scanned left to right, is replaced; its properties are the `ReplaceAll*` lemmas and `ReplaceOnlyOccurrence` |
| Strings.UpgradeScheme | hamlet/neural/train_neural_net.py:152-153 | `url.replace('http://', 'https://')`; `UpgradeRemovesPlainScheme`, `UpgradeIdempotent` and `UpgradeKeepsSecureUrl` state what it does |
| Strings.DecimalRoundTrip | hamlet/neural/train_neural_net.py:115 | `int(str(n)) == n` for every natural number |
| MetadataWriter.SelectPartitions | hamlet/neural/train_neural_net.py:80-87 | Advisors and departments together are exactly the contributor texts, as a multiset: each text lands on exactly one side |
| MetadataWriter.SelectKeepsRole | hamlet/neural/train_neural_net.py:82-87 | Every department text contains one of the three markers and no advisor text does |
| MetadataWriter.SelectConcat | hamlet/neural/train_neural_net.py:80-87 | Each side keeps the contributors' original order: selecting from a concatenation concatenates the selections |
| MetadataWriter.ContributorsPartition | hamlet/neural/train_neural_net.py:74-88 | `extract_contributors` raises iff some contributor has no text; otherwise its two lists partition the texts by the marker test |
| MetadataWriter.ExtractContributors | hamlet/neural/train_neural_net.py:74-88 | The loop returns what `ContributorRoles` specifies |
| MetadataWriter.Select | hamlet/neural/train_neural_net.py:80-87 | The contributor texts of one role, in their original order; `SelectPartitions`, `SelectKeepsRole` and `SelectConcat` state its properties |
| MetadataWriter.ContributorRoles | hamlet/neural/train_neural_net.py:74-88 | `(advisors, departments)`, or TypeError for a text-less contributor; `ContributorsPartition` states its properties |
| MetadataWriter.YearOf | hamlet/neural/train_neural_net.py:99-100 | A four-digit year is below 10000 |
| MetadataWriter.IsYear | hamlet/neural/train_neural_net.py:95-99 | `re.match(r'^[0-9]{4}$', text)`: four digits, then the end or a final newline; `EarliestYearExamples` exercises both |
| MetadataWriter.EarliestYear | hamlet/neural/train_neural_net.py:90-103 | TypeError iff some date has no text; otherwise the result is at most 20000, at most every matching year, equal to one of them when below 20000, and 20000 only when none matches |
| MetadataWriter.ExtractDate | hamlet/neural/train_neural_net.py:90-103 | The loop lowering `earliest` returns what `EarliestYear` specifies |
| MetadataWriter.EarliestYearExamples | hamlet/neural/train_neural_net.py:95-103 | `1801`, `2025`, `notayear`, `1999` give 1801; `notayear`, `19999` give 20000 |
| MetadataWriter.HandleDigits | hamlet/neural/train_neural_net.py:108-114 | A captured group consists of digits only |
| MetadataWriter.FirstHandleId | hamlet/neural/train_neural_net.py:105-117 | None iff no identifier matches the handle pattern (every one having text); a number is the value of the non-empty digit group of the first matching identifier, all earlier ones being non-matching texts |
| MetadataWriter.FirstHandleIdIgnoresLater | hamlet/neural/train_neural_net.py:112-117 | Once an identifier decides the result, identifiers after it are ignored |
| MetadataWriter.FirstHandleIdAt | hamlet/neural/train_neural_net.py:112-117 | The first identifier that is not a non-matching text decides: TypeError when it has no text, ValueError for an empty digit group, otherwise the number of its digit group; a non-matching text passes the decision on to the identifiers after it |
| MetadataWriter.HandleUrlRoundTrip | hamlet/neural/train_neural_net.py:108-115 | The identifier read from `http[s]://hdl.handle.net/1721.1/<n>` is `n`, whatever identifiers follow it |
| MetadataWriter.EmptyHandleNumberRaises | hamlet/neural/train_neural_net.py:113-117 | A handle URL with no digits raises ValueError, which the loop does not catch |
| MetadataWriter.ExtractIdentifier | hamlet/neural/train_neural_net.py:105-117 | The loop returns what `FirstHandleId` specifies |
| MetadataWriter.ExtractTitle | hamlet/neural/train_neural_net.py:141-146 | `''` when there is no title node; otherwise the first title node's text, which is None exactly when that node is empty |
| MetadataWriter.SecureHref | hamlet/neural/train_neural_net.py:151-155 | None stays None, truthiness is kept, a truthy URL is rewritten, and no result contains `http://` |
| MetadataWriter.ExtractUrl | hamlet/neural/train_neural_net.py:148-155 | AttributeError iff there is no PDF locator; otherwise the rewritten `href` of the first one |
| MetadataWriter.ExtractMetadata | hamlet/neural/train_neural_net.py:119-139 | None iff either record fails to parse; on two parsed records it raises iff the contributor, date, identifier or URL rule raises, and otherwise the authors are the creator texts and every other field is that rule's result (`ExtractTitle` for the title); the date is at most 20000 and the URL contains no `http://` |
| MetadataWriter.Write | hamlet/neural/train_neural_net.py:157-179 | False iff either record fails to parse, and then the store is unchanged; an existing thesis is never changed; every new row carries the record's identifier; True means some row carries it |
| MetadataWriter.WriteOutcome | hamlet/neural/train_neural_net.py:162-179 | For parsed metadata: an existing identifier gives True and an unchanged store; a new one gives True and a row under it holding the title, URL, year, authors and advisors; a None identifier, or a new one with a None title or URL, raises IntegrityError |
| MetadataWriter.WriteRaises | hamlet/neural/train_neural_net.py:157-158 | An exception of a field rule escapes `write` unchanged |
| MetadataWriter.WriteIdempotent | hamlet/neural/train_neural_net.py:162-170 | Writing the same records again returns the same answer and store |
| HarvestCache.IsThesisStep | hamlet/neural/train_neural_net.py:301-311 | KeyError iff the handle has no entry; the stored answer is returned with the cache unchanged; otherwise the answer is whether some set is a thesis collection, stored in the entry and nowhere else |
| HarvestCache.InCatalog | hamlet/neural/train_neural_net.py:309 | `any(s in THESIS_SET_LIST.keys() for s in sets)`, a text-less set never being a key; `NoSetsNoThesis` states the empty case |
| HarvestCache.IsThesisMemoised | neural/train_neural_net.py:146-155 | After one call, later calls give the same answer and leave the cache as it is, whatever sets the item lists |
| HarvestCache.NoSetsNoThesis | hamlet/neural/train_neural_net.py:309 | An item without sets is not a thesis |
| HarvestCache.SplitPathShape | neural/train_neural_net.py:191-193 | The text path is `<CUR_DIR>/files/<subdir>/<filename>.txt` and differs from the file name |
| HarvestCache.SplitPath | hamlet/neural/train_neural_net.py:330-331 | The format string `'{}/{}/{}/{}.txt'`; `SplitPathShape` and `SplitPathInjective` state its shape and injectivity |
| HarvestCache.SplitPathInjective | hamlet/neural/train_neural_net.py:329-331 | Different subdirectories or file names give different text paths |
| HarvestCache.SplitData | neural/train_neural_net.py:186-193 | KeyError iff the entry has no downloaded file; otherwise the text path of that file in the chosen subdirectory |
| HarvestCache.ExtractTextStep | hamlet/neural/train_neural_net.py:186-201 | KeyError iff there is no entry, or neither a text file nor a download; whatever it returns is the content of the entry's recorded text file, which on a first extraction is the text path of the download; a step that raises records nothing, and only the TypeError of an empty reply changes the files |
| HarvestCache.ExtractTextCached | hamlet/neural/train_neural_net.py:187-189 | With a text file recorded, extraction returns its content and changes neither the cache nor the files |
| HarvestCache.ExtractTextRecords | hamlet/neural/train_neural_net.py:191-201 | A first extraction of a download whose content the service reads as `text` returns `text`, records the text path, writes `text` there and removes the download, changing no other entry or file |
| HarvestCache.ExtractTextFailures | hamlet/neural/train_neural_net.py:191-196 | A first extraction raises KeyError without a download, FileNotFound when it is gone, ExtractionError when the service fails, and TypeError with an empty text file left behind on a reply without content; none records anything |
| HarvestCache.ExtractTextIdempotent | neural/train_neural_net.py:195-210 | After a successful extraction a second one returns the same text and changes nothing, whatever subdirectory or service it gets |
| HarvestCache.DownloadStep | hamlet/neural/train_neural_net.py:293-299 | The handle's file is created, holding the body or left empty on HttpError; `filename` is set to the handle iff nothing is raised, and the cache is otherwise unchanged |
| HarvestCache.IsThesisKeepsCache | hamlet/neural/train_neural_net.py:301-311 | Classification keeps the cache valid and forgets nothing |
| HarvestCache.ExtractTextKeepsCache | hamlet/neural/train_neural_net.py:186-201 | Extraction keeps the cache valid and forgets nothing |
| HarvestCache.DownloadKeepsCache | hamlet/neural/train_neural_net.py:293-299 | The download keeps the cache valid and forgets nothing |
| Fetcher.GetPdfUrl | hamlet/neural/train_neural_net.py:225-240 | ParseError iff the record does not parse; no PDF locator, or one without child elements, gives None; a URL comes from a locator with children and contains no `http://` |
| Fetcher.PdfUrlAgreesWithWriter | hamlet/neural/train_neural_net.py:229-240 | `get_pdf_url` agrees with the writer's `extract_url` on a locator with children, and discards the URL of a leaf locator |
| Fetcher.MaybeWrite | hamlet/neural/train_neural_net.py:282-285 | `write_metadata` when `write_metadata` is set, otherwise a success that leaves the store as it is; `GetSingleSkips` and `GetSingleRecordsHandle` use it |
| Fetcher.GetSingle | hamlet/neural/train_neural_net.py:269-299 | `get_single_network_file`; `GetSingleSkips`, `GetSingleRecordsHandle`, `GetSingleDryRun` and `GetSingleKeeps` state what it does |
| Fetcher.GetSingleSkips | hamlet/neural/train_neural_net.py:282-291 | A failed requested write, a dry run or a falsy URL each mean no download: files and cache unchanged, nothing raised |
| Fetcher.GetSingleRecordsHandle | hamlet/neural/train_neural_net.py:282-299 | After a successful (or unrequested) write, outside a dry run and with a truthy URL: a PDF the server sends is stored under the handle and the handle becomes `filename`; a rejected response leaves that file empty and raises HttpError; a handle without an entry raises KeyError; the store is what the write left |
| Fetcher.ProcessItem | hamlet/neural/train_neural_net.py:209-223 | One pass of the loop; `ProcessItemHarvests`, `ProcessItemSkips`, `NonThesisNotDownloaded`, `MissingPdfAbortsRun`, `ProcessItemKeeps` and `ProcessItemDryRun` state what it does |
| Fetcher.ProcessItemHarvests | hamlet/neural/train_neural_net.py:209-223 | A thesis without a text file, with a truthy PDF URL, a successful write (if requested), a PDF the server sends and text the service extracts, ends with `filename` and `textfile` recorded, the text written to the text path, the PDF removed and nothing raised |
| Fetcher.ProcessItems | hamlet/neural/train_neural_net.py:209-223 | The loop, ended by the first exception; `ProcessItemsKeeps` and `DryRunTouchesNoFiles` state its properties |
| Fetcher.GetNetworkFilesSpec | hamlet/neural/train_neural_net.py:203-223 | The whole run: the loop over the items the listing yields, then the listing's own failure; `GetNetworkFilesKeeps` states its properties |
| Fetcher.GetSingleKeeps | hamlet/neural/train_neural_net.py:269-299 | `get_single_network_file` keeps the cache valid, forgets nothing and never changes a stored thesis |
| Fetcher.ProcessItemKeeps | hamlet/neural/train_neural_net.py:209-223 | One pass keeps the cache valid, forgets nothing, never changes a stored thesis, and registers the item unless it raised |
| Fetcher.ProcessItemsKeeps | hamlet/neural/train_neural_net.py:209-223 | A run keeps the cache valid, forgets nothing, never changes a stored thesis, and gives every listed handle an entry with a known classification when it raises nothing |
| Fetcher.GetNetworkFilesKeeps | hamlet/neural/train_neural_net.py:203-223 | The same for the whole `get_network_files`, over the items the listing yields |
| Fetcher.GetSingleDryRun | hamlet/neural/train_neural_net.py:287-288 | On a dry run `get_single_network_file` changes neither files nor cache |
| Fetcher.ProcessItemDryRun | hamlet/neural/train_neural_net.py:220-223 | On a dry run a pass writes no file and records no download or text file |
| Fetcher.DryRunTouchesNoFiles | hamlet/neural/train_neural_net.py:209-223 | A dry run writes no file and records no download or text file |
| Fetcher.ProcessItemSkips | hamlet/neural/train_neural_net.py:213-220 | A non-thesis, or a thesis with a recorded text file, is only classified: no request, no file |
| Fetcher.NonThesisNotDownloaded | hamlet/neural/train_neural_net.py:210-214 | A new non-thesis gets the entry `{is_thesis: False}` and nothing else changes |
| Fetcher.MissingPdfAbortsRun | hamlet/neural/train_neural_net.py:220-223 | A new thesis with no PDF URL, outside a dry run and without a requested write, ends the run with KeyError |
| Fetcher.DocFetcher.constructor | hamlet/neural/train_neural_net.py:182-184 | A new harvester starts with an empty cache |
| Fetcher.DocFetcher.IsThesis | hamlet/neural/train_neural_net.py:301-311 | Updates the cache as `IsThesisStep` specifies |
| Fetcher.DocFetcher.SplitData | hamlet/neural/train_neural_net.py:324-331 | Returns what `HarvestCache.SplitData` specifies |
| Fetcher.DocFetcher.ExtractText | hamlet/neural/train_neural_net.py:186-201 | Updates cache and files as `ExtractTextStep` specifies |
| Fetcher.DocFetcher.Download | hamlet/neural/train_neural_net.py:293-299 | Updates cache and files as `DownloadStep` specifies |
| Fetcher.DocFetcher.GetSingleNetworkFile | hamlet/neural/train_neural_net.py:269-299 | Updates the state as `GetSingle` specifies |
| Fetcher.DocFetcher.ProcessOne | hamlet/neural/train_neural_net.py:209-223 | One pass of the loop updates the state as `ProcessItem` specifies |
| Fetcher.DocFetcher.GetNetworkFiles | hamlet/neural/train_neural_net.py:203-223 | The loop over the yielded items ends in the state and exception `GetNetworkFilesSpec` specifies |
| Yielder.GetSingle | neural/train_neural_net.py:169-184 | The older `get_single_network_file`; `GetSingleEffect`, `GetSingleDownloads` and `GetSingleKeeps` state what it does |
| Yielder.GetSingleEffect | neural/train_neural_net.py:169-176 | ParseError for a record that is not XML, AttributeError without a PDF locator, and nothing raised for a falsy URL, each leaving the state unchanged |
| Yielder.GetSingleDownloads | neural/train_neural_net.py:175-184 | With a truthy URL a PDF the server sends is stored under the handle and the handle becomes `filename`; a rejected response leaves that file empty and raises HttpError; a handle without an entry raises KeyError |
| Yielder.GetSingleKeeps | neural/train_neural_net.py:169-184 | `get_single_network_file` keeps the cache valid and forgets nothing |
| Yielder.YieldItemKeeps | neural/train_neural_net.py:220-233 | A pass keeps the cache valid, forgets nothing, counts an item only if its entry says thesis, and leaves a non-thesis's files untouched |
| Yielder.YieldItem | neural/train_neural_net.py:221-233 | One pass of the loop up to the cap test, and whether it counted the item; `YieldItemHarvests` and `YieldItemKeeps` state what it does |
| Yielder.YieldItemHarvests | neural/train_neural_net.py:221-233 | A thesis without a text file, with a truthy PDF URL, a PDF the server sends and text the service extracts, is counted and ends with `filename` and `textfile` recorded, the text written to the text path, the PDF removed and nothing raised |
| Yielder.ProcessItems | neural/train_neural_net.py:220-236 | The loop with `count` theses already counted; `RunCap`, `FewThesesNoBreak` and `CountsOnlyTheses` state its properties |
| Yielder.AfterPass | neural/train_neural_net.py:228-236 | The loop after one pass: stop on an exception, break when the count reaches 50, otherwise go on; `RunCapAfter` and `CountsOnlyThesesAfter` state its properties |
| Yielder.GetNetworkFilesSpec | neural/train_neural_net.py:212-236 | The whole run: the loop over the listed items, then the listing's own failure unless the loop broke off at the cap |
| Yielder.RunCap | neural/train_neural_net.py:228-236 | At most 50 theses are counted in a run; a run that breaks has counted exactly 50 and raised nothing; a run that neither breaks nor raises took every item; no more handles are counted than items taken |
| Yielder.RunCapAfter | neural/train_neural_net.py:228-236 | The same bounds for the loop after its first pass |
| Yielder.FewThesesNoBreak | neural/train_neural_net.py:235-236 | When the theses already counted plus the items still listed are fewer than 50, the run never breaks |
| Yielder.CountsOnlyTheses | neural/train_neural_net.py:224-233 | Every counted handle is classified as a thesis at the end; the cache stays valid and forgets nothing; every item taken is registered unless the run raised |
| Yielder.CountsOnlyThesesAfter | neural/train_neural_net.py:224-236 | The same for the loop after its first pass |
| Yielder.DocYielder.constructor | neural/train_neural_net.py:102-106 | A new harvester starts with an empty cache |
| Yielder.DocYielder.IsThesis | neural/train_neural_net.py:146-155 | Updates the cache as `IsThesisStep` specifies |
| Yielder.DocYielder.SplitData | neural/train_neural_net.py:186-193 | Returns what `HarvestCache.SplitData` specifies |
| Yielder.DocYielder.ExtractText | neural/train_neural_net.py:195-210 | Updates cache and files as `ExtractTextStep` specifies |
| Yielder.DocYielder.Download | neural/train_neural_net.py:178-184 | Updates cache and files as `DownloadStep` specifies |
| Yielder.DocYielder.GetSingleNetworkFile | neural/train_neural_net.py:169-184 | Updates the state as `GetSingle` specifies |
| Yielder.DocYielder.YieldOne | neural/train_neural_net.py:221-233 | One pass updates the state and counts the item as `YieldItem` specifies |
| Yielder.DocYielder.YieldNext | neural/train_neural_net.py:220-236 | One pass, related to how the rest of the run ends |
| Yielder.DocYielder.GetNetworkFiles | neural/train_neural_net.py:212-236 | The loop with its `total_items_processed` counter and its break at 50 ends in the state and exception `GetNetworkFilesSpec` specifies |

## Left out

- HTTP: the `requests` calls, connection errors, timeouts and the chunked streaming of the PDF. A response is an oracle value. A connection error is not modelled.
- The ElementTree parser and the regex engine: documents are node-text sequences, and the two patterns are hand-written predicates.
- The text-extraction service, `open`, `os.remove` and file contents beyond a path-to-content map.
- The 80/20 weighting of `random.choices`: the subdirectory is a parameter chosen per handle.
- `DOCS_CACHE` is a class attribute, shared by every instance. Each object here has its own cache field.
- `Thesis.add_people` and the people tables: the thesis row keeps its authors and advisors as fields.
- The newer `get_network_files` counter `total_items_processed`, which is never read.
- `LabeledLineSentence`, `ModelTrainer`, the Django ORM beyond a map from identifier to thesis, and `print`/logging.
- Loading `THESIS_SET_LIST` from JSON and the DSpace settings from the environment: they are fields of `Config`.
- MetadataWriter.Write: does not model `MultipleObjectsReturned` or a database failure.
