/** The newer harvester, `DocFetcher`: lists the repository's items, keeps the
    theses, optionally writes their metadata to the thesis store, downloads
    each thesis PDF and turns it into a text file in the training or the test
    directory.

    A run is first specified as functions over a `State` (the cache, the
    files and the thesis store); the class `DocFetcher` then holds that state
    in fields, and its methods, which update them in place, are proved to
    follow the functions. An exception escaping a step ends the whole run with
    the state reached at that point. */
module Fetcher {
  import opened Base
  import opened Strings
  import opened Documents
  import opened OaiPmh
  import opened MetadataWriter
  import opened HarvestCache

  /** The `dryrun` and `write_metadata` entries of `args`. */
  datatype RunArgs = RunArgs(dryrun: bool, writeMetadata: bool)

  datatype State = State(cache: Cache, files: Files, store: Store)

  /** The state a run leaves and the exception that ended it, if any. */
  datatype Outcome = Outcome(state: State, raised: Option<Exc>)

  /** The metadata formats `get_single_network_file` requests. */
  const MetsFormat: string := "mets"
  const RdfFormat: string := "rdf"

  /** `get_pdf_url(metadata_mets)`: the https URL of the first PDF locator.
      An unparseable record raises ParseError. `if not record` takes a locator
      with no child elements for a missing one, so a leaf locator gives None,
      as does a withdrawn item with no PDF at all. */
  function GetPdfUrl(mets: Parsed): (r: Result<Option<string>>)
    ensures r.Raise? <==> mets.None?
    ensures r.Raise? ==> r.exc == ParseError
    ensures r.Ok? && r.value.Some? ==> !Contains(r.value.value, PlainScheme)
    ensures r.Ok? && r.value.Some? ==> |mets.value.pdfLocators| > 0 && mets.value.pdfLocators[0].children > 0
    ensures mets.Some? && (|mets.value.pdfLocators| == 0 || mets.value.pdfLocators[0].children == 0) ==> r == Ok(None)
  {
    match mets
    case None => Raise(ParseError)
    case Some(doc) =>
      if |doc.pdfLocators| == 0 || doc.pdfLocators[0].children == 0 then Ok(None)
      else Ok(SecureHref(doc.pdfLocators[0].href))
  }

  /** `get_pdf_url` and the writer's `extract_url` read the same locator; they
      agree when it has child elements, and the writer finds the URL of a leaf
      locator that `get_pdf_url` discards. */
  lemma PdfUrlAgreesWithWriter(doc: Doc)
    requires |doc.pdfLocators| > 0
    ensures doc.pdfLocators[0].children > 0 ==> GetPdfUrl(Some(doc)) == ExtractUrl(doc.pdfLocators)
    ensures doc.pdfLocators[0].children == 0 ==> GetPdfUrl(Some(doc)) == Ok(None) && ExtractUrl(doc.pdfLocators) == Ok(SecureHref(doc.pdfLocators[0].href))
  {
  }

  function MetsRecord(cfg: Config, item: Item, env: Env): Parsed {
    env.server(GetRecordQuery(cfg.oaiPrefix, item.identifier, MetsFormat))
  }

  function RdfRecord(cfg: Config, item: Item, env: Env): Parsed {
    env.server(GetRecordQuery(cfg.oaiPrefix, item.identifier, RdfFormat))
  }

  /** `write_metadata` when requested; a write that is not requested counts as
      one that succeeded without changing the store. */
  function MaybeWrite(args: RunArgs, dc: Parsed, mets: Parsed, store: Store): Result<(bool, Store)> {
    if args.writeMetadata then Write(dc, mets, store) else Ok((true, store))
  }

  /** `get_single_network_file(item, args)`: fetch the METS and rdf records,
      read the PDF URL, write the metadata when asked (and stop when that
      fails), stop on a dry run or a falsy URL, and otherwise download the PDF
      under the item's handle. */
  function GetSingle(cfg: Config, args: RunArgs, st: State, item: Item, env: Env): Outcome {
    var mets := MetsRecord(cfg, item, env);
    var dc := RdfRecord(cfg, item, env);
    match GetPdfUrl(mets)
    case Raise(e) => Outcome(st, Some(e))
    case Ok(pdfUrl) =>
      match MaybeWrite(args, dc, mets, st.store)
      case Raise(e) => Outcome(st, Some(e))
      case Ok((written, store)) =>
        var st1 := st.(store := store);
        if !written || args.dryrun || !Truthy(pdfUrl) then Outcome(st1, None)
        else
          var f := DownloadStep(st1.cache, st1.files, item.handle, pdfUrl.value, env.download);
          Outcome(st1.(cache := f.cache, files := f.files), f.raised)
  }

  /** The skips `get_single_network_file` promises: when the requested write
      fails, on a dry run, or without a PDF URL, no file is written and the
      cache is unchanged. */
  lemma GetSingleSkips(cfg: Config, args: RunArgs, st: State, item: Item, env: Env)
    requires GetPdfUrl(MetsRecord(cfg, item, env)).Ok?
    requires MaybeWrite(args, RdfRecord(cfg, item, env), MetsRecord(cfg, item, env), st.store).Ok?
    requires || !MaybeWrite(args, RdfRecord(cfg, item, env), MetsRecord(cfg, item, env), st.store).value.0
             || args.dryrun
             || !Truthy(GetPdfUrl(MetsRecord(cfg, item, env)).value)
    ensures var o := GetSingle(cfg, args, st, item, env);
      o.raised.None? && o.state.cache == st.cache && o.state.files == st.files
  {
  }

  /** The download `get_single_network_file` makes when the write (if
      requested) succeeded, the run is not a dry run and the PDF URL is
      truthy: the file named by the handle is opened and receives the PDF,
      and the handle becomes the entry's `filename`. A response the server
      rejects leaves that file empty and raises HttpError; a handle without an
      entry raises KeyError after the PDF is written. The store is what the
      write left. */
  lemma GetSingleRecordsHandle(cfg: Config, args: RunArgs, st: State, item: Item, env: Env, url: string, store: Store)
    requires GetPdfUrl(MetsRecord(cfg, item, env)) == Ok(Some(url)) && url != ""
    requires MaybeWrite(args, RdfRecord(cfg, item, env), MetsRecord(cfg, item, env), st.store) == Ok((true, store))
    requires !args.dryrun
    ensures var o := GetSingle(cfg, args, st, item, env);
      var h := item.handle;
      && (env.download(url).Some? && h in st.cache ==>
            o == Outcome(State(st.cache[h := st.cache[h].(filename := Some(h))], st.files[h := env.download(url).value], store), None))
      && (env.download(url).Some? && h !in st.cache ==>
            o == Outcome(State(st.cache, st.files[h := env.download(url).value], store), Some(KeyError)))
      && (env.download(url).None? ==>
            o == Outcome(State(st.cache, st.files[h := ""], store), Some(HttpError)))
  {
  }

  /** One pass of the `for item in parsed_items` loop. */
  function ProcessItem(cfg: Config, args: RunArgs, st: State, item: Item, env: Env): Outcome {
    var cache0 := if item.handle in st.cache then st.cache else st.cache[item.handle := EmptyEntry];
    var st0 := st.(cache := cache0);
    match IsThesisStep(cfg.catalog, cache0, item)
    case Raise(e) => Outcome(st0, Some(e))
    case Ok((thesis, cache1)) =>
      var st1 := st0.(cache := cache1);
      if !thesis || cache1[item.handle].textfile.Some? then Outcome(st1, None)
      else
        var o := GetSingle(cfg, args, st1, item, env);
        if o.raised.Some? || args.dryrun then o
        else
          var t := ExtractTextStep(cfg.curDir, o.state.cache, o.state.files, item.handle, env.pick(item.handle), env.tika);
          Outcome(o.state.(cache := t.cache, files := t.files), if t.result.Raise? then Some(t.result.exc) else None)
  }

  /** The loop over the listed items, ended by the first exception. */
  function ProcessItems(cfg: Config, args: RunArgs, st: State, items: seq<Item>, env: Env): Outcome
    decreases |items|
  {
    if |items| == 0 then Outcome(st, None)
    else
      var o := ProcessItem(cfg, args, st, items[0], env);
      if o.raised.Some? then o else ProcessItems(cfg, args, o.state, items[1..], env)
  }

  /** The listing query of the newer `get_record_list`, which always asks for
      METS headers. */
  function RecordListQuery(startDate: Option<string>, endDate: Option<string>): (q: Query)
    ensures IsListIdentifiersRequest(q) && q["metadataPrefix"] == MetsFormat
    ensures "from" in q <==> Truthy(startDate)
    ensures "from" in q ==> q["from"] == startDate.value
    ensures "until" in q <==> Truthy(endDate)
    ensures "until" in q ==> q["until"] == endDate.value
  {
    ListIdentifiersQuery(MetsFormat, startDate, endDate)
  }

  /** `get_network_files(args, start_date, end_date)`. The generator yields the
      readable headers before it raises, so the listing's own failure surfaces
      only once every item before it has been processed. */
  function GetNetworkFilesSpec(cfg: Config, args: RunArgs, st: State, startDate: Option<string>, endDate: Option<string>, env: Env): Outcome {
    var listing := ParseRecordList(env.server(RecordListQuery(startDate, endDate)));
    var o := ProcessItems(cfg, args, st, listing.items, env);
    if o.raised.Some? then o else Outcome(o.state, listing.failure)
  }

  /** One item of the loop, then the rest. */
  lemma ProcessItemsStep(cfg: Config, args: RunArgs, st: State, items: seq<Item>, env: Env)
    requires |items| > 0
    ensures var o := ProcessItem(cfg, args, st, items[0], env);
      ProcessItems(cfg, args, st, items, env) == if o.raised.Some? then o else ProcessItems(cfg, args, o.state, items[1..], env)
  {
  }

  // ---------------------------------------------------------------------
  // Properties of a run

  /** Existing theses are never changed and new ones are only added. */
  predicate StoreGrows(before: Store, after: Store) {
    before.Keys <= after.Keys && forall k | k in before :: after[k] == before[k]
  }

  /** The handle has an entry whose classification is known. */
  predicate Registered(cache: Cache, handle: string) {
    handle in cache && cache[handle].isThesis.Some?
  }

  lemma GetSingleKeeps(cfg: Config, args: RunArgs, st: State, item: Item, env: Env)
    requires CacheValid(cfg.curDir, st.cache)
    ensures var o := GetSingle(cfg, args, st, item, env);
      CacheValid(cfg.curDir, o.state.cache) && Enriches(st.cache, o.state.cache) && StoreGrows(st.store, o.state.store)
  {
    var mets := MetsRecord(cfg, item, env);
    var pdfUrl := GetPdfUrl(mets);
    var written := MaybeWrite(args, RdfRecord(cfg, item, env), mets, st.store);
    if pdfUrl.Ok? && written.Ok? && Truthy(pdfUrl.value) {
      DownloadKeepsCache(cfg.curDir, st.cache, st.files, item.handle, pdfUrl.value.value, env.download);
    }
  }

  lemma ProcessItemKeeps(cfg: Config, args: RunArgs, st: State, item: Item, env: Env)
    requires CacheValid(cfg.curDir, st.cache)
    ensures var o := ProcessItem(cfg, args, st, item, env);
      && CacheValid(cfg.curDir, o.state.cache)
      && Enriches(st.cache, o.state.cache)
      && StoreGrows(st.store, o.state.store)
      && (o.raised.None? ==> Registered(o.state.cache, item.handle))
  {
    var cache0 := if item.handle in st.cache then st.cache else st.cache[item.handle := EmptyEntry];
    assert CacheValid(cfg.curDir, cache0) && Enriches(st.cache, cache0);
    var r := IsThesisStep(cfg.catalog, cache0, item);
    IsThesisKeepsCache(cfg.curDir, cfg.catalog, cache0, item);
    var (thesis, cache1) := r.value;
    var st1 := st.(cache := cache1);
    if thesis && cache1[item.handle].textfile.None? {
      GetSingleKeeps(cfg, args, st1, item, env);
      var o := GetSingle(cfg, args, st1, item, env);
      EnrichesTransitive(st.cache, cache1, o.state.cache);
      if o.raised.None? && !args.dryrun {
        ExtractTextKeepsCache(cfg.curDir, o.state.cache, o.state.files, item.handle, env.pick(item.handle), env.tika);
        var t := ExtractTextStep(cfg.curDir, o.state.cache, o.state.files, item.handle, env.pick(item.handle), env.tika);
        EnrichesTransitive(st.cache, o.state.cache, t.cache);
      }
    }
  }

  /** A run keeps the cache valid, forgets nothing it knew, never changes a
      stored thesis, and, when nothing is raised, leaves every listed handle
      with an entry and a known classification. */
  lemma {:induction false} ProcessItemsKeeps(cfg: Config, args: RunArgs, st: State, items: seq<Item>, env: Env)
    requires CacheValid(cfg.curDir, st.cache)
    ensures var o := ProcessItems(cfg, args, st, items, env);
      && CacheValid(cfg.curDir, o.state.cache)
      && Enriches(st.cache, o.state.cache)
      && StoreGrows(st.store, o.state.store)
      && (o.raised.None? ==> forall i | 0 <= i < |items| :: Registered(o.state.cache, items[i].handle))
    decreases |items|
  {
    if |items| > 0 {
      ProcessItemKeeps(cfg, args, st, items[0], env);
      var o := ProcessItem(cfg, args, st, items[0], env);
      if o.raised.None? {
        ProcessItemsKeeps(cfg, args, o.state, items[1..], env);
        var o2 := ProcessItems(cfg, args, o.state, items[1..], env);
        EnrichesTransitive(st.cache, o.state.cache, o2.state.cache);
        assert Registered(o2.state.cache, items[0].handle);
        forall i | 1 <= i < |items|
          ensures o2.raised.None? ==> Registered(o2.state.cache, items[i].handle)
        {
          assert items[i] == items[1..][i - 1];
        }
      }
    }
  }

  /** The whole run: valid cache, nothing forgotten, no stored thesis
      changed, every listed handle registered when the run completes. */
  lemma GetNetworkFilesKeeps(cfg: Config, args: RunArgs, st: State, startDate: Option<string>, endDate: Option<string>, env: Env)
    requires CacheValid(cfg.curDir, st.cache)
    ensures var o := GetNetworkFilesSpec(cfg, args, st, startDate, endDate, env);
      var listing := ParseRecordList(env.server(RecordListQuery(startDate, endDate)));
      && CacheValid(cfg.curDir, o.state.cache)
      && Enriches(st.cache, o.state.cache)
      && StoreGrows(st.store, o.state.store)
      && (o.raised.None? ==> forall i | 0 <= i < |listing.items| :: Registered(o.state.cache, listing.items[i].handle))
  {
    var listing := ParseRecordList(env.server(RecordListQuery(startDate, endDate)));
    ProcessItemsKeeps(cfg, args, st, listing.items, env);
  }

  /** Entries keep their download state: no `filename` or `textfile` is set,
      and new entries have neither. */
  predicate SameDownloads(before: Cache, after: Cache) {
    && before.Keys <= after.Keys
    && forall h | h in after ::
      && after[h].filename == (if h in before then before[h].filename else None)
      && after[h].textfile == (if h in before then before[h].textfile else None)
  }

  /** On a dry run `get_single_network_file` downloads nothing. */
  lemma GetSingleDryRun(cfg: Config, args: RunArgs, st: State, item: Item, env: Env)
    requires args.dryrun
    ensures var o := GetSingle(cfg, args, st, item, env);
      o.state.files == st.files && o.state.cache == st.cache
  {
  }

  lemma ProcessItemDryRun(cfg: Config, args: RunArgs, st: State, item: Item, env: Env)
    requires args.dryrun
    ensures var o := ProcessItem(cfg, args, st, item, env);
      o.state.files == st.files && SameDownloads(st.cache, o.state.cache)
  {
    var cache0 := if item.handle in st.cache then st.cache else st.cache[item.handle := EmptyEntry];
    assert SameDownloads(st.cache, cache0);
    var r := IsThesisStep(cfg.catalog, cache0, item);
    if r.Ok? {
      var (thesis, cache1) := r.value;
      assert SameDownloads(st.cache, cache1);
      if thesis && cache1[item.handle].textfile.None? {
        GetSingleDryRun(cfg, args, st.(cache := cache1), item, env);
      }
    }
  }

  /** A dry run writes no file and records no download or text file. */
  lemma {:induction false} DryRunTouchesNoFiles(cfg: Config, args: RunArgs, st: State, items: seq<Item>, env: Env)
    requires args.dryrun
    ensures var o := ProcessItems(cfg, args, st, items, env);
      o.state.files == st.files && SameDownloads(st.cache, o.state.cache)
    decreases |items|
  {
    if |items| > 0 {
      ProcessItemDryRun(cfg, args, st, items[0], env);
      var o := ProcessItem(cfg, args, st, items[0], env);
      if o.raised.None? {
        DryRunTouchesNoFiles(cfg, args, o.state, items[1..], env);
      }
    }
  }

  /** The cache `is_thesis` leaves for an item, after the entry is created. */
  function Classified(cfg: Config, cache: Cache, item: Item): Result<(bool, Cache)> {
    IsThesisStep(cfg.catalog, if item.handle in cache then cache else cache[item.handle := EmptyEntry], item)
  }

  /** A non-thesis, or a thesis whose text file is already recorded, costs no
      request: the pass only classifies it. */
  lemma ProcessItemSkips(cfg: Config, args: RunArgs, st: State, item: Item, env: Env)
    requires var (thesis, cache1) := Classified(cfg, st.cache, item).value;
      !thesis || cache1[item.handle].textfile.Some?
    ensures ProcessItem(cfg, args, st, item, env) == Outcome(st.(cache := Classified(cfg, st.cache, item).value.1), None)
  {
  }

  /** A non-thesis is never downloaded, whatever the services answer. */
  lemma NonThesisNotDownloaded(cfg: Config, args: RunArgs, st: State, item: Item, env: Env)
    requires item.handle !in st.cache && !InCatalog(cfg.catalog, item.sets)
    ensures var o := ProcessItem(cfg, args, st, item, env);
      && o.raised.None? && o.state.files == st.files && o.state.store == st.store
      && o.state.cache == st.cache[item.handle := Entry(Some(false), None, None)]
  {
  }

  /** A thesis with no downloadable PDF (a withdrawn item, or one whose
      locator is a leaf, which `get_pdf_url` discards) reaches `extract_text`
      without a `filename`, and the KeyError ends the run. */
  lemma MissingPdfAbortsRun(cfg: Config, args: RunArgs, st: State, item: Item, env: Env)
    requires item.handle !in st.cache && InCatalog(cfg.catalog, item.sets)
    requires !args.dryrun && !args.writeMetadata
    requires GetPdfUrl(MetsRecord(cfg, item, env)) == Ok(None)
    ensures ProcessItem(cfg, args, st, item, env).raised == Some(KeyError)
  {
  }

  /** The main path of one pass: a thesis without a text file, whose PDF URL
      is truthy, whose metadata write (if requested) succeeds, whose PDF the
      server sends and whose text the service extracts, ends with both the
      `filename` and the `textfile` recorded, the text written to the text
      path and the PDF removed; nothing else changes but the store. */
  lemma ProcessItemHarvests(cfg: Config, args: RunArgs, st: State, item: Item, env: Env, cache1: Cache, url: string, store: Store, body: string, text: string)
    requires Classified(cfg, st.cache, item) == Ok((true, cache1)) && cache1[item.handle].textfile.None?
    requires !args.dryrun
    requires GetPdfUrl(MetsRecord(cfg, item, env)) == Ok(Some(url)) && url != ""
    requires MaybeWrite(args, RdfRecord(cfg, item, env), MetsRecord(cfg, item, env), st.store) == Ok((true, store))
    requires env.download(url) == Some(body) && env.tika(body) == Content(text)
    ensures var h := item.handle;
      var textfile := SplitPath(cfg.curDir, env.pick(h), h);
      var o := ProcessItem(cfg, args, st, item, env);
      && o.raised.None?
      && o.state.cache == cache1[h := cache1[h].(filename := Some(h), textfile := Some(textfile))]
      && o.state.files == st.files[h := body][textfile := text] - {h}
      && textfile in o.state.files && o.state.files[textfile] == text && h !in o.state.files
      && o.state.store == store
  {
    var h := item.handle;
    var st1 := st.(cache := cache1);
    assert h in cache1;
    GetSingleRecordsHandle(cfg, args, st1, item, env, url, store);
    var cache2 := cache1[h := cache1[h].(filename := Some(h))];
    var files2 := st.files[h := body];
    assert GetSingle(cfg, args, st1, item, env) == Outcome(State(cache2, files2, store), None);
    ExtractTextRecords(cfg.curDir, cache2, files2, h, env.pick(h), env.tika, h, text);
    var t := ExtractTextStep(cfg.curDir, cache2, files2, h, env.pick(h), env.tika);
    assert ProcessItem(cfg, args, st, item, env) == Outcome(State(t.cache, t.files, store), None);
  }

  // ---------------------------------------------------------------------
  // The harvester object

  /** `DocFetcher`, with the class-level `DOCS_CACHE` as the `cache` field,
      the file system as `files` and the thesis table as `store`. */
  class DocFetcher {
    const cfg: Config
    var cache: Cache
    var files: Files
    var store: Store

    function Snapshot(): State
      reads this
    {
      State(cache, files, store)
    }

    constructor (cfg: Config, files: Files, store: Store)
      ensures this.cfg == cfg && Snapshot() == State(map[], files, store)
    {
      this.cfg := cfg;
      this.cache := map[];
      this.files := files;
      this.store := store;
    }

    /** `is_thesis(item)`. */
    method IsThesis(item: Item) returns (answer: bool, raised: Option<Exc>)
      modifies this
      ensures var r := IsThesisStep(cfg.catalog, old(cache), item);
        && (r.Ok? ==> raised.None? && answer == r.value.0 && cache == r.value.1)
        && (r.Raise? ==> raised == Some(r.exc) && cache == old(cache))
      ensures files == old(files) && store == old(store)
    {
      if item.handle !in cache {
        return false, Some(KeyError);
      }
      var entry := cache[item.handle];
      if entry.isThesis.Some? {
        return entry.isThesis.value, None;
      }
      answer := InCatalog(cfg.catalog, item.sets);
      cache := cache[item.handle := entry.(isThesis := Some(answer))];
      raised := None;
    }

    /** `split_data(item)`, given the subdirectory the random choice picks. */
    method SplitData(item: Item, d: Subdir) returns (path: Result<string>)
      ensures path == HarvestCache.SplitData(cfg.curDir, cache, item.handle, d)
    {
      if item.handle !in cache || cache[item.handle].filename.None? {
        return Raise(KeyError);
      }
      var filename := cache[item.handle].filename.value;
      return Ok(cfg.curDir + "/" + FilesDir + "/" + SubdirName(d) + "/" + filename + ".txt");
    }

    /** `extract_text(item)`. */
    method ExtractText(item: Item, env: Env) returns (text: string, raised: Option<Exc>)
      modifies this
      ensures var t := ExtractTextStep(cfg.curDir, old(cache), old(files), item.handle, env.pick(item.handle), env.tika);
        && cache == t.cache && files == t.files && store == old(store)
        && (t.result.Ok? ==> raised.None? && text == t.result.value)
        && (t.result.Raise? ==> raised == Some(t.result.exc))
    {
      if item.handle !in cache {
        return "", Some(KeyError);
      }
      var entry := cache[item.handle];
      if entry.textfile.Some? {
        if entry.textfile.value !in files {
          return "", Some(FileNotFound);
        }
        return files[entry.textfile.value], None;
      }
      if entry.filename.None? {
        return "", Some(KeyError);
      }
      var fn := entry.filename.value;
      if fn !in files {
        return "", Some(FileNotFound);
      }
      var reply := env.tika(files[fn]);
      if reply.ServiceFailure? {
        return "", Some(ExtractionError);
      }
      var path := SplitData(item, env.pick(item.handle));
      var textfile := path.value;
      if reply.NoContent? {
        files := files[textfile := ""];
        return "", Some(TypeError);
      }
      files := files[textfile := reply.text];
      cache := cache[item.handle := entry.(textfile := Some(textfile))];
      files := files - {fn};
      return reply.text, None;
    }

    /** The download at the end of `get_single_network_file`. */
    method Download(handle: string, url: string, download: string -> Option<string>) returns (raised: Option<Exc>)
      modifies this
      ensures Fetch(cache, files, raised) == DownloadStep(old(cache), old(files), handle, url, download)
      ensures store == old(store)
    {
      files := files[handle := ""];
      var body := download(url);
      if body.None? {
        return Some(HttpError);
      }
      files := files[handle := body.value];
      if handle !in cache {
        return Some(KeyError);
      }
      cache := cache[handle := cache[handle].(filename := Some(handle))];
      return None;
    }

    /** `get_single_network_file(item, args)`. */
    method GetSingleNetworkFile(item: Item, args: RunArgs, env: Env) returns (raised: Option<Exc>)
      modifies this
      ensures Outcome(Snapshot(), raised) == GetSingle(cfg, args, old(Snapshot()), item, env)
    {
      var mets := env.server(GetRecordQuery(cfg.oaiPrefix, item.identifier, MetsFormat));
      var dc := env.server(GetRecordQuery(cfg.oaiPrefix, item.identifier, RdfFormat));
      var pdfUrl := GetPdfUrl(mets);
      if pdfUrl.Raise? {
        return Some(pdfUrl.exc);
      }
      if args.writeMetadata {
        var written := Write(dc, mets, store);
        if written.Raise? {
          return Some(written.exc);
        }
        store := written.value.1;
        if !written.value.0 {
          return None;
        }
      }
      if args.dryrun || !Truthy(pdfUrl.value) {
        return None;
      }
      raised := Download(item.handle, pdfUrl.value.value, env.download);
    }

    /** One pass of the loop in `get_network_files`. */
    method ProcessOne(item: Item, args: RunArgs, env: Env) returns (raised: Option<Exc>)
      modifies this
      ensures Outcome(Snapshot(), raised) == ProcessItem(cfg, args, old(Snapshot()), item, env)
    {
      if item.handle !in cache {
        cache := cache[item.handle := EmptyEntry];
      }
      var thesis;
      thesis, raised := IsThesis(item);
      if raised.Some? || !thesis || cache[item.handle].textfile.Some? {
        return;
      }
      raised := GetSingleNetworkFile(item, args, env);
      if raised.Some? || args.dryrun {
        return;
      }
      var text;
      text, raised := ExtractText(item, env);
    }

    /** `get_network_files(args, start_date, end_date)`. */
    method GetNetworkFiles(args: RunArgs, startDate: Option<string>, endDate: Option<string>, env: Env) returns (raised: Option<Exc>)
      modifies this
      ensures Outcome(Snapshot(), raised) == GetNetworkFilesSpec(cfg, args, old(Snapshot()), startDate, endDate, env)
    {
      var listing := ParseRecordList(env.server(RecordListQuery(startDate, endDate)));
      var items := listing.items;
      var i := 0;
      assert items[i..] == items;
      while i < |items|
        invariant 0 <= i <= |items|
        invariant ProcessItems(cfg, args, Snapshot(), items[i..], env) == ProcessItems(cfg, args, old(Snapshot()), items, env)
      {
        ghost var before := Snapshot();
        raised := ProcessOne(items[i], args, env);
        ProcessItemsStep(cfg, args, before, items[i..], env);
        if raised.Some? {
          return;
        }
        assert items[i..][1..] == items[i + 1..];
        i := i + 1;
      }
      assert items[i..] == [];
      return listing.failure;
    }
  }
}
