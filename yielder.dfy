/** The older harvester, `DocYielder`: the same pipeline as `DocFetcher`
    without the metadata store and the dry run, with the metadata format as a
    parameter, and with a cap of fifty thesis items per run.

    As for the newer harvester, a run is specified by functions over the cache
    and the files, and the class `DocYielder` updates those as fields. */
module Yielder {
  import opened Base
  import opened Strings
  import opened Documents
  import opened OaiPmh
  import opened MetadataWriter
  import opened HarvestCache

  datatype State = State(cache: Cache, files: Files)

  /** The state a call leaves and the exception that ended it, if any. */
  datatype Outcome = Outcome(state: State, raised: Option<Exc>)

  /** `get_network_files` stops once this many thesis items are counted. */
  const MaxItemsPerRun: nat := 50

  /** `get_single_network_file(item, metadata_format)`: parse the record
      (ParseError when it is not XML), read the PDF URL (`get_pdf_url` is the
      writer's `extract_url` rule: AttributeError without a PDF locator), stop
      on a falsy URL, and otherwise download the PDF under the item's handle. */
  function GetSingle(cfg: Config, st: State, item: Item, metadataFormat: string, env: Env): Outcome {
    match env.server(GetRecordQuery(cfg.oaiPrefix, item.identifier, metadataFormat))
    case None => Outcome(st, Some(ParseError))
    case Some(mets) =>
      match ExtractUrl(mets.pdfLocators)
      case Raise(e) => Outcome(st, Some(e))
      case Ok(pdfUrl) =>
        if !Truthy(pdfUrl) then Outcome(st, None)
        else
          var f := DownloadStep(st.cache, st.files, item.handle, pdfUrl.value, env.download);
          Outcome(State(f.cache, f.files), f.raised)
  }

  /** The ways `get_single_network_file` ends before a download: ParseError on
      a record that is not XML, AttributeError without a PDF locator, and
      nothing at all for a falsy URL. None of them changes the cache or the
      files. */
  lemma GetSingleEffect(cfg: Config, st: State, item: Item, metadataFormat: string, env: Env)
    ensures var o := GetSingle(cfg, st, item, metadataFormat, env);
      var rec := env.server(GetRecordQuery(cfg.oaiPrefix, item.identifier, metadataFormat));
      && (rec.None? ==> o == Outcome(st, Some(ParseError)))
      && (rec.Some? && |rec.value.pdfLocators| == 0 ==> o == Outcome(st, Some(AttributeError)))
      && (rec.Some? && ExtractUrl(rec.value.pdfLocators).Ok? && !Truthy(ExtractUrl(rec.value.pdfLocators).value) ==>
            o == Outcome(st, None))
  {
  }

  /** With a truthy PDF URL the file named by the handle is opened and
      receives the PDF, and the handle becomes the entry's `filename`. A
      response the server rejects leaves that file empty and raises HttpError;
      a handle without an entry raises KeyError after the PDF is written. */
  lemma GetSingleDownloads(cfg: Config, st: State, item: Item, metadataFormat: string, env: Env, mets: Doc, url: string)
    requires env.server(GetRecordQuery(cfg.oaiPrefix, item.identifier, metadataFormat)) == Some(mets)
    requires ExtractUrl(mets.pdfLocators) == Ok(Some(url)) && url != ""
    ensures var o := GetSingle(cfg, st, item, metadataFormat, env);
      var h := item.handle;
      && (env.download(url).Some? && h in st.cache ==>
            o == Outcome(State(st.cache[h := st.cache[h].(filename := Some(h))], st.files[h := env.download(url).value]), None))
      && (env.download(url).Some? && h !in st.cache ==>
            o == Outcome(State(st.cache, st.files[h := env.download(url).value]), Some(KeyError)))
      && (env.download(url).None? ==>
            o == Outcome(State(st.cache, st.files[h := ""]), Some(HttpError)))
  {
  }

  /** One pass of the loop: the outcome, and whether the item was counted as a
      thesis. A thesis whose text file is recorded is counted but costs no
      request. */
  function YieldItem(cfg: Config, st: State, item: Item, metadataFormat: string, env: Env): (Outcome, bool) {
    var cache0 := if item.handle in st.cache then st.cache else st.cache[item.handle := EmptyEntry];
    match IsThesisStep(cfg.catalog, cache0, item)
    case Raise(e) => (Outcome(State(cache0, st.files), Some(e)), false)
    case Ok((thesis, cache1)) =>
      var st1 := State(cache1, st.files);
      if !thesis then (Outcome(st1, None), false)
      else if cache1[item.handle].textfile.Some? then (Outcome(st1, None), true)
      else
        var o := GetSingle(cfg, st1, item, metadataFormat, env);
        if o.raised.Some? then (o, true)
        else
          var t := ExtractTextStep(cfg.curDir, o.state.cache, o.state.files, item.handle, env.pick(item.handle), env.tika);
          (Outcome(State(t.cache, t.files), if t.result.Raise? then Some(t.result.exc) else None), true)
  }

  /** Where the loop ended: its state, the handles it counted (in order), how
      many items it took from the listing, whether it broke off at the cap, and
      what it raised. */
  datatype Progress = Progress(state: State, counted: seq<string>, consumed: nat, stopped: bool, raised: Option<Exc>)

  /** The loop over the listed items with `count` theses already counted. */
  function ProcessItems(cfg: Config, st: State, items: seq<Item>, metadataFormat: string, env: Env, count: nat): Progress
    decreases |items|, 1
  {
    if |items| == 0 then Progress(st, [], 0, false, None)
    else
      var (o, isThesis) := YieldItem(cfg, st, items[0], metadataFormat, env);
      AfterPass(cfg, items, metadataFormat, env, count, o, isThesis)
  }

  /** The loop once the pass over `items[0]` had outcome `o`: stop on an
      exception, break when the count reaches the cap, and otherwise go on
      with the rest of the items. */
  function AfterPass(cfg: Config, items: seq<Item>, metadataFormat: string, env: Env, count: nat, o: Outcome, isThesis: bool): Progress
    requires |items| > 0
    decreases |items|, 0
  {
    var mine := if isThesis then [items[0].handle] else [];
    var count' := count + |mine|;
    if o.raised.Some? then Progress(o.state, mine, 1, false, o.raised)
    else if count' >= MaxItemsPerRun then Progress(o.state, mine, 1, true, None)
    else
      var p := ProcessItems(cfg, o.state, items[1..], metadataFormat, env, count');
      p.(counted := mine + p.counted, consumed := p.consumed + 1)
  }

  /** What of a run's progress the caller sees: the state, whether the loop
      broke off, and what it raised. */
  function Ending(p: Progress): (State, bool, Option<Exc>) {
    (p.state, p.stopped, p.raised)
  }

  /** One pass of the loop with outcome `o`, then the rest, as the caller
      sees it. */
  lemma ProcessItemsStep(cfg: Config, st: State, items: seq<Item>, metadataFormat: string, env: Env, count: nat, o: Outcome, isThesis: bool)
    requires count < MaxItemsPerRun && |items| > 0
    requires YieldItem(cfg, st, items[0], metadataFormat, env) == (o, isThesis)
    ensures o.raised.Some? ==> Ending(ProcessItems(cfg, st, items, metadataFormat, env, count)) == (o.state, false, o.raised)
    ensures o.raised.None? && isThesis && count + 1 >= MaxItemsPerRun ==>
      Ending(ProcessItems(cfg, st, items, metadataFormat, env, count)) == (o.state, true, None)
    ensures o.raised.None? && !(isThesis && count + 1 >= MaxItemsPerRun) ==>
      Ending(ProcessItems(cfg, st, items, metadataFormat, env, count))
        == Ending(ProcessItems(cfg, o.state, items[1..], metadataFormat, env, if isThesis then count + 1 else count))
  {
    assert ProcessItems(cfg, st, items, metadataFormat, env, count) == AfterPass(cfg, items, metadataFormat, env, count, o, isThesis);
  }

  /** `get_network_files(metadata_format, start_date, end_date)`: the
      listing's own failure is raised only when the loop reaches it, not after
      a break at the cap. */
  function GetNetworkFilesSpec(cfg: Config, st: State, metadataFormat: string, startDate: Option<string>, endDate: Option<string>, env: Env): Outcome {
    var listing := ParseRecordList(env.server(ListIdentifiersQuery(metadataFormat, startDate, endDate)));
    var p := ProcessItems(cfg, st, listing.items, metadataFormat, env, 0);
    Outcome(p.state, if p.raised.Some? then p.raised else if p.stopped then None else listing.failure)
  }

  /** The bounds of a run that started with `count` theses counted. */
  predicate WithinCap(p: Progress, items: seq<Item>, count: nat) {
    && p.consumed <= |items|
    && |p.counted| <= p.consumed
    && count + |p.counted| <= MaxItemsPerRun
    && (p.stopped ==> p.raised.None? && count + |p.counted| == MaxItemsPerRun)
    && (!p.stopped && p.raised.None? ==> p.consumed == |items|)
  }

  /** At most fifty thesis items are processed in one run; a run that breaks
      off has counted exactly fifty; one that neither breaks off nor raises
      has taken every listed item; no more handles are counted than items
      taken. */
  lemma {:induction false} RunCap(cfg: Config, st: State, items: seq<Item>, metadataFormat: string, env: Env, count: nat)
    requires count < MaxItemsPerRun
    ensures WithinCap(ProcessItems(cfg, st, items, metadataFormat, env, count), items, count)
    decreases |items|, 1
  {
    if |items| > 0 {
      var (o, isThesis) := YieldItem(cfg, st, items[0], metadataFormat, env);
      RunCapAfter(cfg, items, metadataFormat, env, count, o, isThesis);
    }
  }

  /** `RunCap` for the loop after its first pass, whatever that pass did. */
  lemma {:induction false} RunCapAfter(cfg: Config, items: seq<Item>, metadataFormat: string, env: Env, count: nat, o: Outcome, isThesis: bool)
    requires count < MaxItemsPerRun && |items| > 0
    ensures WithinCap(AfterPass(cfg, items, metadataFormat, env, count, o, isThesis), items, count)
    decreases |items|, 0
  {
    var count' := if isThesis then count + 1 else count;
    if o.raised.None? && count' < MaxItemsPerRun {
      RunCap(cfg, o.state, items[1..], metadataFormat, env, count');
    }
  }

  /** With fewer than fifty theses listed the run never breaks off. */
  lemma {:induction false} FewThesesNoBreak(cfg: Config, st: State, items: seq<Item>, metadataFormat: string, env: Env, count: nat)
    requires count + |items| < MaxItemsPerRun
    ensures !ProcessItems(cfg, st, items, metadataFormat, env, count).stopped
    decreases |items|
  {
    if |items| > 0 {
      var (o, isThesis) := YieldItem(cfg, st, items[0], metadataFormat, env);
      var count' := if isThesis then count + 1 else count;
      assert ProcessItems(cfg, st, items, metadataFormat, env, count) == AfterPass(cfg, items, metadataFormat, env, count, o, isThesis);
      if o.raised.None? {
        FewThesesNoBreak(cfg, o.state, items[1..], metadataFormat, env, count');
      }
    }
  }

  // ---------------------------------------------------------------------
  // Properties of a run

  /** The handle has an entry whose classification is known. */
  predicate Registered(cache: Cache, handle: string) {
    handle in cache && cache[handle].isThesis.Some?
  }

  lemma GetSingleKeeps(cfg: Config, st: State, item: Item, metadataFormat: string, env: Env)
    requires CacheValid(cfg.curDir, st.cache)
    ensures var o := GetSingle(cfg, st, item, metadataFormat, env);
      CacheValid(cfg.curDir, o.state.cache) && Enriches(st.cache, o.state.cache)
  {
    var rec := env.server(GetRecordQuery(cfg.oaiPrefix, item.identifier, metadataFormat));
    if rec.Some? && ExtractUrl(rec.value.pdfLocators).Ok? && Truthy(ExtractUrl(rec.value.pdfLocators).value) {
      DownloadKeepsCache(cfg.curDir, st.cache, st.files, item.handle, ExtractUrl(rec.value.pdfLocators).value.value, env.download);
    }
  }

  /** A pass keeps the cache valid, forgets nothing, and counts an item only
      when its entry says it is a thesis. */
  lemma YieldItemKeeps(cfg: Config, st: State, item: Item, metadataFormat: string, env: Env)
    requires CacheValid(cfg.curDir, st.cache)
    ensures var (o, isThesis) := YieldItem(cfg, st, item, metadataFormat, env);
      && CacheValid(cfg.curDir, o.state.cache)
      && Enriches(st.cache, o.state.cache)
      && (o.raised.None? || isThesis ==> Registered(o.state.cache, item.handle))
      && (isThesis ==> o.state.cache[item.handle].isThesis == Some(true))
      && (!isThesis && o.raised.None? ==> o.state.cache[item.handle].isThesis == Some(false) && o.state.files == st.files)
  {
    var cache0 := if item.handle in st.cache then st.cache else st.cache[item.handle := EmptyEntry];
    assert CacheValid(cfg.curDir, cache0) && Enriches(st.cache, cache0);
    IsThesisKeepsCache(cfg.curDir, cfg.catalog, cache0, item);
    var (thesis, cache1) := IsThesisStep(cfg.catalog, cache0, item).value;
    var st1 := State(cache1, st.files);
    if thesis && cache1[item.handle].textfile.None? {
      GetSingleKeeps(cfg, st1, item, metadataFormat, env);
      var o := GetSingle(cfg, st1, item, metadataFormat, env);
      EnrichesTransitive(st.cache, cache1, o.state.cache);
      if o.raised.None? {
        ExtractTextKeepsCache(cfg.curDir, o.state.cache, o.state.files, item.handle, env.pick(item.handle), env.tika);
        var t := ExtractTextStep(cfg.curDir, o.state.cache, o.state.files, item.handle, env.pick(item.handle), env.tika);
        EnrichesTransitive(st.cache, o.state.cache, t.cache);
      }
    }
  }

  /** The main path of one pass: a thesis without a text file, whose record
      has a truthy PDF URL, whose PDF the server sends and whose text the
      service extracts, is counted and ends with both the `filename` and the
      `textfile` recorded, the text written to the text path and the PDF
      removed. */
  lemma YieldItemHarvests(cfg: Config, st: State, item: Item, metadataFormat: string, env: Env, cache1: Cache, mets: Doc, url: string, body: string, text: string)
    requires IsThesisStep(cfg.catalog, if item.handle in st.cache then st.cache else st.cache[item.handle := EmptyEntry], item) == Ok((true, cache1))
    requires cache1[item.handle].textfile.None?
    requires env.server(GetRecordQuery(cfg.oaiPrefix, item.identifier, metadataFormat)) == Some(mets)
    requires ExtractUrl(mets.pdfLocators) == Ok(Some(url)) && url != ""
    requires env.download(url) == Some(body) && env.tika(body) == Content(text)
    ensures var h := item.handle;
      var textfile := SplitPath(cfg.curDir, env.pick(h), h);
      var (o, isThesis) := YieldItem(cfg, st, item, metadataFormat, env);
      && isThesis && o.raised.None?
      && o.state.cache == cache1[h := cache1[h].(filename := Some(h), textfile := Some(textfile))]
      && o.state.files == st.files[h := body][textfile := text] - {h}
      && textfile in o.state.files && o.state.files[textfile] == text && h !in o.state.files
  {
    var h := item.handle;
    var st1 := State(cache1, st.files);
    GetSingleDownloads(cfg, st1, item, metadataFormat, env, mets, url);
    var o := GetSingle(cfg, st1, item, metadataFormat, env);
    ExtractTextRecords(cfg.curDir, o.state.cache, o.state.files, h, env.pick(h), env.tika, h, text);
  }

  /** What a run leaves in the cache about the handles it counted and the
      items it took. */
  predicate CountedAreTheses(p: Progress, items: seq<Item>) {
    && (forall k | 0 <= k < |p.counted| :: p.counted[k] in p.state.cache && p.state.cache[p.counted[k]].isThesis == Some(true))
    && (p.raised.None? ==> forall j | 0 <= j < p.consumed && j < |items| :: Registered(p.state.cache, items[j].handle))
  }

  /** Only theses are counted: every counted handle is classified as a thesis
      at the end. The cache stays valid and forgets nothing, and every item
      the loop took is registered unless the run raised. */
  lemma {:induction false} CountsOnlyTheses(cfg: Config, st: State, items: seq<Item>, metadataFormat: string, env: Env, count: nat)
    requires count < MaxItemsPerRun
    requires CacheValid(cfg.curDir, st.cache)
    ensures var p := ProcessItems(cfg, st, items, metadataFormat, env, count);
      && CacheValid(cfg.curDir, p.state.cache)
      && Enriches(st.cache, p.state.cache)
      && CountedAreTheses(p, items)
    decreases |items|, 1
  {
    if |items| > 0 {
      YieldItemKeeps(cfg, st, items[0], metadataFormat, env);
      var (o, isThesis) := YieldItem(cfg, st, items[0], metadataFormat, env);
      CountsOnlyThesesAfter(cfg, st, items, metadataFormat, env, count, o, isThesis);
    }
  }

  /** `CountsOnlyTheses` for the loop after a first pass that kept the cache
      valid and registered what it counted. */
  lemma {:induction false} CountsOnlyThesesAfter(cfg: Config, st: State, items: seq<Item>, metadataFormat: string, env: Env, count: nat, o: Outcome, isThesis: bool)
    requires count < MaxItemsPerRun && |items| > 0
    requires CacheValid(cfg.curDir, o.state.cache) && Enriches(st.cache, o.state.cache)
    requires o.raised.None? || isThesis ==> Registered(o.state.cache, items[0].handle)
    requires isThesis ==> o.state.cache[items[0].handle].isThesis == Some(true)
    ensures var p := AfterPass(cfg, items, metadataFormat, env, count, o, isThesis);
      && CacheValid(cfg.curDir, p.state.cache)
      && Enriches(st.cache, p.state.cache)
      && CountedAreTheses(p, items)
    decreases |items|, 0
  {
    var count' := if isThesis then count + 1 else count;
    if o.raised.None? && count' < MaxItemsPerRun {
      CountsOnlyTheses(cfg, o.state, items[1..], metadataFormat, env, count');
      var p := ProcessItems(cfg, o.state, items[1..], metadataFormat, env, count');
      EnrichesTransitive(st.cache, o.state.cache, p.state.cache);
      CountedAreThesesExtend(p, items, isThesis, o.state.cache);
    }
  }

  /** One more counted or registered item in front of a run's progress. */
  lemma CountedAreThesesExtend(p: Progress, items: seq<Item>, isThesis: bool, before: Cache)
    requires |items| > 0
    requires CountedAreTheses(p, items[1..])
    requires Enriches(before, p.state.cache)
    requires Registered(before, items[0].handle)
    requires isThesis ==> before[items[0].handle].isThesis == Some(true)
    ensures var all := p.(counted := (if isThesis then [items[0].handle] else []) + p.counted, consumed := p.consumed + 1);
      CountedAreTheses(all, items)
  {
    var mine := if isThesis then [items[0].handle] else [];
    var all := p.(counted := mine + p.counted, consumed := p.consumed + 1);
    forall k | 0 <= k < |all.counted|
      ensures all.counted[k] in all.state.cache && all.state.cache[all.counted[k]].isThesis == Some(true)
    {
      if k >= |mine| {
        assert all.counted[k] == p.counted[k - |mine|];
      }
    }
    if p.raised.None? {
      forall j | 0 <= j < all.consumed && j < |items|
        ensures Registered(all.state.cache, items[j].handle)
      {
        if j > 0 {
          assert items[j] == items[1..][j - 1];
        }
      }
    }
  }

  // ---------------------------------------------------------------------
  // The harvester object

  /** `DocYielder`, with its class-level `DOCS_CACHE` as the `cache` field and
      the file system as `files`. */
  class DocYielder {
    const cfg: Config
    var cache: Cache
    var files: Files

    function Snapshot(): State
      reads this
    {
      State(cache, files)
    }

    constructor (cfg: Config, files: Files)
      ensures this.cfg == cfg && Snapshot() == State(map[], files)
    {
      this.cfg := cfg;
      this.cache := map[];
      this.files := files;
    }

    /** `is_thesis(item)`. */
    method IsThesis(item: Item) returns (answer: bool, raised: Option<Exc>)
      modifies this
      ensures var r := IsThesisStep(cfg.catalog, old(cache), item);
        && (r.Ok? ==> raised.None? && answer == r.value.0 && cache == r.value.1)
        && (r.Raise? ==> raised == Some(r.exc) && cache == old(cache))
      ensures files == old(files)
    {
      if item.handle !in cache {
        return false, Some(KeyError);
      }
      var entry := cache[item.handle];
      if entry.isThesis.Some? {
        return entry.isThesis.value, None;
      }
      answer := InCatalog(cfg.catalog, item.sets);
      cache := cache[item.handle := entry.(isThesis := Some(answer))];
      raised := None;
    }

    /** `split_data(item)`, given the subdirectory the random choice picks. */
    method SplitData(item: Item, d: Subdir) returns (path: Result<string>)
      ensures path == HarvestCache.SplitData(cfg.curDir, cache, item.handle, d)
    {
      if item.handle !in cache || cache[item.handle].filename.None? {
        return Raise(KeyError);
      }
      var filename := cache[item.handle].filename.value;
      return Ok(cfg.curDir + "/" + FilesDir + "/" + SubdirName(d) + "/" + filename + ".txt");
    }

    /** `extract_text(item)`. */
    method ExtractText(item: Item, env: Env) returns (text: string, raised: Option<Exc>)
      modifies this
      ensures var t := ExtractTextStep(cfg.curDir, old(cache), old(files), item.handle, env.pick(item.handle), env.tika);
        && cache == t.cache && files == t.files
        && (t.result.Ok? ==> raised.None? && text == t.result.value)
        && (t.result.Raise? ==> raised == Some(t.result.exc))
    {
      if item.handle !in cache {
        return "", Some(KeyError);
      }
      var entry := cache[item.handle];
      if entry.textfile.Some? {
        if entry.textfile.value !in files {
          return "", Some(FileNotFound);
        }
        return files[entry.textfile.value], None;
      }
      if entry.filename.None? {
        return "", Some(KeyError);
      }
      var fn := entry.filename.value;
      if fn !in files {
        return "", Some(FileNotFound);
      }
      var reply := env.tika(files[fn]);
      if reply.ServiceFailure? {
        return "", Some(ExtractionError);
      }
      var path := SplitData(item, env.pick(item.handle));
      var textfile := path.value;
      if reply.NoContent? {
        files := files[textfile := ""];
        return "", Some(TypeError);
      }
      files := files[textfile := reply.text];
      cache := cache[item.handle := entry.(textfile := Some(textfile))];
      files := files - {fn};
      return reply.text, None;
    }

    /** The download at the end of `get_single_network_file`. */
    method Download(handle: string, url: string, download: string -> Option<string>) returns (raised: Option<Exc>)
      modifies this
      ensures Fetch(cache, files, raised) == DownloadStep(old(cache), old(files), handle, url, download)
    {
      files := files[handle := ""];
      var body := download(url);
      if body.None? {
        return Some(HttpError);
      }
      files := files[handle := body.value];
      if handle !in cache {
        return Some(KeyError);
      }
      cache := cache[handle := cache[handle].(filename := Some(handle))];
      return None;
    }

    /** `get_single_network_file(item, metadata_format)`. */
    method GetSingleNetworkFile(item: Item, metadataFormat: string, env: Env) returns (raised: Option<Exc>)
      modifies this
      ensures Outcome(Snapshot(), raised) == GetSingle(cfg, old(Snapshot()), item, metadataFormat, env)
    {
      var mets := env.server(GetRecordQuery(cfg.oaiPrefix, item.identifier, metadataFormat));
      if mets.None? {
        return Some(ParseError);
      }
      var pdfUrl := ExtractUrl(mets.value.pdfLocators);
      if pdfUrl.Raise? {
        return Some(pdfUrl.exc);
      }
      if !Truthy(pdfUrl.value) {
        return None;
      }
      raised := Download(item.handle, pdfUrl.value.value, env.download);
    }

    /** One pass of the loop in `get_network_files`, up to the cap test:
        whether the item is counted and what was raised. */
    method YieldOne(item: Item, metadataFormat: string, env: Env) returns (isThesis: bool, raised: Option<Exc>)
      modifies this
      ensures (Outcome(Snapshot(), raised), isThesis) == YieldItem(cfg, old(Snapshot()), item, metadataFormat, env)
    {
      if item.handle !in cache {
        cache := cache[item.handle := EmptyEntry];
      }
      isThesis, raised := IsThesis(item);
      if raised.Some? {
        isThesis := false;
        return;
      }
      if !isThesis || cache[item.handle].textfile.Some? {
        return;
      }
      raised := GetSingleNetworkFile(item, metadataFormat, env);
      if raised.Some? {
        return;
      }
      var text;
      text, raised := ExtractText(item, env);
    }

    /** `YieldOne` on the first of the items still to come, related to the
        rest of the run. */
    method YieldNext(ghost rest: seq<Item>, item: Item, count: nat, metadataFormat: string, env: Env) returns (isThesis: bool, raised: Option<Exc>)
      requires |rest| > 0 && rest[0] == item && count < MaxItemsPerRun
      modifies this
      ensures var ending := Ending(ProcessItems(cfg, old(Snapshot()), rest, metadataFormat, env, count));
        && (raised.Some? ==> ending == (Snapshot(), false, raised))
        && (raised.None? && isThesis && count + 1 >= MaxItemsPerRun ==> ending == (Snapshot(), true, None))
        && (raised.None? && !(isThesis && count + 1 >= MaxItemsPerRun) ==>
              ending == Ending(ProcessItems(cfg, Snapshot(), rest[1..], metadataFormat, env, if isThesis then count + 1 else count)))
    {
      ghost var before := Snapshot();
      isThesis, raised := YieldOne(item, metadataFormat, env);
      ProcessItemsStep(cfg, before, rest, metadataFormat, env, count, Outcome(Snapshot(), raised), isThesis);
    }

    /** `get_network_files(metadata_format, start_date, end_date)`, with the
        `total_items_processed` counter and the break at the cap. */
    method GetNetworkFiles(metadataFormat: string, startDate: Option<string>, endDate: Option<string>, env: Env) returns (raised: Option<Exc>)
      modifies this
      ensures Outcome(Snapshot(), raised) == GetNetworkFilesSpec(cfg, old(Snapshot()), metadataFormat, startDate, endDate, env)
    {
      var listing := ParseRecordList(env.server(ListIdentifiersQuery(metadataFormat, startDate, endDate)));
      var items := listing.items;
      ghost var whole := Ending(ProcessItems(cfg, Snapshot(), items, metadataFormat, env, 0));
      assert GetNetworkFilesSpec(cfg, old(Snapshot()), metadataFormat, startDate, endDate, env)
        == Outcome(whole.0, if whole.2.Some? then whole.2 else if whole.1 then None else listing.failure);
      var totalItemsProcessed: nat := 0;
      var i := 0;
      assert items[i..] == items;
      while i < |items|
        invariant 0 <= i <= |items|
        invariant totalItemsProcessed < MaxItemsPerRun
        invariant Ending(ProcessItems(cfg, Snapshot(), items[i..], metadataFormat, env, totalItemsProcessed)) == whole
      {
        var isThesis;
        isThesis, raised := YieldNext(items[i..], items[i], totalItemsProcessed, metadataFormat, env);
        if raised.Some? {
          return;
        }
        if isThesis {
          totalItemsProcessed := totalItemsProcessed + 1;
          if totalItemsProcessed >= MaxItemsPerRun {
            return None;
          }
        }
        assert items[i..][1..] == items[i + 1..];
        i := i + 1;
      }
      assert items[i..] == [];
      return listing.failure;
    }
  }
}
