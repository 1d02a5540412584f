/** The per-handle cache (`DOCS_CACHE`) both harvesters keep, the files they
    write, and the cache steps both versions share: classification, the text
    path, text extraction and the PDF download.

    A cache entry is a dictionary that may hold `is_thesis`, `filename` and
    `textfile`; a key that is not there is None here. The file system is a
    map from path to content. The text-extraction service, the PDF server and
    the random training/test choice are parameters. */
module HarvestCache {
  import opened Base
  import opened Documents
  import opened OaiPmh

  datatype Entry = Entry(isThesis: Option<bool>, filename: Option<string>, textfile: Option<string>)

  /** The `{}` a handle gets when it is first listed. */
  const EmptyEntry: Entry := Entry(None, None, None)

  type Cache = map<string, Entry>

  /** Path to content. */
  type Files = map<string, string>

  // ---------------------------------------------------------------------
  // What a harvester works with

  /** What the harvester reads from its surroundings: the thesis set list,
      `CUR_DIR` and the OAI identifier prefix `DSPACE_OAI_IDENTIFIER`. */
  datatype Config = Config(catalog: set<string>, curDir: string, oaiPrefix: string)

  /** The services a run talks to: the OAI-PMH endpoint (a parsed response,
      None when the body is not well-formed XML), the PDF server (a body, None
      for a rejected response), the text-extraction service and the random
      choice of subdirectory for a handle. */
  datatype Env = Env(
    server: Query -> Parsed,
    download: string -> Option<string>,
    tika: string -> TikaReply,
    pick: string -> Subdir)

  // ---------------------------------------------------------------------
  // Classification: `is_thesis`

  /** Some set of the item is a thesis collection: `any(s in THESIS_SET_LIST.keys() for s in sets)`
      (a set without text is never a key). */
  predicate InCatalog(catalog: set<string>, sets: seq<Text>) {
    exists i | 0 <= i < |sets| :: sets[i].Some? && sets[i].value in catalog
  }

  /** `is_thesis(item)`: the stored answer when there is one; otherwise the
      answer read from the sets, stored in the item's entry. The handler's
      store raises KeyError when the handle has no entry. */
  function IsThesisStep(catalog: set<string>, cache: Cache, item: Item): (r: Result<(bool, Cache)>)
    ensures r.Raise? <==> item.handle !in cache
    ensures r.Raise? ==> r.exc == KeyError
    ensures r.Ok? ==> r.value.1 == cache[item.handle := cache[item.handle].(isThesis := Some(r.value.0))]
    ensures r.Ok? && cache[item.handle].isThesis.Some? ==> r.value == (cache[item.handle].isThesis.value, cache)
    ensures r.Ok? && cache[item.handle].isThesis.None? ==> r.value.0 == InCatalog(catalog, item.sets)
  {
    if item.handle !in cache then Raise(KeyError)
    else
      var entry := cache[item.handle];
      if entry.isThesis.Some? then Ok((entry.isThesis.value, cache))
      else
        var answer := InCatalog(catalog, item.sets);
        Ok((answer, cache[item.handle := entry.(isThesis := Some(answer))]))
  }

  /** Classification is memoised: once answered for a handle, every later
      call answers the same, whatever sets the item then lists, and leaves the
      cache as it is. */
  lemma IsThesisMemoised(catalog: set<string>, cache: Cache, item: Item, sets: seq<Text>)
    requires IsThesisStep(catalog, cache, item).Ok?
    ensures var (answer, cache') := IsThesisStep(catalog, cache, item).value;
      IsThesisStep(catalog, cache', item.(sets := sets)) == Ok((answer, cache'))
  {
  }

  /** An item without sets is not a thesis. */
  lemma NoSetsNoThesis(catalog: set<string>, cache: Cache, handle: string, identifier: string)
    requires handle in cache && cache[handle].isThesis.None?
    ensures IsThesisStep(catalog, cache, Item(handle, identifier, [])).value.0 == false
  {
  }

  // ---------------------------------------------------------------------
  // The text path: `split_data`

  /** The two subdirectories of `FILES_SUBDIRS`, training first. */
  datatype Subdir = Training | Test

  function SubdirName(d: Subdir): string {
    match d
    case Training => "training"
    case Test => "test"
  }

  const FilesDir: string := "files"

  /** `'{}/{}/{}/{}.txt'.format(CUR_DIR, FILES_DIR, set_dir, filename)`. */
  function SplitPath(curDir: string, d: Subdir, filename: string): string {
    curDir + "/" + FilesDir + "/" + SubdirName(d) + "/" + filename + ".txt"
  }

  /** The text path lies under `<curDir>/files/`, in the chosen subdirectory,
      and ends with the file name and `.txt`; it never is the file name
      itself. */
  lemma SplitPathShape(curDir: string, d: Subdir, filename: string)
    ensures var p := SplitPath(curDir, d, filename);
      && p[..|curDir| + 7] == curDir + "/files/"
      && p[|curDir| + 7..|curDir| + 7 + |SubdirName(d)| + 1] == SubdirName(d) + "/"
      && p[|p| - |filename| - 4..] == filename + ".txt"
      && |p| > |filename|
      && p != filename
  {
    var p := SplitPath(curDir, d, filename);
    assert p == (curDir + "/files/") + (SubdirName(d) + "/") + (filename + ".txt");
  }

  lemma SplitPathParts(curDir: string, d: Subdir, f: string)
    ensures SplitPath(curDir, d, f) == (curDir + "/files/") + (SubdirName(d) + "/" + (f + ".txt"))
  {
  }

  /** Different subdirectories or file names give different text paths. */
  lemma SplitPathInjective(curDir: string, d1: Subdir, f1: string, d2: Subdir, f2: string)
    requires SplitPath(curDir, d1, f1) == SplitPath(curDir, d2, f2)
    ensures d1 == d2 && f1 == f2
  {
    SplitPathParts(curDir, d1, f1);
    SplitPathParts(curDir, d2, f2);
    var t1 := SubdirName(d1) + "/" + (f1 + ".txt");
    var t2 := SubdirName(d2) + "/" + (f2 + ".txt");
    PrefixCancel(curDir + "/files/", t1, t2);
    assert t1[1] == SubdirName(d1)[1] && t2[1] == SubdirName(d2)[1];
    assert d1 == d2;
    PrefixCancel(SubdirName(d1) + "/", f1 + ".txt", f2 + ".txt");
    SuffixCancel(f1, f2, ".txt");
  }

  lemma PrefixCancel(a: string, x: string, y: string)
    requires a + x == a + y
    ensures x == y
  {
    assert x == (a + x)[|a|..];
    assert y == (a + y)[|a|..];
  }

  lemma SuffixCancel(x: string, y: string, b: string)
    requires x + b == y + b
    ensures x == y
  {
    assert |x| == |y|;
    assert x == (x + b)[..|x|];
    assert y == (y + b)[..|y|];
  }

  /** `split_data(item)` for the chosen subdirectory `d`: the text path of the
      entry's downloaded file; KeyError when there is none. */
  function SplitData(curDir: string, cache: Cache, handle: string, d: Subdir): (r: Result<string>)
    ensures r.Raise? <==> handle !in cache || cache[handle].filename.None?
    ensures r.Raise? ==> r.exc == KeyError
    ensures r.Ok? ==> r.value == SplitPath(curDir, d, cache[handle].filename.value)
  {
    if handle in cache && cache[handle].filename.Some? then Ok(SplitPath(curDir, d, cache[handle].filename.value))
    else Raise(KeyError)
  }

  // ---------------------------------------------------------------------
  // Text extraction: `extract_text`

  /** What the extraction service answers for a file's bytes: the text, a
      reply without content, or a failure of the service. */
  datatype TikaReply = Content(text: string) | NoContent | ServiceFailure

  /** The cache and files after a step, and what the step returned or raised. */
  datatype TextStep = TextStep(cache: Cache, files: Files, result: Result<string>)

  /** `extract_text(item)`, with `d` the subdirectory `split_data` picks.
      - A recorded text file is read back (FileNotFound when it is gone).
      - Otherwise the downloaded file is sent to the extraction service; the
        text is written to the text path, the path recorded and the download
        removed.
      - No downloaded file is a KeyError. A reply without content opens the
        text file (leaving it empty) and then `f.write(None)` raises
        TypeError.
      Whatever is returned is the content of the entry's recorded text file,
      and a step that raises records nothing in the cache. */
  function ExtractTextStep(curDir: string, cache: Cache, files: Files, handle: string, d: Subdir, tika: string -> TikaReply): (t: TextStep)
    ensures t.result == Raise(KeyError) <==> handle !in cache || (cache[handle].textfile.None? && cache[handle].filename.None?)
    ensures t.result.Ok? ==>
      && handle in cache && handle in t.cache && t.cache[handle].textfile.Some?
      && t.cache[handle].textfile.value in t.files && t.files[t.cache[handle].textfile.value] == t.result.value
    ensures t.result.Ok? && cache[handle].textfile.None? ==>
      t.cache == cache[handle := cache[handle].(textfile := Some(SplitPath(curDir, d, cache[handle].filename.value)))]
    ensures t.result.Raise? ==> t.cache == cache
    ensures t.result.Raise? && t.files != files ==> t.result == Raise(TypeError)
  {
    if handle !in cache then TextStep(cache, files, Raise(KeyError))
    else
      var entry := cache[handle];
      if entry.textfile.Some? then
        if entry.textfile.value in files then TextStep(cache, files, Ok(files[entry.textfile.value]))
        else TextStep(cache, files, Raise(FileNotFound))
      else if entry.filename.None? then TextStep(cache, files, Raise(KeyError))
      else
        var fn := entry.filename.value;
        if fn !in files then TextStep(cache, files, Raise(FileNotFound))
        else
          var textfile := SplitPath(curDir, d, fn);
          match tika(files[fn])
          case ServiceFailure => TextStep(cache, files, Raise(ExtractionError))
          case NoContent => TextStep(cache, files[textfile := ""], Raise(TypeError))
          case Content(text) =>
            SplitPathShape(curDir, d, fn);
            TextStep(cache[handle := entry.(textfile := Some(textfile))], files[textfile := text] - {fn}, Ok(text))
  }

  /** With a text file recorded (and present), extraction returns its content
      and changes neither the cache nor the files. */
  lemma ExtractTextCached(curDir: string, cache: Cache, files: Files, handle: string, d: Subdir, tika: string -> TikaReply)
    requires handle in cache && cache[handle].textfile.Some? && cache[handle].textfile.value in files
    ensures ExtractTextStep(curDir, cache, files, handle, d, tika) == TextStep(cache, files, Ok(files[cache[handle].textfile.value]))
  {
  }

  /** A first extraction of a downloaded file `fn` whose content the service
      reads as `text` returns that text, records the text path, writes the
      text there and removes the downloaded file; no other entry and no other
      file changes. */
  lemma ExtractTextRecords(curDir: string, cache: Cache, files: Files, handle: string, d: Subdir, tika: string -> TikaReply, fn: string, text: string)
    requires handle in cache && cache[handle].textfile.None? && cache[handle].filename == Some(fn)
    requires fn in files && tika(files[fn]) == Content(text)
    ensures var t := ExtractTextStep(curDir, cache, files, handle, d, tika);
      var textfile := SplitPath(curDir, d, fn);
      && t.result == Ok(text)
      && t.cache == cache[handle := cache[handle].(textfile := Some(textfile))]
      && t.files == files[textfile := text] - {fn}
      && textfile in t.files && t.files[textfile] == text
      && fn !in t.files
      && forall p | p in files && p != fn && p != textfile :: p in t.files && t.files[p] == files[p]
  {
    SplitPathShape(curDir, d, fn);
  }

  /** How a first extraction fails: KeyError without a downloaded file,
      FileNotFound when that file is gone, ExtractionError when the service
      fails, and TypeError, with an empty text file left behind, when it
      answers without content. None of them records anything. */
  lemma ExtractTextFailures(curDir: string, cache: Cache, files: Files, handle: string, d: Subdir, tika: string -> TikaReply)
    requires handle in cache && cache[handle].textfile.None?
    ensures var t := ExtractTextStep(curDir, cache, files, handle, d, tika);
      var fn := cache[handle].filename;
      && (fn.None? ==> t == TextStep(cache, files, Raise(KeyError)))
      && (fn.Some? && fn.value !in files ==> t == TextStep(cache, files, Raise(FileNotFound)))
      && (fn.Some? && fn.value in files && tika(files[fn.value]).ServiceFailure? ==>
            t == TextStep(cache, files, Raise(ExtractionError)))
      && (fn.Some? && fn.value in files && tika(files[fn.value]).NoContent? ==>
            t == TextStep(cache, files[SplitPath(curDir, d, fn.value) := ""], Raise(TypeError)))
  {
  }

  /** Extraction is idempotent per handle: after a successful extraction, a
      second one returns the same text and changes nothing, whatever
      subdirectory and service it is given. */
  lemma ExtractTextIdempotent(curDir: string, cache: Cache, files: Files, handle: string, d: Subdir, tika: string -> TikaReply, d2: Subdir, tika2: string -> TikaReply)
    requires ExtractTextStep(curDir, cache, files, handle, d, tika).result.Ok?
    ensures var t := ExtractTextStep(curDir, cache, files, handle, d, tika);
      ExtractTextStep(curDir, t.cache, t.files, handle, d2, tika2) == TextStep(t.cache, t.files, t.result)
  {
  }

  // ---------------------------------------------------------------------
  // The PDF download in `get_single_network_file`

  /** The cache and files after a download, and the exception it raised. */
  datatype Fetch = Fetch(cache: Cache, files: Files, raised: Option<Exc>)

  /** `with open(handle, 'wb') as f: ...`: the file named by the handle is
      opened (and emptied), the PDF written into it and its name recorded as
      the entry's `filename`. `download(url)` is the body, or None for a
      response `raise_for_status` rejects (HttpError, leaving the file empty).
      Recording the name raises KeyError when the handle has no entry. */
  function DownloadStep(cache: Cache, files: Files, handle: string, url: string, download: string -> Option<string>): (f: Fetch)
    ensures f.raised.None? <==> download(url).Some? && handle in cache
    ensures download(url).None? ==> f.raised == Some(HttpError) && f.files == files[handle := ""]
    ensures download(url).Some? ==> f.files == files[handle := download(url).value]
    ensures f.raised.None? ==> f.cache == cache[handle := cache[handle].(filename := Some(handle))]
    ensures f.raised.Some? ==> f.cache == cache
  {
    match download(url)
    case None => Fetch(cache, files[handle := ""], Some(HttpError))
    case Some(body) =>
      if handle !in cache then Fetch(cache, files[handle := body], Some(KeyError))
      else Fetch(cache[handle := cache[handle].(filename := Some(handle))], files[handle := body], None)
  }

  // ---------------------------------------------------------------------
  // Invariants of the cache

  /** Every entry's `filename` is its handle (the PDF is saved under the
      handle), and a recorded text file is the text path of that file in one
      of the two subdirectories. */
  predicate CacheValid(curDir: string, cache: Cache) {
    forall h | h in cache ::
      && (cache[h].filename.Some? ==> cache[h].filename.value == h)
      && (cache[h].textfile.Some? ==>
            cache[h].filename.Some? &&
            (cache[h].textfile.value == SplitPath(curDir, Training, h) || cache[h].textfile.value == SplitPath(curDir, Test, h)))
  }

  /** A field whose value is known keeps it. */
  predicate Keeps<T(==)>(before: Option<T>, after: Option<T>) {
    before.Some? ==> after == before
  }

  /** `after` knows everything `before` knows: no handle is forgotten and no
      known field changes. */
  predicate Enriches(before: Cache, after: Cache) {
    && before.Keys <= after.Keys
    && forall h | h in before ::
      && Keeps(before[h].isThesis, after[h].isThesis)
      && Keeps(before[h].filename, after[h].filename)
      && Keeps(before[h].textfile, after[h].textfile)
  }

  lemma EnrichesTransitive(a: Cache, b: Cache, c: Cache)
    requires Enriches(a, b) && Enriches(b, c)
    ensures Enriches(a, c)
  {
  }

  /** Classification keeps the cache valid and only adds to it. */
  lemma IsThesisKeepsCache(curDir: string, catalog: set<string>, cache: Cache, item: Item)
    requires CacheValid(curDir, cache) && IsThesisStep(catalog, cache, item).Ok?
    ensures CacheValid(curDir, IsThesisStep(catalog, cache, item).value.1)
    ensures Enriches(cache, IsThesisStep(catalog, cache, item).value.1)
  {
  }

  /** Extraction keeps the cache valid and only adds to it. */
  lemma ExtractTextKeepsCache(curDir: string, cache: Cache, files: Files, handle: string, d: Subdir, tika: string -> TikaReply)
    requires CacheValid(curDir, cache)
    ensures CacheValid(curDir, ExtractTextStep(curDir, cache, files, handle, d, tika).cache)
    ensures Enriches(cache, ExtractTextStep(curDir, cache, files, handle, d, tika).cache)
  {
  }

  /** A download keeps the cache valid and only adds to it. */
  lemma DownloadKeepsCache(curDir: string, cache: Cache, files: Files, handle: string, url: string, download: string -> Option<string>)
    requires CacheValid(curDir, cache)
    ensures CacheValid(curDir, DownloadStep(cache, files, handle, url, download).cache)
    ensures Enriches(cache, DownloadStep(cache, files, handle, url, download).cache)
  {
  }
}
