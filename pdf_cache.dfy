/** The PDF cache of App.tsx: one object store keyed by page key, each
    entry an asset record holding the file, and the two loaders that read
    the cache and, on a miss, fetch the bundled PDF and store it. The
    database is a map from page key to record. */
module PdfCache {
  import opened Wrappers

  type Blob = seq<bv8>

  /** A `File`: its name and its bytes. */
  datatype File = File(name: string, bytes: Blob)

  /** The stored record (`id`, `filename`, `page_key`, `data`,
      `created_at`). */
  datatype PdfAsset = PdfAsset(id: string, filename: string, pageKey: string, data: Blob, createdAt: string)

  /** What `fetch` gives: a network failure, or a response with its `ok`
      flag and its body. */
  datatype FetchOutcome = NetworkError | Response(ok: bool, body: Blob)

  /** Why a loader threw: the request failed, or the response was not ok
      (with the loader's message). */
  datatype LoadError = RequestFailed | NotFound(message: string)

  const MainKey := "pdf"
  const MainFilename := "pdf.pdf"
  const MainNotFound := "O arquivo PDF principal n\U{e3}o foi encontrado."
  const BookerKey := "booker"
  const BookerFilename := "booker-page.pdf"
  const BookerNotFound := "O arquivo PDF do booker n\U{e3}o foi encontrado."

  /** The record `savePdfToDb` writes for `file` under `pageKey`. */
  function AssetFor(file: File, pageKey: string, now: string): (a: PdfAsset)
    ensures a.id == pageKey && a.pageKey == pageKey
    ensures a.data == file.bytes && a.filename == file.name && a.createdAt == now
  {
    PdfAsset(pageKey, file.name, pageKey, file.bytes, now)
  }

  /** `store.put(asset, pageKey)`: an upsert. */
  function Put(assets: map<string, PdfAsset>, file: File, pageKey: string, now: string): (r: map<string, PdfAsset>)
    ensures r.Keys == assets.Keys + {pageKey}
    ensures r[pageKey].data == file.bytes
    ensures forall k :: k in assets && k != pageKey ==> r[k] == assets[k]
  {
    assets[pageKey := AssetFor(file, pageKey, now)]
  }

  /** `loadPdfFromDb`: the stored blob, or `null` (`None`). */
  function Get(assets: map<string, PdfAsset>, pageKey: string): (r: Option<Blob>)
    ensures r.Some? <==> pageKey in assets
    ensures r.Some? ==> r.value == assets[pageKey].data
  {
    if pageKey in assets then Some(assets[pageKey].data) else None
  }

  /** `store.delete(pageKey)`. */
  function Delete(assets: map<string, PdfAsset>, pageKey: string): (r: map<string, PdfAsset>)
    ensures r.Keys == assets.Keys - {pageKey}
    ensures forall k :: k in r ==> r[k] == assets[k]
  {
    assets - {pageKey}
  }

  /** How a loader ends: the store after it, its result, and whether it
      called `fetch`. */
  datatype Loaded = Loaded(assets: map<string, PdfAsset>, result: Result<Blob, LoadError>, fetched: bool)

  /** Reference definition of a loader: read the cache; on a miss fetch,
      throw unless the response is ok, else store the body as a file named
      `filename` under the same key and return it. */
  function Fallback(assets: map<string, PdfAsset>, pageKey: string, filename: string, notFound: string,
                    outcome: FetchOutcome, now: string): (r: Loaded)
    ensures r.fetched <==> pageKey !in assets
    ensures r.result.Err? ==> r.assets == assets
  {
    match Get(assets, pageKey)
    case Some(blob) => Loaded(assets, Ok(blob), false)
    case None =>
      match outcome
      case NetworkError => Loaded(assets, Err(RequestFailed), true)
      case Response(ok, body) =>
        if !ok then Loaded(assets, Err(NotFound(notFound)), true)
        else Loaded(Put(assets, File(filename, body), pageKey, now), Ok(body), true)
  }

  /** A stored blob is read back. */
  lemma SaveThenLoad(assets: map<string, PdfAsset>, file: File, pageKey: string, now: string)
    ensures Get(Put(assets, file, pageKey, now), pageKey) == Some(file.bytes)
  {
  }

  /** Saving under one key leaves what another key reads. */
  lemma SaveKeepsOtherKeys(assets: map<string, PdfAsset>, file: File, pageKey: string, other: string, now: string)
    requires other != pageKey
    ensures Get(Put(assets, file, pageKey, now), other) == Get(assets, other)
  {
  }

  /** A second save under the same key replaces the first. */
  lemma SaveOverwrites(assets: map<string, PdfAsset>, first: File, second: File, pageKey: string, t1: string, t2: string)
    ensures Put(Put(assets, first, pageKey, t1), second, pageKey, t2) == Put(assets, second, pageKey, t2)
  {
  }

  /** A removed key reads as missing. */
  lemma RemoveThenLoad(assets: map<string, PdfAsset>, pageKey: string)
    ensures Get(Delete(assets, pageKey), pageKey) == None
  {
  }

  /** A hit returns the stored blob, without a fetch and without a write. */
  lemma HitNeverFetches(assets: map<string, PdfAsset>, pageKey: string, filename: string, notFound: string,
                        outcome: FetchOutcome, now: string)
    requires pageKey in assets
    ensures Fallback(assets, pageKey, filename, notFound, outcome, now)
         == Loaded(assets, Ok(assets[pageKey].data), false)
  {
  }

  /** A miss with an ok response stores the body under the same key and
      returns it. */
  lemma MissStoresFetchedBody(assets: map<string, PdfAsset>, pageKey: string, filename: string, notFound: string,
                              body: Blob, now: string)
    requires pageKey !in assets
    ensures var r := Fallback(assets, pageKey, filename, notFound, Response(true, body), now);
      r.result == Ok(body) && r.fetched && Get(r.assets, pageKey) == Some(body)
      && r.assets[pageKey] == PdfAsset(pageKey, filename, pageKey, body, now)
      && r.assets.Keys == assets.Keys + {pageKey}
  {
  }

  /** A miss with a failed request or a response that is not ok throws
      and leaves the store as it was. */
  lemma MissWithoutBodyThrows(assets: map<string, PdfAsset>, pageKey: string, filename: string, notFound: string,
                              outcome: FetchOutcome, now: string)
    requires pageKey !in assets && !(outcome.Response? && outcome.ok)
    ensures var r := Fallback(assets, pageKey, filename, notFound, outcome, now);
      r.assets == assets && r.fetched
      && r.result == (if outcome.NetworkError? then Err(RequestFailed) else Err(NotFound(notFound)))
  {
  }

  /** After a successful load, loading again is a hit on the same blob,
      whatever the network does then. */
  lemma SecondLoadHits(assets: map<string, PdfAsset>, pageKey: string, filename: string, notFound: string,
                       first: FetchOutcome, second: FetchOutcome, t1: string, t2: string)
    requires Fallback(assets, pageKey, filename, notFound, first, t1).result.Ok?
    ensures var r1 := Fallback(assets, pageKey, filename, notFound, first, t1);
      var r2 := Fallback(r1.assets, pageKey, filename, notFound, second, t2);
      r2 == Loaded(r1.assets, r1.result, false)
  {
  }

  /** The object store. */
  class PdfStore {
    var assets: map<string, PdfAsset>

    constructor ()
      ensures assets == map[]
    {
      assets := map[];
    }

    /** `savePdfToDb(file, pageKey)`; `now` is the time of the save. */
    method Save(file: File, pageKey: string, now: string)
      modifies this
      ensures assets == Put(old(assets), file, pageKey, now)
    {
      assets := assets[pageKey := AssetFor(file, pageKey, now)];
    }

    /** `loadPdfFromDb(pageKey)`. */
    method Load(pageKey: string) returns (r: Option<Blob>)
      ensures r.Some? <==> pageKey in assets
      ensures r.Some? ==> r.value == assets[pageKey].data
    {
      if pageKey in assets {
        r := Some(assets[pageKey].data);
      } else {
        r := None;
      }
    }

    /** `removePdfFromDb(pageKey)`. */
    method Remove(pageKey: string)
      modifies this
      ensures assets == Delete(old(assets), pageKey)
    {
      assets := assets - {pageKey};
    }

    /** The loaders' shared steps: load; on a miss fetch (the outcome is
        `outcome`), throw unless ok, else save and return the body. */
    method LoadOrFetch(pageKey: string, filename: string, notFound: string, outcome: FetchOutcome, now: string)
      returns (result: Result<Blob, LoadError>, fetched: bool)
      modifies this
      ensures Loaded(assets, result, fetched) == Fallback(old(assets), pageKey, filename, notFound, outcome, now)
    {
      var cached := Load(pageKey);
      fetched := false;
      if cached.Some? {
        return Ok(cached.value), fetched;
      }
      fetched := true;
      if outcome.NetworkError? {
        return Err(RequestFailed), fetched;
      }
      if !outcome.ok {
        return Err(NotFound(notFound)), fetched;
      }
      Save(File(filename, outcome.body), pageKey, now);
      result := Ok(outcome.body);
    }

    /** `loadMainPdf` in `handleAccess`, fetching `/home.pdf` on a miss. */
    method LoadMainPdf(outcome: FetchOutcome, now: string) returns (result: Result<Blob, LoadError>, fetched: bool)
      modifies this
      ensures Loaded(assets, result, fetched) == Fallback(old(assets), MainKey, MainFilename, MainNotFound, outcome, now)
    {
      result, fetched := LoadOrFetch(MainKey, MainFilename, MainNotFound, outcome, now);
    }

    /** `loadBookerPdf` in `handleNavigate`, fetching `/abracadabra.pdf` on a
        miss. */
    method LoadBookerPdf(outcome: FetchOutcome, now: string) returns (result: Result<Blob, LoadError>, fetched: bool)
      modifies this
      ensures Loaded(assets, result, fetched) == Fallback(old(assets), BookerKey, BookerFilename, BookerNotFound, outcome, now)
    {
      result, fetched := LoadOrFetch(BookerKey, BookerFilename, BookerNotFound, outcome, now);
    }
  }

  /** Opening the PDF page twice on an empty cache: the first load fetches
      and stores, the second is a hit on the same bytes and does not
      fetch even though the network is down. */
  method MainPdfTwice(body: Blob) returns (first: Result<Blob, LoadError>, second: Result<Blob, LoadError>)
    ensures first == Ok(body) && second == Ok(body)
  {
    var store := new PdfStore();
    var fetched;
    first, fetched := store.LoadMainPdf(Response(true, body), "t1");
    assert fetched;
    second, fetched := store.LoadMainPdf(NetworkError, "t2");
    assert !fetched;
  }

  /** The booker page is stored under its own key: loading it does not
      fill the main page's entry. */
  method BookerKeyIsSeparate(body: Blob) returns (main: Option<Blob>)
    ensures main == None
  {
    var store := new PdfStore();
    var result, fetched := store.LoadBookerPdf(Response(true, body), "t1");
    main := store.Load(MainKey);
  }
}
