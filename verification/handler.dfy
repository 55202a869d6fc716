/** The request handler `checkEvents` and its helpers (index.js:12-117,
    index.js:172-201): read today's cache partition, answer from it when it
    holds documents, and otherwise scrape, process, answer and persist the
    events in chunks of five. The HTTP framework, the markup parser, the image
    pipeline and the document store are parameters or values passed in. */
module Handler {
  import opened Wrappers
  import opened Seqs
  import opened Chunking
  import opened DateStamps
  import opened Events
  import opened Images

  // ---------------------------------------------------------------------------
  // processEvents / parseEvents / downloadAndParse
  // ---------------------------------------------------------------------------

  /** `processEvents`: clean and title-case every event, drop the past ones,
      then embed the images of those that remain. */
  function ProcessEvents(events: seq<Event>, fetch: DateStamp, get: Option<string> -> Result<string>)
    : (r: Result<seq<Event>>)
    ensures r.Success? ==> |r.value| <= |events|
  {
    var kept := FilterUpcoming(NormalizeAll(events), fetch);
    SubsequenceElements(kept, NormalizeAll(events));
    HandleImage(kept, get)
  }

  /** The events kept for enrichment are normalised inputs that are
      upcoming. */
  lemma KeptEvent(events: seq<Event>, fetch: DateStamp, x: Event)
    ensures x in FilterUpcoming(NormalizeAll(events), fetch) ==>
              IsNormalized(x) && IsUpcoming(x.date, fetch) &&
              exists k :: 0 <= k < |events| && x == NormalizeEvent(events[k])
  {
    var normalized := NormalizeAll(events);
    var kept := FilterUpcoming(normalized, fetch);
    SubsequenceElements(kept, normalized);
  }

  /** On success every returned event is normalised, upcoming, carries an
      image and no image link. */
  lemma ProcessEventsOutput(events: seq<Event>, fetch: DateStamp, get: Option<string> -> Result<string>)
    requires ProcessEvents(events, fetch, get).Success?
    ensures var out := ProcessEvents(events, fetch, get).value;
            forall i :: 0 <= i < |out| ==>
              && IsNormalized(out[i]) && IsUpcoming(out[i].date, fetch)
              && out[i].imageLink.None? && out[i].image.Some?
  {
    var kept := FilterUpcoming(NormalizeAll(events), fetch);
    var out := HandleImage(kept, get).value;
    assert out == ProcessEvents(events, fetch, get).value;
    forall i | 0 <= i < |out|
      ensures IsNormalized(out[i]) && IsUpcoming(out[i].date, fetch)
    {
      KeptEvent(events, fetch, kept[i]);
      assert out[i] == WithImage(kept[i], get(kept[i].imageLink).value);
    }
  }

  /** On success the output is, position by position, the enriched list of
      kept events, and that list holds every upcoming normalised event exactly
      as often as the normalised input does; in particular every upcoming
      input event is returned, normalised and enriched with the image its
      link yields. */
  lemma ProcessEventsKeepsUpcoming(events: seq<Event>, fetch: DateStamp, get: Option<string> -> Result<string>)
    requires ProcessEvents(events, fetch, get).Success?
    ensures var kept := FilterUpcoming(NormalizeAll(events), fetch);
            var out := ProcessEvents(events, fetch, get).value;
            && |out| == |kept|
            && (forall i :: 0 <= i < |out| ==> out[i] == WithImage(kept[i], get(kept[i].imageLink).value))
            && KeepsUpcomingCopies(kept, NormalizeAll(events), fetch)
    ensures forall e :: e in events && IsUpcoming(NormalizeEvent(e).date, fetch) ==>
              get(e.imageLink).Success? &&
              WithImage(NormalizeEvent(e), get(e.imageLink).value) in ProcessEvents(events, fetch, get).value
  {
    forall e | e in events && IsUpcoming(NormalizeEvent(e).date, fetch)
      ensures get(e.imageLink).Success? &&
              WithImage(NormalizeEvent(e), get(e.imageLink).value) in ProcessEvents(events, fetch, get).value
    {
      UpcomingIsReturned(events, fetch, get, e);
    }
  }

  /** One upcoming input event is returned, normalised and enriched. */
  lemma UpcomingIsReturned(events: seq<Event>, fetch: DateStamp, get: Option<string> -> Result<string>, e: Event)
    ensures ProcessEvents(events, fetch, get).Success? && e in events && IsUpcoming(NormalizeEvent(e).date, fetch) ==>
              get(e.imageLink).Success? &&
              WithImage(NormalizeEvent(e), get(e.imageLink).value) in ProcessEvents(events, fetch, get).value
  {
    if ProcessEvents(events, fetch, get).Success? && e in events && IsUpcoming(NormalizeEvent(e).date, fetch) {
      var kept := FilterUpcoming(NormalizeAll(events), fetch);
      var out := HandleImage(kept, get).value;
      assert out == ProcessEvents(events, fetch, get).value;
      UpcomingIsKept(events, fetch, e);
      var i :| 0 <= i < |kept| && kept[i] == NormalizeEvent(e);
      assert get(kept[i].imageLink).Success?;
      assert out[i] == WithImage(kept[i], get(e.imageLink).value);
    }
  }

  /** Processing fails exactly when the image of some upcoming event cannot
      be fetched; the images of dropped events play no part. */
  lemma ProcessEventsFailure(events: seq<Event>, fetch: DateStamp, get: Option<string> -> Result<string>)
    ensures ProcessEvents(events, fetch, get).Failure? <==>
            exists e :: e in events && IsUpcoming(NormalizeEvent(e).date, fetch) && get(e.imageLink).Failure?
  {
    var cause := FailureCause(events, fetch, get);
    if exists e :: e in events && IsUpcoming(NormalizeEvent(e).date, fetch) && get(e.imageLink).Failure? {
      var e :| e in events && IsUpcoming(NormalizeEvent(e).date, fetch) && get(e.imageLink).Failure?;
      FailingImageFails(events, fetch, get, e);
    }
  }

  /** An upcoming input event whose image cannot be fetched, when processing
      fails. */
  lemma FailureCause(events: seq<Event>, fetch: DateStamp, get: Option<string> -> Result<string>)
    returns (e: Event)
    ensures ProcessEvents(events, fetch, get).Failure? ==>
              e in events && IsUpcoming(NormalizeEvent(e).date, fetch) && get(e.imageLink).Failure?
  {
    e := Event(None, None, None, "", "", "", "");
    var kept := FilterUpcoming(NormalizeAll(events), fetch);
    var r := HandleImage(kept, get);
    assert r == ProcessEvents(events, fetch, get);
    if r.Failure? {
      var i :| 0 <= i < |kept| && get(kept[i].imageLink) == Failure(r.error);
      KeptEvent(events, fetch, kept[i]);
      var k :| 0 <= k < |events| && kept[i] == NormalizeEvent(events[k]);
      e := events[k];
    }
  }

  /** An upcoming input event whose image cannot be fetched makes processing
      fail. */
  lemma FailingImageFails(events: seq<Event>, fetch: DateStamp, get: Option<string> -> Result<string>, e: Event)
    ensures e in events && IsUpcoming(NormalizeEvent(e).date, fetch) && get(e.imageLink).Failure? ==>
              ProcessEvents(events, fetch, get).Failure?
  {
    if e in events && IsUpcoming(NormalizeEvent(e).date, fetch) && get(e.imageLink).Failure? {
      UpcomingIsKept(events, fetch, e);
      var kept := FilterUpcoming(NormalizeAll(events), fetch);
      var i :| 0 <= i < |kept| && kept[i] == NormalizeEvent(e);
      assert get(kept[i].imageLink).Failure?;
    }
  }

  /** Every upcoming input event is kept, normalised. */
  lemma UpcomingIsKept(events: seq<Event>, fetch: DateStamp, e: Event)
    ensures e in events && IsUpcoming(NormalizeEvent(e).date, fetch) ==>
              NormalizeEvent(e) in FilterUpcoming(NormalizeAll(events), fetch)
  {
    if e in events {
      var k :| 0 <= k < |events| && events[k] == e;
      assert NormalizeAll(events)[k] == NormalizeEvent(e);
    }
  }

  /** `parseEvents` after the markup has been taken apart: one record per
      extracted block, then `processEvents`. */
  function ParseEvents(extracted: seq<RawFields>, fetch: DateStamp, get: Option<string> -> Result<string>)
    : (r: Result<seq<Event>>)
    ensures r.Success? ==> |r.value| <= |extracted|
  {
    ProcessEvents(seq(|extracted|, i requires 0 <= i < |extracted| => ExtractedEvent(extracted[i], fetch)), fetch, get)
  }

  /** Every event `parseEvents` returns carries the fetch date's key and a
      non-empty category. */
  lemma ParseEventsStamp(extracted: seq<RawFields>, fetch: DateStamp, get: Option<string> -> Result<string>)
    ensures ParseEvents(extracted, fetch, get).Success? ==>
              forall e :: e in ParseEvents(extracted, fetch, get).value ==>
                e.fetchDate == fetch.formatted && |e.category| > 0
  {
    var events := seq(|extracted|, i requires 0 <= i < |extracted| => ExtractedEvent(extracted[i], fetch));
    var kept := FilterUpcoming(NormalizeAll(events), fetch);
    var r := HandleImage(kept, get);
    assert r == ParseEvents(extracted, fetch, get);
    if r.Success? {
      var out := r.value;
      forall e | e in out
        ensures e.fetchDate == fetch.formatted && |e.category| > 0
      {
        var i :| 0 <= i < |out| && out[i] == e;
        KeptEvent(events, fetch, kept[i]);
        assert out[i] == WithImage(kept[i], get(kept[i].imageLink).value);
      }
    }
  }

  /** `downloadAndParse`: the page fetched from the source, taken apart by the
      extractor, then parsed and processed. A failed fetch is the outcome;
      a success holds at most one event per extracted block, each stamped
      with the fetch date. */
  function DownloadAndParse(
    page: Result<string>,
    extract: string -> seq<RawFields>,
    fetch: DateStamp,
    get: Option<string> -> Result<string>): (r: Result<seq<Event>>)
    ensures page.Failure? ==> r == Failure(page.error)
    ensures r.Success? ==> page.Success? && |r.value| <= |extract(page.value)|
    ensures r.Success? ==> forall e :: e in r.value ==> e.fetchDate == fetch.formatted
  {
    match page
    case Failure(e) => Failure(e)
    case Success(html) =>
      ParseEventsStamp(extract(html), fetch, get);
      ParseEvents(extract(html), fetch, get)
  }

  // ---------------------------------------------------------------------------
  // Cache store: checkDatabase and saveEvents
  // ---------------------------------------------------------------------------

  /** The data of one stored document, `{events: chunk}`. */
  datatype StoredChunk = StoredChunk(events: seq<Event>)

  datatype Document = Document(id: string, data: StoredChunk)

  /** One `create` call: the collection written to and the document data. */
  datatype Write = Create(collection: string, data: StoredChunk)

  /** `checkDatabase` on the snapshot of a collection: nothing for an empty
      collection, otherwise one entry per document holding that document's
      whole data, not its events spliced together. */
  function CheckDatabase(snapshot: seq<Document>): (r: Option<seq<StoredChunk>>)
    ensures r.None? <==> |snapshot| == 0
    ensures r.Some? ==> |r.value| == |snapshot|
    ensures r.Some? ==> forall i :: 0 <= i < |snapshot| ==> r.value[i] == snapshot[i].data
  {
    if |snapshot| == 0 then None
    else Some(seq(|snapshot|, i requires 0 <= i < |snapshot| => snapshot[i].data))
  }

  /** `saveEvents`: one `create` in the given collection per chunk, in chunk
      order, each document holding exactly that chunk. */
  function SaveEvents(collection: string, chunks: seq<seq<Event>>): (writes: seq<Write>)
    ensures |writes| == |chunks|
    ensures forall i :: 0 <= i < |chunks| ==>
              writes[i].collection == collection && writes[i].data.events == chunks[i]
  {
    seq(|chunks|, i requires 0 <= i < |chunks| => Create(collection, StoredChunk(chunks[i])))
  }

  /** The events held by a list of writes, in order. */
  function Payloads(writes: seq<Write>): seq<seq<Event>>
  {
    seq(|writes|, i requires 0 <= i < |writes| => writes[i].data.events)
  }

  /** Reading back what `saveEvents` wrote gives the chunks it was handed. */
  lemma PayloadsOfSaved(collection: string, chunks: seq<seq<Event>>)
    ensures Payloads(SaveEvents(collection, chunks)) == chunks
  {
  }

  // ---------------------------------------------------------------------------
  // checkEvents
  // ---------------------------------------------------------------------------

  /** What the client receives: the cached documents, freshly scraped events,
      or a server error. */
  datatype Response = Cached(entries: seq<StoredChunk>) | Fresh(events: seq<Event>) | ServerError(error: string)

  /** The collaborators a cache miss consults: the page the source returns,
      the markup extractor and the image `get`. */
  datatype Scraper = Scraper(
    page: Result<string>,
    extract: string -> seq<RawFields>,
    get: Option<string> -> Result<string>)

  /** The response, whether the source was scraped, and the writes issued
      after responding. */
  datatype Outcome = Outcome(response: Response, scraped: bool, writes: seq<Write>)

  /** `checkEvents` for one request: `snapshot` is the read of the collection
      named by today's key. */
  function CheckEvents(fetch: DateStamp, snapshot: Result<seq<Document>>, scraper: Scraper): (o: Outcome)
    ensures snapshot.Failure? ==> o == Outcome(ServerError(snapshot.error), false, [])
    ensures snapshot.Success? && |snapshot.value| > 0 ==>
              o.response == Cached(CheckDatabase(snapshot.value).value) && !o.scraped && o.writes == []
    ensures snapshot.Success? && |snapshot.value| == 0 ==> o.scraped
    ensures snapshot.Success? && |snapshot.value| == 0 ==>
              var parsed := DownloadAndParse(scraper.page, scraper.extract, fetch, scraper.get);
              o.response == (if parsed.Success? then Fresh(parsed.value) else ServerError(parsed.error))
    ensures o.response.ServerError? ==> o.writes == []
    ensures forall i :: 0 <= i < |o.writes| ==> o.writes[i].collection == fetch.formatted
  {
    match snapshot
    case Failure(e) => Outcome(ServerError(e), false, [])
    case Success(docs) =>
      match CheckDatabase(docs)
      case Some(entries) => Outcome(Cached(entries), false, [])
      case None =>
        match DownloadAndParse(scraper.page, scraper.extract, fetch, scraper.get)
        case Failure(e) => Outcome(ServerError(e), true, [])
        case Success(events) =>
          Outcome(Fresh(events), true, SaveEvents(fetch.formatted, Divide(events, ChunkLength)))
  }

  /** A cache hit answers from the stored documents whatever the scraper
      would have produced: the events page is not consulted. */
  lemma CacheHitIgnoresScraper(fetch: DateStamp, docs: seq<Document>, scraper: Scraper, other: Scraper)
    requires |docs| > 0
    ensures CheckEvents(fetch, Success(docs), scraper) == CheckEvents(fetch, Success(docs), other)
    ensures CheckEvents(fetch, Success(docs), scraper).response.Cached?
    ensures |CheckEvents(fetch, Success(docs), scraper).response.entries| == |docs|
  {
  }

  /** On a miss the client receives exactly what is cached: the created
      documents hold the chunks of five of the response's events, one document
      per chunk and in order, so together they hold those events; there are
      ceil(n / 5) of them, all but the last holding exactly five, and none for
      an empty result. */
  lemma CacheMissPersistsResponse(fetch: DateStamp, scraper: Scraper)
    ensures var o := CheckEvents(fetch, Success([]), scraper);
            o.response.Fresh? ==>
            && Payloads(o.writes) == Divide(o.response.events, ChunkLength)
            && Flatten(Payloads(o.writes)) == o.response.events
            && |o.writes| == CeilDiv(|o.response.events|, ChunkLength)
            && (forall i :: 0 <= i < |o.writes| ==> 0 < |o.writes[i].data.events| <= ChunkLength)
            && (forall i :: 0 <= i < |o.writes| - 1 ==> |o.writes[i].data.events| == ChunkLength)
            && (|o.response.events| == 0 ==> o.writes == [])
  {
    var o := CheckEvents(fetch, Success([]), scraper);
    if o.response.Fresh? {
      assert o.writes == SaveEvents(fetch.formatted, Divide(o.response.events, ChunkLength));
      SavedChunks(fetch.formatted, o.response.events);
    }
  }

  /** Saving the chunks of five of `events` writes one document per chunk, in
      order, which together hold `events`. */
  lemma SavedChunks(collection: string, events: seq<Event>)
    ensures var writes := SaveEvents(collection, Divide(events, ChunkLength));
            && Payloads(writes) == Divide(events, ChunkLength)
            && Flatten(Payloads(writes)) == events
            && |writes| == CeilDiv(|events|, ChunkLength)
            && (forall i :: 0 <= i < |writes| ==> 0 < |writes[i].data.events| <= ChunkLength)
            && (forall i :: 0 <= i < |writes| - 1 ==> |writes[i].data.events| == ChunkLength)
            && (|events| == 0 ==> writes == [])
  {
    var chunks := Divide(events, ChunkLength);
    PayloadsOfSaved(collection, chunks);
    DivideFlatten(events, ChunkLength);
  }
}
