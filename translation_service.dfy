/**
  The page-translation client: the chosen language and the writing
  direction it implies, the per-language cache of translated strings that
  is kept in browser storage, and the batched, retried requests to the
  site's translation endpoint. The endpoint's replies, the browser's
  language and whether storage accepts the cache are parameters.
*/
module ApiTranslation {
  import opened Util
  import SiteScripts

  // ---------------------------------------------------------------------
  // Language and direction
  // ---------------------------------------------------------------------

  /** The right-to-left languages. */
  const RtlLangs: seq<string> := ["ar", "he", "ur", "fa", "ps", "sd"]

  /** applyDirection: the `dir` attribute for a language. */
  function Direction(lang: string): (dir: string)
    ensures dir == "rtl" <==> lang in RtlLangs
    ensures dir == "rtl" || dir == "ltr"
  {
    if lang in RtlLangs then "rtl" else "ltr"
  }

  /** The language detected on a first visit: the browser tag up to the first '-', lower-cased. */
  function FirstVisitLanguage(browserLang: string): (lang: string)
    ensures '-' !in lang
    ensures |lang| <= |browserLang|
  {
    ToLower(Before(browserLang, '-'))
  }

  /** A region subtag is dropped: "en-US" gives "en", "PT-br" gives "pt". */
  lemma FirstVisitDropsRegion(primary: string, region: string)
    requires '-' !in primary
    ensures FirstVisitLanguage(primary + "-" + region) == ToLower(primary)
  {
    var s := primary + "-" + region;
    assert s[..|primary|] == primary && s[|primary|] == '-';
  }

  // ---------------------------------------------------------------------
  // The translation cache: language, then original text, then translation
  // ---------------------------------------------------------------------

  type Cache = map<string, map<string, string>>

  /** `cache[lang]?.[text]`. */
  function Lookup(cache: Cache, lang: string, text: string): Option<string>
  {
    if lang in cache && text in cache[lang] then Some(cache[lang][text]) else None
  }

  /** setCache: the language's table is created when missing, then the entry is written. */
  function WithEntry(cache: Cache, lang: string, original: string, translated: string): (c: Cache)
    ensures lang in c
  {
    var table := if lang in cache then cache[lang] else map[];
    cache[lang := table[original := translated]]
  }

  /** What was set is what is read back, for that language and that text only. */
  lemma CachedAfterSet(cache: Cache, lang: string, original: string, translated: string, lang': string, text: string)
    ensures Lookup(WithEntry(cache, lang, original, translated), lang', text) ==
      if lang' == lang && text == original then Some(translated) else Lookup(cache, lang', text)
  {
  }

  /** `chunk[index]`: past the end of the chunk the key is the text "undefined". */
  function KeyAt(chunk: seq<string>, index: nat): string
  {
    if index < |chunk| then chunk[index] else "undefined"
  }

  /** The forEach over a reply's translations: entry `index` of the reply is stored under `chunk[index]`, from `from` on. */
  function StoreFrom(cache: Cache, lang: string, chunk: seq<string>, translations: seq<string>, from: nat): Cache
    requires from <= |translations|
    decreases |translations| - from
  {
    if from == |translations| then cache
    else StoreFrom(WithEntry(cache, lang, KeyAt(chunk, from), translations[from]), lang, chunk, translations, from + 1)
  }

  /** Storing a reply touches no other language. */
  lemma {:induction false} StoreFromOtherLanguage(cache: Cache, lang: string, chunk: seq<string>, translations: seq<string>, from: nat, other: string, text: string)
    requires from <= |translations| && other != lang
    ensures Lookup(StoreFrom(cache, lang, chunk, translations, from), other, text) == Lookup(cache, other, text)
    decreases |translations| - from
  {
    if from < |translations| {
      StoreFromOtherLanguage(WithEntry(cache, lang, KeyAt(chunk, from), translations[from]), lang, chunk, translations, from + 1, other, text);
    }
  }

  /**
    A full reply for a chunk of distinct texts reads back: each text of
    the chunk is cached with the translation at its position.
  */
  lemma {:induction false} StoredChunkReadsBack(cache: Cache, lang: string, chunk: seq<string>, translations: seq<string>, from: nat, j: nat)
    requires |translations| == |chunk| && Distinct(chunk)
    requires from <= j < |chunk|
    ensures Lookup(StoreFrom(cache, lang, chunk, translations, from), lang, chunk[j]) == Some(translations[j])
    decreases |translations| - from
  {
    var next := WithEntry(cache, lang, KeyAt(chunk, from), translations[from]);
    if from == j {
      StoreFromKeeps(next, lang, chunk, translations, from + 1, j);
    } else {
      StoredChunkReadsBack(next, lang, chunk, translations, from + 1, j);
    }
  }

  /** Entries written later under other keys leave the entry for chunk[j] alone. */
  lemma {:induction false} StoreFromKeeps(cache: Cache, lang: string, chunk: seq<string>, translations: seq<string>, from: nat, j: nat)
    requires |translations| == |chunk| && Distinct(chunk)
    requires j < from <= |translations|
    ensures Lookup(StoreFrom(cache, lang, chunk, translations, from), lang, chunk[j]) == Lookup(cache, lang, chunk[j])
    decreases |translations| - from
  {
    if from < |translations| {
      assert chunk[from] != chunk[j];
      StoreFromKeeps(WithEntry(cache, lang, KeyAt(chunk, from), translations[from]), lang, chunk, translations, from + 1, j);
    }
  }

  // ---------------------------------------------------------------------
  // Requests, retries and back-off
  // ---------------------------------------------------------------------

  const ChunkSize: nat := 50
  const MaxAttempts: nat := 3

  /** What one request for a chunk comes to. */
  datatype Reply =
    | Threw                                   // fetch or JSON parsing threw
    | NotOk(status: int)                      // a response whose `ok` is false
    | Ok(translations: Option<seq<string>>)   // `data.data.translations`, when present

  /** Server errors and rate limiting are retried; other failures end the chunk. */
  predicate Retryable(status: int)
  {
    status >= 500 || status == 429
  }

  function Pow2(k: nat): (p: nat)
    ensures p >= 1
  {
    if k == 0 then 1 else 2 * Pow2(k - 1)
  }

  /** The wait after failed attempt k, in milliseconds: `2^k * 1000`. */
  function Backoff(k: nat): nat
  {
    Pow2(k) * 1000
  }

  /** How the attempts for one chunk went: how many were made, the waits between them, and the translations if any arrived. */
  datatype ChunkRun = ChunkRun(attempts: nat, waits: seq<nat>, translations: Option<seq<string>>)

  /** The waits of an earlier stretch in front of a run. */
  function Prepend(waits: seq<nat>, run: ChunkRun): ChunkRun
  {
    run.(waits := waits + run.waits)
  }

  /** The wait, if any, after failed attempt n: none after the last. */
  function WaitAfter(n: nat): seq<nat>
  {
    if n < MaxAttempts then [Backoff(n)] else []
  }

  /** The attempts for a chunk after `done` of them were made and none succeeded. */
  function RunFrom(chunk: seq<string>, respond: (seq<string>, nat) -> Reply, done: nat): (r: ChunkRun)
    requires done <= MaxAttempts
    ensures done <= r.attempts <= MaxAttempts
    ensures done < MaxAttempts ==> r.attempts > done
    decreases MaxAttempts - done
  {
    if done == MaxAttempts then ChunkRun(MaxAttempts, [], None)
    else
      var n := done + 1;
      match respond(chunk, n)
      case Ok(Some(ts)) => ChunkRun(n, [], Some(ts))
      case Ok(None) => RunFrom(chunk, respond, n)
      case NotOk(status) =>
        if Retryable(status) then Prepend(WaitAfter(n), RunFrom(chunk, respond, n)) else ChunkRun(n, [], None)
      case Threw => Prepend(WaitAfter(n), RunFrom(chunk, respond, n))
  }

  /** Waits of 2 s or 4 s, each longer than the back-off of attempt `done`, growing from one to the next. */
  predicate Schedule(waits: seq<nat>, done: nat)
  {
    (forall i :: 0 <= i < |waits| ==> Backoff(done) < waits[i] && (waits[i] == 2000 || waits[i] == 4000)) &&
    (forall i, j :: 0 <= i < j < |waits| ==> waits[i] < waits[j])
  }

  /** The back-offs of the attempts that can be followed by a wait: 1 s, 2 s and 4 s. */
  lemma BackoffValues()
    ensures Backoff(0) == 1000 && Backoff(1) == 2000 && Backoff(2) == 4000
  {
    assert Pow2(2) == 2 * Pow2(1);
  }

  /** A schedule from a later attempt is a schedule from an earlier one. */
  lemma ScheduleFromEarlier(done: nat, waits: seq<nat>)
    requires done < MaxAttempts
    requires Schedule(waits, done + 1)
    ensures Schedule(waits, done)
  {
    BackoffValues();
  }

  /** The wait after attempt `done + 1`, put in front of a schedule of the later attempts, is a schedule from `done`. */
  lemma ScheduleAfterWait(done: nat, rest: seq<nat>)
    requires done + 1 < MaxAttempts
    requires Schedule(rest, done + 1)
    ensures Schedule([Backoff(done + 1)] + rest, done)
  {
    BackoffValues();
    var w := Backoff(done + 1);
    var all := [w] + rest;
    forall i | 0 <= i < |all|
      ensures Backoff(done) < all[i] && (all[i] == 2000 || all[i] == 4000)
    {
      if i > 0 {
        assert all[i] == rest[i - 1];
      }
    }
    forall i, j | 0 <= i < j < |all|
      ensures all[i] < all[j]
    {
      assert all[j] == rest[j - 1];
      if i > 0 {
        assert all[i] == rest[i - 1];
      }
    }
  }

  /**
    The waits of a chunk's run: each is followed by another attempt, each
    is 2 s or 4 s and longer than the back-off of the attempts already
    made, and they grow, so from the start they are at most [2000, 4000].
  */
  lemma {:induction false} BackoffSchedule(chunk: seq<string>, respond: (seq<string>, nat) -> Reply, done: nat)
    requires done <= MaxAttempts
    ensures var r := RunFrom(chunk, respond, done);
      (done < MaxAttempts ==> |r.waits| < r.attempts - done) && Schedule(r.waits, done)
    decreases MaxAttempts - done
  {
    if done < MaxAttempts {
      var n := done + 1;
      BackoffSchedule(chunk, respond, n);
      var rest := RunFrom(chunk, respond, n);
      ScheduleFromEarlier(done, rest.waits);
      if n < MaxAttempts {
        ScheduleAfterWait(done, rest.waits);
      } else {
        assert WaitAfter(n) + rest.waits == rest.waits;
      }
    }
  }


  /** A reply after which the chunk is tried again while attempts remain. */
  predicate Retried(reply: Reply)
  {
    reply.Threw? || (reply.NotOk? && Retryable(reply.status)) || reply == Ok(None)
  }

  /**
    Attempt k + 1 is made only after attempt k threw, got a 5xx or 429
    status, or got no translations; translations, when they arrive, are
    those of the last attempt's reply.
  */
  lemma {:induction false} RetryOnlyAfterRetryableFailure(chunk: seq<string>, respond: (seq<string>, nat) -> Reply, done: nat)
    requires done <= MaxAttempts
    ensures var r := RunFrom(chunk, respond, done);
      (forall k :: done < k < r.attempts ==> Retried(respond(chunk, k))) &&
      (r.translations.Some? ==> respond(chunk, r.attempts) == Ok(r.translations))
    decreases MaxAttempts - done
  {
    if done < MaxAttempts {
      RetryOnlyAfterRetryableFailure(chunk, respond, done + 1);
    }
  }

  // ---------------------------------------------------------------------
  // A whole batch
  // ---------------------------------------------------------------------

  /** The cache after a chunk's run: its translations stored if they arrived. */
  function AfterRun(cache: Cache, lang: string, chunk: seq<string>, run: ChunkRun): Cache
  {
    if run.translations.Some? then StoreFrom(cache, lang, chunk, run.translations.value, 0) else cache
  }

  /** The chunks sent in order: the cache they leave and every wait along the way. */
  function FetchChunks(cache: Cache, lang: string, chunks: seq<seq<string>>, respond: (seq<string>, nat) -> Reply): (Cache, seq<nat>)
    decreases |chunks|
  {
    if |chunks| == 0 then (cache, [])
    else
      var run := RunFrom(chunks[0], respond, 0);
      var rest := FetchChunks(AfterRun(cache, lang, chunks[0], run), lang, chunks[1..], respond);
      (rest.0, run.waits + rest.1)
  }

  /** The fold, unfolded once for a chunk in front of the rest. */
  lemma FetchChunksCons(cache: Cache, lang: string, chunk: seq<string>, rest: seq<seq<string>>, respond: (seq<string>, nat) -> Reply)
    ensures var run := RunFrom(chunk, respond, 0);
      var tail := FetchChunks(AfterRun(cache, lang, chunk, run), lang, rest, respond);
      FetchChunks(cache, lang, [chunk] + rest, respond) == (tail.0, run.waits + tail.1)
  {
    assert ([chunk] + rest)[1..] == rest;
  }

  /** What is left of the fold after one chunk's run has been carried out. */
  lemma FetchStepKeeps(before: Cache, after: Cache, lang: string, chunk: seq<string>, later: seq<seq<string>>,
                       respond: (seq<string>, nat) -> Reply, waits: seq<nat>, chunkWaits: seq<nat>, whole: (Cache, seq<nat>))
    requires chunkWaits == RunFrom(chunk, respond, 0).waits
    requires after == AfterRun(before, lang, chunk, RunFrom(chunk, respond, 0))
    requires FetchChunks(before, lang, [chunk] + later, respond).0 == whole.0
    requires waits + FetchChunks(before, lang, [chunk] + later, respond).1 == whole.1
    ensures FetchChunks(after, lang, later, respond).0 == whole.0
    ensures (waits + chunkWaits) + FetchChunks(after, lang, later, respond).1 == whole.1
  {
    FetchChunksCons(before, lang, chunk, later, respond);
    var tail := FetchChunks(after, lang, later, respond);
    assert (waits + chunkWaits) + tail.1 == waits + (chunkWaits + tail.1);
  }

  /** A batch leaves the tables of the other languages alone. */
  lemma {:induction false} FetchLeavesOtherLanguages(cache: Cache, lang: string, chunks: seq<seq<string>>, respond: (seq<string>, nat) -> Reply, other: string, text: string)
    requires other != lang
    ensures Lookup(FetchChunks(cache, lang, chunks, respond).0, other, text) == Lookup(cache, other, text)
    decreases |chunks|
  {
    if |chunks| > 0 {
      var run := RunFrom(chunks[0], respond, 0);
      if run.translations.Some? {
        StoreFromOtherLanguage(cache, lang, chunks[0], run.translations.value, 0, other, text);
      }
      FetchLeavesOtherLanguages(AfterRun(cache, lang, chunks[0], run), lang, chunks[1..], respond, other, text);
    }
  }

  /**
    A single text whose first request is answered with one translation is
    cached with that translation (the request translateText makes).
  */
  lemma SingleTextFetched(cache: Cache, lang: string, text: string, respond: (seq<string>, nat) -> Reply, t: string)
    requires respond([text], 1) == Ok(Some([t]))
    ensures Lookup(FetchChunks(cache, lang, Chunks([text], ChunkSize), respond).0, lang, text) == Some(t)
  {
    assert Chunks([text], ChunkSize) == [[text]];
    var run := RunFrom([text], respond, 0);
    assert run.translations == Some([t]);
    StoredChunkReadsBack(cache, lang, [text], [t], 0, 0);
  }

  /** One more attempt, unfolded: what the reply to attempt done + 1 makes of the run. */
  lemma RunStep(chunk: seq<string>, respond: (seq<string>, nat) -> Reply, done: nat, waits: seq<nat>)
    requires done < MaxAttempts
    ensures var reply := respond(chunk, done + 1);
      var whole := Prepend(waits, RunFrom(chunk, respond, done));
      (reply.Ok? && reply.translations.Some? ==> whole == ChunkRun(done + 1, waits, reply.translations)) &&
      (reply.NotOk? && !Retryable(reply.status) ==> whole == ChunkRun(done + 1, waits, None)) &&
      (reply == Ok(None) ==> whole == Prepend(waits, RunFrom(chunk, respond, done + 1))) &&
      (Retried(reply) && reply != Ok(None) ==> whole == Prepend(waits + WaitAfter(done + 1), RunFrom(chunk, respond, done + 1)))
  {
  }

  // ---------------------------------------------------------------------
  // The service object
  // ---------------------------------------------------------------------

  class TranslationService {
    /** The language pages are translated into. */
    var currentLang: string
    /** The in-memory cache, loaded from storage at start-up. */
    var cache: Cache
    /** The `dir` attribute of the document. */
    var dir: string
    /** The stored `app_lang` preference; "" when there is none. */
    var storedLang: string
    /** The `lang` attribute of the document. */
    var docLang: string

    /**
      The constructor and init: the stored language or "en", the cache from
      storage, and the direction for that language; on a first visit the
      browser's language is then detected and stored. The direction is
      applied before the detection, so a first visit always gets "ltr".
    */
    constructor (stored: string, storedCache: Cache, browserLang: string)
      ensures cache == storedCache
      ensures dir == Direction(if stored != "" then stored else "en")
      ensures stored != "" ==> currentLang == stored && storedLang == stored
      ensures stored == "" ==> currentLang == FirstVisitLanguage(browserLang) && storedLang == currentLang
      ensures stored == "" ==> dir == "ltr"
      ensures docLang == if stored != "" then stored else "en"
    {
      var lang := if stored != "" then stored else "en";
      var direction := Direction(lang);
      var saved := stored;
      if stored == "" {
        lang := FirstVisitLanguage(browserLang);
        saved := lang;
      }
      currentLang := lang;
      cache := storedCache;
      dir := direction;
      docLang := if stored != "" then stored else "en";
      storedLang := saved;
    }

    /** applyDirection: the document's direction and language follow the current language. */
    method ApplyDirection()
      modifies this
      ensures dir == Direction(currentLang) && docLang == currentLang
      ensures currentLang == old(currentLang) && cache == old(cache) && storedLang == old(storedLang)
    {
      dir := Direction(currentLang);
      docLang := currentLang;
    }

    /**
      setLanguage: nothing happens for the language already in use; any
      other becomes current and stored, and the direction is applied.
    */
    method SetLanguage(langCode: string)
      modifies this
      ensures old(currentLang) == langCode ==>
        currentLang == old(currentLang) && cache == old(cache) && storedLang == old(storedLang) && dir == old(dir) && docLang == old(docLang)
      ensures old(currentLang) != langCode ==>
        currentLang == langCode && storedLang == langCode && cache == old(cache) && dir == Direction(langCode) && docLang == langCode
    {
      if currentLang == langCode {
        return;
      }
      currentLang := langCode;
      storedLang := langCode;
      ApplyDirection();
    }

    /** getCached: the translation of `text` for the current language. */
    function GetCached(text: string): Option<string>
      reads this
    {
      Lookup(cache, currentLang, text)
    }

    /** setCache. */
    method SetCache(original: string, translated: string)
      modifies this
      ensures cache == WithEntry(old(cache), currentLang, original, translated)
      ensures currentLang == old(currentLang) && dir == old(dir) && docLang == old(docLang) && storedLang == old(storedLang)
    {
      var table := if currentLang in cache then cache[currentLang] else map[];
      cache := cache[currentLang := table[original := translated]];
    }

    /** The forEach over a reply: each translation stored under the text at its index. */
    method StoreTranslations(chunk: seq<string>, translations: seq<string>)
      modifies this
      ensures cache == StoreFrom(old(cache), currentLang, chunk, translations, 0)
      ensures currentLang == old(currentLang) && dir == old(dir) && docLang == old(docLang) && storedLang == old(storedLang)
    {
      var index := 0;
      while index < |translations|
        invariant index <= |translations|
        invariant currentLang == old(currentLang) && dir == old(dir) && docLang == old(docLang) && storedLang == old(storedLang)
        invariant StoreFrom(cache, currentLang, chunk, translations, index) == StoreFrom(old(cache), currentLang, chunk, translations, 0)
      {
        SetCache(KeyAt(chunk, index), translations[index]);
        index := index + 1;
      }
    }

    /** The while loop for one chunk: up to three attempts, backing off after failures. */
    method TryChunk(chunk: seq<string>, respond: (seq<string>, nat) -> Reply) returns (waits: seq<nat>)
      modifies this
      ensures var run := RunFrom(chunk, respond, 0);
        waits == run.waits && cache == AfterRun(old(cache), currentLang, chunk, run)
      ensures currentLang == old(currentLang) && dir == old(dir) && docLang == old(docLang) && storedLang == old(storedLang)
    {
      ghost var run := RunFrom(chunk, respond, 0);
      var success := false;
      var attempts := 0;
      waits := [];
      while !success && attempts < MaxAttempts
        invariant attempts <= MaxAttempts
        invariant currentLang == old(currentLang) && dir == old(dir) && docLang == old(docLang) && storedLang == old(storedLang)
        invariant !success ==> cache == old(cache) && Prepend(waits, RunFrom(chunk, respond, attempts)) == run
        invariant success ==> waits == run.waits && cache == AfterRun(old(cache), currentLang, chunk, run)
        decreases MaxAttempts - attempts
      {
        RunStep(chunk, respond, attempts, waits);
        attempts := attempts + 1;
        var reply := respond(chunk, attempts);
        if reply.Ok? && reply.translations.Some? {
          StoreTranslations(chunk, reply.translations.value);
          success := true;
        } else if reply.NotOk? && !Retryable(reply.status) {
          break;
        } else if reply != Ok(None) {
          waits := waits + WaitAfter(attempts);
        }
      }
    }

    /** saveCache: when storage refuses the cache, the in-memory cache is emptied. */
    method SaveCache(persisted: bool)
      modifies this
      ensures cache == if persisted then old(cache) else map[]
      ensures currentLang == old(currentLang) && dir == old(dir) && docLang == old(docLang) && storedLang == old(storedLang)
    {
      if !persisted {
        cache := map[];
      }
    }

    /**
      fetchTranslations: the texts in order, in chunks of at most 50, each
      tried as TryChunk does; then the cache is saved.
    */
    method FetchTranslations(texts: seq<string>, respond: (seq<string>, nat) -> Reply, persisted: bool)
      returns (waits: seq<nat>)
      modifies this
      ensures var outcome := FetchChunks(old(cache), currentLang, Chunks(texts, ChunkSize), respond);
        waits == outcome.1 && cache == (if persisted then outcome.0 else map[])
      ensures currentLang == old(currentLang) && dir == old(dir) && docLang == old(docLang) && storedLang == old(storedLang)
    {
      waits := [];
      ghost var lang := currentLang;
      ghost var whole := FetchChunks(old(cache), lang, Chunks(texts, ChunkSize), respond);
      var i := 0;
      assert From(texts, 0) == texts;
      ghost var rest := Chunks(texts, ChunkSize);
      while i < |texts|
        invariant currentLang == lang && dir == old(dir) && docLang == old(docLang) && storedLang == old(storedLang)
        invariant rest == Chunks(From(texts, i), ChunkSize)
        invariant FetchChunks(cache, lang, rest, respond).0 == whole.0
        invariant waits + FetchChunks(cache, lang, rest, respond).1 == whole.1
      {
        var chunk := texts[i..Min(i + ChunkSize, |texts|)];
        ChunksStep(texts, i, ChunkSize);
        ghost var later := Chunks(From(texts, i + ChunkSize), ChunkSize);
        ghost var before := cache;
        var chunkWaits := TryChunk(chunk, respond);
        FetchStepKeeps(before, cache, lang, chunk, later, respond, waits, chunkWaits, whole);
        waits := waits + chunkWaits;
        rest := later;
        i := i + ChunkSize;
      }
      SaveCache(persisted);
    }

    /**
      translateText: blank text and English come back as they are, a cached
      translation is used without a request, and otherwise the text is
      fetched and its translation, or the text itself, returned.
    */
    method TranslateText(text: string, respond: (seq<string>, nat) -> Reply, persisted: bool) returns (r: string)
      modifies this
      ensures Trim(text) == "" || old(currentLang) == "en" ==> r == text && cache == old(cache)
      ensures Trim(text) != "" && old(currentLang) != "en" && OrElse(old(GetCached(text)), "") != "" ==>
        r == old(GetCached(text)).value && cache == old(cache)
      ensures Trim(text) != "" && old(currentLang) != "en" && OrElse(old(GetCached(text)), "") == "" ==>
        (cache == if persisted then FetchChunks(old(cache), currentLang, Chunks([text], ChunkSize), respond).0 else map[]) &&
        r == OrElse(GetCached(text), text)
      ensures currentLang == old(currentLang) && dir == old(dir) && docLang == old(docLang) && storedLang == old(storedLang)
    {
      if Trim(text) == "" || currentLang == "en" {
        return text;
      }
      var cached := GetCached(text);
      if cached.Some? && cached.value != "" {
        return cached.value;
      }
      var _ := FetchTranslations([text], respond, persisted);
      r := OrElse(GetCached(text), text);
    }
  }

  /** The `i18n.t` shim: "" for a missing key, otherwise the key with its capitals spaced out. */
  function ShimT(key: string): (r: string)
    ensures key == "" ==> r == ""
  {
    if key == "" then "" else SiteScripts.SpacedKey(key)
  }

  /** On every string the shim agrees with the page script's `i18n.t`. */
  lemma ShimAgreesWithPageScript(key: string)
    ensures ShimT(key) == SiteScripts.SpacedKey(key)
  {
    if key == "" {
      assert SiteScripts.SpaceCapitals("") == "";
    }
  }
}
