/**
  The page translator object (`Translator` in wwwroot/js/translator.js):
  its language, its cache of `${lang}_${text}` keys, the originals it
  records for text nodes, and the text nodes of the page, with the
  operations that change them. The batch endpoint is the parameter
  `respond`; the DOM walk is given as the sequence of text-node ids it
  reaches.
*/
module PageTranslator {
  import opened Util
  import opened TranslatorRules
  import ApiTranslation
  import SiteScripts

  class Translator {
    /** The language pages are translated into. */
    var currentLang: string
    /** The stored `preferredLanguage`; "" when there is none. */
    var storedLang: string
    /** The cache: `${lang}_${text}` to translation. */
    var cache: map<string, string>
    /** The original value recorded for each collected text node. */
    var originals: map<nat, string>
    /** The page's text nodes and their current values. */
    var nodeValues: map<nat, string>

    /**
      init and loadCache: the start-up language and the stored cache; then,
      for a language other than English, the initial translatePage over the
      text nodes `reached` with the batch endpoint `respond`.
    */
    constructor (saved: string, browserTag: string, storedCache: map<string, string>, page: map<nat, string>,
                 reached: seq<nat>, respond: Respond)
      ensures currentLang == StartLanguage(saved, browserTag) && storedLang == saved
      ensures currentLang == "en" ==> cache == storedCache && originals == map[] && nodeValues == page
      ensures currentLang != "en" ==>
        var collected := Collected(page, reached);
        originals == Recorded(map[], page, collected) &&
        cache == Replies(storedCache, currentLang, Chunks(ToFetch(currentLang, storedCache, originals, page, collected), BatchSize), respond) &&
        nodeValues.Keys == page.Keys
    {
      currentLang := StartLanguage(saved, browserTag);
      storedLang := saved;
      cache := storedCache;
      originals := map[];
      nodeValues := page;
      new;
      if currentLang != "en" {
        TranslatePage(reached, respond);
      }
    }

    /** applyTranslation on a text node. */
    method ApplyTranslation(id: nat, translated: string)
      modifies this
      ensures nodeValues == Applied(old(nodeValues), originals, id, translated)
      ensures currentLang == old(currentLang) && storedLang == old(storedLang) && cache == old(cache) && originals == old(originals)
    {
      if translated != "" && id in originals && originals[id] != "" && id in nodeValues {
        nodeValues := nodeValues[id := Wrap(originals[id], translated)];
      }
    }

    /**
      collectNodes at one reached text node: a collectible one is added to
      the collection and has its value recorded unless an original was
      recorded before.
    */
    method CollectNode(id: nat, found: seq<nat>) returns (collected: seq<nat>)
      modifies this
      ensures CollectTest(nodeValues)(id) ==> collected == found + [id] && originals == RecordedOne(old(originals), nodeValues, id)
      ensures !CollectTest(nodeValues)(id) ==> collected == found && originals == old(originals)
      ensures currentLang == old(currentLang) && storedLang == old(storedLang) && cache == old(cache) && nodeValues == old(nodeValues)
    {
      collected := found;
      if CollectTest(nodeValues)(id) {
        if id !in originals {
          originals := originals[id := nodeValues[id]];
        }
        collected := collected + [id];
      }
    }

    /**
      collectNodes over the text nodes the walk reaches, in document order:
      the collectible ones are returned, and each has its value recorded
      unless an original was recorded before.
    */
    method CollectNodes(reached: seq<nat>) returns (collected: seq<nat>)
      modifies this
      ensures collected == Collected(nodeValues, reached)
      ensures originals == Recorded(old(originals), nodeValues, collected)
      ensures currentLang == old(currentLang) && storedLang == old(storedLang) && cache == old(cache) && nodeValues == old(nodeValues)
    {
      ghost var values := nodeValues;
      ghost var before := originals;
      collected := [];
      var k := 0;
      while k < |reached|
        invariant k <= |reached|
        invariant currentLang == old(currentLang) && storedLang == old(storedLang) && cache == old(cache) && nodeValues == values
        invariant collected == Filter(reached[..k], CollectTest(values))
        invariant originals == Recorded(before, values, collected)
      {
        FilterStep(reached, k, CollectTest(values));
        RecordedStep(before, values, collected, reached[k]);
        collected := CollectNode(reached[k], collected);
        k := k + 1;
      }
      assert reached[..k] == reached;
    }

    /** restoreOriginals over the page's text nodes. */
    method RestoreOriginals(page: seq<nat>)
      modifies this
      ensures nodeValues == Restored(old(nodeValues), originals, page)
      ensures currentLang == old(currentLang) && storedLang == old(storedLang) && cache == old(cache) && originals == old(originals)
    {
      var k := 0;
      while k < |page|
        invariant k <= |page|
        invariant currentLang == old(currentLang) && storedLang == old(storedLang) && cache == old(cache) && originals == old(originals)
        invariant nodeValues == Restored(old(nodeValues), originals, page[..k])
      {
        var id := page[k];
        RestoredStep(old(nodeValues), originals, page, k);
        if id in nodeValues && id in originals {
          nodeValues := nodeValues[id := originals[id]];
        }
        k := k + 1;
      }
      assert page[..k] == page;
    }

    /**
      The first pass of translateBatch for one node: a cached text is
      shown at once; any other non-empty text is queued once and the node
      waits for it.
    */
    method SortNode(id: nat, queued: seq<string>, held: map<string, seq<nat>>) returns (toFetch: seq<string>, waiting: map<string, seq<nat>>)
      modifies this
      ensures var t := NodeText(originals, old(nodeValues), id);
        var key := CacheKey(currentLang, t);
        && nodeValues == (if t != "" && key in cache then Applied(old(nodeValues), originals, id, cache[key]) else old(nodeValues))
        && toFetch == (if t != "" && key !in cache && t !in queued then queued + [t] else queued)
        && waiting == (if t != "" && key !in cache then held[t := (if t in held then held[t] else []) + [id]] else held)
      ensures currentLang == old(currentLang) && storedLang == old(storedLang) && cache == old(cache) && originals == old(originals)
    {
      var text := NodeText(originals, nodeValues, id);
      toFetch, waiting := queued, held;
      if text != "" && CacheKey(currentLang, text) in cache {
        ApplyTranslation(id, cache[CacheKey(currentLang, text)]);
      } else if text != "" {
        if text !in toFetch {
          toFetch := toFetch + [text];
        }
        waiting := waiting[text := (if text in waiting then waiting[text] else []) + [id]];
      }
    }

    /**
      The first pass of translateBatch: cached translations are applied at
      once, and every other text is queued once, with the nodes waiting
      for it.
    */
    method SortNodes(nodes: seq<nat>) returns (toFetch: seq<string>, waiting: map<string, seq<nat>>)
      modifies this
      ensures toFetch == ToFetch(currentLang, cache, originals, old(nodeValues), nodes)
      ensures nodeValues == ApplyHits(old(nodeValues), originals, currentLang, cache, nodes)
      ensures forall t, id :: t in waiting && id in waiting[t] ==> Pending(currentLang, cache, originals, old(nodeValues), nodes, id)
      ensures currentLang == old(currentLang) && storedLang == old(storedLang) && cache == old(cache) && originals == old(originals)
    {
      ghost var values := nodeValues;
      ghost var lang := currentLang;
      ghost var known := cache;
      ghost var recorded := originals;
      toFetch := [];
      waiting := map[];
      var k := 0;
      while k < |nodes|
        invariant k <= |nodes|
        invariant currentLang == lang && storedLang == old(storedLang) && cache == known && originals == recorded
        invariant nodeValues == ApplyHits(values, recorded, lang, known, nodes[..k])
        invariant toFetch == ToFetch(lang, known, recorded, values, nodes[..k])
        invariant forall t, id :: t in waiting && id in waiting[t] ==> Pending(lang, known, recorded, values, nodes, id)
      {
        assert NodeText(recorded, nodeValues, nodes[k]) == NodeText(recorded, values, nodes[k]);
        ToFetchStep(lang, known, recorded, values, nodes, k, toFetch);
        ApplyHitsStep(values, recorded, lang, known, nodes, k);
        toFetch, waiting := SortNode(nodes[k], toFetch, waiting);
        k := k + 1;
      }
      assert nodes[..k] == nodes;
    }

    /** A reply's nodes: one translation applied to every node waiting for it. */
    method ApplyAll(ids: seq<nat>, translated: string)
      modifies this
      ensures nodeValues.Keys == old(nodeValues).Keys
      ensures forall id :: id in ids && id in nodeValues ==> nodeValues[id] == Applied(old(nodeValues), originals, id, translated)[id]
      ensures forall id :: id in nodeValues && id !in ids ==> nodeValues[id] == old(nodeValues)[id]
      ensures forall id :: id in nodeValues ==> nodeValues[id] == old(nodeValues)[id] || (id in originals && Wraps(originals[id], nodeValues[id]))
      ensures currentLang == old(currentLang) && storedLang == old(storedLang) && cache == old(cache) && originals == old(originals)
    {
      var k := 0;
      while k < |ids|
        invariant k <= |ids|
        invariant currentLang == old(currentLang) && storedLang == old(storedLang) && cache == old(cache) && originals == old(originals)
        invariant nodeValues.Keys == old(nodeValues).Keys
        invariant forall id :: id in ids[..k] && id in nodeValues ==> nodeValues[id] == Applied(old(nodeValues), originals, id, translated)[id]
        invariant forall id :: id in nodeValues && id !in ids[..k] ==> nodeValues[id] == old(nodeValues)[id]
        invariant forall id :: id in nodeValues ==> nodeValues[id] == old(nodeValues)[id] || (id in originals && Wraps(originals[id], nodeValues[id]))
      {
        var id := ids[k];
        assert ids[..k + 1] == ids[..k] + [id];
        if translated != "" && id in originals && originals[id] != "" && id in nodeValues {
          WrapKeepsSpacing(originals[id], translated);
        }
        ApplyTranslation(id, translated);
        k := k + 1;
      }
      assert ids[..k] == ids;
    }

    /** A successful chunk: each entry cached under the batch language and applied to the nodes waiting for its text. */
    method TakeReply(lang: string, entries: seq<(string, string)>, waiting: map<string, seq<nat>>)
      modifies this
      ensures cache == StoreEntries(old(cache), lang, entries)
      ensures nodeValues.Keys == old(nodeValues).Keys
      ensures forall id :: id in nodeValues && !Waiting(waiting, id) ==> nodeValues[id] == old(nodeValues)[id]
      ensures forall id :: id in nodeValues ==> nodeValues[id] == old(nodeValues)[id] || (id in originals && Wraps(originals[id], nodeValues[id]))
      ensures currentLang == old(currentLang) && storedLang == old(storedLang) && originals == old(originals)
    {
      var k := 0;
      while k < |entries|
        invariant k <= |entries|
        invariant currentLang == old(currentLang) && storedLang == old(storedLang) && originals == old(originals)
        invariant cache == StoreEntries(old(cache), lang, entries[..k])
        invariant nodeValues.Keys == old(nodeValues).Keys
        invariant forall id :: id in nodeValues && !Waiting(waiting, id) ==> nodeValues[id] == old(nodeValues)[id]
        invariant forall id :: id in nodeValues ==> nodeValues[id] == old(nodeValues)[id] || (id in originals && Wraps(originals[id], nodeValues[id]))
      {
        var (original, translated) := entries[k];
        assert entries[..k + 1][..k] == entries[..k];
        cache := cache[CacheKey(lang, original) := translated];
        if original in waiting {
          ApplyAll(waiting[original], translated);
        }
        k := k + 1;
      }
      assert entries[..k] == entries;
    }

    /**
      translateBatch: cached texts are shown at once; the rest are sent in
      chunks of five, each text once; a failed chunk is skipped, and each
      reply is cached and shown on the nodes waiting for it.
    */
    method TranslateBatch(nodes: seq<nat>, respond: Respond)
      modifies this
      ensures cache == Replies(old(cache), currentLang, Chunks(ToFetch(currentLang, old(cache), originals, old(nodeValues), nodes), BatchSize), respond)
      ensures nodeValues.Keys == old(nodeValues).Keys
      ensures forall id :: id in nodeValues && !Pending(currentLang, old(cache), originals, old(nodeValues), nodes, id) ==>
        nodeValues[id] == ApplyHits(old(nodeValues), originals, currentLang, old(cache), nodes)[id]
      ensures forall id :: id in nodeValues && Pending(currentLang, old(cache), originals, old(nodeValues), nodes, id) ==>
        nodeValues[id] == old(nodeValues)[id] || (id in originals && Wraps(originals[id], nodeValues[id]))
      ensures currentLang == old(currentLang) && storedLang == old(storedLang) && originals == old(originals)
    {
      ghost var values := nodeValues;
      ghost var whole := Replies(cache, currentLang, Chunks(ToFetch(currentLang, cache, originals, values, nodes), BatchSize), respond);
      var lang := currentLang;
      var toFetch, waiting := SortNodes(nodes);
      ghost var hits := nodeValues;
      forall id | id in nodeValues && Pending(lang, cache, originals, values, nodes, id)
        ensures hits[id] == values[id]
      {
        ApplyHitsSkipsPending(values, originals, lang, cache, nodes, id);
      }
      var i := 0;
      assert From(toFetch, 0) == toFetch;
      ghost var rest := Chunks(toFetch, BatchSize);
      while i < |toFetch|
        invariant currentLang == lang && storedLang == old(storedLang) && originals == old(originals)
        invariant rest == Chunks(From(toFetch, i), BatchSize)
        invariant Replies(cache, lang, rest, respond) == whole
        invariant nodeValues.Keys == hits.Keys
        invariant forall id :: id in nodeValues && !Waiting(waiting, id) ==> nodeValues[id] == hits[id]
        invariant forall id :: id in nodeValues ==> nodeValues[id] == hits[id] || (id in originals && Wraps(originals[id], nodeValues[id]))
      {
        var chunk := toFetch[i..Min(i + BatchSize, |toFetch|)];
        ghost var later := Chunks(From(toFetch, i + BatchSize), BatchSize);
        ChunksStep(toFetch, i, BatchSize);
        RepliesCons(cache, lang, chunk, later, respond);
        var reply := respond(lang, chunk);
        if reply.Some? {
          TakeReply(lang, reply.value, waiting);
        }
        rest := later;
        i := i + BatchSize;
      }
    }

    /** translatePage: the reached text nodes are collected and translated as one batch. */
    method TranslatePage(reached: seq<nat>, respond: Respond)
      modifies this
      ensures var collected := Collected(old(nodeValues), reached);
        originals == Recorded(old(originals), old(nodeValues), collected) &&
        cache == Replies(old(cache), currentLang, Chunks(ToFetch(currentLang, old(cache), originals, old(nodeValues), collected), BatchSize), respond)
      ensures nodeValues.Keys == old(nodeValues).Keys
      ensures currentLang == old(currentLang) && storedLang == old(storedLang)
    {
      var collected := CollectNodes(reached);
      TranslateBatch(collected, respond);
    }

    /**
      setLanguage: nothing happens for the language already in use; any
      other is stored, the originals are restored, and for a language
      other than English the page is translated again.
    */
    method SetLanguage(lang: string, page: seq<nat>, reached: seq<nat>, respond: Respond)
      modifies this
      ensures old(currentLang) == lang ==>
        currentLang == old(currentLang) && storedLang == old(storedLang) && cache == old(cache) &&
        originals == old(originals) && nodeValues == old(nodeValues)
      ensures old(currentLang) != lang ==> currentLang == lang && storedLang == lang
      ensures old(currentLang) != lang && lang == "en" ==>
        nodeValues == Restored(old(nodeValues), old(originals), page) && cache == old(cache) && originals == old(originals)
      ensures old(currentLang) != lang && lang != "en" ==>
        var restored := Restored(old(nodeValues), old(originals), page);
        var collected := Collected(restored, reached);
        originals == Recorded(old(originals), restored, collected) &&
        cache == Replies(old(cache), lang, Chunks(ToFetch(lang, old(cache), originals, restored, collected), BatchSize), respond)
    {
      if lang == currentLang {
        return;
      }
      currentLang := lang;
      storedLang := lang;
      RestoreOriginals(page);
      if lang != "en" {
        TranslatePage(reached, respond);
      }
    }

    /**
      translateText: "" for an empty text, the text itself in English, a
      cached translation without a request, and otherwise the reply's
      translation or the text, which is then cached.
    */
    method TranslateText(text: string, respond: Respond) returns (r: string)
      modifies this
      ensures text == "" ==> r == "" && cache == old(cache)
      ensures text != "" && currentLang == "en" ==> r == text && cache == old(cache)
      ensures text != "" && currentLang != "en" && CacheKey(currentLang, text) in old(cache) ==>
        r == old(cache)[CacheKey(currentLang, text)] && cache == old(cache)
      ensures text != "" && currentLang != "en" && CacheKey(currentLang, text) !in old(cache) && respond(currentLang, [text]).None? ==>
        r == text && cache == old(cache)
      ensures text != "" && currentLang != "en" && CacheKey(currentLang, text) !in old(cache) && respond(currentLang, [text]).Some? ==>
        r == OrElse(ValueOf(respond(currentLang, [text]).value, text), text) &&
        cache == old(cache)[CacheKey(currentLang, text) := r]
      ensures currentLang == old(currentLang) && storedLang == old(storedLang) && originals == old(originals) && nodeValues == old(nodeValues)
    {
      if text == "" {
        return "";
      }
      if currentLang == "en" {
        return text;
      }
      var key := CacheKey(currentLang, text);
      if key in cache {
        return cache[key];
      }
      var reply := respond(currentLang, [text]);
      if reply.None? {
        return text;
      }
      r := OrElse(ValueOf(reply.value, text), text);
      cache := cache[key := r];
    }
  }

  /** `Translator.t`: the key itself. */
  function T(key: string): string
  {
    key
  }

  /** The two `i18n.t` helpers of the site disagree: the page translator's keeps a camel-case key as it is. */
  lemma TwoShimsDisagree()
    ensures T("NewNote") == "NewNote"
    ensures ApiTranslation.ShimT("NewNote") == "New Note"
  {
    SiteScripts.NewNoteExample();
    ApiTranslation.ShimAgreesWithPageScript("NewNote");
  }
}
