/**
  The rules the page translator (the `Translator` object of
  wwwroot/js/translator.js) follows: which language it starts in, which
  text nodes it collects, how it keys its cache, how a translation is
  fitted back into a node, and, as folds, what a batch asks for and what
  its replies leave in the cache and on the page.

  Text nodes are identified by numbers; `values` maps each to its current
  `nodeValue` and `originals` is the map of recorded original values.
*/
module TranslatorRules {
  import opened Util

  // ---------------------------------------------------------------------
  // Start-up language
  // ---------------------------------------------------------------------

  /** The languages the page translator offers when the browser decides. */
  const Supported: seq<string> := ["en", "es", "fr", "de", "hi", "gu", "zh", "ja", "ru", "ar"]

  /** `navigator.language.slice(0, 2)`. */
  function BrowserPrefix(tag: string): string
  {
    if |tag| <= 2 then tag else tag[..2]
  }

  /**
    init: the saved preference when there is one; otherwise the first two
    letters of the browser's language when they name an offered language,
    and English when they do not.
  */
  function StartLanguage(saved: string, browserTag: string): (r: string)
    ensures saved != "" ==> r == saved
    ensures saved == "" ==> r in Supported
    ensures saved == "" ==> (r == BrowserPrefix(browserTag) <==> BrowserPrefix(browserTag) in Supported)
    ensures saved == "" && r != "en" ==> |browserTag| >= 2 && browserTag[..2] == r
  {
    if saved != "" then saved
    else if BrowserPrefix(browserTag) in Supported then BrowserPrefix(browserTag)
    else "en"
  }

  // ---------------------------------------------------------------------
  // Which text nodes are collected
  // ---------------------------------------------------------------------

  /** The characters of the symbol-only pattern of collectNodes. */
  predicate IsSymbol(c: char)
  {
    c in "!@#$%^&*()_+={}[]:;\"'<>,.?/\\|`~-"
  }

  /**
    The text-node test of collectNodes: the trimmed value is not empty, not
    made of digits only and not made of symbols only.
  */
  predicate Collectible(value: string)
  {
    var t := Trim(value);
    |t| > 0 && !(forall i :: 0 <= i < |t| ==> IsDigit(t[i])) && !(forall i :: 0 <= i < |t| ==> IsSymbol(t[i]))
  }

  /**
    A value is collected exactly when its trimmed text holds a character
    that is neither a digit nor a symbol, or mixes digits with symbols.
  */
  lemma CollectibleMeans(value: string)
    ensures var t := Trim(value);
      Collectible(value) <==>
        (exists i :: 0 <= i < |t| && !IsDigit(t[i]) && !IsSymbol(t[i])) ||
        ((exists i :: 0 <= i < |t| && IsDigit(t[i])) && (exists j :: 0 <= j < |t| && IsSymbol(t[j])))
  {
    var t := Trim(value);
    assert forall c :: IsDigit(c) ==> !IsSymbol(c);
    if Collectible(value) {
      var i :| 0 <= i < |t| && !IsDigit(t[i]);
      var j :| 0 <= j < |t| && !IsSymbol(t[j]);
      if IsSymbol(t[i]) && IsDigit(t[j]) {
        assert IsDigit(t[j]) && IsSymbol(t[i]);
      }
    }
  }

  /** The test a reached text node must pass to be collected. */
  function CollectTest(values: map<nat, string>): nat -> bool
  {
    id => id in values && Collectible(values[id])
  }

  /**
    The collected ids of a walk, in document order: a node is collected
    exactly when the walk reaches it and its value passes the test.
  */
  function Collected(values: map<nat, string>, ids: seq<nat>): (r: seq<nat>)
    ensures forall id :: id in r <==> id in ids && id in values && Collectible(values[id])
  {
    Filter(ids, CollectTest(values))
  }

  /**
    The original-value map after collecting `ids`: a node's value is
    recorded the first time it is collected and never overwritten.
  */
  function Recorded(originals: map<nat, string>, values: map<nat, string>, ids: seq<nat>): map<nat, string>
  {
    if |ids| == 0 then originals
    else
      var last := ids[|ids| - 1];
      RecordedOne(Recorded(originals, values, ids[..|ids| - 1]), values, last)
  }

  /** One collected node: its value is recorded unless an original is already there. */
  function RecordedOne(originals: map<nat, string>, values: map<nat, string>, id: nat): map<nat, string>
  {
    if id in originals || id !in values then originals else originals[id := values[id]]
  }

  /** A loop over the collected ids: one more records its value unless an original is already there. */
  lemma RecordedStep(originals: map<nat, string>, values: map<nat, string>, ids: seq<nat>, id: nat)
    ensures Recorded(originals, values, ids + [id]) == RecordedOne(Recorded(originals, values, ids), values, id)
  {
    assert (ids + [id])[..|ids|] == ids;
  }

  /** A recorded original stays as it was; a newly collected node records its value at that time. */
  lemma {:induction false} RecordedKeepsFirst(originals: map<nat, string>, values: map<nat, string>, ids: seq<nat>, id: nat)
    ensures id in Recorded(originals, values, ids) <==> id in originals || (id in ids && id in values)
    ensures id in originals ==> Recorded(originals, values, ids)[id] == originals[id]
    ensures id !in originals && id in ids && id in values ==> Recorded(originals, values, ids)[id] == values[id]
  {
    if |ids| > 0 {
      var init := ids[..|ids| - 1];
      RecordedKeepsFirst(originals, values, init, id);
      assert ids == init + [ids[|ids| - 1]];
    }
  }

  // ---------------------------------------------------------------------
  // Cache keys
  // ---------------------------------------------------------------------

  /** The cache key `${lang}_${text}`. */
  function CacheKey(lang: string, text: string): string
  {
    lang + "_" + text
  }

  /** Keys of two different languages never collide while language codes hold no underscore. */
  lemma CacheKeyDiffers(lang1: string, text1: string, lang2: string, text2: string)
    requires '_' !in lang1 && '_' !in lang2 && lang1 != lang2
    ensures CacheKey(lang1, text1) != CacheKey(lang2, text2)
  {
    var key1 := CacheKey(lang1, text1);
    var key2 := CacheKey(lang2, text2);
    if |lang1| == |lang2| {
      assert key1[..|lang1|] == lang1 && key2[..|lang2|] == lang2;
    } else if |lang1| < |lang2| {
      assert key1[|lang1|] == '_' && key2[|lang1|] == lang2[|lang1|];
    } else {
      assert key2[|lang2|] == '_' && key1[|lang2|] == lang1[|lang2|];
    }
  }

  /** Within one language, different texts have different keys. */
  lemma CacheKeySameLanguage(lang: string, text1: string, text2: string)
    requires CacheKey(lang, text1) == CacheKey(lang, text2)
    ensures text1 == text2
  {
    assert text1 == CacheKey(lang, text1)[|lang| + 1..];
  }

  /** With an underscore in a language code, two different entries share a key. */
  lemma CacheKeyClash()
    ensures CacheKey("a_b", "c") == CacheKey("a", "b_c")
  {
  }

  // ---------------------------------------------------------------------
  // Fitting a translation into a node
  // ---------------------------------------------------------------------

  /** The whitespace a value starts with: what `^\s*` matches. */
  function LeadingSpace(s: string): (r: string)
    ensures r <= s
    ensures forall i :: 0 <= i < |r| ==> IsSpace(r[i])
  {
    s[..|s| - |TrimStart(s)|]
  }

  /** The whitespace a value ends with: what `\s*$` matches. */
  function TrailingSpace(s: string): (r: string)
    ensures |r| <= |s| && r == s[|s| - |r|..]
    ensures forall i :: 0 <= i < |r| ==> IsSpace(r[i])
  {
    s[|TrimEnd(s)|..]
  }

  /** The new value of a node: the translation between the original's surrounding whitespace. */
  function Wrap(original: string, translated: string): string
  {
    LeadingSpace(original) + translated + TrailingSpace(original)
  }

  /** A value that starts and ends with the original's surrounding whitespace. */
  predicate Wraps(original: string, value: string)
  {
    var lead := LeadingSpace(original);
    var trail := TrailingSpace(original);
    |lead| + |trail| <= |value| && value[..|lead|] == lead && value[|value| - |trail|..] == trail
  }

  /** Every wrapped translation keeps the original's surrounding whitespace. */
  lemma WrapKeepsSpacing(original: string, translated: string)
    ensures Wraps(original, Wrap(original, translated))
  {
    var lead := LeadingSpace(original);
    var trail := TrailingSpace(original);
    var w := Wrap(original, translated);
    assert w[..|lead|] == lead;
    assert w[|w| - |trail|..] == trail;
  }

  /** Spaces in front of a value that has text do not change where its trailing space starts. */
  lemma {:induction false} TrimEndAfterSpaces(lead: string, s: string)
    requires forall i :: 0 <= i < |lead| ==> IsSpace(lead[i])
    requires TrimEnd(s) != ""
    ensures TrimEnd(lead + s) == lead + TrimEnd(s)
    decreases |s|
  {
    var whole := lead + s;
    if IsSpace(s[|s| - 1]) {
      var shorter := s[..|s| - 1];
      assert whole[..|whole| - 1] == lead + shorter;
      TrimEndAfterSpaces(lead, shorter);
    }
  }

  /** A value is its leading whitespace followed by the rest. */
  lemma SplitAtText(s: string)
    ensures s == LeadingSpace(s) + TrimStart(s)
  {
  }

  /** Spaces in front of a value that has text leave its trailing whitespace as it was. */
  lemma TrailingAfterSpaces(lead: string, rest: string)
    requires forall i :: 0 <= i < |lead| ==> IsSpace(lead[i])
    requires TrimEnd(rest) != ""
    ensures TrailingSpace(lead + rest) == rest[|TrimEnd(rest)|..]
  {
    TrimEndAfterSpaces(lead, rest);
    var whole := lead + rest;
    assert whole[|lead| + |TrimEnd(rest)|..] == rest[|TrimEnd(rest)|..];
  }

  /** The trailing whitespace of a value with text is what follows its text after the leading whitespace. */
  lemma TrailingOfText(original: string)
    requires Trim(original) != ""
    ensures TrailingSpace(original) == TrimStart(original)[|Trim(original)|..]
  {
    SplitAtText(original);
    TrailingAfterSpaces(LeadingSpace(original), TrimStart(original));
  }

  /** Putting a value's three parts back together. */
  lemma Reassemble(original: string, lead: string, rest: string, body: string, trail: string)
    requires original == lead + rest && body <= rest && trail == rest[|body|..]
    ensures lead + body + trail == original
  {
    assert rest == body + trail;
  }

  /**
    Fitting the trimmed original back into a node restores it exactly, so a
    node showing English text is its original value.
  */
  lemma WrapRestoresOriginal(original: string)
    requires Trim(original) != ""
    ensures Wrap(original, Trim(original)) == original
  {
    SplitAtText(original);
    TrailingOfText(original);
    Reassemble(original, LeadingSpace(original), TrimStart(original), Trim(original), TrailingSpace(original));
  }

  /** restoreOriginals: every node of the page with a recorded original shows that original again. */
  function Restored(values: map<nat, string>, originals: map<nat, string>, page: seq<nat>): (r: map<nat, string>)
    ensures r.Keys == values.Keys
  {
    map id | id in values :: if id in page && id in originals then originals[id] else values[id]
  }

  /** A loop over the page: one more node restored. */
  lemma RestoredStep(values: map<nat, string>, originals: map<nat, string>, page: seq<nat>, k: nat)
    requires k < |page|
    ensures var current := Restored(values, originals, page[..k]);
      var id := page[k];
      Restored(values, originals, page[..k + 1]) ==
        if id in current && id in originals then current[id := originals[id]] else current
  {
    var current := Restored(values, originals, page[..k]);
    var id := page[k];
    var next := Restored(values, originals, page[..k + 1]);
    var expected := if id in current && id in originals then current[id := originals[id]] else current;
    assert page[..k + 1] == page[..k] + [id];
    assert forall other :: other in next ==> next[other] == expected[other];
  }

  /** Restoring forgets any translation applied to a node of the page. */
  lemma RestoreUndoesApply(values: map<nat, string>, originals: map<nat, string>, page: seq<nat>, id: nat, translated: string)
    requires id in page
    ensures Restored(Applied(values, originals, id, translated), originals, page) == Restored(values, originals, page)
  {
    var after := Restored(Applied(values, originals, id, translated), originals, page);
    var before := Restored(values, originals, page);
    assert forall other :: other in after ==> after[other] == before[other];
  }

  // ---------------------------------------------------------------------
  // One batch
  // ---------------------------------------------------------------------

  /** The size of the chunks translateBatch sends. */
  const BatchSize: nat := 5

  /** The text a batch translates for a node: its trimmed original, or its trimmed value when none was recorded. */
  function NodeText(originals: map<nat, string>, values: map<nat, string>, id: nat): string
  {
    if id in originals then Trim(originals[id])
    else if id in values then Trim(values[id])
    else ""
  }

  /** A node of the batch whose text has no translation in the cache yet. */
  predicate Pending(lang: string, cache: map<string, string>, originals: map<nat, string>, values: map<nat, string>, nodes: seq<nat>, id: nat)
  {
    id in nodes && NodeText(originals, values, id) != "" && CacheKey(lang, NodeText(originals, values, id)) !in cache
  }

  /** The texts of the batch's pending nodes, in order and with repeats. */
  function Uncached(lang: string, cache: map<string, string>, originals: map<nat, string>, values: map<nat, string>, nodes: seq<nat>): seq<string>
  {
    if |nodes| == 0 then []
    else
      var t := NodeText(originals, values, nodes[|nodes| - 1]);
      Uncached(lang, cache, originals, values, nodes[..|nodes| - 1]) +
        (if t != "" && CacheKey(lang, t) !in cache then [t] else [])
  }

  /** A loop over the batch: one more node adds its text when it is pending. */
  lemma UncachedStep(lang: string, cache: map<string, string>, originals: map<nat, string>, values: map<nat, string>, nodes: seq<nat>, k: nat)
    requires k < |nodes|
    ensures var t := NodeText(originals, values, nodes[k]);
      Uncached(lang, cache, originals, values, nodes[..k + 1]) ==
        Uncached(lang, cache, originals, values, nodes[..k]) + (if t != "" && CacheKey(lang, t) !in cache then [t] else [])
  {
    assert nodes[..k + 1][..k] == nodes[..k];
  }

  /** The texts a batch requests: each uncached text once, in the order first met. */
  function ToFetch(lang: string, cache: map<string, string>, originals: map<nat, string>, values: map<nat, string>, nodes: seq<nat>): seq<string>
  {
    Dedupe(Uncached(lang, cache, originals, values, nodes))
  }

  /** A loop over the batch: one more node queues its text when it is pending and not yet queued. */
  lemma ToFetchStep(lang: string, cache: map<string, string>, originals: map<nat, string>, values: map<nat, string>, nodes: seq<nat>, k: nat, queued: seq<string>)
    requires k < |nodes|
    requires queued == ToFetch(lang, cache, originals, values, nodes[..k])
    ensures var t := NodeText(originals, values, nodes[k]);
      ToFetch(lang, cache, originals, values, nodes[..k + 1]) ==
        if t != "" && CacheKey(lang, t) !in cache && t !in queued then queued + [t] else queued
  {
    var t := NodeText(originals, values, nodes[k]);
    var before := Uncached(lang, cache, originals, values, nodes[..k]);
    UncachedStep(lang, cache, originals, values, nodes, k);
    if t != "" && CacheKey(lang, t) !in cache {
      DedupeStep(before, t);
    } else {
      assert before + [] == before;
    }
  }

  /**
    A text is requested exactly when some pending node carries it, and no
    text is requested twice.
  */
  lemma {:induction false} ToFetchMeans(lang: string, cache: map<string, string>, originals: map<nat, string>, values: map<nat, string>, nodes: seq<nat>, t: string)
    ensures t in ToFetch(lang, cache, originals, values, nodes) <==>
      exists id :: Pending(lang, cache, originals, values, nodes, id) && NodeText(originals, values, id) == t
    ensures var r := ToFetch(lang, cache, originals, values, nodes);
      forall i, j :: 0 <= i < j < |r| ==> r[i] != r[j]
  {
    UncachedMeans(lang, cache, originals, values, nodes, t);
    DedupeDistinct(Uncached(lang, cache, originals, values, nodes));
  }

  lemma {:induction false} UncachedMeans(lang: string, cache: map<string, string>, originals: map<nat, string>, values: map<nat, string>, nodes: seq<nat>, t: string)
    ensures t in Uncached(lang, cache, originals, values, nodes) <==>
      exists id :: Pending(lang, cache, originals, values, nodes, id) && NodeText(originals, values, id) == t
  {
    if |nodes| > 0 {
      var init := nodes[..|nodes| - 1];
      var last := nodes[|nodes| - 1];
      UncachedMeans(lang, cache, originals, values, init, t);
      assert nodes == init + [last];
      if t in Uncached(lang, cache, originals, values, nodes) && t !in Uncached(lang, cache, originals, values, init) {
        assert Pending(lang, cache, originals, values, nodes, last);
      }
      if exists id :: Pending(lang, cache, originals, values, nodes, id) && NodeText(originals, values, id) == t {
        var id :| Pending(lang, cache, originals, values, nodes, id) && NodeText(originals, values, id) == t;
        if id != last {
          assert Pending(lang, cache, originals, values, init, id);
        }
      }
    }
  }

  /** applyTranslation on a text node: an empty translation, or a node without a recorded original, is left alone. */
  function Applied(values: map<nat, string>, originals: map<nat, string>, id: nat, translated: string): (r: map<nat, string>)
    ensures r.Keys == values.Keys
    ensures forall other :: other in values && other != id ==> r[other] == values[other]
  {
    if translated != "" && id in originals && originals[id] != "" && id in values
    then values[id := Wrap(originals[id], translated)]
    else values
  }

  /** Applying a translation changes only nodes with a recorded original, so no node's text changes. */
  lemma AppliedKeepsTexts(values: map<nat, string>, originals: map<nat, string>, id: nat, translated: string, other: nat)
    ensures NodeText(originals, Applied(values, originals, id, translated), other) == NodeText(originals, values, other)
  {
  }

  /** The page after the batch's cached translations were applied, node by node. */
  function ApplyHits(values: map<nat, string>, originals: map<nat, string>, lang: string, cache: map<string, string>, nodes: seq<nat>): (r: map<nat, string>)
    ensures r.Keys == values.Keys
    ensures forall id :: id in values && id !in originals ==> r[id] == values[id]
  {
    if |nodes| == 0 then values
    else
      var last := nodes[|nodes| - 1];
      var before := ApplyHits(values, originals, lang, cache, nodes[..|nodes| - 1]);
      var t := NodeText(originals, values, last);
      if t != "" && CacheKey(lang, t) in cache then Applied(before, originals, last, cache[CacheKey(lang, t)]) else before
  }

  /** A loop over the batch: one more node shows its cached translation when it has one. */
  lemma ApplyHitsStep(values: map<nat, string>, originals: map<nat, string>, lang: string, cache: map<string, string>, nodes: seq<nat>, k: nat)
    requires k < |nodes|
    ensures var t := NodeText(originals, values, nodes[k]);
      var before := ApplyHits(values, originals, lang, cache, nodes[..k]);
      ApplyHits(values, originals, lang, cache, nodes[..k + 1]) ==
        if t != "" && CacheKey(lang, t) in cache then Applied(before, originals, nodes[k], cache[CacheKey(lang, t)]) else before
  {
    assert nodes[..k + 1][..k] == nodes[..k];
  }

  /**
    Every node of the batch whose text is cached shows the cached
    translation between its original's surrounding whitespace.
  */
  lemma {:induction false} HitShowsCachedTranslation(values: map<nat, string>, originals: map<nat, string>, lang: string, cache: map<string, string>, nodes: seq<nat>, id: nat)
    requires id in nodes && id in values && id in originals && originals[id] != ""
    requires NodeText(originals, values, id) != ""
    requires CacheKey(lang, NodeText(originals, values, id)) in cache
    requires cache[CacheKey(lang, NodeText(originals, values, id))] != ""
    ensures ApplyHits(values, originals, lang, cache, nodes)[id] == Wrap(originals[id], cache[CacheKey(lang, NodeText(originals, values, id))])
  {
    var init := nodes[..|nodes| - 1];
    var last := nodes[|nodes| - 1];
    if last != id {
      assert nodes == init + [last];
      HitShowsCachedTranslation(values, originals, lang, cache, init, id);
    }
  }

  /** A pending node keeps its value while the cached translations are applied. */
  lemma {:induction false} ApplyHitsSkipsPending(values: map<nat, string>, originals: map<nat, string>, lang: string, cache: map<string, string>, nodes: seq<nat>, id: nat)
    requires id in values
    requires NodeText(originals, values, id) == "" || CacheKey(lang, NodeText(originals, values, id)) !in cache
    ensures ApplyHits(values, originals, lang, cache, nodes)[id] == values[id]
  {
    if |nodes| > 0 {
      ApplyHitsSkipsPending(values, originals, lang, cache, nodes[..|nodes| - 1], id);
    }
  }

  /** A node the batch holds back until a reply names its text. */
  predicate Waiting(waiting: map<string, seq<nat>>, id: nat)
  {
    exists t :: t in waiting && id in waiting[t]
  }

  // ---------------------------------------------------------------------
  // Replies
  // ---------------------------------------------------------------------

  /** The batch endpoint: the entries of its JSON reply, or None when the request failed or was not OK. */
  type Respond = (string, seq<string>) -> Option<seq<(string, string)>>

  /** `results[text]`: the last entry for the text. */
  function ValueOf(entries: seq<(string, string)>, text: string): (r: Option<string>)
    ensures r.Some? <==> exists i :: 0 <= i < |entries| && entries[i].0 == text
  {
    if |entries| == 0 then None
    else if entries[|entries| - 1].0 == text then Some(entries[|entries| - 1].1)
    else
      var r := ValueOf(entries[..|entries| - 1], text);
      assert forall i :: 0 <= i < |entries| - 1 ==> entries[..|entries| - 1][i] == entries[i];
      r
  }

  /** The cache after a reply's entries were stored one by one under the batch language. */
  function StoreEntries(cache: map<string, string>, lang: string, entries: seq<(string, string)>): map<string, string>
  {
    if |entries| == 0 then cache
    else
      var last := entries[|entries| - 1];
      StoreEntries(cache, lang, entries[..|entries| - 1])[CacheKey(lang, last.0) := last.1]
  }

  /** After a reply, the cache answers each text of the reply with its value there, and nothing else changes. */
  lemma {:induction false} StoreEntriesReadsBack(cache: map<string, string>, lang: string, entries: seq<(string, string)>, key: string)
    ensures var r := StoreEntries(cache, lang, entries);
      (forall text :: key == CacheKey(lang, text) && ValueOf(entries, text).Some? ==> key in r && r[key] == ValueOf(entries, text).value) &&
      ((forall text :: key == CacheKey(lang, text) ==> ValueOf(entries, text).None?) ==> (key in r <==> key in cache) && (key in cache ==> r[key] == cache[key]))
  {
    if |entries| > 0 {
      var init := entries[..|entries| - 1];
      var last := entries[|entries| - 1];
      StoreEntriesReadsBack(cache, lang, init, key);
      forall text | key == CacheKey(lang, text) && key == CacheKey(lang, last.0)
        ensures text == last.0
      {
        CacheKeySameLanguage(lang, text, last.0);
      }
    }
  }

  /** The cache after the chunks were sent in order, each successful reply stored. */
  function Replies(cache: map<string, string>, lang: string, chunks: seq<seq<string>>, respond: Respond): map<string, string>
    decreases |chunks|
  {
    if |chunks| == 0 then cache
    else
      var reply := respond(lang, chunks[0]);
      Replies(if reply.Some? then StoreEntries(cache, lang, reply.value) else cache, lang, chunks[1..], respond)
  }

  /** The fold, unfolded once for a chunk in front of the rest. */
  lemma RepliesCons(cache: map<string, string>, lang: string, chunk: seq<string>, rest: seq<seq<string>>, respond: Respond)
    ensures Replies(cache, lang, [chunk] + rest, respond) ==
      Replies(if respond(lang, chunk).Some? then StoreEntries(cache, lang, respond(lang, chunk).value) else cache, lang, rest, respond)
  {
    assert ([chunk] + rest)[1..] == rest;
  }

  /** Replies only ever add or replace entries of the batch language. */
  lemma {:induction false} RepliesKeepOtherLanguages(cache: map<string, string>, lang: string, chunks: seq<seq<string>>, respond: Respond, other: string, text: string)
    requires '_' !in lang && '_' !in other && other != lang
    ensures var key := CacheKey(other, text);
      var r := Replies(cache, lang, chunks, respond);
      (key in r <==> key in cache) && (key in cache ==> r[key] == cache[key])
    decreases |chunks|
  {
    if |chunks| > 0 {
      var reply := respond(lang, chunks[0]);
      if reply.Some? {
        var key := CacheKey(other, text);
        forall t
          ensures key != CacheKey(lang, t)
        {
          CacheKeyDiffers(other, text, lang, t);
        }
        StoreEntriesReadsBack(cache, lang, reply.value, key);
      }
      RepliesKeepOtherLanguages(if reply.Some? then StoreEntries(cache, lang, reply.value) else cache, lang, chunks[1..], respond, other, text);
    }
  }
}
