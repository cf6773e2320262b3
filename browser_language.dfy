/**
  The request-culture provider: picks the UI language from the
  Accept-Language header (section 12.5.4 of RFC 9110). Items are taken in
  header order and quality values are ignored; the first item whose primary
  subtag is a supported language wins, and English is the fallback.
*/
module BrowserLanguage {
  import opened Util

  const SupportedLanguages: seq<string> := ["en", "hi", "gu"]

  /** One item cut at its first ';' (dropping parameters such as q=0.8) and trimmed. */
  function Item(part: string): (item: string)
    ensures ';' !in item
  {
    var item := Trim(Before(part, ';'));
    assert forall c :: c in item ==> c in Before(part, ';');
    item
  }

  /** A language range as kept: non-empty and free of parameters. */
  predicate IsRange(item: string)
  {
    item != "" && ';' !in item
  }

  function Items(parts: seq<string>): (r: seq<string>)
    ensures |r| == |parts|
    ensures forall i :: 0 <= i < |r| ==> r[i] == Item(parts[i])
  {
    if |parts| == 0 then [] else [Item(parts[0])] + Items(parts[1..])
  }

  lemma {:induction false} ItemsAppend(a: seq<string>, b: seq<string>)
    ensures Items(a + b) == Items(a) + Items(b)
  {
    if |a| == 0 {
      assert a + b == b;
    } else {
      assert (a + b)[1..] == a[1..] + b;
      ItemsAppend(a[1..], b);
    }
  }

  function NonEmpty(s: string): bool
  {
    s != ""
  }

  /** Every item cut and trimmed, empty items dropped. */
  function CutItems(parts: seq<string>): (r: seq<string>)
    ensures forall i :: 0 <= i < |r| ==> IsRange(r[i])
  {
    Filter(Items(parts), NonEmpty)
  }

  lemma CutItemsAppend(a: seq<string>, b: seq<string>)
    ensures CutItems(a + b) == CutItems(a) + CutItems(b)
  {
    ItemsAppend(a, b);
    FilterAppend(Items(a), Items(b), NonEmpty);
  }

  /** The header's language ranges in header order. */
  function Ranges(header: string): (r: seq<string>)
    ensures forall i :: 0 <= i < |r| ==> IsRange(r[i])
  {
    CutItems(Split(header, ','))
  }

  /** The primary subtag, lower-cased: lang.Split('-')[0].ToLower(). */
  function PrimaryTag(lang: string): (tag: string)
    ensures '-' !in tag && |tag| <= |lang|
    ensures forall i :: 0 <= i < |tag| ==> !IsUpper(tag[i])
  {
    var head := Before(lang, '-');
    var tag := ToLower(head);
    forall i | 0 <= i < |tag| ensures tag[i] != '-' {
      assert tag[i] == LowerChar(head[i]);
    }
    tag
  }

  predicate IsSupported(lang: string)
  {
    PrimaryTag(lang) in SupportedLanguages
  }

  /**
    The foreach over the ranges: the primary subtag of the first supported
    range, or "en" when none is supported.
  */
  function Choose(langs: seq<string>): (r: string)
    ensures r in SupportedLanguages
    ensures forall k :: 0 <= k < |langs| && IsSupported(langs[k]) && (forall j :: 0 <= j < k ==> !IsSupported(langs[j])) ==>
      r == PrimaryTag(langs[k])
    ensures (forall k :: 0 <= k < |langs| ==> !IsSupported(langs[k])) ==> r == "en"
  {
    match IndexWhere(langs, IsSupported)
    case None => "en"
    case Some(k) => PrimaryTag(langs[k])
  }

  /**
    DetermineProviderCultureResult, with the header as a parameter: no
    culture for an empty header, otherwise the choice among its ranges.
  */
  function DetermineCulture(header: string): (r: Option<string>)
    ensures r.None? <==> header == ""
    ensures r.Some? ==> r.value in SupportedLanguages && r.value == Choose(Ranges(header))
  {
    if header == "" then None else Some(Choose(Ranges(header)))
  }

  /** Splitting a joined text on the joining separator splits each side. */
  lemma {:induction false} SplitConcat(a: string, b: string, sep: char)
    requires sep !in a
    ensures Split(a + [sep] + b, sep) == [a] + Split(b, sep)
  {
    var s := a + [sep] + b;
    BeforeSeparated(a, b, sep);
    assert s[|a| + 1..] == b;
  }

  lemma {:induction false} BeforeSeparated(a: string, b: string, sep: char)
    requires sep !in a
    ensures Before(a + [sep] + b, sep) == a
  {
    if |a| > 0 {
      assert (a + [sep] + b)[1..] == a[1..] + [sep] + b;
      BeforeSeparated(a[1..], b, sep);
    }
  }

  /**
    Items after the first one never matter when the first item is
    supported: a header that starts with a supported language range picks it.
  */
  lemma LeadingItemDecides(first: string, rest: string)
    requires ',' !in first && ';' !in first && Trim(first) == first && first != ""
    requires IsSupported(first)
    ensures DetermineCulture(first + "," + rest) == Some(PrimaryTag(first))
  {
    var header := first + "," + rest;
    assert header == first + [','] + rest;
    SplitConcat(first, rest, ',');
    BeforeAll(first, ';');
    CutItemsAppend([first], Split(rest, ','));
    assert Items([first]) == [first];
    assert CutItems([first]) == [first];
    assert Ranges(header)[0] == first;
  }

  lemma {:induction false} BeforeAll(s: string, sep: char)
    requires sep !in s
    ensures Before(s, sep) == s
  {
    if |s| > 0 {
      BeforeAll(s[1..], sep);
    }
  }

  /** A header naming no supported language, such as "fr-FR,de;q=0.5", falls back to English. */
  lemma UnsupportedFallsBackToEnglish(header: string)
    requires header == "fr-FR,de;q=0.5"
    ensures DetermineCulture(header) == Some("en")
  {
    var fr, de := "fr-FR", "de";
    ExampleRanges(header, fr, de);
    ExampleUnsupported(fr, de);
    FallbackWhenNoneSupported(header, [fr, de]);
  }

  lemma FallbackWhenNoneSupported(header: string, langs: seq<string>)
    requires header != "" && Ranges(header) == langs
    requires forall k :: 0 <= k < |langs| ==> !IsSupported(langs[k])
    ensures DetermineCulture(header) == Some("en")
  {
  }

  lemma ExampleUnsupported(fr: string, de: string)
    requires fr == "fr-FR" && de == "de"
    ensures !IsSupported(fr) && !IsSupported(de)
  {
    ExampleTags(fr, de);
    assert "fr"[0] !in {'e', 'h', 'g'} && "de"[0] !in {'e', 'h', 'g'};
  }

  lemma ExampleRanges(header: string, fr: string, de: string)
    requires header == "fr-FR,de;q=0.5" && fr == "fr-FR" && de == "de"
    ensures Ranges(header) == [fr, de]
  {
    var q := "de;q=0.5";
    var parts := ExampleParts(header, fr, q);
    ExampleItems(fr, q, de);
    CutTwo(fr, q);
  }

  /** Two items that stay non-empty once cut are both kept. */
  lemma CutTwo(a: string, b: string)
    requires Item(a) != "" && Item(b) != ""
    ensures CutItems([a, b]) == [Item(a), Item(b)]
  {
    assert [a, b] == [a] + [b];
    CutItemsAppend([a], [b]);
    CutOne(a);
    CutOne(b);
  }

  lemma CutOne(a: string)
    requires Item(a) != ""
    ensures CutItems([a]) == [Item(a)]
  {
    assert Items([a]) == [Item(a)];
  }

  lemma ExampleParts(header: string, fr: string, q: string) returns (parts: seq<string>)
    requires header == "fr-FR,de;q=0.5" && fr == "fr-FR" && q == "de;q=0.5"
    ensures parts == Split(header, ',') == [fr, q]
  {
    assert header == fr + [','] + q;
    assert ',' !in fr && ',' !in q;
    SplitConcat(fr, q, ',');
    SplitWithout(q, ',');
    parts := Split(header, ',');
  }

  lemma SplitWithout(s: string, sep: char)
    requires sep !in s
    ensures Split(s, sep) == [s]
  {
    BeforeAll(s, sep);
  }

  lemma ExampleItems(fr: string, q: string, de: string)
    requires fr == "fr-FR" && q == "de;q=0.5" && de == "de"
    ensures Item(fr) == fr && Item(q) == de
  {
    BeforeAll(fr, ';');
    TrimWithoutSpace(fr);
    assert q == de + [';'] + "q=0.5";
    BeforeSeparated(de, "q=0.5", ';');
    TrimWithoutSpace(de);
  }

  lemma ExampleTags(fr: string, de: string)
    requires fr == "fr-FR" && de == "de"
    ensures PrimaryTag(fr) == "fr" && PrimaryTag(de) == "de"
  {
    assert fr == "fr" + ['-'] + "FR";
    BeforeSeparated("fr", "FR", '-');
    BeforeAll(de, '-');
    assert ToLower("fr") == "fr";
    assert ToLower(de) == de;
  }

  lemma TrimWithoutSpace(s: string)
    requires forall i :: 0 <= i < |s| ==> !IsSpace(s[i])
    ensures Trim(s) == s
  {
    if |s| > 0 {
      assert !IsSpace(s[0]) && !IsSpace(s[|s| - 1]);
      assert TrimStart(s) == s;
      assert TrimEnd(s) == s;
    }
  }
}
