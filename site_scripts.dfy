/**
  The shared page script: the language registry behind the language picker
  and its search box, the Google News edition chosen for a language, and
  the legacy `i18n.t` that turns a CamelCase key into words.
*/
module SiteScripts {
  import opened Util

  // ---------------------------------------------------------------------
  // Google News parameters
  // ---------------------------------------------------------------------

  /** The edition query: country (gl), interface language (hl) and edition id (ceid). */
  datatype NewsParams = NewsParams(gl: string, hl: string, ceid: string)

  /** Languages whose edition is fixed outright. */
  const Overrides: map<string, NewsParams> := map[
    "en" := NewsParams("US", "en-US", "US:en"),
    "hi" := NewsParams("IN", "hi", "IN:hi"),
    "gu" := NewsParams("IN", "gu", "IN:gu"),
    "mr" := NewsParams("IN", "mr", "IN:mr"),
    "zh" := NewsParams("CN", "zh-CN", "CN:zh-Hans"),
    "ja" := NewsParams("JP", "ja", "JP:ja"),
    "ko" := NewsParams("KR", "ko", "KR:ko"),
    "uk" := NewsParams("UA", "uk", "UA:uk"),
    "pt" := NewsParams("BR", "pt-BR", "BR:pt-419")
  ]

  /** The country used for the remaining languages. */
  const RegionMap: map<string, string> := map[
    "fr" := "FR", "es" := "MX", "de" := "DE", "ar" := "EG", "ru" := "RU", "it" := "IT",
    "nl" := "NL", "tr" := "TR", "pl" := "PL", "id" := "ID", "th" := "TH", "vi" := "VN",
    "sv" := "SE", "fi" := "FI", "da" := "DK", "no" := "NO", "cs" := "CZ", "el" := "GR",
    "he" := "IL", "ro" := "RO", "hu" := "HU"
  ]

  const DefaultRegion := "US"

  /** getGoogleNewsParams. */
  function NewsParamsFor(lang: string): (r: NewsParams)
    ensures lang in Overrides ==> r == Overrides[lang]
    ensures lang !in Overrides ==> r.hl == lang && r.ceid == r.gl + ":" + lang
    ensures lang !in Overrides && lang !in RegionMap ==> r.gl == DefaultRegion
  {
    if lang in Overrides then Overrides[lang]
    else
      var region := if lang in RegionMap then RegionMap[lang] else DefaultRegion;
      NewsParams(region, lang, region + ":" + lang)
  }

  /** The edition id always begins with the country, up to the first colon. */
  lemma CeidNamesRegion(lang: string)
    ensures Before(NewsParamsFor(lang).ceid, ':') == NewsParamsFor(lang).gl
  {
    var r := NewsParamsFor(lang);
    if lang in Overrides {
      OverrideCeids(lang);
    } else {
      var region := if lang in RegionMap then RegionMap[lang] else DefaultRegion;
      RegionShape(lang);
      BeforeColon(region, lang);
    }
  }

  /** Each fixed edition id is its country, a colon and a suffix. */
  lemma OverrideCeids(lang: string)
    requires lang in Overrides
    ensures Before(Overrides[lang].ceid, ':') == Overrides[lang].gl
  {
    var p := Overrides[lang];
    var suffix := p.ceid[3..];
    assert |p.gl| == 2 && ':' !in p.gl && p.ceid == p.gl + ":" + suffix;
    BeforeColon(p.gl, suffix);
  }

  /** Country codes are two letters with no colon. */
  lemma RegionShape(lang: string)
    ensures lang in RegionMap ==> |RegionMap[lang]| == 2 && ':' !in RegionMap[lang]
  {
  }

  lemma BeforeColon(a: string, b: string)
    requires ':' !in a
    ensures Before(a + ":" + b, ':') == a
  {
    var s := a + ":" + b;
    assert s[..|a|] == a && s[|a|] == ':';
  }

  // ---------------------------------------------------------------------
  // The language registry and its search box
  // ---------------------------------------------------------------------

  /** ISOLanguages, in the order the picker lists them: code and display name. */
  const Languages: seq<(string, string)> := [
    ("en", "English"),
    ("hi", "हिन्दी (Hindi)"),
    ("gu", "ગુજરાતી (Gujarati)"),
    ("mr", "मराठी (Marathi)"),
    ("fr", "Français (French)"),
    ("es", "Español (Spanish)"),
    ("de", "Deutsch (German)"),
    ("ar", "العربية (Arabic)"),
    ("zh", "中文 (Chinese)"),
    ("ja", "日本語 (Japanese)"),
    ("ru", "Русский (Russian)"),
    ("pt", "Português (Portuguese)"),
    ("it", "Italiano (Italian)"),
    ("ko", "한국어 (Korean)"),
    ("nl", "Nederlands (Dutch)"),
    ("tr", "Türkçe (Turkish)"),
    ("pl", "Polski (Polish)"),
    ("id", "Bahasa Indonesia"),
    ("th", "ไทย (Thai)"),
    ("vi", "Tiếng Việt (Vietnamese)"),
    ("uk", "Українська (Ukrainian)"),
    ("sv", "Svenska (Swedish)"),
    ("fi", "Suomi (Finnish)"),
    ("da", "Dansk (Danish)"),
    ("no", "Norsk (Norwegian)"),
    ("cs", "Čeština (Czech)"),
    ("el", "Ελληνικά (Greek)"),
    ("he", "עברית (Hebrew)"),
    ("ro", "Română (Romanian)"),
    ("hu", "Magyar (Hungarian)")
  ]

  /** Every language the picker offers has a news edition of its own country; only English gets the default. */
  lemma OfferedLanguagesHaveEditions()
    ensures forall i :: 0 <= i < |Languages| ==> Languages[i].0 in Overrides || Languages[i].0 in RegionMap
  {
  }

  /** The search box's test for one entry; `term` is already lower-cased. */
  predicate Listed(term: string, entry: (string, string))
  {
    Contains(ToLower(entry.1), term) || Contains(entry.0, term)
  }

  function ListedFor(term: string): ((string, string)) -> bool
  {
    entry => Listed(term, entry)
  }

  /** The entries shown for what the user typed, in registry order. */
  function Search(languages: seq<(string, string)>, typed: string): (r: seq<(string, string)>)
    ensures forall e :: e in r <==> e in languages && Listed(ToLower(typed), e)
  {
    var shown := Filter(languages, ListedFor(ToLower(typed)));
    assert forall e :: e in shown ==> e in languages && Listed(ToLower(typed), e) by {
      forall e | e in shown ensures e in languages && Listed(ToLower(typed), e) {
        var i :| 0 <= i < |shown| && shown[i] == e;
      }
    }
    assert forall e :: e in languages && Listed(ToLower(typed), e) ==> e in shown by {
      forall e | e in languages && Listed(ToLower(typed), e) ensures e in shown {
        var i :| 0 <= i < |languages| && languages[i] == e;
      }
    }
    shown
  }

  /** An empty box lists every language. */
  lemma EmptySearchListsAll(languages: seq<(string, string)>)
    ensures Search(languages, "") == languages
  {
    forall i | 0 <= i < |languages| ensures ListedFor("")(languages[i]) {
      ContainsEmpty(languages[i].0);
    }
    FilterKeepsAll(languages, ListedFor(""));
  }

  /**
    Typing more narrows the list: when the lower-cased longer input contains
    the lower-cased shorter one, what it shows is what the shorter one shows,
    filtered again.
  */
  lemma LongerSearchNarrows(languages: seq<(string, string)>, shorter: string, longer: string)
    requires Contains(ToLower(longer), ToLower(shorter))
    ensures Search(languages, longer) == Filter(Search(languages, shorter), ListedFor(ToLower(longer)))
  {
    var p, q := ListedFor(ToLower(longer)), ListedFor(ToLower(shorter));
    forall i | 0 <= i < |languages| ensures p(languages[i]) ==> q(languages[i]) {
      var e := languages[i];
      if Contains(ToLower(e.1), ToLower(longer)) {
        ContainsTrans(ToLower(e.1), ToLower(longer), ToLower(shorter));
      }
      if Contains(e.0, ToLower(longer)) {
        ContainsTrans(e.0, ToLower(longer), ToLower(shorter));
      }
    }
    FilterNarrow(languages, p, q);
  }

  // ---------------------------------------------------------------------
  // The legacy i18n.t
  // ---------------------------------------------------------------------

  /** Every capital letter after the first character follows a space. */
  predicate WordsSeparated(s: string)
  {
    forall i :: 0 < i < |s| && IsUpper(s[i]) ==> s[i - 1] == ' '
  }

  /** `replace(/([A-Z])/g, ' $1')`: a space in front of every capital letter. */
  function SpaceCapitals(key: string): (r: string)
    ensures WordsSeparated(r)
    ensures |r| > 0 && IsUpper(r[0]) ==> false
  {
    if |key| == 0 then ""
    else
      var rest := SpaceCapitals(key[1..]);
      var head := if IsUpper(key[0]) then [' ', key[0]] else [key[0]];
      assert forall i :: |head| <= i < |head + rest| ==> (head + rest)[i] == rest[i - |head|];
      head + rest
  }

  /** The effective `i18n.t`: capitals spaced out, then trimmed ("NewNote" reads "New Note"). */
  function SpacedKey(key: string): string
  {
    Trim(SpaceCapitals(key))
  }

  /** Any character but whitespace. */
  predicate IsVisible(c: char)
  {
    !IsSpace(c)
  }

  /** The key's characters other than whitespace, in order. */
  function Visible(s: string): string
  {
    Filter(s, IsVisible)
  }

  /** The words survive: only whitespace is added or removed. */
  lemma SpacedKeyKeepsText(key: string)
    ensures Visible(SpacedKey(key)) == Visible(key)
  {
    SpaceCapitalsKeepsText(key);
    TrimKeepsText(SpaceCapitals(key));
  }

  /** Every capital after the first character follows a space. */
  lemma SpacedKeySeparatesWords(key: string)
    ensures WordsSeparated(SpacedKey(key))
  {
    TrimStartKeepsSeparation(SpaceCapitals(key));
    TrimEndKeepsSeparation(TrimStart(SpaceCapitals(key)));
  }

  lemma TrimStartKeepsSeparation(s: string)
    requires WordsSeparated(s)
    ensures WordsSeparated(TrimStart(s))
  {
    var a := TrimStart(s);
    var k := |s| - |a|;
    assert a == s[k..];
    assert forall i :: 0 <= i < |a| ==> a[i] == s[k + i];
  }

  lemma TrimEndKeepsSeparation(s: string)
    requires WordsSeparated(s)
    ensures WordsSeparated(TrimEnd(s))
  {
    var r := TrimEnd(s);
    assert r == s[..|r|];
    assert forall i :: 0 <= i < |r| ==> r[i] == s[i];
  }

  lemma {:induction false} SpaceCapitalsKeepsText(key: string)
    ensures Visible(SpaceCapitals(key)) == Visible(key)
  {
    if |key| > 0 {
      var c, tail := key[0], key[1..];
      assert key == [c] + tail;
      SpaceCapitalsAppend([c], tail);
      SpaceCapitalsKeepsText(tail);
      OneCharKeepsText(c);
      FilterAppend(SpaceCapitals([c]), SpaceCapitals(tail), IsVisible);
      FilterAppend([c], tail, IsVisible);
    }
  }

  lemma OneCharKeepsText(c: char)
    ensures Visible(SpaceCapitals([c])) == Visible([c])
  {
    if IsUpper(c) {
      assert SpaceCapitals([c]) == [' '] + [c];
      FilterAppend([' '], [c], IsVisible);
    }
  }

  lemma AllSpaceInvisible(s: string)
    requires forall i :: 0 <= i < |s| ==> IsSpace(s[i])
    ensures Visible(s) == []
  {
    FilterEmpty(s, IsVisible);
  }

  lemma TrimStartKeepsText(s: string)
    ensures Visible(TrimStart(s)) == Visible(s)
  {
    var a := TrimStart(s);
    var k := |s| - |a|;
    var lead := s[..k];
    assert a == s[k..];
    assert s == lead + a;
    assert forall i :: 0 <= i < |lead| ==> lead[i] == s[i];
    FilterAppend(lead, a, IsVisible);
    AllSpaceInvisible(lead);
  }

  lemma TrimEndKeepsText(s: string)
    ensures Visible(TrimEnd(s)) == Visible(s)
  {
    var r := TrimEnd(s);
    var trail := s[|r|..];
    assert s == r + trail;
    FilterAppend(r, trail, IsVisible);
    AllSpaceInvisible(trail);
  }

  lemma TrimKeepsText(s: string)
    ensures Visible(Trim(s)) == Visible(s)
  {
    TrimStartKeepsText(s);
    TrimEndKeepsText(TrimStart(s));
  }

  /** Spacing works character by character, so it distributes over concatenation. */
  lemma {:induction false} SpaceCapitalsAppend(a: string, b: string)
    ensures SpaceCapitals(a + b) == SpaceCapitals(a) + SpaceCapitals(b)
  {
    if |a| > 0 {
      assert (a + b)[1..] == a[1..] + b;
      SpaceCapitalsAppend(a[1..], b);
    } else {
      assert a + b == b;
    }
  }

  /** A word in a CamelCase key: a capital followed by characters that are neither capitals nor whitespace. */
  predicate Capitalized(w: string)
  {
    |w| > 0 && IsUpper(w[0]) && forall i :: 1 <= i < |w| ==> !IsUpper(w[i]) && !IsSpace(w[i])
  }

  /** The words glued together, as a CamelCase key is written. */
  function Glue(words: seq<string>): string
  {
    if |words| == 0 then "" else words[0] + Glue(words[1..])
  }

  lemma SpacedWord(w: string)
    requires Capitalized(w)
    ensures SpaceCapitals(w) == [' '] + w
  {
    NoCapitals(w[1..]);
    assert w == [w[0]] + w[1..];
  }

  lemma {:induction false} NoCapitals(w: string)
    requires forall i :: 0 <= i < |w| ==> !IsUpper(w[i])
    ensures SpaceCapitals(w) == w
  {
    if |w| > 0 {
      NoCapitals(w[1..]);
      assert w == [w[0]] + w[1..];
    }
  }

  /** Before trimming, each word of the key gets a space in front. */
  lemma {:induction false} SpacedGlue(words: seq<string>)
    requires |words| > 0 && forall i :: 0 <= i < |words| ==> Capitalized(words[i])
    ensures SpaceCapitals(Glue(words)) == " " + Join(words, " ")
  {
    var w, rest := words[0], words[1..];
    SpacedWord(w);
    SpaceCapitalsAppend(w, Glue(rest));
    if |rest| == 0 {
      assert Glue(words) == w + "";
    } else {
      assert forall i :: 0 <= i < |rest| ==> rest[i] == words[i + 1];
      SpacedGlue(rest);
    }
  }

  /** Join of capitalized words starts with a capital and ends with a character that is not whitespace. */
  lemma {:induction false} JoinEnds(words: seq<string>)
    requires |words| > 0 && forall i :: 0 <= i < |words| ==> Capitalized(words[i])
    ensures var j := Join(words, " "); |j| > 0 && IsUpper(j[0]) && !IsSpace(j[|j| - 1])
  {
    var w := words[0];
    assert IsUpper(w[0]) && !IsSpace(w[|w| - 1]);
    if |words| > 1 {
      var rest := words[1..];
      assert forall i :: 0 <= i < |rest| ==> rest[i] == words[i + 1];
      JoinEnds(rest);
      var j := Join(words, " ");
      assert j == w + " " + Join(rest, " ");
    }
  }

  lemma TrimSpacedText(t: string, w: string)
    requires t == " " + w && |w| > 0 && !IsSpace(w[0]) && !IsSpace(w[|w| - 1])
    ensures Trim(t) == w
  {
    assert t[1..] == w;
    assert TrimStart(t) == TrimStart(w);
  }

  /**
    A CamelCase key reads as its words separated by single spaces; for
    instance "NewNote" reads "New Note" (NewNoteExample).
  */
  lemma CamelCaseReadsAsWords(words: seq<string>)
    requires |words| > 0 && forall i :: 0 <= i < |words| ==> Capitalized(words[i])
    ensures SpacedKey(Glue(words)) == Join(words, " ")
  {
    var j := Join(words, " ");
    var t := SpaceCapitals(Glue(words));
    SpacedGlue(words);
    assert t == " " + j;
    JoinEnds(words);
    assert |j| > 0 && !IsSpace(j[0]) && !IsSpace(j[|j| - 1]);
    TrimSpacedText(t, j);
  }

  lemma NewNoteExample()
    ensures SpacedKey("NewNote") == "New Note"
  {
    var words := ["New", "Note"];
    assert Capitalized("New") && Capitalized("Note");
    assert Glue(words) == "NewNote";
    assert Join(words, " ") == "New Note";
    CamelCaseReadsAsWords(words);
  }
}
