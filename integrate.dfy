/**
 * add_new_language/integrate_language.py: the locale file of a new language, built from
 * the keys of en.json, the translated UI strings (one per line of translated_ui.txt) and
 * the language's generated sentences.
 */
module Integrate {
  import opened Wrappers
  import opened Dicts
  import Text
  import Comprehensions
  import TtsText

  // ---------------------------------------------------------------------------
  // Which keys of en.json are UI strings
  // ---------------------------------------------------------------------------

  /** sentence_keys: the bases of the keys ending in "_sentences", with every tag removed. */
  function SentenceBases(en: Dict<Value>): set<string>
  {
    set k | k in Keys(en) && Text.EndsWith(k, Text.SentencesTag) :: Text.RemoveAll(k, Text.SentencesTag)
  }

  /** A UI key neither ends in "_sentences" nor is the base of a key that does. */
  predicate IsUiKey(k: string, bases: set<string>)
  {
    !Text.EndsWith(k, Text.SentencesTag) && k !in bases
  }

  function UiKeep(bases: set<string>): string -> bool
  {
    k => IsUiKey(k, bases)
  }

  function Same(k: string): string
  {
    k
  }

  /** ui_keys: the UI keys of en.json, in its order. */
  function UiKeys(en: Dict<Value>): seq<string>
  {
    Comprehensions.Filter(Keys(en), UiKeep(SentenceBases(en)), Same)
  }

  /**
   * ui_keys is the subsequence of the keys of en.json that are UI keys: pos gives, in
   * increasing order, the position in en.json of each, and every UI key is among them.
   */
  lemma {:induction false} UiKeysSelection(en: Dict<Value>) returns (pos: seq<nat>)
    ensures |pos| == |UiKeys(en)|
    ensures forall a :: 0 <= a < |pos| ==>
      pos[a] < |en| && UiKeys(en)[a] == en[pos[a]].0 && IsUiKey(en[pos[a]].0, SentenceBases(en))
    ensures forall a, b :: 0 <= a < b < |pos| ==> pos[a] < pos[b]
    ensures forall i :: 0 <= i < |en| && IsUiKey(en[i].0, SentenceBases(en)) ==> i in pos
  {
    var keep := UiKeep(SentenceBases(en));
    pos := Comprehensions.FilterPositions(Keys(en), keep, Same);
    forall i | 0 <= i < |en| && IsUiKey(en[i].0, SentenceBases(en)) ensures i in pos {
      assert keep(Keys(en)[i]);
    }
  }

  /** A key is a UI key of en.json exactly when it is a key of en.json and a UI key. */
  lemma {:induction false} UiKeysMembers(en: Dict<Value>, k: string)
    ensures k in UiKeys(en) <==> k in Keys(en) && IsUiKey(k, SentenceBases(en))
  {
    var keep := UiKeep(SentenceBases(en));
    Comprehensions.FilterMembers(Keys(en), keep, Same, k);
    if k in Keys(en) && IsUiKey(k, SentenceBases(en)) {
      var i :| 0 <= i < |en| && en[i].0 == k;
      assert keep(Keys(en)[i]) && k == Same(Keys(en)[i]);
    }
  }

  /** The UI keys of a dict are pairwise distinct and none ends in "_sentences". */
  lemma {:induction false} UiKeysDistinct(en: Dict<Value>)
    requires DistinctKeys(en)
    ensures forall a, b :: 0 <= a < b < |UiKeys(en)| ==> UiKeys(en)[a] != UiKeys(en)[b]
    ensures forall a :: 0 <= a < |UiKeys(en)| ==> !Text.EndsWith(UiKeys(en)[a], Text.SentencesTag)
  {
    var pos := UiKeysSelection(en);
  }

  // ---------------------------------------------------------------------------
  // The entries of the new locale
  // ---------------------------------------------------------------------------

  /** ui_translations: the lines of translated_ui.txt, each stripped of surrounding whitespace. */
  function Translations(text: string): seq<string>
  {
    var lines := Text.ReadLines(text);
    seq(|lines|, i requires 0 <= i < |lines| => Text.Strip(lines[i]))
  }

  /** The i-th UI key with the i-th translated string. */
  function UiEntries(keys: seq<string>, translations: seq<string>): Dict<Value>
    requires |keys| == |translations|
  {
    seq(|keys|, i requires 0 <= i < |keys| => (keys[i], Str(translations[i])))
  }

  /** The name shown for a symbol: its key with '_' as space, title-cased. */
  function SymbolTitle(key: string, title: string -> string): Value
  {
    Str(title(Text.ReplaceChar(key, '_', ' ')))
  }

  /** For each generated key, the lowercased key names the symbol. */
  function TitleEntries(sentences: Dict<Value>, lower: string -> string, title: string -> string): Dict<Value>
  {
    seq(|sentences|, i requires 0 <= i < |sentences| => (lower(sentences[i].0), SymbolTitle(sentences[i].0, title)))
  }

  /** For each generated key, the lowercased key with "_sentences" holds its value. */
  function ListEntries(sentences: Dict<Value>, lower: string -> string): Dict<Value>
  {
    seq(|sentences|, i requires 0 <= i < |sentences| => (lower(sentences[i].0) + Text.SentencesTag, sentences[i].1))
  }

  /** locale_data: the UI strings, then the symbol names, then the sentence lists, assigned in turn. */
  function LocaleData(keys: seq<string>, translations: seq<string>, sentences: Dict<Value>,
                      lower: string -> string, title: string -> string): Dict<Value>
    requires |keys| == |translations|
  {
    PutAll(PutAll(PutAll([], UiEntries(keys, translations)), TitleEntries(sentences, lower, title)), ListEntries(sentences, lower))
  }

  /** No two generated keys lowercase to the same key. */
  predicate LoweredDistinct(sentences: Dict<Value>, lower: string -> string)
  {
    forall i, j :: 0 <= i < j < |sentences| ==> lower(sentences[i].0) != lower(sentences[j].0)
  }

  lemma {:induction false} TaggedEndsWithTag(a: string)
    ensures Text.EndsWith(a + Text.SentencesTag, Text.SentencesTag)
  {
    assert (a + Text.SentencesTag)[|a|..] == Text.SentencesTag;
  }

  lemma {:induction false} TaggedDistinct(a: string, b: string)
    requires a != b
    ensures a + Text.SentencesTag != b + Text.SentencesTag
  {
    if |a| == |b| {
      assert (a + Text.SentencesTag)[..|a|] == a;
      assert (b + Text.SentencesTag)[..|b|] == b;
    } else {
      assert |a + Text.SentencesTag| != |b + Text.SentencesTag|;
    }
  }

  lemma {:induction false} EndsWithOccurs(s: string)
    requires Text.EndsWith(s, Text.SentencesTag)
    ensures Text.Occurs(s, Text.SentencesTag)
  {
    assert Text.OccursAt(s, Text.SentencesTag, |s| - |Text.SentencesTag|);
  }

  lemma {:induction false} UiEntriesDistinct(keys: seq<string>, translations: seq<string>)
    requires |keys| == |translations|
    requires forall a, b :: 0 <= a < b < |keys| ==> keys[a] != keys[b]
    ensures DistinctKeys(UiEntries(keys, translations))
  {
  }

  lemma {:induction false} TitleEntriesDistinct(sentences: Dict<Value>, lower: string -> string, title: string -> string)
    requires LoweredDistinct(sentences, lower)
    ensures DistinctKeys(TitleEntries(sentences, lower, title))
  {
  }

  lemma {:induction false} ListEntriesDistinct(sentences: Dict<Value>, lower: string -> string)
    requires LoweredDistinct(sentences, lower)
    ensures DistinctKeys(ListEntries(sentences, lower))
  {
    var l := ListEntries(sentences, lower);
    forall i, j | 0 <= i < j < |l| ensures l[i].0 != l[j].0 {
      TaggedDistinct(lower(sentences[i].0), lower(sentences[j].0));
    }
  }

  /**
   * The i-th UI key holds the i-th translated string, unless a generated key lowercases to
   * it: symbol names and sentence lists never take the place of another key.
   */
  lemma {:induction false} UiEntryKept(keys: seq<string>, translations: seq<string>, sentences: Dict<Value>,
                    lower: string -> string, title: string -> string, i: nat)
    requires |keys| == |translations| && i < |keys|
    requires forall a, b :: 0 <= a < b < |keys| ==> keys[a] != keys[b]
    requires !Text.EndsWith(keys[i], Text.SentencesTag)
    requires forall j :: 0 <= j < |sentences| ==> lower(sentences[j].0) != keys[i]
    ensures Get(LocaleData(keys, translations, sentences, lower, title), keys[i]) == Some(Str(translations[i]))
  {
    var k := keys[i];
    var u, t, l := UiEntries(keys, translations), TitleEntries(sentences, lower, title), ListEntries(sentences, lower);
    forall j | 0 <= j < |l| ensures l[j].0 != k {
      TaggedEndsWithTag(lower(sentences[j].0));
    }
    LastValueAbsent(l, k);
    LastValueAbsent(t, k);
    UiEntriesDistinct(keys, translations);
    LastValueDistinct(u, i);
    GetPutAll(PutAll(PutAll([], u), t), l, k);
    GetPutAll(PutAll([], u), t, k);
    GetPutAll([], u, k);
  }

  /**
   * The lowercased generated key names the symbol, title-cased with '_' as space, even
   * over a UI key of the same name, when no other generated key takes that name.
   */
  lemma {:induction false} SymbolTitleSet(keys: seq<string>, translations: seq<string>, sentences: Dict<Value>,
                       lower: string -> string, title: string -> string, j: nat)
    requires |keys| == |translations| && j < |sentences|
    requires LoweredDistinct(sentences, lower)
    requires forall m :: 0 <= m < |sentences| ==> lower(sentences[m].0) + Text.SentencesTag != lower(sentences[j].0)
    ensures Get(LocaleData(keys, translations, sentences, lower, title), lower(sentences[j].0))
      == Some(SymbolTitle(sentences[j].0, title))
  {
    var k := lower(sentences[j].0);
    var u, t, l := UiEntries(keys, translations), TitleEntries(sentences, lower, title), ListEntries(sentences, lower);
    LastValueAbsent(l, k);
    TitleEntriesDistinct(sentences, lower, title);
    LastValueDistinct(t, j);
    GetPutAll(PutAll(PutAll([], u), t), l, k);
    GetPutAll(PutAll([], u), t, k);
  }

  /**
   * The lowercased generated key with "_sentences" holds the generated value, whatever
   * other entry had that name, when no other generated key lowercases alike.
   */
  lemma {:induction false} SymbolSentencesSet(keys: seq<string>, translations: seq<string>, sentences: Dict<Value>,
                           lower: string -> string, title: string -> string, j: nat)
    requires |keys| == |translations| && j < |sentences|
    requires LoweredDistinct(sentences, lower)
    ensures Get(LocaleData(keys, translations, sentences, lower, title), lower(sentences[j].0) + Text.SentencesTag)
      == Some(sentences[j].1)
  {
    var k := lower(sentences[j].0) + Text.SentencesTag;
    var u, t, l := UiEntries(keys, translations), TitleEntries(sentences, lower, title), ListEntries(sentences, lower);
    ListEntriesDistinct(sentences, lower);
    LastValueDistinct(l, j);
    GetPutAll(PutAll(PutAll([], u), t), l, k);
  }

  /**
   * The locale has distinct keys, and its keys are the UI keys, the lowercased generated
   * keys and those keys with "_sentences".
   */
  lemma {:induction false} LocaleKeys(keys: seq<string>, translations: seq<string>, sentences: Dict<Value>,
                   lower: string -> string, title: string -> string, k: string)
    requires |keys| == |translations|
    ensures DistinctKeys(LocaleData(keys, translations, sentences, lower, title))
    ensures k in Keys(LocaleData(keys, translations, sentences, lower, title)) <==>
      k in keys || exists j :: 0 <= j < |sentences| && (k == lower(sentences[j].0) || k == lower(sentences[j].0) + Text.SentencesTag)
  {
    var u, t, l := UiEntries(keys, translations), TitleEntries(sentences, lower, title), ListEntries(sentences, lower);
    PutAllKeys([], u);
    PutAllKeys(PutAll([], u), t);
    PutAllKeys(PutAll(PutAll([], u), t), l);
    UiEntriesKeys(keys, translations);
    GeneratedKeys(sentences, lower, title, k);
  }

  /** The keys the generated sentences add: the lowercased keys and those with "_sentences". */
  lemma {:induction false} GeneratedKeys(sentences: Dict<Value>, lower: string -> string, title: string -> string, k: string)
    ensures k in Keys(TitleEntries(sentences, lower, title)) || k in Keys(ListEntries(sentences, lower)) <==>
      exists j :: 0 <= j < |sentences| && (k == lower(sentences[j].0) || k == lower(sentences[j].0) + Text.SentencesTag)
  {
    var t, l := TitleEntries(sentences, lower, title), ListEntries(sentences, lower);
    if exists j :: 0 <= j < |sentences| && (k == lower(sentences[j].0) || k == lower(sentences[j].0) + Text.SentencesTag) {
      var j :| 0 <= j < |sentences| && (k == lower(sentences[j].0) || k == lower(sentences[j].0) + Text.SentencesTag);
      assert Keys(t)[j] == lower(sentences[j].0) && Keys(l)[j] == lower(sentences[j].0) + Text.SentencesTag;
    }
  }

  // ---------------------------------------------------------------------------
  // The script
  // ---------------------------------------------------------------------------

  /**
   * A language directory add_new_language/<name>: the text of translated_ui.txt, the parsed
   * generated_sentences.json, and the names of the other files in it.
   */
  datatype LangDir = LangDir(translatedUi: Option<string>, generatedSentences: Option<Dict<Value>>, files: set<string>)

  datatype IntegrateError =
    | IntegrateUsage
    | NoLanguageDir(langName: string)
    | NoTranslatedUi(langName: string)
    | NoGeneratedSentences(langName: string)
    | NoFlag(langCode: string)
    | NoEnLocale
    | CountMismatch(uiKeys: seq<string>, uiTranslations: seq<string>)

  /** The locale file written: its name in frontend/static/locales and its entries in order. */
  datatype Integration = Integration(localeFile: string, locale: Dict<Value>)

  /**
   * The script on the arguments after its name, with the language directories by name and
   * the parsed en.json locale if there is one.
   */
  function IntegrateSpec(args: seq<string>, langDirs: map<string, LangDir>, enLocale: Option<Dict<Value>>,
                         lower: string -> string, title: string -> string): Result<Integration, IntegrateError>
  {
    if |args| != 2 then Err(IntegrateUsage)
    else
      var langName, langCode := args[0], args[1];
      if langName !in langDirs then Err(NoLanguageDir(langName))
      else
        var dir := langDirs[langName];
        if dir.translatedUi.None? then Err(NoTranslatedUi(langName))
        else if dir.generatedSentences.None? then Err(NoGeneratedSentences(langName))
        else if langCode + ".svg" !in dir.files then Err(NoFlag(langCode))
        else if enLocale.None? then Err(NoEnLocale)
        else
          var keys := UiKeys(enLocale.value);
          var translations := Translations(dir.translatedUi.value);
          if |keys| != |translations| then Err(CountMismatch(keys, translations))
          else Ok(Integration(langCode + ".json", LocaleData(keys, translations, dir.generatedSentences.value, lower, title)))
  }

  /** The three loops that fill locale_data. */
  method BuildLocale(keys: seq<string>, translations: seq<string>, sentences: Dict<Value>,
                     lower: string -> string, title: string -> string) returns (localeData: Dict<Value>)
    requires |keys| == |translations|
    ensures localeData == LocaleData(keys, translations, sentences, lower, title)
  {
    var u, t, l := UiEntries(keys, translations), TitleEntries(sentences, lower, title), ListEntries(sentences, lower);
    localeData := [];
    for i := 0 to |keys|
      invariant localeData == PutAll([], u[..i])
    {
      PutAllStep([], u, i);
      localeData := Put(localeData, keys[i], Str(translations[i]));
    }
    assert u[..|keys|] == u;
    ghost var afterUi := localeData;
    for i := 0 to |sentences|
      invariant localeData == PutAll(afterUi, t[..i])
    {
      PutAllStep(afterUi, t, i);
      var key := sentences[i].0;
      localeData := Put(localeData, lower(key), SymbolTitle(key, title));
    }
    assert t[..|sentences|] == t;
    ghost var afterTitles := localeData;
    for i := 0 to |sentences|
      invariant localeData == PutAll(afterTitles, l[..i])
    {
      PutAllStep(afterTitles, l, i);
      var (key, value) := sentences[i];
      localeData := Put(localeData, lower(key) + Text.SentencesTag, value);
    }
    assert l[..|sentences|] == l;
  }

  method IntegrateLanguage(args: seq<string>, langDirs: map<string, LangDir>, enLocale: Option<Dict<Value>>,
                           lower: string -> string, title: string -> string)
    returns (r: Result<Integration, IntegrateError>)
    ensures r == IntegrateSpec(args, langDirs, enLocale, lower, title)
  {
    if |args| != 2 {
      return Err(IntegrateUsage);
    }
    var langName, langCode := args[0], args[1];
    if langName !in langDirs {
      return Err(NoLanguageDir(langName));
    }
    var dir := langDirs[langName];
    if dir.translatedUi.None? {
      return Err(NoTranslatedUi(langName));
    }
    if dir.generatedSentences.None? {
      return Err(NoGeneratedSentences(langName));
    }
    if langCode + ".svg" !in dir.files {
      return Err(NoFlag(langCode));
    }
    if enLocale.None? {
      return Err(NoEnLocale);
    }
    var uiKeys := UiKeys(enLocale.value);
    var uiTranslations := Translations(dir.translatedUi.value);
    if |uiKeys| != |uiTranslations| {
      return Err(CountMismatch(uiKeys, uiTranslations));
    }
    var localeData := BuildLocale(uiKeys, uiTranslations, dir.generatedSentences.value, lower, title);
    r := Ok(Integration(langCode + ".json", localeData));
  }

  /**
   * A locale file is written exactly when every input is there and there are as many
   * translated lines as UI keys; it is named after the language code.
   */
  lemma {:induction false} IntegrateOutcome(args: seq<string>, langDirs: map<string, LangDir>, enLocale: Option<Dict<Value>>,
                         lower: string -> string, title: string -> string)
    ensures IntegrateSpec(args, langDirs, enLocale, lower, title).Ok? <==>
      |args| == 2 && args[0] in langDirs
      && langDirs[args[0]].translatedUi.Some? && langDirs[args[0]].generatedSentences.Some?
      && args[1] + ".svg" in langDirs[args[0]].files && enLocale.Some?
      && |UiKeys(enLocale.value)| == |Translations(langDirs[args[0]].translatedUi.value)|
    ensures IntegrateSpec(args, langDirs, enLocale, lower, title).Ok? ==>
      IntegrateSpec(args, langDirs, enLocale, lower, title).value.localeFile == args[1] + ".json"
  {
  }

  // ---------------------------------------------------------------------------
  // The locale read back by tts/generate_tts_txt.py
  // ---------------------------------------------------------------------------

  lemma {:induction false} LocaleGroupsNoLists(d: Dict<Value>, lower: string -> string)
    requires forall i :: 0 <= i < |d| ==> !d[i].1.List?
    ensures TtsText.LocaleGroups(d, lower) == []
  {
    if d != [] {
      LocaleGroupsNoLists(d[..|d| - 1], lower);
    }
  }

  /** Lowercasing the keys again changes nothing and none holds "_sentences". */
  predicate SettledKeys(sentences: Dict<Value>, lower: string -> string)
  {
    forall j :: 0 <= j < |sentences| ==>
      lower(lower(sentences[j].0)) == lower(sentences[j].0) && !Text.Occurs(lower(sentences[j].0), Text.SentencesTag)
  }

  lemma {:induction false} ListEntriesGroups(sentences: Dict<Value>, lower: string -> string)
    requires SettledKeys(sentences, lower)
    ensures TtsText.LocaleGroups(ListEntries(sentences, lower), lower) == TtsText.ExtractGroups(sentences, lower)
  {
    if sentences != [] {
      var n := |sentences| - 1;
      var init := sentences[..n];
      ListEntriesGroups(init, lower);
      var l := ListEntries(sentences, lower);
      assert l[..n] == ListEntries(init, lower);
      var k := lower(sentences[n].0);
      TaggedEndsWithTag(k);
      Text.RemoveTagAfter(k);
      assert TtsText.SymbolName(l[n].0, lower) == k;
    }
  }

  /** Only the last part of three holds lists: the lists are the last part's. */
  lemma {:induction false} GroupsOfParts(u: Dict<Value>, t: Dict<Value>, l: Dict<Value>, lower: string -> string)
    requires forall i :: 0 <= i < |u| ==> u[i].1.Str?
    requires forall i :: 0 <= i < |t| ==> t[i].1.Str?
    ensures TtsText.LocaleGroups(u + t + l, lower) == TtsText.LocaleGroups(l, lower)
  {
    TtsText.LocaleGroupsAppend(u + t, l, lower);
    TtsText.LocaleGroupsAppend(u, t, lower);
    LocaleGroupsNoLists(u, lower);
    LocaleGroupsNoLists(t, lower);
  }

  lemma {:induction false} UiEntriesKeys(keys: seq<string>, translations: seq<string>)
    requires |keys| == |translations|
    ensures Keys(UiEntries(keys, translations)) == keys
  {
  }

  /** A sentence-list key is neither a UI key nor a symbol name. */
  lemma {:induction false} ListKeyFresh(keys: seq<string>, translations: seq<string>, sentences: Dict<Value>,
                     lower: string -> string, title: string -> string, j: nat)
    requires |keys| == |translations| && j < |sentences|
    requires forall a :: 0 <= a < |keys| ==> !Text.EndsWith(keys[a], Text.SentencesTag)
    requires SettledKeys(sentences, lower)
    ensures ListEntries(sentences, lower)[j].0 !in Keys(UiEntries(keys, translations) + TitleEntries(sentences, lower, title))
  {
    var u, t := UiEntries(keys, translations), TitleEntries(sentences, lower, title);
    var k := lower(sentences[j].0) + Text.SentencesTag;
    TaggedEndsWithTag(lower(sentences[j].0));
    EndsWithOccurs(k);
    UiEntriesKeys(keys, translations);
    assert Keys(u + t) == keys + Keys(t);
    assert k !in keys;
    forall m | 0 <= m < |t| ensures Keys(t)[m] != k {
      assert Keys(t)[m] == lower(sentences[m].0);
    }
  }

  /** With distinct non-clashing keys, each entry is assigned once: the locale holds them in order. */
  lemma {:induction false} LocaleInOrder(keys: seq<string>, translations: seq<string>, sentences: Dict<Value>,
                      lower: string -> string, title: string -> string)
    requires |keys| == |translations|
    requires forall a, b :: 0 <= a < b < |keys| ==> keys[a] != keys[b]
    requires forall a :: 0 <= a < |keys| ==> !Text.EndsWith(keys[a], Text.SentencesTag)
    requires LoweredDistinct(sentences, lower) && SettledKeys(sentences, lower)
    requires forall a, j :: 0 <= a < |keys| && 0 <= j < |sentences| ==> keys[a] != lower(sentences[j].0)
    ensures LocaleData(keys, translations, sentences, lower, title)
      == UiEntries(keys, translations) + TitleEntries(sentences, lower, title) + ListEntries(sentences, lower)
  {
    var u, t, l := UiEntries(keys, translations), TitleEntries(sentences, lower, title), ListEntries(sentences, lower);
    UiEntriesDistinct(keys, translations);
    PutAllFresh([], u);
    assert [] + u == u;
    TitleEntriesDistinct(sentences, lower, title);
    UiEntriesKeys(keys, translations);
    forall j | 0 <= j < |t| ensures t[j].0 !in Keys(u) {
      assert t[j].0 == lower(sentences[j].0);
    }
    PutAllFresh(u, t);
    ListEntriesDistinct(sentences, lower);
    forall j | 0 <= j < |l| ensures l[j].0 !in Keys(u + t) {
      ListKeyFresh(keys, translations, sentences, lower, title, j);
    }
    PutAllFresh(u + t, l);
  }

  /**
   * generate_tts_txt.py on a locale built by this script writes the same lines as
   * extract_sentences_tts.py on the generated sentences it was built from.
   */
  lemma {:induction false} GeneratedMatchesExtracted(keys: seq<string>, translations: seq<string>, sentences: Dict<Value>,
                                  lower: string -> string, title: string -> string)
    requires |keys| == |translations|
    requires forall a, b :: 0 <= a < b < |keys| ==> keys[a] != keys[b]
    requires forall a :: 0 <= a < |keys| ==> !Text.EndsWith(keys[a], Text.SentencesTag)
    requires LoweredDistinct(sentences, lower) && SettledKeys(sentences, lower)
    requires forall a, j :: 0 <= a < |keys| && 0 <= j < |sentences| ==> keys[a] != lower(sentences[j].0)
    ensures TtsText.LocaleGroups(LocaleData(keys, translations, sentences, lower, title), lower)
      == TtsText.ExtractGroups(sentences, lower)
    ensures TtsText.Lines(TtsText.LocaleGroups(LocaleData(keys, translations, sentences, lower, title), lower))
      == TtsText.Lines(TtsText.ExtractGroups(sentences, lower))
  {
    var u, t, l := UiEntries(keys, translations), TitleEntries(sentences, lower, title), ListEntries(sentences, lower);
    LocaleInOrder(keys, translations, sentences, lower, title);
    GroupsOfParts(u, t, l, lower);
    ListEntriesGroups(sentences, lower);
  }
}
