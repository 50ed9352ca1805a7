/**
 * add_new_language/prepare_translation.py: the UI strings of en.json, one per line, as
 * input for a translator; and how the translated file is read back by
 * add_new_language/integrate_language.py.
 */
module Prepare {
  import opened Wrappers
  import opened Dicts
  import Text
  import Comprehensions
  import Integrate

  /** A string value under a key that starts with a lowercase character. */
  predicate Translatable(entry: (string, Value), isLower: char -> bool)
  {
    entry.1.Str? && entry.0 != [] && isLower(entry.0[0])
  }

  function TranslatableKeep(isLower: char -> bool): ((string, Value)) -> bool
  {
    entry => Translatable(entry, isLower)
  }

  function StrOf(entry: (string, Value)): string
  {
    if entry.1.Str? then entry.1.s else []
  }

  /** values_to_translate: the translatable values of the dict, in its order. */
  function Selection(data: Dict<Value>, isLower: char -> bool): seq<string>
  {
    Comprehensions.Filter(data, TranslatableKeep(isLower), StrOf)
  }

  /** A string value under the empty key: key[0] fails on it. */
  predicate EmptyStrKey(entry: (string, Value))
  {
    entry.0 == [] && entry.1.Str?
  }

  datatype PrepareError = MissingEnLocale | EmptyKey

  /** The script with the parsed en.json, if there is one; Ok holds the text of translation_input.txt. */
  function PrepareSpec(en: Option<Dict<Value>>, isLower: char -> bool): Result<string, PrepareError>
  {
    if en.None? then Err(MissingEnLocale)
    else if exists i :: 0 <= i < |en.value| && EmptyStrKey(en.value[i]) then Err(EmptyKey)
    else Ok(Text.JoinLines(Selection(en.value, isLower)))
  }

  method PrepareTranslation(en: Option<Dict<Value>>, isLower: char -> bool) returns (r: Result<string, PrepareError>)
    ensures r == PrepareSpec(en, isLower)
  {
    if en.None? {
      return Err(MissingEnLocale);
    }
    var data := en.value;
    var valuesToTranslate: seq<string> := [];
    for i := 0 to |data|
      invariant valuesToTranslate == Selection(data[..i], isLower)
      invariant forall j :: 0 <= j < i ==> !EmptyStrKey(data[j])
    {
      Comprehensions.FilterStep(data, i, TranslatableKeep(isLower), StrOf);
      var (key, value) := data[i];
      if value.Str? {
        if key == [] {
          assert EmptyStrKey(data[i]);
          return Err(EmptyKey);
        }
        if isLower(key[0]) {
          valuesToTranslate := valuesToTranslate + [value.s];
        }
      }
    }
    assert data[..|data|] == data;
    r := Ok(Text.JoinLines(valuesToTranslate));
  }

  /**
   * The selection is exactly the string values under keys starting with a lowercase
   * character, in dict order: pos gives their positions, increasing, and misses none.
   */
  lemma {:induction false} SelectionExact(data: Dict<Value>, isLower: char -> bool) returns (pos: seq<nat>)
    ensures |pos| == |Selection(data, isLower)|
    ensures forall a :: 0 <= a < |pos| ==>
      pos[a] < |data| && Translatable(data[pos[a]], isLower) && data[pos[a]].1 == Str(Selection(data, isLower)[a])
    ensures forall a, b :: 0 <= a < b < |pos| ==> pos[a] < pos[b]
    ensures forall i :: 0 <= i < |data| && Translatable(data[i], isLower) ==> i in pos
  {
    var keep := TranslatableKeep(isLower);
    pos := Comprehensions.FilterPositions(data, keep, StrOf);
    forall i | 0 <= i < |data| && Translatable(data[i], isLower) ensures i in pos {
      assert keep(data[i]);
    }
  }

  /** A string is selected exactly when it is the value of a key starting with a lowercase character; lists never are. */
  lemma {:induction false} SelectionMembers(data: Dict<Value>, isLower: char -> bool, v: string)
    ensures v in Selection(data, isLower) <==>
      exists i :: 0 <= i < |data| && data[i].1 == Str(v) && data[i].0 != [] && isLower(data[i].0[0])
  {
    var keep := TranslatableKeep(isLower);
    Comprehensions.FilterMembers(data, keep, StrOf, v);
    if exists i :: 0 <= i < |data| && data[i].1 == Str(v) && data[i].0 != [] && isLower(data[i].0[0]) {
      var i :| 0 <= i < |data| && data[i].1 == Str(v) && data[i].0 != [] && isLower(data[i].0[0]);
      assert keep(data[i]) && v == StrOf(data[i]);
    }
  }

  /** Without en.json, or with a string under the empty key, nothing is written. */
  lemma {:induction false} PrepareOutcome(en: Option<Dict<Value>>, isLower: char -> bool)
    ensures PrepareSpec(en, isLower).Ok? <==> en.Some? && forall i :: 0 <= i < |en.value| ==> !EmptyStrKey(en.value[i])
    ensures PrepareSpec(en, isLower).Ok? ==> PrepareSpec(en, isLower).value == Text.JoinLines(Selection(en.value, isLower))
  {
  }

  /** The lines of a file written with "\n".join, as integrate_language.py reads and strips them. */
  lemma {:induction false} TranslationsOfJoined(lines: seq<string>)
    requires Text.NoNewlines(lines)
    requires lines != [] ==> lines[|lines| - 1] != []
    ensures |Integrate.Translations(Text.JoinLines(lines))| == |lines|
    ensures forall a :: 0 <= a < |lines| ==> Integrate.Translations(Text.JoinLines(lines))[a] == Text.Strip(lines[a])
  {
    Text.ReadJoined(lines);
    var t := Text.Terminated(lines);
    forall a | 0 <= a < |lines| ensures Text.Strip(t[a]) == Text.Strip(lines[a]) {
      Text.StripNewline(lines[a]);
    }
  }

  /**
   * A prepared value holding "\r" becomes two lines when integrate_language.py reads the
   * file back, so the count of lines no longer matches the count of values.
   */
  lemma CarriageReturnSplitsValue()
    ensures |Integrate.Translations(Text.JoinLines(["a\rb"]))| == 2
  {
    assert Text.JoinLines(["a\rb"]) == "a\rb";
    Text.CarriageReturnEndsLine();
  }

  /**
   * When en.json follows the convention that a key is a UI key exactly when it holds a
   * translatable string, and translated_ui.txt holds the prepared lines unchanged,
   * integrate_language.py counts as many lines as UI keys, and the a-th UI key is read
   * with the a-th prepared value, stripped, which is its value in en.json.
   */
  lemma {:induction false} PreparedMatchesUiKeys(en: Dict<Value>, isLower: char -> bool) returns (pos: seq<nat>)
    requires forall i :: 0 <= i < |en| ==> (Translatable(en[i], isLower) <==> Integrate.IsUiKey(en[i].0, Integrate.SentenceBases(en)))
    requires Text.NoNewlines(Selection(en, isLower))
    requires Selection(en, isLower) != [] ==> Selection(en, isLower)[|Selection(en, isLower)| - 1] != []
    ensures |Selection(en, isLower)| == |Integrate.UiKeys(en)|
    ensures |Integrate.Translations(Text.JoinLines(Selection(en, isLower)))| == |Integrate.UiKeys(en)|
    ensures |pos| == |Integrate.UiKeys(en)|
    ensures forall a :: 0 <= a < |pos| ==> (pos[a] < |en|
      && en[pos[a]] == (Integrate.UiKeys(en)[a], Str(Selection(en, isLower)[a]))
      && Integrate.Translations(Text.JoinLines(Selection(en, isLower)))[a] == Text.Strip(Selection(en, isLower)[a]))
  {
    var sel := Selection(en, isLower);
    var keep, uiKeep := TranslatableKeep(isLower), Integrate.UiKeep(Integrate.SentenceBases(en));
    forall i | 0 <= i < |en| ensures keep(en[i]) == uiKeep(Keys(en)[i]) {
    }
    Comprehensions.PositionsAgree(en, keep, Keys(en), uiKeep);
    pos := Comprehensions.Positions(en, keep);
    Comprehensions.FilterAtPositions(en, keep, StrOf);
    Comprehensions.FilterAtPositions(Keys(en), uiKeep, Integrate.Same);
    Comprehensions.PositionsKept(en, keep);
    TranslationsOfJoined(sel);
  }

  /** en.json holding a symbol's name under a lowercase key next to its sentences. */
  const SymbolLocale: Dict<Value> := [("apple", Str("Apple")), ("apple_sentences", List(["An apple."]))]

  /** The name is prepared for translation... */
  lemma {:induction false} SymbolNamePrepared(isLower: char -> bool)
    requires isLower('a')
    ensures Selection(SymbolLocale, isLower) == ["Apple"]
  {
    var en := SymbolLocale;
    var keep := TranslatableKeep(isLower);
    assert en[..1] == [en[0]];
    assert keep(en[0]) && !keep(en[1]);
    assert Selection(en[..1], isLower) == ["Apple"];
  }

  /**
   * ...but it is no UI key, so a translation of the prepared file has one line more than
   * integrate_language.py expects and it stops at the count check.
   */
  lemma {:induction false} SymbolNameNotUi()
    ensures Integrate.UiKeys(SymbolLocale) == []
  {
    var en := SymbolLocale;
    var keys := Keys(en);
    assert keys == ["apple", "apple_sentences"];
    assert !Text.Occurs("apple", Text.SentencesTag);
    assert keys[1] == "apple" + Text.SentencesTag;
    Text.RemoveTagAfter("apple");
    TaggedEnds();
    assert "apple" in Integrate.SentenceBases(en);
    var keep := Integrate.UiKeep(Integrate.SentenceBases(en));
    assert keys[..1] == ["apple"];
    assert !keep(keys[0]) && !keep(keys[1]);
    assert Comprehensions.Filter(keys[..1], keep, Integrate.Same) == [];
  }

  lemma TaggedEnds()
    ensures Text.EndsWith("apple_sentences", Text.SentencesTag)
  {
    Integrate.TaggedEndsWithTag("apple");
    assert "apple_sentences" == "apple" + Text.SentencesTag;
  }
}
