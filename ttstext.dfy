/**
 * The TTS text files: add_new_language/extract_sentences_tts.py writes one from a
 * language's generated sentences, tts/generate_tts_txt.py one per locale file. Both write
 * the same line format, `<name>_<i+1> "<sentence>"`, one line per sentence, joined by "\n".
 */
module TtsText {
  import opened Wrappers
  import opened Dicts
  import Text
  import Numerals

  /** The line for sentence i (counted from 0) of the list under name. */
  function TtsLine(name: string, i: nat, sentence: string): string
  {
    name + "_" + Numerals.Decimal(i + 1) + " \"" + sentence + "\""
  }

  /** The lines of one sentence list, numbered from 1. */
  function ListLines(name: string, items: seq<string>): (r: seq<string>)
    ensures |r| == |items|
  {
    seq(|items|, i requires 0 <= i < |items| => TtsLine(name, i, items[i]))
  }

  /** A sentence list under the name its lines carry. */
  type Group = (string, seq<string>)

  /** The lines of several lists, list after list. */
  function Lines(groups: seq<Group>): seq<string>
  {
    if groups == [] then []
    else Lines(groups[..|groups| - 1]) + ListLines(groups[|groups| - 1].0, groups[|groups| - 1].1)
  }

  /** The number of sentences in the lists. */
  function Total(groups: seq<Group>): nat
  {
    if groups == [] then 0 else Total(groups[..|groups| - 1]) + |groups[|groups| - 1].1|
  }

  lemma ListLinesStep(name: string, items: seq<string>, j: nat)
    requires j < |items|
    ensures ListLines(name, items[..j + 1]) == ListLines(name, items[..j]) + [TtsLine(name, j, items[j])]
  {
    var a, b := ListLines(name, items[..j + 1]), ListLines(name, items[..j]) + [TtsLine(name, j, items[j])];
    assert forall k :: 0 <= k < j + 1 ==> a[k] == b[k];
  }

  lemma LinesSnoc(groups: seq<Group>, g: Group)
    ensures Lines(groups + [g]) == Lines(groups) + ListLines(g.0, g.1)
    ensures Total(groups + [g]) == Total(groups) + |g.1|
  {
    assert (groups + [g])[..|groups|] == groups;
  }

  /** Writing two runs of lists writes the lines of the first, then those of the second. */
  lemma {:induction false} LinesAppend(a: seq<Group>, b: seq<Group>)
    ensures Lines(a + b) == Lines(a) + Lines(b)
    ensures Total(a + b) == Total(a) + Total(b)
  {
    if b != [] {
      var init, last := b[..|b| - 1], b[|b| - 1];
      LinesAppend(a, init);
      assert a + b == (a + init) + [last];
      LinesSnoc(a + init, last);
      LinesSnoc(init, last);
      assert init + [last] == b;
    } else {
      assert a + b == a;
    }
  }

  /** One line per sentence. */
  lemma {:induction false} LinesCount(groups: seq<Group>)
    ensures |Lines(groups)| == Total(groups)
  {
    if groups != [] {
      LinesCount(groups[..|groups| - 1]);
    }
  }

  /**
   * The line for sentence j of list a comes right after the sentences of the lists before
   * a: lists in order, and within a list the sentences in order, numbered from 1.
   */
  lemma {:induction false} LinesAt(groups: seq<Group>, a: nat, j: nat)
    requires a < |groups| && j < |groups[a].1|
    ensures Total(groups[..a]) + j < |Lines(groups)|
    ensures Lines(groups)[Total(groups[..a]) + j] == TtsLine(groups[a].0, j, groups[a].1[j])
  {
    var init := groups[..|groups| - 1];
    LinesCount(init);
    LinesCount(groups);
    if a == |groups| - 1 {
      assert groups[..a] == init;
    } else {
      assert groups[..a] == init[..a];
      LinesAt(init, a, j);
    }
  }

  /** Every line is the line of some sentence of some list. */
  lemma {:induction false} LinesFrom(groups: seq<Group>, p: nat) returns (a: nat, j: nat)
    requires p < |Lines(groups)|
    ensures a < |groups| && j < |groups[a].1| && p == Total(groups[..a]) + j
  {
    var init, last := groups[..|groups| - 1], groups[|groups| - 1];
    LinesCount(init);
    if p < |Lines(init)| {
      a, j := LinesFrom(init, p);
      assert groups[..a] == init[..a];
    } else {
      a, j := |groups| - 1, p - Total(init);
      assert groups[..a] == init;
    }
  }

  // ---------------------------------------------------------------------------
  // extract_sentences_tts.py
  // ---------------------------------------------------------------------------

  /** The lists extract_sentences_tts.py writes: every key with a list value, lowercased. */
  function ExtractGroups(data: Dict<Value>, lower: string -> string): seq<Group>
  {
    if data == [] then []
    else
      var (key, value) := data[|data| - 1];
      ExtractGroups(data[..|data| - 1], lower) + if value.List? then [(lower(key), value.items)] else []
  }

  /** The number of sentences under keys with list values. */
  function ListTotal(data: Dict<Value>): nat
  {
    if data == [] then 0
    else
      var value := data[|data| - 1].1;
      ListTotal(data[..|data| - 1]) + if value.List? then |value.items| else 0
  }

  /** The lists of two dicts in a row are the lists of the first, then those of the second. */
  lemma {:induction false} ExtractGroupsAppend(a: Dict<Value>, b: Dict<Value>, lower: string -> string)
    ensures ExtractGroups(a + b, lower) == ExtractGroups(a, lower) + ExtractGroups(b, lower)
  {
    if b != [] {
      var init := b[..|b| - 1];
      ExtractGroupsAppend(a, init, lower);
      assert (a + b)[..|a + b| - 1] == a + init;
    } else {
      assert a + b == a;
    }
  }

  /** A list is written exactly for each key with a list value, under the lowercased key. */
  lemma {:induction false} ExtractGroupsMembers(data: Dict<Value>, lower: string -> string, g: Group)
    ensures g in ExtractGroups(data, lower) <==>
      exists i :: 0 <= i < |data| && data[i].1.List? && g == (lower(data[i].0), data[i].1.items)
  {
    if data != [] {
      var init := data[..|data| - 1];
      ExtractGroupsMembers(init, lower, g);
      if exists i :: 0 <= i < |data| && data[i].1.List? && g == (lower(data[i].0), data[i].1.items) {
        var i :| 0 <= i < |data| && data[i].1.List? && g == (lower(data[i].0), data[i].1.items);
        if i < |init| {
          assert init[i] == data[i];
        }
      }
      if g in ExtractGroups(init, lower) {
        var i :| 0 <= i < |init| && init[i].1.List? && g == (lower(init[i].0), init[i].1.items);
        assert data[i] == init[i];
      }
    }
  }

  /** One line per sentence of every list value; other values write nothing. */
  lemma {:induction false} ExtractCount(data: Dict<Value>, lower: string -> string)
    ensures |Lines(ExtractGroups(data, lower))| == ListTotal(data)
  {
    if data != [] {
      var init := data[..|data| - 1];
      var (key, value) := data[|data| - 1];
      ExtractCount(init, lower);
      var last := if value.List? then [(lower(key), value.items)] else [];
      LinesAppend(ExtractGroups(init, lower), last);
      LinesCount(last);
    }
  }

  /** The step of the loop over data.items(). */
  lemma ExtractGroupsStep(data: Dict<Value>, i: nat, lower: string -> string)
    requires i < |data|
    ensures ExtractGroups(data[..i + 1], lower) ==
      ExtractGroups(data[..i], lower) + if data[i].1.List? then [(lower(data[i].0), data[i].1.items)] else []
  {
    assert data[..i + 1][..i] == data[..i];
  }

  /** The lines of one list, appended to lines. */
  method AppendListLines(lines: seq<string>, name: string, items: seq<string>) returns (r: seq<string>)
    ensures r == lines + ListLines(name, items)
  {
    r := lines;
    for j := 0 to |items|
      invariant r == lines + ListLines(name, items[..j])
    {
      ListLinesStep(name, items, j);
      r := r + [TtsLine(name, j, items[j])];
    }
    assert items[..|items|] == items;
  }

  /** The nested loop of extract_sentences_tts.py that builds output_lines. */
  method ExtractLines(data: Dict<Value>, lower: string -> string) returns (outputLines: seq<string>)
    ensures outputLines == Lines(ExtractGroups(data, lower))
  {
    outputLines := [];
    for i := 0 to |data|
      invariant outputLines == Lines(ExtractGroups(data[..i], lower))
    {
      var (key, value) := data[i];
      ExtractGroupsStep(data, i, lower);
      if value.List? {
        LinesSnoc(ExtractGroups(data[..i], lower), (lower(key), value.items));
        outputLines := AppendListLines(outputLines, lower(key), value.items);
      } else {
        assert ExtractGroups(data[..i + 1], lower) == ExtractGroups(data[..i], lower);
      }
    }
    assert data[..|data|] == data;
  }

  datatype ExtractError = ExtractUsage | NoGeneratedSentences(langName: string)

  /** A file the scripts write: its name in the tts directory and its text. */
  datatype Output = Output(file: string, text: string)

  /**
   * The script on the arguments after its name, with generated[name] the parsed
   * <name>/generated_sentences.json of each language directory that has one.
   */
  function ExtractSpec(args: seq<string>, generated: map<string, Dict<Value>>, lower: string -> string): Result<Output, ExtractError>
  {
    if |args| != 2 then Err(ExtractUsage)
    else if args[0] !in generated then Err(NoGeneratedSentences(args[0]))
    else Ok(Output("tts_" + args[1] + ".txt", Text.JoinLines(Lines(ExtractGroups(generated[args[0]], lower)))))
  }

  method ExtractSentencesTts(args: seq<string>, generated: map<string, Dict<Value>>, lower: string -> string)
    returns (r: Result<Output, ExtractError>)
    ensures r == ExtractSpec(args, generated, lower)
  {
    if |args| != 2 {
      return Err(ExtractUsage);
    }
    var langName, langCode := args[0], args[1];
    if langName !in generated {
      return Err(NoGeneratedSentences(langName));
    }
    var outputLines := ExtractLines(generated[langName], lower);
    r := Ok(Output("tts_" + langCode + ".txt", Text.JoinLines(outputLines)));
  }

  /** Without the file nothing is written, and a run that writes names tts_<code>.txt. */
  lemma ExtractOutcome(args: seq<string>, generated: map<string, Dict<Value>>, lower: string -> string)
    ensures ExtractSpec(args, generated, lower).Ok? <==> |args| == 2 && args[0] in generated
    ensures ExtractSpec(args, generated, lower).Ok? ==>
      ExtractSpec(args, generated, lower).value.file == "tts_" + args[1] + ".txt"
  {
  }

  // ---------------------------------------------------------------------------
  // generate_tts_txt.py
  // ---------------------------------------------------------------------------

  /** The name generate_tts_txt.py gives a `_sentences` key: every "_sentences" removed, lowercased. */
  function SymbolName(key: string, lower: string -> string): string
  {
    lower(Text.RemoveAll(key, Text.SentencesTag))
  }

  /** The lists of a locale: the keys ending in "_sentences" that hold a list. */
  function LocaleGroups(data: Dict<Value>, lower: string -> string): seq<Group>
  {
    if data == [] then []
    else
      var (key, value) := data[|data| - 1];
      LocaleGroups(data[..|data| - 1], lower)
        + if Text.EndsWith(key, Text.SentencesTag) && value.List? then [(SymbolName(key, lower), value.items)] else []
  }

  lemma {:induction false} LocaleGroupsAppend(a: Dict<Value>, b: Dict<Value>, lower: string -> string)
    ensures LocaleGroups(a + b, lower) == LocaleGroups(a, lower) + LocaleGroups(b, lower)
  {
    if b != [] {
      var init := b[..|b| - 1];
      LocaleGroupsAppend(a, init, lower);
      assert (a + b)[..|a + b| - 1] == a + init;
    } else {
      assert a + b == a;
    }
  }

  /** A list is written exactly for each `_sentences` key holding a list. */
  lemma {:induction false} LocaleGroupsMembers(data: Dict<Value>, lower: string -> string, g: Group)
    ensures g in LocaleGroups(data, lower) <==>
      exists i :: 0 <= i < |data| && Text.EndsWith(data[i].0, Text.SentencesTag) && data[i].1.List?
        && g == (SymbolName(data[i].0, lower), data[i].1.items)
  {
    if data != [] {
      var init := data[..|data| - 1];
      LocaleGroupsMembers(init, lower, g);
      if exists i :: 0 <= i < |data| && Text.EndsWith(data[i].0, Text.SentencesTag) && data[i].1.List?
          && g == (SymbolName(data[i].0, lower), data[i].1.items) {
        var i :| 0 <= i < |data| && Text.EndsWith(data[i].0, Text.SentencesTag) && data[i].1.List?
          && g == (SymbolName(data[i].0, lower), data[i].1.items);
        if i < |init| {
          assert init[i] == data[i];
        }
      }
      if g in LocaleGroups(init, lower) {
        var i :| 0 <= i < |init| && Text.EndsWith(init[i].0, Text.SentencesTag) && init[i].1.List?
          && g == (SymbolName(init[i].0, lower), init[i].1.items);
        assert data[i] == init[i];
      }
    }
  }

  lemma LocaleGroupsStep(data: Dict<Value>, i: nat, lower: string -> string)
    requires i < |data|
    ensures LocaleGroups(data[..i + 1], lower) == LocaleGroups(data[..i], lower)
      + if Text.EndsWith(data[i].0, Text.SentencesTag) && data[i].1.List? then [(SymbolName(data[i].0, lower), data[i].1.items)] else []
  {
    assert data[..i + 1][..i] == data[..i];
  }

  /** The loop over data.items() for one locale file. */
  method LocaleLines(data: Dict<Value>, lower: string -> string) returns (outputLines: seq<string>)
    ensures outputLines == Lines(LocaleGroups(data, lower))
  {
    outputLines := [];
    for i := 0 to |data|
      invariant outputLines == Lines(LocaleGroups(data[..i], lower))
    {
      var (key, value) := data[i];
      LocaleGroupsStep(data, i, lower);
      if Text.EndsWith(key, Text.SentencesTag) {
        var symbolName := Text.RemoveAll(key, Text.SentencesTag);
        if value.List? {
          LinesSnoc(LocaleGroups(data[..i], lower), (lower(symbolName), value.items));
          outputLines := AppendListLines(outputLines, lower(symbolName), value.items);
        } else {
          assert LocaleGroups(data[..i + 1], lower) == LocaleGroups(data[..i], lower);
        }
      } else {
        assert LocaleGroups(data[..i + 1], lower) == LocaleGroups(data[..i], lower);
      }
    }
    assert data[..|data|] == data;
  }

  datatype TxtError = NoLocalesDir

  /** The file written for the locale <code>.json. */
  function LocaleOutput(code: string, data: Dict<Value>, lower: string -> string): Output
  {
    Output("tts_" + code + ".txt", Text.JoinLines(Lines(LocaleGroups(data, lower))))
  }

  /**
   * The script, with locales the stem and parsed contents of each *.json file of the
   * locales directory in the order the directory lists them, or None without the directory.
   */
  function TxtSpec(locales: Option<seq<(string, Dict<Value>)>>, lower: string -> string): Result<seq<Output>, TxtError>
  {
    match locales
    case None => Err(NoLocalesDir)
    case Some(files) => Ok(seq(|files|, i requires 0 <= i < |files| => LocaleOutput(files[i].0, files[i].1, lower)))
  }

  method GenerateTtsTxt(locales: Option<seq<(string, Dict<Value>)>>, lower: string -> string)
    returns (r: Result<seq<Output>, TxtError>)
    ensures r == TxtSpec(locales, lower)
  {
    if locales.None? {
      return Err(NoLocalesDir);
    }
    var files := locales.value;
    var written: seq<Output> := [];
    for i := 0 to |files|
      invariant |written| == i
      invariant forall k :: 0 <= k < i ==> written[k] == LocaleOutput(files[k].0, files[k].1, lower)
    {
      var (langCode, data) := files[i];
      var outputLines := LocaleLines(data, lower);
      written := written + [Output("tts_" + langCode + ".txt", Text.JoinLines(outputLines))];
    }
    assert written == TxtSpec(locales, lower).value;
    r := Ok(written);
  }
}
