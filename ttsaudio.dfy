/**
 * tts/generate_tts_audio.py: reads tts/tts_<code>.txt line by line and asks the speech
 * engine for one mp3 per valid line. The engine call is left out; the model records what
 * each line leads to.
 */
module TtsAudio {
  import opened Wrappers
  import Text
  import Numerals
  import TtsText

  /** What the loop does with one line of the file. */
  datatype LineAction = Blank | Invalid(line: string) | Generate(symbolName: string, sentence: string)

  /**
   * One line: stripped; skipped when empty; reported as invalid without a space; otherwise
   * the text before the first space names the file, and the rest stripped of '"' on both
   * ends is the sentence.
   */
  function ParseLine(raw: string): LineAction
  {
    var line := Text.Strip(raw);
    if line == [] then Blank
    else match Text.SplitAtSpace(line)
      case None => Invalid(line)
      case Some((name, rest)) => Generate(name, Text.StripChars(rest, Text.Quote))
  }

  /** What the run reports and does, line by line. */
  datatype Event = Skipped(line: string) | Synthesize(sentence: string, file: string)

  /** The event of one line, if any; the mp3 goes to tts/<code>/<symbol name>.mp3. */
  function LineEvents(raw: string): seq<Event>
  {
    match ParseLine(raw)
    case Blank => []
    case Invalid(line) => [Skipped(line)]
    case Generate(name, sentence) => [Synthesize(sentence, name + ".mp3")]
  }

  /** The outputs of f on xs, one after another. */
  function ConcatEach<A, B>(xs: seq<A>, f: A -> seq<B>): seq<B>
  {
    if xs == [] then [] else ConcatEach(xs[..|xs| - 1], f) + f(xs[|xs| - 1])
  }

  /** The events of a file, line after line. */
  function Events(lines: seq<string>): seq<Event>
  {
    ConcatEach(lines, LineEvents)
  }

  datatype AudioError = AudioUsage | NoTtsFile(createdDir: string)

  /** A run that found its file: the output directory tts/<code> and the events. */
  datatype AudioRun = AudioRun(outputDir: string, events: seq<Event>)

  /**
   * The script on the arguments after its name, with files the text of each file of the
   * tts directory by name. The output directory is created before the file is looked for.
   */
  function AudioSpec(args: seq<string>, files: map<string, string>): Result<AudioRun, AudioError>
  {
    if |args| != 1 then Err(AudioUsage)
    else
      var name := "tts_" + args[0] + ".txt";
      if name !in files then Err(NoTtsFile(args[0]))
      else Ok(AudioRun(args[0], Events(Text.ReadLines(files[name]))))
  }

  lemma ConcatEachSnoc<A, B>(xs: seq<A>, x: A, f: A -> seq<B>)
    ensures ConcatEach(xs + [x], f) == ConcatEach(xs, f) + f(x)
  {
    assert (xs + [x])[..|xs|] == xs;
  }

  lemma {:induction false} ConcatEachAppend<A, B>(xs: seq<A>, ys: seq<A>, f: A -> seq<B>)
    ensures ConcatEach(xs + ys, f) == ConcatEach(xs, f) + ConcatEach(ys, f)
  {
    if ys == [] {
      assert xs + ys == xs;
    } else {
      var n := |ys| - 1;
      ConcatEachAppend(xs, ys[..n], f);
      assert (xs + ys)[..|xs| + n] == xs + ys[..n];
    }
  }

  lemma {:induction false} ConcatEachPointwise<A, B>(xs: seq<A>, ys: seq<A>, f: A -> seq<B>)
    requires |xs| == |ys| && forall p :: 0 <= p < |xs| ==> f(xs[p]) == f(ys[p])
    ensures ConcatEach(xs, f) == ConcatEach(ys, f)
  {
    if xs != [] {
      ConcatEachPointwise(xs[..|xs| - 1], ys[..|ys| - 1], f);
    }
  }

  lemma EventsStep(lines: seq<string>, i: nat)
    requires i < |lines|
    ensures Events(lines[..i + 1]) == Events(lines[..i]) + LineEvents(lines[i])
  {
    assert lines[..i + 1] == lines[..i] + [lines[i]];
    ConcatEachSnoc(lines[..i], lines[i], LineEvents);
  }

  method GenerateTtsAudio(args: seq<string>, files: map<string, string>) returns (r: Result<AudioRun, AudioError>)
    ensures r == AudioSpec(args, files)
  {
    if |args| != 1 {
      return Err(AudioUsage);
    }
    var langCode := args[0];
    var ttsFile := "tts_" + langCode + ".txt";
    if ttsFile !in files {
      return Err(NoTtsFile(langCode));
    }
    var lines := Text.ReadLines(files[ttsFile]);
    var events: seq<Event> := [];
    for i := 0 to |lines|
      invariant events == Events(lines[..i])
    {
      EventsStep(lines, i);
      var line := Text.Strip(lines[i]);
      if line == [] {
        continue;
      }
      var parts := Text.SplitAtSpace(line);
      if parts.None? {
        events := events + [Skipped(line)];
        continue;
      }
      var symbolName := parts.value.0;
      var sentence := Text.StripChars(parts.value.1, Text.Quote);
      events := events + [Synthesize(sentence, symbolName + ".mp3")];
    }
    assert lines[..|lines|] == lines;
    r := Ok(AudioRun(langCode, events));
  }

  /** Without exactly one argument nothing happens; without the file only the directory is made. */
  lemma AudioOutcome(args: seq<string>, files: map<string, string>)
    ensures |args| != 1 ==> AudioSpec(args, files) == Err(AudioUsage)
    ensures |args| == 1 && "tts_" + args[0] + ".txt" !in files ==> AudioSpec(args, files) == Err(NoTtsFile(args[0]))
    ensures AudioSpec(args, files).Ok? ==> AudioSpec(args, files).value.outputDir == args[0]
  {
  }

  /** Blank lines are skipped and lines holding no space are reported; the others make an mp3. */
  lemma ParseLineSpec(raw: string)
    ensures Text.Strip(raw) == [] ==> ParseLine(raw) == Blank
    ensures Text.Strip(raw) != [] && ' ' !in Text.Strip(raw) ==> ParseLine(raw) == Invalid(Text.Strip(raw))
    ensures ParseLine(raw).Generate? ==>
      var line := Text.Strip(raw);
      var a := ParseLine(raw);
      ' ' !in a.symbolName
      && exists rest :: line == a.symbolName + " " + rest && a.sentence == Text.StripChars(rest, Text.Quote)
  {
    var line := Text.Strip(raw);
    if line != [] && ' ' in line {
      var (name, rest) := Text.SplitAtSpace(line).value;
      assert line == name + " " + rest;
    }
  }

  /** A line terminator at the end of a line read by readlines changes nothing. */
  lemma ParseLineNewline(raw: string)
    ensures ParseLine(raw + "\n") == ParseLine(raw)
  {
    Text.StripNewline(raw);
  }

  predicate NoWhitespace(s: string)
  {
    forall k :: 0 <= k < |s| ==> !Text.IsSpace(s[k])
  }

  /** A sentence the format carries unchanged: no line break ("\n" or "\r"), no '"' at either end. */
  predicate Carried(s: string)
  {
    '\n' !in s && '\r' !in s && (s == [] || (s[0] != '"' && s[|s| - 1] != '"'))
  }

  /** Splitting text before " " at the first space gives the two parts back. */
  lemma SplitAtSpaceOf(a: string, b: string)
    requires ' ' !in a
    ensures Text.SplitAtSpace(a + " " + b) == Some((a, b))
  {
    var s := a + " " + b;
    var (x, y) := Text.SplitAtSpace(s).value;
    assert s == x + " " + y;
    assert forall k :: 0 <= k < |a| ==> s[k] == a[k];
    assert forall k :: 0 <= k < |x| ==> s[k] == x[k];
    assert s[|a|] == ' ' && s[|x|] == ' ';
    assert |x| == |a|;
    assert x == s[..|a|] == a;
    assert y == s[|a| + 1..] == b;
  }

  /**
   * The round trip of the format: the line written for sentence i of the list under name
   * parses back to the key name_<i+1> and the sentence, when the name holds no whitespace
   * and the sentence no '"' at either end.
   */
  lemma ParseTtsLine(name: string, i: nat, sentence: string)
    requires NoWhitespace(name) && Carried(sentence)
    ensures ParseLine(TtsText.TtsLine(name, i, sentence)) == Generate(name + "_" + Numerals.Decimal(i + 1), sentence)
  {
    var key := name + "_" + Numerals.Decimal(i + 1);
    var quoted := "\"" + sentence + "\"";
    var line := TtsText.TtsLine(name, i, sentence);
    assert line == key + " " + quoted;
    assert !Text.IsSpace(line[0]) by {
      if name != [] {
        assert line[0] == name[0];
      } else {
        assert line[0] == '_';
      }
    }
    assert line[|line| - 1] == '"';
    Text.StripUnchanged(line, Text.Spaces);
    assert ' ' !in key by {
      forall k | 0 <= k < |key| ensures key[k] != ' ' {
        if k < |name| {
          assert key[k] == name[k];
        } else if k > |name| {
          assert key[k] == Numerals.Decimal(i + 1)[k - |name| - 1];
        }
      }
    }
    SplitAtSpaceOf(key, quoted);
    Text.StripQuoted(sentence);
  }

  /** Every list name holds no whitespace and every sentence is carried unchanged. */
  predicate WellFormedGroups(groups: seq<TtsText.Group>)
  {
    forall a :: 0 <= a < |groups| ==>
      NoWhitespace(groups[a].0) && forall j :: 0 <= j < |groups[a].1| ==> Carried(groups[a].1[j])
  }

  /** The file name the run gives the mp3 of sentence j of a list under name. */
  function Mp3Name(name: string, j: nat): string
  {
    name + "_" + Numerals.Decimal(j + 1) + ".mp3"
  }

  /** What reading back the lines of one list should do: one mp3 per sentence, numbered from 1. */
  function ListEvents(name: string, items: seq<string>): (r: seq<Event>)
    ensures |r| == |items|
  {
    seq(|items|, j requires 0 <= j < |items| => Synthesize(items[j], Mp3Name(name, j)))
  }

  /** The same for several lists, list after list. */
  function Synthesized(groups: seq<TtsText.Group>): seq<Event>
  {
    if groups == [] then []
    else Synthesized(groups[..|groups| - 1]) + ListEvents(groups[|groups| - 1].0, groups[|groups| - 1].1)
  }

  /** A line that holds a line break is not written for well-formed lists. */
  lemma TtsLineNoNewline(name: string, i: nat, sentence: string)
    requires NoWhitespace(name) && Carried(sentence)
    ensures '\n' !in TtsText.TtsLine(name, i, sentence) && '\r' !in TtsText.TtsLine(name, i, sentence)
  {
    var d := Numerals.Decimal(i + 1);
    var line := TtsText.TtsLine(name, i, sentence);
    assert line == name + "_" + d + " \"" + sentence + "\"";
    forall k | 0 <= k < |line| ensures line[k] != '\n' && line[k] != '\r' {
      if k < |name| {
        assert line[k] == name[k];
      } else if |name| < k < |name| + 1 + |d| {
        assert line[k] == d[k - |name| - 1];
      } else if |name| + |d| + 2 < k < |line| - 1 {
        assert line[k] == sentence[k - |name| - |d| - 3];
      }
    }
  }

  lemma EventsSnoc(lines: seq<string>, line: string)
    ensures Events(lines + [line]) == Events(lines) + LineEvents(line)
  {
    ConcatEachSnoc(lines, line, LineEvents);
  }

  lemma EventsAppend(a: seq<string>, b: seq<string>)
    ensures Events(a + b) == Events(a) + Events(b)
  {
    ConcatEachAppend(a, b, LineEvents);
  }

  /** Lines that differ only by line terminators at their ends lead to the same events. */
  lemma EventsIgnoreTerminators(lines: seq<string>, read: seq<string>)
    requires |read| == |lines|
    requires forall p :: 0 <= p < |lines| ==> read[p] == lines[p] || read[p] == lines[p] + "\n"
    ensures Events(read) == Events(lines)
  {
    forall p | 0 <= p < |lines| ensures LineEvents(read[p]) == LineEvents(lines[p]) {
      ParseLineNewline(lines[p]);
    }
    ConcatEachPointwise(read, lines, LineEvents);
  }

  /** The lines of one well-formed list lead to its mp3s, in order. */
  lemma {:induction false} ListLinesEvents(name: string, items: seq<string>)
    requires NoWhitespace(name) && forall j :: 0 <= j < |items| ==> Carried(items[j])
    ensures Events(TtsText.ListLines(name, items)) == ListEvents(name, items)
  {
    if items != [] {
      var n := |items| - 1;
      ListLinesEvents(name, items[..n]);
      TtsText.ListLinesStep(name, items, n);
      assert items[..n + 1] == items;
      EventsSnoc(TtsText.ListLines(name, items[..n]), TtsText.TtsLine(name, n, items[n]));
      ParseTtsLine(name, n, items[n]);
      var a, b := ListEvents(name, items), ListEvents(name, items[..n]) + [Synthesize(items[n], Mp3Name(name, n))];
      assert forall k :: 0 <= k < |items| ==> a[k] == b[k];
    }
  }

  /** The lines of well-formed lists lead to their mp3s, list after list. */
  lemma {:induction false} LinesEvents(groups: seq<TtsText.Group>)
    requires WellFormedGroups(groups)
    ensures Events(TtsText.Lines(groups)) == Synthesized(groups)
  {
    if groups != [] {
      var init, last := groups[..|groups| - 1], groups[|groups| - 1];
      LinesEvents(init);
      EventsAppend(TtsText.Lines(init), TtsText.ListLines(last.0, last.1));
      ListLinesEvents(last.0, last.1);
    }
  }

  /** The lines of well-formed lists hold no line break and none is empty. */
  lemma LinesNoNewlines(groups: seq<TtsText.Group>)
    requires WellFormedGroups(groups)
    ensures Text.NoNewlines(TtsText.Lines(groups))
    ensures forall p :: 0 <= p < |TtsText.Lines(groups)| ==> TtsText.Lines(groups)[p] != []
  {
    var lines := TtsText.Lines(groups);
    forall p | 0 <= p < |lines| ensures '\n' !in lines[p] && '\r' !in lines[p] && lines[p] != [] {
      var a, j := TtsText.LinesFrom(groups, p);
      TtsText.LinesAt(groups, a, j);
      TtsLineNoNewline(groups[a].0, j, groups[a].1[j]);
    }
  }

  /**
   * The file extract_sentences_tts.py or generate_tts_txt.py writes for well-formed lists,
   * read back by this script: one mp3 per sentence, list after list and sentence after
   * sentence, sentence j of the list under name going to <name>_<j+1>.mp3.
   */
  lemma ReadBackTtsFile(code: string, groups: seq<TtsText.Group>, files: map<string, string>)
    requires WellFormedGroups(groups)
    requires "tts_" + code + ".txt" in files && files["tts_" + code + ".txt"] == Text.JoinLines(TtsText.Lines(groups))
    ensures AudioSpec([code], files) == Ok(AudioRun(code, Synthesized(groups)))
  {
    var lines := TtsText.Lines(groups);
    LinesNoNewlines(groups);
    Text.ReadJoined(lines);
    EventsIgnoreTerminators(lines, Text.Terminated(lines));
    LinesEvents(groups);
  }
}
