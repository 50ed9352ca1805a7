# Symbol quiz: the round engine, the catalog loaders and the language scripts

The application is a picture quiz. A Flask backend serves rounds. In symbol mode a round
shows a word and three images, one of them right. In Polish sentence mode a round shows a
sentence from `pl.json` and three images. The backend also keeps a highscore file. A set
of scripts adds a language:

- they select the UI strings of `en.json` for translation;
- they build the new language's locale file;
- they transliterate Cyrillic and accented file names and keys to ASCII;
- they write and read the text files the TTS engine works from.

This project models that logic with the file system and the random calls as inputs:

- directory listings are sequences of names;
- parsed JSON objects are insertion-ordered association lists (`Dicts.Dict`);
- a file's text is a `string`;
- the outcomes of `random.choice`, `random.sample` and `random.shuffle` are index
  sequences whose validity is a precondition.

Python's case functions (`str.lower`, `str.title`, `str.islower` on one character) are
parameters. Every property is therefore proved for every case function, not one table.

Modules follow the program:

- `Rounds` (next_symbol, quit_game), `Highscore` (the highscore file) and `Catalog`
  (the three loaders) model `backend/app.py`.
- `Transliteration` models `add_new_language/transliterate_symbols.py`.
- `Prepare` and `Integrate` model the two halves of the UI translation round trip.
- `TtsText` models the two writers of the TTS line format.
- `TtsAudio` models its reader.
- `Text`, `Numerals`, `Paths`, `Order`, `Shuffling`, `Dicts` and `Comprehensions` give
  the Python built-ins these scripts rely on a meaning:
  - `str.strip`, `split(" ", 1)`, `replace` and `"\n".join`;
  - `str(n)` and `int(text)`;
  - `Path.stem` and `Path.suffix`;
  - `list.sort`;
  - `random.shuffle`;
  - dict assignment;
  - list comprehensions.

Where code changes state step by step, the model is imperative:

- `Rounds.Session` is a class over the three session keys.
- `Highscore.HighscoreFile` is a class over the file's contents.
- Each loop of the scripts is a `method` with a loop.

Each method is proved equal to a specification function. The lemmas then state what the
source promises about that function.

Two cross-script properties are proved:

- **TTS line round trip.** A TTS file written by `extract_sentences_tts.py` or
  `generate_tts_txt.py` is read back by `generate_tts_audio.py` as one mp3 per sentence,
  under the name `<key>_<i+1>` (`TtsAudio.ReadBackTtsFile`). The files are read in text
  mode, where "\r" and "\r\n" also end a line, so the round trip needs sentences
  without "\r" as well as without "\n".
- **Same lines from both writers.** `generate_tts_txt.py`, run on a locale built by
  `integrate_language.py`, writes exactly the lines that `extract_sentences_tts.py`
  writes for the same generated sentences (`Integrate.GeneratedMatchesExtracted`).

The UI translation round trip holds under one condition (`Prepare.PreparedMatchesUiKeys`):

- **The condition.** `prepare_translation.py` selects strings by "key starts with a
  lowercase letter". `integrate_language.py` selects keys by "not a sentence key or its
  base". The round trip needs en.json to make those two rules agree, and its selected
  values to hold no line break: a "\r" in a value splits it into two lines when the file
  is read back (`Prepare.CarriageReturnSplitsValue`).
- **When it breaks.** A symbol's name stored under its lowercase key, next to that
  symbol's `_sentences` key, is selected for translation but is no UI key. The translated
  file then has one line more than the integration expects, and the count check stops
  the script. `Prepare.SymbolNamePrepared` and `Prepare.SymbolNameNotUi` prove this on a
  two-entry en.json.
- **Why this is not a defect.** Neither script says which rule is meant, so the model
  states the condition and does not list it as a defect.

Renaming follows `os.rename` on POSIX: a rename onto an existing name replaces that
file. Two files whose names transliterate alike therefore end as one file; with the
"mk" map, "ж.png" and "з.png" both become "z.png" (`Transliteration.MkCollision`).

The symbol loader lists the common directory, then the language's directory. For the
language "common" it lists the common directory twice, so one image can be offered
twice in a round (`Catalog.CommonListedTwice`).

The script `transliterate_symbols.py` ships a Serbian table whose second row has the
Latin `'k'` as a key where the Cyrillic `'к'` is meant. See "## Findings".

## Model

| member | source | states |
|---|---|---|
| Highscore.LoadShow | backend/app.py:21-29 | a score saved with str(score) is read back by the loader as that score |
| Highscore.Submit | backend/app.py:246-254 | the reply is max(stored, score); the file then reads as the reply; the file changes only for a score above the stored one |
| Highscore.RunningMaximum | backend/app.py:250-253 | after any run of submissions the stored score is the running maximum: never below the start, never below any submitted score |
| Highscore.AfterReset | backend/app.py:258 | after the startup reset, the highscore is the largest of 0 and every submitted score, so never negative (0 with no submissions or only negative ones) |
| Highscore.HighscoreFile.GetHighscore | backend/app.py:241-243 | returns what the loader reads from the file, 0 for a missing or unparsable file |
| Highscore.Truncate | backend/app.py:249 | int() of a float is its integer part, truncated toward zero on both sides of 0 |
| Highscore.ScoreOfSpec | backend/app.py:247-249 | no body, a falsy body or no "score" key gives 0; a truthy non-object body fails; int() maps true to 1, 3.7 to 3, -2.5 to -2, "42" to 42 and rejects null and containers |
| Highscore.OtherDigitsScore | backend/app.py:248-249 | a "score" of "٤٢" in Arabic-Indic digits is converted to 42 |
| Highscore.HighscoreFile.SubmitScore | backend/app.py:246-254 | a request whose body or score int() rejects fails and leaves the file; otherwise the file and reply are those of Submit |
| Highscore.HighscoreFile.Reset | backend/app.py:258 | the file holds "0" and reads as 0 |
| Numerals.ParseShow | backend/app.py:23 | int(str(n)) == n for every integer, after strip |
| Numerals.ShowInjective | backend/app.py:29 | two integers with the same decimal text are equal |
| Numerals.ParseDecimal | backend/app.py:23 | the digits of a natural number parse back to it |
| Numerals.Decimal | add_new_language/extract_sentences_tts.py:40 | str(n) is a non-empty digit string with no leading zero |
| Numerals.DecimalValue | backend/app.py:23 | int() reads each character as a digit value below 10, and '0'..'9' as their usual values |
| Numerals.DecimalValueSpec | backend/app.py:23 | a character read as v is v above the zero of a Unicode decimal-digit run; a character read as no digit lies in no run |
| Numerals.RunDigit | backend/app.py:23 | the digit v of every one of the 68 Unicode 15.0 runs is read as v, so with DecimalValueSpec a character's value is exactly its place in its run |
| Numerals.RunsSpaced | backend/app.py:23 | the 68 runs are in increasing order and ten or more code points apart, so no character lies in two runs |
| Numerals.ParseOtherDigits | backend/app.py:249 | int() reads Arabic-Indic "٤٢" and fullwidth "４_２" as 42 |
| Catalog.LoadSymbolImageList | backend/app.py:36-58 | the loop returns the common directory's entries followed by the language directory's, each directory in listing order |
| Catalog.DirEntriesMembers | backend/app.py:43-47 | an entry is listed exactly for each .png/.jpg/.jpeg/.gif file (suffix compared lowercased), with the lowercased stem as symbol and the static URL as image |
| Catalog.DirEntriesDistinct | backend/app.py:52-56 | distinct file names give entries with distinct images |
| Catalog.UrlsDiffer | backend/app.py:47 | a common image URL never equals a language image URL |
| Catalog.CatalogDistinct | backend/app.py:36-58 | with plain distinct names and a language other than "common", no two catalog entries share an image |
| Catalog.CommonListedTwice | backend/app.py:40-56 | for the language "common" with any image in the common directory, the catalog holds an image twice |
| Catalog.MatchSentenceImageSpec | backend/app.py:84-87 | re.match of sentence(digits)_(word chars) succeeds with groups (num, ty) iff the stem starts with "sentence" num "_" ty, num all digits, ty all word characters and no word character after ty |
| Catalog.MatchSentenceImageSound | backend/app.py:84 | a reported match has the shape above |
| Catalog.MatchSentenceImageComplete | backend/app.py:84 | a stem of that shape is reported with exactly those groups |
| Catalog.WordRunSpec | backend/app.py:84 | the greedy run of word characters has only word characters and stops at the first other one |
| Catalog.GroupImagesLast | backend/app.py:79-92 | the URL filed under (number, type) is that of the last accepted file whose stem names it |
| Catalog.GroupImagesDistinct | backend/app.py:89-90 | each sentence number is filed once |
| Catalog.GroupImagesStep | backend/app.py:80-92 | one pass of the directory loop files one image |
| Catalog.SentenceEntriesMembers | backend/app.py:94-102 | every entry comes from a group whose sentence_<num> is in pl.json and that has right, wrong_a and wrong_b, with options [right, wrong_a, wrong_b] and correct = right; every such group gives one |
| Catalog.SentenceEntriesDistinct | backend/app.py:94-95 | no two entries share a sentence key |
| Catalog.PolishSentencesSpec | backend/app.py:61-104 | an entry exists exactly for each complete sentence number, and it is built from the last matching images |
| Catalog.LoadPolishSentenceData | backend/app.py:61-104 | the two loops return the specification; [] when pl.json or the pl directory is missing |
| Catalog.FlagCodesMembers | backend/app.py:158-164 | the codes are the stems of the .svg files with "en" for "us"; "us" never appears |
| Catalog.GetLanguages | backend/app.py:153-169 | the result is sorted and a permutation of the flag codes; [] without the directory |
| Order.SortStrings | backend/app.py:166 | list.sort() on strings gives a sorted permutation |
| Order.Insert | backend/app.py:166 | inserting into a sorted list keeps it sorted and adds exactly the element |
| Order.SortedUnique | backend/app.py:166 | two sorted permutations of each other are equal, so any correct sort gives the same list |
| Order.BelowTotal | backend/app.py:166 | Python's string order is total |
| Order.BelowTransitive | backend/app.py:166 | Python's string order is transitive |
| Order.BelowAntisymmetric | backend/app.py:166 | Python's string order is antisymmetric |
| Shuffling.Shuffle | backend/app.py:189 | random.shuffle for any valid draws is a permutation of the list |
| Shuffling.Swap | backend/app.py:189 | one swap is a permutation |
| Rounds.AtLimit | backend/app.py:175-179 | at round 10 or more the reply is finished and round and pl_sentences are removed, the language kept |
| Rounds.ReplyShape | backend/app.py:172-231 | a finished reply leaves no round state; a failure leaves the session; a round reply advances the round by one |
| Rounds.SymbolBranch | backend/app.py:211-212 | below the limit, any language but "pl" takes the symbol branch |
| Rounds.TooFewSymbols | backend/app.py:214-217 | with fewer than three symbols the request fails and the session is unchanged |
| Rounds.SymbolRoundSpec | backend/app.py:219-224 | with three or more distinct symbols: the reply names the drawn symbol, correct is its image, options permute it with the images of two distinct other entries, round advances by exactly 1 and nothing else changes |
| Rounds.SymbolReplySpec | backend/app.py:219-231 | the reply of a symbol round over distinct symbols has the shape above |
| Rounds.SymbolOptionsDistinct | backend/app.py:219-224 | when no two entries share an image, the three options are pairwise different images of entries |
| Rounds.RequestOptionsDistinct | backend/app.py:172-231 | a symbol request for a language other than "pl" and "common", over listings of distinct plain names, shows three different images |
| Rounds.SampleDistinct | backend/app.py:220 | two different positions of the distractor list are two different entries, none the target |
| Rounds.OthersMembers | backend/app.py:220 | the distractor list holds exactly the entries other than the target |
| Rounds.OthersCount | backend/app.py:220 | on distinct symbols it is one shorter, and still distinct |
| Rounds.CacheUsed | backend/app.py:185-192 | once pl_sentences is in the session, what the loader returns does not matter |
| Rounds.NoSentences | backend/app.py:185-188 | with no cached list and no sentence data the request fails and the session is unchanged |
| Rounds.SentenceRoundSpec | backend/app.py:184-209 | the list is the cached one or a permutation of the loaded one, which is then cached; past its end the reply is finished and the state cleared; otherwise the reply is the entry at the round with options permuted and correct unchanged, the round advances and the cache keeps that permutation |
| Rounds.LoadedGood | backend/app.py:96-102 | the loader only builds entries with three options, correct among them |
| Rounds.SentenceStepWellFormed | backend/app.py:184-209 | a sentence step keeps the invariant and replies with three options containing the answer |
| Rounds.SymbolStepShape | backend/app.py:212-231 | the symbol step fails on too few symbols or too small a sample with the session unchanged, else advances the round |
| Rounds.SymbolStepWellFormed | backend/app.py:212-231 | a symbol step keeps the invariant and replies with three options containing the answer |
| Rounds.SymbolReplyOptions | backend/app.py:221-222 | a symbol reply has three options with the correct image among them |
| Rounds.NextWellFormed | backend/app.py:172-231 | every request keeps the round at most 10 and the cached entries good; a round reply offers three options with the answer among them |
| Rounds.RequestWellFormed | backend/app.py:172-231 | the same on what the loaders return for any corpus |
| Rounds.RoundsCounted | backend/app.py:172-231 | a round reply advances the round by one, a failure keeps it and a finished reply resets it; it never passes 10 |
| Rounds.DrawSymbolRound | backend/app.py:219-231 | the method builds the symbol reply of the specification |
| Rounds.Session.NextSymbol | backend/app.py:172-231 | the reply and the new session are those of the request specification |
| Rounds.Session.NextSentence | backend/app.py:184-209 | the sentence branch acts as the sentence step |
| Rounds.Session.NextImage | backend/app.py:211-231 | the symbol branch replies as the specification and only a round reply advances the round |
| Rounds.Session.AdvanceIf | backend/app.py:224 | the round counter goes up by one when a round is replied, and the session is otherwise unchanged |
| Rounds.Session.QuitGame | backend/app.py:234-238 | round and pl_sentences are removed; the language is kept |
| Transliteration.TransliterateText | add_new_language/transliterate_symbols.py:59-63 | the loop returns the concatenation of the characters' images |
| Transliteration.TranslitAppend | add_new_language/transliterate_symbols.py:61-63 | transliteration distributes over concatenation |
| Transliteration.TranslitLength | add_new_language/transliterate_symbols.py:59-63 | never shorter than the text for non-empty images; exactly as long for single-letter maps |
| Transliteration.TranslitFixed | add_new_language/transliterate_symbols.py:62 | unmapped characters and characters mapped to themselves are kept |
| Transliteration.UnmappedKept | add_new_language/transliterate_symbols.py:62 | an unmapped character is kept |
| Transliteration.TranslitIdempotent | add_new_language/transliterate_symbols.py:59-63 | for a stable map, transliterating twice equals once |
| Transliteration.MKWellBehaved | add_new_language/transliterate_symbols.py:9-22 | the mk table is stable, has ASCII letter images and no '_' or digit key |
| Transliteration.SrAsWrittenWellBehaved | add_new_language/transliterate_symbols.py:24-35 | the shipped sr table is stable, has ASCII letter images and no '_' or digit key |
| Transliteration.SrWellBehaved | add_new_language/transliterate_symbols.py:24-35 | the same for the corrected sr table |
| Transliteration.SKWellBehaved | add_new_language/transliterate_symbols.py:36-42 | the sk table is well behaved with single-letter images |
| Transliteration.PLWellBehaved | add_new_language/transliterate_symbols.py:44-48 | the pl table is well behaved with single-letter images |
| Transliteration.HUWellBehaved | add_new_language/transliterate_symbols.py:50-55 | the hu table is well behaved with single-letter images |
| Transliteration.SrCoversAlphabet | add_new_language/transliterate_symbols.py:24-35 | the corrected sr table has a key for each of the 60 Serbian Cyrillic letters |
| Transliteration.SrReady | add_new_language/transliterate_symbols.py:24-35 | the corrected sr table is plain and covers the alphabet |
| Transliteration.LettersAscii | add_new_language/transliterate_symbols.py:59-63 | such a table writes every Serbian Cyrillic text as ASCII letters |
| Transliteration.PlainTextAscii | add_new_language/transliterate_symbols.py:59-63 | a plain table with a key for every character writes the text in ASCII letters |
| Transliteration.KaNotInSrAsWritten | add_new_language/transliterate_symbols.py:26 | the shipped sr table has no key for the small Cyrillic ka |
| Transliteration.SrAsWrittenMissesKa | add_new_language/transliterate_symbols.py:26 | the shipped sr table leaves "к" as Cyrillic, so it does not meet SrReady |
| Transliteration.MatchNumberSuffixShape | add_new_language/transliterate_symbols.py:72-75 | without a newline a non-empty stem always matches, as a non-empty base followed by "" or an _digits suffix |
| Transliteration.MatchKeepsNumberSuffix | add_new_language/transliterate_symbols.py:72-75 | a trailing _digits after a non-empty base is exactly the reported suffix |
| Transliteration.LazyMatchShape | add_new_language/transliterate_symbols.py:72 | the lazy group, grown from any length, always ends in a match of the stated shape |
| Transliteration.FilenameKeepsSuffix | add_new_language/transliterate_symbols.py:66-81 | the suffix stays and the stem is transliterated |
| Transliteration.Mp3AsPlain | add_new_language/transliterate_symbols.py:70-79 | with no '_' or digit key and no newline, mp3 mode gives the same name as plain mode |
| Transliteration.FilenameIdempotent | add_new_language/transliterate_symbols.py:66-81 | renaming a renamed file gives the same name |
| Transliteration.RenameFiles | add_new_language/transliterate_symbols.py:88-109 | the loop plans the renames of the specification |
| Transliteration.RenamePlanMembers | add_new_language/transliterate_symbols.py:91-109 | a file is renamed iff it is selected by suffix and its transliterated name differs |
| Transliteration.RenamePlanSound | add_new_language/transliterate_symbols.py:95-96 | every planned rename is of a selected file whose name changes |
| Transliteration.RenamePlanComplete | add_new_language/transliterate_symbols.py:92-96 | every selected file whose name changes is renamed |
| Transliteration.ApplyRename | add_new_language/transliterate_symbols.py:95-96 | os.rename(a, b) leaves b (replacing any file b there was) and every other name but a; with a missing the listing is unchanged |
| Transliteration.ApplyRenamesWithin | add_new_language/transliterate_symbols.py:91-96 | after a run of renames every name left was there and nothing renamed it away, or some rename renamed a file to it |
| Transliteration.ApplyRenamesCovers | add_new_language/transliterate_symbols.py:91-96 | with distinct sources present and none a target, every name not renamed away and every target is there afterwards |
| Transliteration.ApplyRenamesSourcesPresent | add_new_language/transliterate_symbols.py:91-96 | with distinct sources present and none a target, each rename's source is still in the listing when that rename runs |
| Transliteration.RenamedWithin | add_new_language/transliterate_symbols.py:88-96 | after the image pass every name left is an old name the pass does not rename away, or the new name of one it does |
| Transliteration.RenamedCovers | add_new_language/transliterate_symbols.py:88-96 | over distinct names with a well-behaved map, every old name not renamed away and every new name is in the listing afterwards |
| Transliteration.RenamedMembers | add_new_language/transliterate_symbols.py:88-96 | over distinct names with a well-behaved map, a name is in the listing afterwards iff it is an old name not renamed away or a renamed file's new name |
| Transliteration.RenamedSourcesPresent | add_new_language/transliterate_symbols.py:91-96 | over distinct names with a well-behaved map, every planned rename finds its source in the listing, so the pass never meets a missing file |
| Transliteration.RenameCollision | add_new_language/transliterate_symbols.py:94-96 | two selected names with one new name leave a single file under that name: the second rename overwrites the first |
| Transliteration.MkZe | add_new_language/transliterate_symbols.py:9 | the "mk" map sends both 'ж' and 'з' to "z" |
| Transliteration.MkCollision | add_new_language/transliterate_symbols.py:88-96 | with the "mk" map, images named "ж.png" and "з.png" end as the single file "z.png" |
| Transliteration.RerunRenamesNothing | add_new_language/transliterate_symbols.py:88-109 | a second pass over the renamed listing renames nothing, collisions included |
| Transliteration.RewriteLocaleData | add_new_language/transliterate_symbols.py:118-133 | the loop builds the rewritten dict of the specification |
| Transliteration.RewriteLocaleSpec | add_new_language/transliterate_symbols.py:118-133 | values are carried over unchanged under rewritten keys; on a clash the later item wins; keys are distinct and no more numerous |
| Transliteration.RewriteKeepsOneTag | add_new_language/transliterate_symbols.py:126-129 | a _sentences key keeps exactly one tag, at its end |
| Transliteration.RewriteSentenceKey | add_new_language/transliterate_symbols.py:126-129 | base + "_sentences" becomes transliterated base + "_sentences" |
| Transliteration.RewriteTtsFile | add_new_language/transliterate_symbols.py:146-164 | the loop builds the rewritten lines of the specification, one per line |
| Transliteration.RewriteTtsLineSpec | add_new_language/transliterate_symbols.py:147-164 | a line without a space is kept; otherwise the text from the first space on is kept byte for byte and the key part becomes its transliteration with its _digits suffix kept |
| Transliteration.ProcessLanguage | add_new_language/transliterate_symbols.py:84-168 | each part that exists is rewritten by the specification and the others left alone; each listing has the planned renames applied in order, a rename onto an existing name replacing that file; the renames are images then mp3s |
| Transliteration.ProcessTwiceRenamesNothing | add_new_language/transliterate_symbols.py:84-109 | a second run of process_language with the same map renames nothing |
| Transliteration.RunScript | add_new_language/transliterate_symbols.py:171-182 | the main block computes the specification: usage error without codes, else a loop over the codes |
| Transliteration.RunCodesSpec | add_new_language/transliterate_symbols.py:176-182 | one outcome per code, in order, processed iff the code has a map; a code without a map changes nothing |
| TtsText.ListLines | add_new_language/extract_sentences_tts.py:39-40 | one line per sentence |
| TtsText.LinesCount | add_new_language/extract_sentences_tts.py:36-40 | the number of lines is the number of sentences |
| TtsText.LinesAt | add_new_language/extract_sentences_tts.py:37-40 | sentence j of list a is the line right after the earlier lists' sentences, numbered j+1 |
| TtsText.LinesFrom | add_new_language/extract_sentences_tts.py:37-40 | every line is the line of some sentence of some list |
| TtsText.LinesAppend | add_new_language/extract_sentences_tts.py:37-40 | lines of a run of lists are the lines of each part in turn |
| TtsText.ExtractGroupsMembers | add_new_language/extract_sentences_tts.py:37-38 | a list is written iff a key holds a list value, under the lowercased key |
| TtsText.ExtractCount | add_new_language/extract_sentences_tts.py:36-40 | the line count is the sum of the list lengths; other values write nothing |
| TtsText.AppendListLines | add_new_language/extract_sentences_tts.py:39-40 | the inner loop appends the list's lines |
| TtsText.ExtractLines | add_new_language/extract_sentences_tts.py:36-40 | the nested loop builds the lines of the specification |
| TtsText.ExtractSentencesTts | add_new_language/extract_sentences_tts.py:12-43 | the script computes the specification |
| TtsText.ExtractOutcome | add_new_language/extract_sentences_tts.py:12-43 | a file is written iff there are two arguments and the generated sentences exist; it is tts_<code>.txt holding the lines joined by "\n" |
| TtsText.LocaleGroupsMembers | tts/generate_tts_txt.py:24-27 | a list is written iff a key ends in _sentences and holds a list, under the key with every tag removed, lowercased |
| TtsText.LocaleLines | tts/generate_tts_txt.py:23-29 | the loop over one locale builds the lines of the specification |
| TtsText.GenerateTtsTxt | tts/generate_tts_txt.py:13-33 | an error without the locales directory; else one tts_<stem>.txt per locale in listing order, holding its lines joined |
| TtsAudio.ParseLineSpec | tts/generate_tts_audio.py:37-48 | blank lines are skipped; stripped lines without a space are invalid; otherwise the name is the text before the first space and the sentence the rest with '"' stripped |
| TtsAudio.ParseLineNewline | tts/generate_tts_audio.py:34-38 | a line terminator kept by readlines changes nothing |
| TtsAudio.ParseTtsLine | tts/generate_tts_audio.py:42-48 | the line written for sentence i under name parses back to name_<i+1> and the sentence |
| TtsAudio.GenerateTtsAudio | tts/generate_tts_audio.py:16-50 | the script computes the specification |
| TtsAudio.AudioOutcome | tts/generate_tts_audio.py:16-32 | usage error without exactly one argument; without the file only the directory is made; a run writes under tts/<code> |
| TtsAudio.EventsIgnoreTerminators | tts/generate_tts_audio.py:34-38 | lines differing only by a final newline lead to the same events |
| TtsAudio.ListLinesEvents | tts/generate_tts_audio.py:37-50 | the lines of one well-formed list lead to its mp3s in order |
| TtsAudio.LinesEvents | tts/generate_tts_audio.py:37-50 | the lines of well-formed lists lead to their mp3s, list after list |
| TtsAudio.TtsLineNoNewline | add_new_language/extract_sentences_tts.py:40 | the line written for a well-formed name and sentence holds neither "\n" nor "\r" |
| TtsAudio.ReadBackTtsFile | tts/generate_tts_audio.py:30-50 | a file holding the writers' lines for lists whose sentences hold no "\n", no "\r" and no '"' at either end makes one mp3 per sentence, sentence j of name going to name_<j+1>.mp3 |
| Integrate.UiKeysSelection | add_new_language/integrate_language.py:64-65 | ui_keys is the subsequence of en.json's keys that are UI keys, in order, missing none |
| Integrate.UiKeysMembers | add_new_language/integrate_language.py:65 | a key is a UI key iff it is a key of en.json, does not end in _sentences and is not a sentence key's base |
| Integrate.UiKeysDistinct | add_new_language/integrate_language.py:65 | the UI keys are distinct and none ends in _sentences |
| Integrate.UiEntryKept | add_new_language/integrate_language.py:67-77 | the i-th UI key holds the i-th translated line stripped, unless a generated key lowercases to it |
| Integrate.SymbolTitleSet | add_new_language/integrate_language.py:84-85 | the lowercased generated key holds the key with '_' as space, title-cased, even over a UI key |
| Integrate.SymbolSentencesSet | add_new_language/integrate_language.py:88-89 | the lowercased generated key with _sentences holds the generated value |
| Integrate.LocaleKeys | add_new_language/integrate_language.py:76-89 | the locale's keys are distinct and are exactly the UI keys, the lowercased generated keys and those with _sentences |
| Integrate.GeneratedKeys | add_new_language/integrate_language.py:84-89 | the generated keys add exactly the lowercased keys and those with _sentences |
| Integrate.LocaleInOrder | add_new_language/integrate_language.py:76-93 | with non-clashing keys the locale is the UI entries, then the titles, then the lists, in order |
| Integrate.BuildLocale | add_new_language/integrate_language.py:76-89 | the three loops build locale_data of the specification |
| Integrate.IntegrateLanguage | add_new_language/integrate_language.py:12-93 | the script computes the specification |
| Integrate.IntegrateOutcome | add_new_language/integrate_language.py:39-93 | a locale file is written iff every input exists and the translated lines number the UI keys; it is <code>.json |
| Integrate.GeneratedMatchesExtracted | tts/generate_tts_txt.py:24-29 | on a locale built by the script, the TTS lines equal those the extractor writes for the same sentences |
| Integrate.ListEntriesGroups | add_new_language/integrate_language.py:88-89 | the sentence-list entries give the extractor's lists |
| Prepare.PrepareTranslation | add_new_language/prepare_translation.py:17-33 | the script computes the specification |
| Prepare.PrepareOutcome | add_new_language/prepare_translation.py:17-33 | output iff en.json exists and no string sits under the empty key; the output is the selection joined by "\n" |
| Prepare.SelectionExact | add_new_language/prepare_translation.py:26-29 | the selection is exactly the string values whose key starts with a lowercase character, in dict order |
| Prepare.SelectionMembers | add_new_language/prepare_translation.py:28 | a string is selected iff some key starting lowercase holds it; lists are never selected |
| Prepare.TranslationsOfJoined | add_new_language/prepare_translation.py:33 | a file written with "\n".join from strings without "\n" or "\r" reads back, line by line and stripped, as the stripped strings |
| Prepare.CarriageReturnSplitsValue | add_new_language/integrate_language.py:67-68 | a prepared value "a\rb" is read back as two lines |
| Prepare.PreparedMatchesUiKeys | add_new_language/integrate_language.py:64-77 | under the shared selection convention, and with prepared values free of "\n" and "\r", the translated lines number the UI keys and the a-th UI key takes the a-th prepared string stripped |
| Prepare.SymbolNamePrepared | add_new_language/prepare_translation.py:28 | a lowercase symbol-name key with a string is selected |
| Prepare.SymbolNameNotUi | add_new_language/integrate_language.py:64-65 | that key is no UI key |
| Comprehensions.FilterPositions | add_new_language/integrate_language.py:65 | a comprehension keeps exactly the kept elements, in order |
| Comprehensions.FilterMembers | add_new_language/prepare_translation.py:27-29 | an element is in the result iff it is the image of a kept element |
| Dicts.GetPutAll | add_new_language/integrate_language.py:76-89 | after a run of assignments a key holds the last value assigned, or its old one |
| Dicts.PutAllKeys | add_new_language/transliterate_symbols.py:133 | assignments keep keys distinct; the keys are the old and the assigned ones |
| Dicts.PutAllFresh | add_new_language/integrate_language.py:76-89 | assigning new distinct keys appends them in order |
| Dicts.PutGet | add_new_language/transliterate_symbols.py:133 | after d[k] = v, k holds v and every other key its old value |
| Text.SplitAtSpace | tts/generate_tts_audio.py:42 | split(" ", 1) gives two parts iff there is a space, the first part free of spaces, and they rejoin to the text |
| Text.StripQuoted | tts/generate_tts_audio.py:48 | stripping '"' from a quoted text without quotes at its ends gives the text |
| Text.RemoveTagAfter | tts/generate_tts_txt.py:26 | removing "_sentences" from a tag-free base followed by the tag gives the base |
| Text.UniversalNewlines | add_new_language/integrate_language.py:67 | text-mode reading turns "\r\n" and a lone "\r" into "\n": the text read holds no "\r", and a text without "\r" reads as itself |
| Text.CarriageReturnEndsLine | add_new_language/integrate_language.py:68 | readlines reads "a\rb" as the two lines "a\n" and "b" |
| Text.ReadJoined | add_new_language/integrate_language.py:67-68 | readlines on a "\n"-joined text returns the lines, each but the last with its "\n", when no line holds "\n" or "\r" and the last is not empty |
| Paths.StemSuffix | add_new_language/transliterate_symbols.py:67-81 | stem + suffix is the name |
| Paths.JoinStemSuffix | add_new_language/transliterate_symbols.py:81 | a non-empty stem joined with a suffix has that stem and suffix |
| Paths.LastDot | backend/app.py:44 | the last dot is found, or -1 when there is none |

## Left out

- Flask routing, static-file serving, CORS, the set_language decorator and the set_lang/get_lang routes: HTTP plumbing.
- All I/O is replaced by inputs and outputs. This covers file reads and writes, directory listings, glob, os.rename, mkdir, JSON load and dump, and the stdout prints. The model does not say which physical directory a listing comes from: transliterate_symbols.py resolves its paths from its own directory.
- integrate_language.py's copies of the flag, the mp3s and the symbol images (lines 97-123): file copies with no logic beyond existence checks.
- JSON parse errors and values other than strings and lists of strings. A list holding non-strings is not modelled as such; other values are `Other`.
- The gTTS call and its exception handling in generate_tts_audio.py: a foreign library and the network. The model records the synthesis requests.
- Unicode case mapping (lower, title, islower) is a parameter. The regex classes `\d` and `\w` are taken as ASCII digits and ASCII word characters, not their Unicode classes. int() on a string is not affected: it reads every Unicode decimal digit (Numerals.DecimalValue).
- The probability distributions of random.choice, random.sample and random.shuffle. Only valid outcomes are modelled.
- The read-compare-write race on the highscore file. Only sequential semantics are modelled.
- The React frontend, webpack.config.js and generate_prompt_sentences_symbols.py: user interface, build configuration and a free-text prompt.
- Transliteration.RunScript: takes the map table as a parameter, so that a code with no map can be shown. The script's own table is `MapFor`, which uses the corrected Serbian map.
- Transliteration.MapFor: uses the corrected Serbian table. The shipped one is `SrAsWritten`, kept for the finding.
- Rounds.Session.NextSymbol: receives the random outcomes as Draws. It requires them to fit the lists they are drawn from.
- Rounds.SymbolStepShape and Rounds.SymbolRoundSpec: random.sample's ValueError on too small a list is a failure replied with the session unchanged. Flask would reply with status 500 after an uncaught exception.
- Highscore.HighscoreFile.SubmitScore: an int() failure, or data.get on a JSON body that is a truthy non-object, is a failed request with nothing written; this stands for the uncaught exception and the 500 status.
- Highscore.IntOf: JSON floats are taken as finite reals; Python's NaN, Infinity and literals that overflow a double (int() raises, or rounds) are not modelled. int() of a string reads any Unicode 15.0 decimal digit, as CPython 3.12 does; the digit runs of later Unicode versions are not included. CPython 3.11 and later limit int() of a string to 4300 digits by default (ValueError past it, so a failed request), and the limit can be changed at run time; the model has no limit and parses a number of any length.
- Text.ReadJoined: holds only for lines without "\r" as well as "\n", since text-mode readlines also ends a line at "\r" (Text.CarriageReturnEndsLine).
- Prepare.TranslationsOfJoined: holds only for strings without "\r", for the same reason; a value with "\r" is read back as more lines (Prepare.CarriageReturnSplitsValue).
- Prepare.PreparedMatchesUiKeys: needs prepared values without "\r"; one with "\r" makes integrate_language.py count more lines than UI keys, and the count check stops the script.
- TtsAudio.ReadBackTtsFile: needs sentences without "\r" (TtsAudio.Carried); such a sentence is split over two lines when the file is read back, and its second part is parsed as a line of its own.
- Transliteration.ProcessLanguage: the directory listing is taken once, before the renames; Python's iterdir reads the directory lazily while files are renamed, and the order of entries on disk after a rename is not modelled.
- Transliteration.ApplyRename: a rename whose source is gone makes Python raise FileNotFoundError and stop the script; the model leaves that listing unchanged and goes on. Overwriting never removes a name from the listing, so a source is gone only if an earlier rename moved it away, which needs the same name listed twice. Transliteration.RenamedSourcesPresent shows that for a well-behaved map over distinct names every planned source is still listed when its rename runs.
- Rounds.RequestOptionsDistinct: does not cover the language "common", whose catalog lists the common directory twice (Catalog.CommonListedTwice), so a round there can show one image twice.
- Integrate.UiEntryKept, Integrate.SymbolTitleSet and Integrate.SymbolSentencesSet: each states its entry's value under the non-clashing conditions given in its requires. They do not cover a clash between two generated keys, where Python's last-wins rule applies; Dicts.GetPutAll states that rule.

## Findings

| source | as written | input that shows it | evidently intended | confidence | as-written member | corrected member |
|---|---|---|---|---|---|---|
| add_new_language/transliterate_symbols.py:26 | the Serbian table's second row has the Latin letter 'k' as a key, where the Cyrillic 'к' belongs in the alphabet order | transliterating "к" with the sr table gives "к", still Cyrillic | the Cyrillic small ka maps to "k", so every Serbian Cyrillic text becomes ASCII letters | not executed | Transliteration.SrAsWrittenMissesKa | Transliteration.SrReady |
