/**
 * add_new_language/transliterate_symbols.py: the per-language character maps,
 * transliterate_text, transliterate_filename, and what process_language and the script's
 * main block do to a language's images, mp3s, locale file and TTS text file.
 */
module Transliteration {
  import opened Wrappers
  import opened Dicts
  import Text
  import Numerals
  import Paths
  import Catalog

  /** A character map: each key character is written as its image string. */
  type CharMap = map<char, string>

  // ---------------------------------------------------------------------------
  // The shipped maps, as they stand in language_transliteration_maps
  // ---------------------------------------------------------------------------

  /** The "mk" map, one display per source line (lines 10-22). */
  const MKRow1: CharMap := map['а' := "a", 'б' := "b", 'в' := "v", 'г' := "g", 'д' := "d", 'е' := "e", 'ж' := "z", 'з' := "z", 'и' := "i"]
  const MKRow2: CharMap := map['ј' := "j", 'к' := "k", 'л' := "l", 'м' := "m", 'н' := "n", 'о' := "o", 'п' := "p", 'р' := "r", 'с' := "s"]
  const MKRow3: CharMap := map['т' := "t", 'у' := "u", 'ф' := "f", 'х' := "h", 'ц' := "c", 'ч' := "c", 'ш' := "s"]
  const MKRow4: CharMap := map['ѓ' := "g", 'ќ' := "k", 'ѕ' := "z", 'џ' := "dz", 'љ' := "lj", 'њ' := "nj"]
  const MKRow5: CharMap := map['А' := "A", 'Б' := "B", 'В' := "V", 'Г' := "G", 'Д' := "D", 'Е' := "E", 'Ж' := "Z", 'З' := "Z", 'И' := "I"]
  const MKRow6: CharMap := map['Ј' := "J", 'К' := "K", 'Л' := "L", 'М' := "M", 'Н' := "N", 'О' := "O", 'П' := "P", 'Р' := "R", 'С' := "S"]
  const MKRow7: CharMap := map['Т' := "T", 'У' := "U", 'Ф' := "F", 'Х' := "H", 'Ц' := "C", 'Ч' := "C", 'Ш' := "S"]
  const MKRow8: CharMap := map['Ѓ' := "G", 'Ќ' := "K", 'Ѕ' := "Z", 'Џ' := "Dz", 'Љ' := "Lj", 'Њ' := "Nj"]
  const MK: CharMap := MKRow1 + MKRow2 + MKRow3 + MKRow4 + MKRow5 + MKRow6 + MKRow7 + MKRow8

  /** The "sr" map, one display per source line (lines 25-34). */
  const SrAsWrittenRow1: CharMap := map['а' := "a", 'б' := "b", 'в' := "v", 'г' := "g", 'д' := "d", 'ђ' := "dj", 'е' := "e", 'ж' := "z", 'з' := "z", 'и' := "i"]
  const SrAsWrittenRow2: CharMap := map['ј' := "j", 'k' := "k", 'л' := "l", 'љ' := "lj", 'м' := "m", 'н' := "n", 'њ' := "nj", 'о' := "o", 'п' := "p"]
  const SrAsWrittenRow3: CharMap := map['р' := "r", 'с' := "s", 'т' := "t", 'ћ' := "c", 'у' := "u", 'ф' := "f", 'х' := "h", 'ц' := "c", 'ч' := "c"]
  const SrAsWrittenRow4: CharMap := map['џ' := "dz", 'ш' := "s"]
  const SrAsWrittenRow5: CharMap := map['А' := "A", 'Б' := "B", 'В' := "V", 'Г' := "G", 'Д' := "D", 'Ђ' := "Dj", 'Е' := "E", 'Ж' := "Z", 'З' := "Z", 'И' := "I"]
  const SrAsWrittenRow6: CharMap := map['Ј' := "J", 'К' := "K", 'Л' := "L", 'Љ' := "Lj", 'М' := "M", 'Н' := "N", 'Њ' := "Nj", 'О' := "O", 'П' := "P"]
  const SrAsWrittenRow7: CharMap := map['Р' := "R", 'С' := "S", 'Т' := "T", 'Ћ' := "C", 'У' := "U", 'Ф' := "F", 'Х' := "H", 'Ц' := "C", 'Ч' := "C"]
  const SrAsWrittenRow8: CharMap := map['Џ' := "Dz", 'Ш' := "S"]
  const SrAsWritten: CharMap := SrAsWrittenRow1 + SrAsWrittenRow2 + SrAsWrittenRow3 + SrAsWrittenRow4 + SrAsWrittenRow5 + SrAsWrittenRow6 + SrAsWrittenRow7 + SrAsWrittenRow8

  /**
   * The Serbian map as intended: the second row with the lowercase Cyrillic ka in place
   * of the Latin 'k' key of the table as written.
   */
  const SrRow2: CharMap := (SrAsWrittenRow2 - {'k'})['к' := "k"]
  const Sr: CharMap := SrAsWrittenRow1 + SrRow2 + SrAsWrittenRow3 + SrAsWrittenRow4 + SrAsWrittenRow5 + SrAsWrittenRow6 + SrAsWrittenRow7 + SrAsWrittenRow8

  /** The "sk" map, one display per source line (lines 37-42). */
  const SKRow1: CharMap := map['á' := "a", 'ä' := "a", 'č' := "c", 'ď' := "d", 'é' := "e", 'í' := "i", 'ľ' := "l", 'ĺ' := "l", 'ň' := "n"]
  const SKRow2: CharMap := map['ó' := "o", 'ô' := "o", 'ŕ' := "r", 'š' := "s", 'ť' := "t", 'ú' := "u", 'ý' := "y", 'ž' := "z"]
  const SKRow3: CharMap := map['Á' := "A", 'Ä' := "A", 'Č' := "C", 'Ď' := "D", 'É' := "E", 'Í' := "I", 'Ľ' := "L", 'Ĺ' := "L", 'Ň' := "N"]
  const SKRow4: CharMap := map['Ó' := "O", 'Ô' := "O", 'Ŕ' := "R", 'Š' := "S", 'Ť' := "T", 'Ú' := "U", 'Ý' := "Y", 'Ž' := "Z"]
  const SK: CharMap := SKRow1 + SKRow2 + SKRow3 + SKRow4

  /** The "pl" map, one display per source line (lines 45-48). */
  const PLRow1: CharMap := map['ą' := "a", 'ć' := "c", 'ę' := "e", 'ł' := "l", 'ń' := "n", 'ó' := "o", 'ś' := "s", 'ź' := "z", 'ż' := "z"]
  const PLRow2: CharMap := map['Ą' := "A", 'Ć' := "C", 'Ę' := "E", 'Ł' := "L", 'Ń' := "N", 'Ó' := "O", 'Ś' := "S", 'Ź' := "Z", 'Ż' := "Z"]
  const PL: CharMap := PLRow1 + PLRow2

  /** The "hu" map, one display per source line (lines 51-54). */
  const HURow1: CharMap := map['á' := "a", 'é' := "e", 'í' := "i", 'ó' := "o", 'ö' := "o", 'ő' := "o", 'ú' := "u", 'ü' := "u", 'ű' := "u"]
  const HURow2: CharMap := map['Á' := "A", 'É' := "E", 'Í' := "I", 'Ó' := "O", 'Ö' := "O", 'Ő' := "O", 'Ú' := "U", 'Ü' := "U", 'Ű' := "U"]
  const HU: CharMap := HURow1 + HURow2

  /** language_transliteration_maps.get(code), with the corrected Serbian map. */
  function MapFor(code: string): Option<CharMap>
  {
    if code == "mk" then Some(MK)
    else if code == "sr" then Some(Sr)
    else if code == "sk" then Some(SK)
    else if code == "pl" then Some(PL)
    else if code == "hu" then Some(HU)
    else None
  }

  // ---------------------------------------------------------------------------
  // transliterate_text
  // ---------------------------------------------------------------------------

  /** char_map.get(c, c) */
  function Image(c: char, m: CharMap): string
  {
    if c in m then m[c] else [c]
  }

  /** The concatenation of the images of the characters of s. */
  function Translit(s: string, m: CharMap): string
  {
    if s == [] then [] else Translit(s[..|s| - 1], m) + Image(s[|s| - 1], m)
  }

  /** transliterate_text: one pass over the text, appending each character's image. */
  method TransliterateText(text: string, m: CharMap) returns (r: string)
    ensures r == Translit(text, m)
  {
    r := [];
    for i := 0 to |text|
      invariant r == Translit(text[..i], m)
    {
      assert text[..i + 1][..i] == text[..i];
      r := r + Image(text[i], m);
    }
    assert text[..|text|] == text;
  }

  lemma {:induction false} TranslitAppend(a: string, b: string, m: CharMap)
    ensures Translit(a + b, m) == Translit(a, m) + Translit(b, m)
    decreases |b|
  {
    if b == [] {
      assert a + b == a;
    } else {
      var init := b[..|b| - 1];
      TranslitAppend(a, init, m);
      assert (a + b)[..|a + b| - 1] == a + init;
      assert (a + b)[|a + b| - 1] == b[|b| - 1];
    }
  }

  predicate NonEmptyImages(m: CharMap)
  {
    forall c :: c in m ==> m[c] != []
  }

  predicate SingleLetterImages(m: CharMap)
  {
    forall c :: c in m ==> |m[c]| == 1
  }

  /** The result is never shorter than the text, and exactly as long for single-letter maps. */
  lemma {:induction false} TranslitLength(s: string, m: CharMap)
    ensures NonEmptyImages(m) ==> |Translit(s, m)| >= |s|
    ensures SingleLetterImages(m) ==> |Translit(s, m)| == |s|
  {
    if s != [] {
      TranslitLength(s[..|s| - 1], m);
    }
  }

  /** A text whose characters are unmapped, or mapped to themselves, is left as it is. */
  lemma {:induction false} TranslitFixed(s: string, m: CharMap)
    requires forall i :: 0 <= i < |s| ==> s[i] !in m || m[s[i]] == [s[i]]
    ensures Translit(s, m) == s
  {
    if s != [] {
      TranslitFixed(s[..|s| - 1], m);
      assert s[..|s| - 1] + [s[|s| - 1]] == s;
    }
  }

  /** No character of an image is a key with a different image. */
  predicate Stable(m: CharMap)
  {
    forall c :: c in m ==> forall i :: 0 <= i < |m[c]| ==> m[c][i] !in m || m[m[c][i]] == [m[c][i]]
  }

  /** Transliterating twice is transliterating once, for a stable map. */
  lemma {:induction false} TranslitIdempotent(s: string, m: CharMap)
    requires Stable(m)
    ensures Translit(Translit(s, m), m) == Translit(s, m)
  {
    if s != [] {
      var init := s[..|s| - 1];
      var c := s[|s| - 1];
      TranslitIdempotent(init, m);
      TranslitAppend(Translit(init, m), Image(c, m), m);
      ImageFixed(c, m);
    }
  }

  /** For a stable map, an image transliterates to itself. */
  lemma ImageFixed(c: char, m: CharMap)
    requires Stable(m)
    ensures Translit(Image(c, m), m) == Image(c, m)
  {
    var img := Image(c, m);
    forall i | 0 <= i < |img| ensures img[i] !in m || m[img[i]] == [img[i]] {
      if c !in m {
        assert img[i] == c;
      }
    }
    TranslitFixed(img, m);
  }

  /** Every character of every image is an ASCII letter. */
  predicate LetterImages(m: CharMap)
  {
    forall c :: c in m ==> forall i :: 0 <= i < |m[c]| ==> Catalog.IsAsciiLetter(m[c][i])
  }

  /** Neither '_' nor a digit is a key. */
  predicate NumberSafe(m: CharMap)
  {
    forall c :: c in m ==> c != '_' && !Numerals.IsDigit(c)
  }

  /** The properties the filename and idempotence lemmas below rely on. */
  predicate WellBehaved(m: CharMap)
  {
    NonEmptyImages(m) && Stable(m) && LetterImages(m) && NumberSafe(m)
  }

  /** An image as the shipped maps write them: one or two ASCII letters. */
  predicate LatinImage(s: string)
  {
    1 <= |s| <= 2 && Catalog.IsAsciiLetter(s[0]) && (|s| == 2 ==> Catalog.IsAsciiLetter(s[1]))
  }

  /** A Latin image, for a key outside ASCII or for a key that is its own image. */
  predicate PlainEntry(m: CharMap, c: char)
    requires c in m
  {
    LatinImage(m[c]) && (c as int >= 128 || (|m[c]| == 1 && m[c][0] == c))
  }

  predicate Plain(m: CharMap)
  {
    forall c :: c in m ==> PlainEntry(m, c)
  }

  lemma PlainUnion(a: CharMap, b: CharMap)
    requires Plain(a) && Plain(b)
    ensures Plain(a + b)
  {
    forall c | c in a + b ensures PlainEntry(a + b, c) {
      if c in b {
        assert PlainEntry(b, c);
      } else {
        assert PlainEntry(a, c);
      }
    }
  }

  /** Dropping a key and adding a non-ASCII one with a Latin image keeps a map plain. */
  lemma PlainWellBehaved(m: CharMap)
    requires Plain(m)
    ensures WellBehaved(m)
  {
    forall c | c in m ensures m[c] != [] && forall i :: 0 <= i < |m[c]| ==> Catalog.IsAsciiLetter(m[c][i]) {
      assert PlainEntry(m, c);
    }
    forall c, i | c in m && 0 <= i < |m[c]| && m[c][i] in m ensures m[m[c][i]] == [m[c][i]] {
      assert PlainEntry(m, c);
      assert PlainEntry(m, m[c][i]);
    }
    forall c | c in m ensures c != '_' && !Numerals.IsDigit(c) {
      assert PlainEntry(m, c);
    }
  }

  lemma MKRow1Plain() ensures Plain(MKRow1) {}
  lemma MKRow2Plain() ensures Plain(MKRow2) {}
  lemma MKRow3Plain() ensures Plain(MKRow3) {}
  lemma MKRow4Plain() ensures Plain(MKRow4) {}
  lemma MKRow5Plain() ensures Plain(MKRow5) {}
  lemma MKRow6Plain() ensures Plain(MKRow6) {}
  lemma MKRow7Plain() ensures Plain(MKRow7) {}
  lemma MKRow8Plain() ensures Plain(MKRow8) {}
  lemma SrAsWrittenRow1Plain() ensures Plain(SrAsWrittenRow1) {}
  lemma SrAsWrittenRow2Plain() ensures Plain(SrAsWrittenRow2) {}
  lemma SrAsWrittenRow3Plain() ensures Plain(SrAsWrittenRow3) {}
  lemma SrAsWrittenRow4Plain() ensures Plain(SrAsWrittenRow4) {}
  lemma SrAsWrittenRow5Plain() ensures Plain(SrAsWrittenRow5) {}
  lemma SrAsWrittenRow6Plain() ensures Plain(SrAsWrittenRow6) {}
  lemma SrAsWrittenRow7Plain() ensures Plain(SrAsWrittenRow7) {}
  lemma SrAsWrittenRow8Plain() ensures Plain(SrAsWrittenRow8) {}
  lemma SrRow2Plain() ensures Plain(SrRow2) {}
  lemma SKRow1Plain() ensures Plain(SKRow1) && SingleLetterImages(SKRow1) {}
  lemma SKRow2Plain() ensures Plain(SKRow2) && SingleLetterImages(SKRow2) {}
  lemma SKRow3Plain() ensures Plain(SKRow3) && SingleLetterImages(SKRow3) {}
  lemma SKRow4Plain() ensures Plain(SKRow4) && SingleLetterImages(SKRow4) {}
  lemma PLRow1Plain() ensures Plain(PLRow1) && SingleLetterImages(PLRow1) {}
  lemma PLRow2Plain() ensures Plain(PLRow2) && SingleLetterImages(PLRow2) {}
  lemma HURow1Plain() ensures Plain(HURow1) && SingleLetterImages(HURow1) {}
  lemma HURow2Plain() ensures Plain(HURow2) && SingleLetterImages(HURow2) {}

  lemma SingleUnion(a: CharMap, b: CharMap)
    requires SingleLetterImages(a) && SingleLetterImages(b)
    ensures SingleLetterImages(a + b)
  {
  }

  lemma MKPlain() ensures Plain(MK)
  {
    MKRow1Plain();
    MKRow2Plain();
    MKRow3Plain();
    MKRow4Plain();
    MKRow5Plain();
    MKRow6Plain();
    MKRow7Plain();
    MKRow8Plain();
    PlainUnion(MKRow1, MKRow2);
    PlainUnion(MKRow1 + MKRow2, MKRow3);
    PlainUnion(MKRow1 + MKRow2 + MKRow3, MKRow4);
    PlainUnion(MKRow1 + MKRow2 + MKRow3 + MKRow4, MKRow5);
    PlainUnion(MKRow1 + MKRow2 + MKRow3 + MKRow4 + MKRow5, MKRow6);
    PlainUnion(MKRow1 + MKRow2 + MKRow3 + MKRow4 + MKRow5 + MKRow6, MKRow7);
    PlainUnion(MKRow1 + MKRow2 + MKRow3 + MKRow4 + MKRow5 + MKRow6 + MKRow7, MKRow8);
  }

  lemma MKWellBehaved() ensures WellBehaved(MK)
  {
    MKPlain();
    PlainWellBehaved(MK);
  }

  lemma SrAsWrittenPlain() ensures Plain(SrAsWritten)
  {
    SrAsWrittenRow1Plain();
    SrAsWrittenRow2Plain();
    SrAsWrittenRow3Plain();
    SrAsWrittenRow4Plain();
    SrAsWrittenRow5Plain();
    SrAsWrittenRow6Plain();
    SrAsWrittenRow7Plain();
    SrAsWrittenRow8Plain();
    PlainUnion(SrAsWrittenRow1, SrAsWrittenRow2);
    PlainUnion(SrAsWrittenRow1 + SrAsWrittenRow2, SrAsWrittenRow3);
    PlainUnion(SrAsWrittenRow1 + SrAsWrittenRow2 + SrAsWrittenRow3, SrAsWrittenRow4);
    PlainUnion(SrAsWrittenRow1 + SrAsWrittenRow2 + SrAsWrittenRow3 + SrAsWrittenRow4, SrAsWrittenRow5);
    PlainUnion(SrAsWrittenRow1 + SrAsWrittenRow2 + SrAsWrittenRow3 + SrAsWrittenRow4 + SrAsWrittenRow5, SrAsWrittenRow6);
    PlainUnion(SrAsWrittenRow1 + SrAsWrittenRow2 + SrAsWrittenRow3 + SrAsWrittenRow4 + SrAsWrittenRow5 + SrAsWrittenRow6, SrAsWrittenRow7);
    PlainUnion(SrAsWrittenRow1 + SrAsWrittenRow2 + SrAsWrittenRow3 + SrAsWrittenRow4 + SrAsWrittenRow5 + SrAsWrittenRow6 + SrAsWrittenRow7, SrAsWrittenRow8);
  }

  /** The Serbian table as written is well behaved too: its one fault is the missing ka. */
  lemma SrAsWrittenWellBehaved() ensures WellBehaved(SrAsWritten)
  {
    SrAsWrittenPlain();
    PlainWellBehaved(SrAsWritten);
  }

  lemma SrPlain() ensures Plain(Sr)
  {
    SrAsWrittenRow1Plain();
    SrRow2Plain();
    SrAsWrittenRow3Plain();
    SrAsWrittenRow4Plain();
    SrAsWrittenRow5Plain();
    SrAsWrittenRow6Plain();
    SrAsWrittenRow7Plain();
    SrAsWrittenRow8Plain();
    PlainUnion(SrAsWrittenRow1, SrRow2);
    PlainUnion(SrAsWrittenRow1 + SrRow2, SrAsWrittenRow3);
    PlainUnion(SrAsWrittenRow1 + SrRow2 + SrAsWrittenRow3, SrAsWrittenRow4);
    PlainUnion(SrAsWrittenRow1 + SrRow2 + SrAsWrittenRow3 + SrAsWrittenRow4, SrAsWrittenRow5);
    PlainUnion(SrAsWrittenRow1 + SrRow2 + SrAsWrittenRow3 + SrAsWrittenRow4 + SrAsWrittenRow5, SrAsWrittenRow6);
    PlainUnion(SrAsWrittenRow1 + SrRow2 + SrAsWrittenRow3 + SrAsWrittenRow4 + SrAsWrittenRow5 + SrAsWrittenRow6, SrAsWrittenRow7);
    PlainUnion(SrAsWrittenRow1 + SrRow2 + SrAsWrittenRow3 + SrAsWrittenRow4 + SrAsWrittenRow5 + SrAsWrittenRow6 + SrAsWrittenRow7, SrAsWrittenRow8);
  }

  lemma SrWellBehaved() ensures WellBehaved(Sr)
  {
    SrPlain();
    PlainWellBehaved(Sr);
  }

  lemma SKPlain() ensures Plain(SK) && SingleLetterImages(SK)
  {
    SKRow1Plain();
    SKRow2Plain();
    SKRow3Plain();
    SKRow4Plain();
    PlainUnion(SKRow1, SKRow2);
    SingleUnion(SKRow1, SKRow2);
    PlainUnion(SKRow1 + SKRow2, SKRow3);
    SingleUnion(SKRow1 + SKRow2, SKRow3);
    PlainUnion(SKRow1 + SKRow2 + SKRow3, SKRow4);
    SingleUnion(SKRow1 + SKRow2 + SKRow3, SKRow4);
  }

  lemma SKWellBehaved() ensures WellBehaved(SK) && SingleLetterImages(SK)
  {
    SKPlain();
    PlainWellBehaved(SK);
  }

  lemma PLPlain() ensures Plain(PL) && SingleLetterImages(PL)
  {
    PLRow1Plain();
    PLRow2Plain();
    PlainUnion(PLRow1, PLRow2);
    SingleUnion(PLRow1, PLRow2);
  }

  lemma PLWellBehaved() ensures WellBehaved(PL) && SingleLetterImages(PL)
  {
    PLPlain();
    PlainWellBehaved(PL);
  }

  lemma HUPlain() ensures Plain(HU) && SingleLetterImages(HU)
  {
    HURow1Plain();
    HURow2Plain();
    PlainUnion(HURow1, HURow2);
    SingleUnion(HURow1, HURow2);
  }

  lemma HUWellBehaved() ensures WellBehaved(HU) && SingleLetterImages(HU)
  {
    HUPlain();
    PlainWellBehaved(HU);
  }


  /** The thirty letters of the Serbian Cyrillic alphabet, small and capital. */
  const SerbianSmall: string := "абвгдђежзијклљмнњопрстћуфхцчџш"
  const SerbianCapital: string := "АБВГДЂЕЖЗИЈКЛЉМНЊОПРСТЋУФХЦЧЏШ"

  predicate AsciiLetters(s: string)
  {
    forall i :: 0 <= i < |s| ==> Catalog.IsAsciiLetter(s[i])
  }

  /** The small rows of the corrected map list the small alphabet in order: 10, 9, 9 and 2 letters. */
  lemma SmallLettersListed()
    ensures |SerbianSmall| == 30
    ensures forall i :: 0 <= i < 10 ==> SerbianSmall[i] in SrAsWrittenRow1
    ensures forall i :: 10 <= i < 19 ==> SerbianSmall[i] in SrRow2
    ensures forall i :: 19 <= i < 28 ==> SerbianSmall[i] in SrAsWrittenRow3
    ensures forall i :: 28 <= i < 30 ==> SerbianSmall[i] in SrAsWrittenRow4
  {
  }

  /** The capital rows list the capital alphabet in the same way. */
  lemma CapitalLettersListed()
    ensures |SerbianCapital| == 30
    ensures forall i :: 0 <= i < 10 ==> SerbianCapital[i] in SrAsWrittenRow5
    ensures forall i :: 10 <= i < 19 ==> SerbianCapital[i] in SrAsWrittenRow6
    ensures forall i :: 19 <= i < 28 ==> SerbianCapital[i] in SrAsWrittenRow7
    ensures forall i :: 28 <= i < 30 ==> SerbianCapital[i] in SrAsWrittenRow8
  {
  }

  /** A key of any row of the corrected map is a key of the map. */
  lemma SrHasRowKey(c: char)
    requires c in SrAsWrittenRow1 || c in SrRow2 || c in SrAsWrittenRow3 || c in SrAsWrittenRow4
      || c in SrAsWrittenRow5 || c in SrAsWrittenRow6 || c in SrAsWrittenRow7 || c in SrAsWrittenRow8
    ensures c in Sr
  {
  }

  predicate SerbianLetter(c: char)
  {
    c in SerbianSmall || c in SerbianCapital
  }

  /** The corrected Serbian map has a key for every Serbian Cyrillic letter. */
  lemma SrCoversAlphabet(c: char)
    requires SerbianLetter(c)
    ensures c in Sr
  {
    if c in SerbianSmall {
      var i :| 0 <= i < |SerbianSmall| && SerbianSmall[i] == c;
      SrCoversSmall(i);
    } else {
      var i :| 0 <= i < |SerbianCapital| && SerbianCapital[i] == c;
      SrCoversCapital(i);
    }
  }

  lemma SrCoversSmall(i: nat)
    requires i < |SerbianSmall|
    ensures SerbianSmall[i] in Sr
  {
    SmallLettersListed();
    SrHasRowKey(SerbianSmall[i]);
  }

  lemma SrCoversCapital(i: nat)
    requires i < |SerbianCapital|
    ensures SerbianCapital[i] in Sr
  {
    CapitalLettersListed();
    SrHasRowKey(SerbianCapital[i]);
  }

  /** A plain map that has a key for every character of s writes s in ASCII letters. */
  lemma {:induction false} PlainTextAscii(s: string, m: CharMap)
    requires Plain(m)
    requires forall i :: 0 <= i < |s| ==> s[i] in m
    ensures AsciiLetters(Translit(s, m))
  {
    if s != [] {
      var c := s[|s| - 1];
      PlainTextAscii(s[..|s| - 1], m);
      assert PlainEntry(m, c);
      var a := Translit(s[..|s| - 1], m);
      forall i | 0 <= i < |a + m[c]| ensures Catalog.IsAsciiLetter((a + m[c])[i]) {
        if i >= |a| {
          assert (a + m[c])[i] == m[c][i - |a|];
        }
      }
    }
  }

  /** Hence a Serbian Cyrillic text becomes pure ASCII letters. */
  /** A plain map with a key for every Serbian letter. */
  predicate SerbianReady(m: CharMap)
  {
    Plain(m) && forall c :: SerbianLetter(c) ==> c in m
  }

  /**
   * The corrected Serbian map is plain and has a key for every Serbian Cyrillic letter,
   * so by LettersAscii it writes every Serbian text in ASCII letters.
   */
  lemma SrReady()
    ensures SerbianReady(Sr)
  {
    SrPlain();
    forall c | SerbianLetter(c) ensures c in Sr {
      SrCoversAlphabet(c);
    }
  }

  /** Such a map writes a Serbian text in ASCII letters. */
  lemma LettersAscii(s: string, m: CharMap)
    requires SerbianReady(m) && forall i :: 0 <= i < |s| ==> SerbianLetter(s[i])
    ensures AsciiLetters(Translit(s, m))
  {
    PlainTextAscii(s, m);
  }

  /** No small row of the table as written has the small ka as a key. */
  lemma KaNotListedSmall()
    ensures 'к' !in SrAsWrittenRow1 && 'к' !in SrAsWrittenRow2 && 'к' !in SrAsWrittenRow3 && 'к' !in SrAsWrittenRow4
  {
  }

  /** Nor does any capital row. */
  lemma KaNotListedCapital()
    ensures 'к' !in SrAsWrittenRow5 && 'к' !in SrAsWrittenRow6 && 'к' !in SrAsWrittenRow7 && 'к' !in SrAsWrittenRow8
  {
  }

  /** So the small ka is not a key of the table as written. */
  lemma KaNotInSrAsWritten()
    ensures 'к' !in SrAsWritten
  {
    KaNotListedSmall();
    KaNotListedCapital();
  }

  /**
   * The table as written leaves the small ka untouched: "к" stays a Cyrillic letter, so
   * that table does not have the property SrReady proves of the corrected one.
   */
  lemma SrAsWrittenMissesKa()
    ensures SerbianLetter('к') && !SerbianReady(SrAsWritten)
    ensures Translit("к", SrAsWritten) == "к" && !AsciiLetters(Translit("к", SrAsWritten))
  {
    assert SerbianSmall[11] == 'к';
    KaNotInSrAsWritten();
    UnmappedKept('к', SrAsWritten);
    assert !Catalog.IsAsciiLetter("к"[0]);
  }

  /** A character that is not a key is its own transliteration. */
  lemma UnmappedKept(c: char, m: CharMap)
    requires c !in m
    ensures Translit([c], m) == [c]
  {
    assert [c][..0] == [];
  }

  // ---------------------------------------------------------------------------
  // transliterate_filename
  // ---------------------------------------------------------------------------

  /** `$` at position k: the end, or just before a final newline. */
  predicate EndAt(s: string, k: nat)
  {
    k == |s| || (k + 1 == |s| && s[k] == '\n')
  }

  /** `(_\d+)$` tried at position k: the text of the group when it matches. */
  function NumberTail(s: string, k: nat): Option<string>
    requires k <= |s|
  {
    if k < |s| && s[k] == '_' then
      var d := Numerals.DigitRun(s[k + 1..]);
      if d > 0 && EndAt(s, k + 1 + d) then Some(s[k..k + 1 + d]) else None
    else None
  }

  /** The lazy group (.+?) grown from length k, no newline inside it. */
  function LazyMatch(s: string, k: nat): Option<(string, string)>
    requires 1 <= k <= |s|
    decreases |s| - k
  {
    match NumberTail(s, k)
    case Some(t) => Some((s[..k], t))
    case None =>
      if EndAt(s, k) then Some((s[..k], []))
      else if s[k] == '\n' then None
      else LazyMatch(s, k + 1)
  }

  /** re.match(r"(.+?)(_\d+)?$", s): the base and the `_digits` suffix, "" when absent. */
  function MatchNumberSuffix(s: string): Option<(string, string)>
  {
    if s == [] || s[0] == '\n' then None else LazyMatch(s, 1)
  }

  /** A `_digits` suffix. */
  predicate IsNumberSuffix(t: string)
  {
    |t| >= 2 && t[0] == '_' && forall i :: 1 <= i < |t| ==> Numerals.IsDigit(t[i])
  }

  lemma {:induction false} LazyMatchShape(s: string, k: nat)
    requires 1 <= k <= |s| && '\n' !in s
    ensures LazyMatch(s, k).Some?
    ensures var (b, t) := LazyMatch(s, k).value; b + t == s && |b| >= k && (t == [] || IsNumberSuffix(t))
    decreases |s| - k
  {
    match NumberTail(s, k)
    case Some(t) =>
      var d := Numerals.DigitRun(s[k + 1..]);
      Numerals.DigitRunSpec(s[k + 1..]);
      assert k + 1 + d == |s|;
      assert s[..k] + s[k..] == s;
      forall i | 1 <= i < |t| ensures Numerals.IsDigit(t[i]) {
        assert t[i] == s[k + 1..][i - 1];
      }
    case None =>
      if EndAt(s, k) {
        assert s[..k] == s;
      } else {
        LazyMatchShape(s, k + 1);
      }
  }

  /** Without a newline, a non-empty text always matches, as a base and a suffix that is "" or `_digits`. */
  lemma MatchNumberSuffixShape(s: string)
    requires s != [] && '\n' !in s
    ensures MatchNumberSuffix(s).Some?
    ensures var (b, t) := MatchNumberSuffix(s).value; b + t == s && b != [] && (t == [] || IsNumberSuffix(t))
  {
    LazyMatchShape(s, 1);
  }

  /** A trailing `_digits` after a non-empty base is the suffix the pattern reports. */
  lemma MatchKeepsNumberSuffix(b: string, t: string)
    requires b != [] && '\n' !in b && IsNumberSuffix(t)
    ensures MatchNumberSuffix(b + t) == Some((b, t))
  {
    var s := b + t;
    assert s[0] == b[0];
    MatchFromBase(b, t, 1);
  }

  lemma {:induction false} MatchFromBase(b: string, t: string, k: nat)
    requires b != [] && '\n' !in b && IsNumberSuffix(t) && 1 <= k <= |b|
    ensures LazyMatch(b + t, k) == Some((b, t))
    decreases |b| - k
  {
    var s := b + t;
    var n := |b|;
    if k < n {
      if s[k] == '_' {
        var d := Numerals.DigitRun(s[k + 1..]);
        assert s[k + 1..][n - k - 1] == s[n] == '_';
        Numerals.DigitRunBound(s[k + 1..], n - k - 1);
        assert k + 1 + d + 1 < |s|;
        assert !EndAt(s, k + 1 + d);
      }
      assert NumberTail(s, k).None?;
      assert !EndAt(s, k);
      assert s[k] == b[k] != '\n';
      MatchFromBase(b, t, k + 1);
    } else {
      var rest := s[n + 1..];
      assert rest == t[1..];
      Numerals.DigitRunIs(rest, |t| - 1);
      assert s[n..n + 1 + (|t| - 1)] == t;
      assert s[..n] == b;
    }
  }

  /** transliterate_filename(filename, char_map, is_mp3) */
  function TransliterateFilename(filename: string, m: CharMap, isMp3: bool): string
  {
    var stem := Paths.Stem(filename);
    var newStem :=
      if isMp3 then
        match MatchNumberSuffix(stem)
        case Some((base, suffix)) => Translit(base, m) + suffix
        case None => []
      else Translit(stem, m);
    newStem + Paths.Suffix(filename)
  }

  /** The suffix (extension) stays, and the stem is transliterated. */
  lemma FilenameKeepsSuffix(filename: string, m: CharMap)
    requires Paths.Suffix(filename) != [] && NonEmptyImages(m)
    ensures Paths.Suffix(TransliterateFilename(filename, m, false)) == Paths.Suffix(filename)
    ensures Paths.Stem(TransliterateFilename(filename, m, false)) == Translit(Paths.Stem(filename), m)
  {
    var stem := Paths.Stem(filename);
    Paths.SuffixShape(filename);
    TranslitLength(stem, m);
    Paths.JoinStemSuffix(Translit(stem, m), Paths.Suffix(filename));
  }

  /** With '_' and digits unmapped and no newline in the stem, mp3 mode changes nothing. */
  lemma Mp3AsPlain(filename: string, m: CharMap)
    requires NumberSafe(m) && '\n' !in Paths.Stem(filename)
    ensures TransliterateFilename(filename, m, true) == TransliterateFilename(filename, m, false)
  {
    var stem := Paths.Stem(filename);
    if stem != [] {
      MatchNumberSuffixShape(stem);
      var (b, t) := MatchNumberSuffix(stem).value;
      TranslitAppend(b, t, m);
      TranslitFixed(t, m);
    }
  }

  lemma {:induction false} TranslitNoNewline(s: string, m: CharMap)
    requires '\n' !in s && LetterImages(m)
    ensures '\n' !in Translit(s, m)
  {
    if s != [] {
      TranslitNoNewline(s[..|s| - 1], m);
      var c := s[|s| - 1];
      assert c in s;
      if c in m {
        forall i | 0 <= i < |m[c]| ensures m[c][i] != '\n' {
          assert Catalog.IsAsciiLetter(m[c][i]);
        }
      }
    }
  }

  /** Renaming a renamed file again gives the same name. */
  lemma FilenameIdempotent(filename: string, m: CharMap, isMp3: bool)
    requires Paths.Suffix(filename) != [] && WellBehaved(m)
    requires isMp3 ==> '\n' !in Paths.Stem(filename)
    ensures var g := TransliterateFilename(filename, m, isMp3);
      TransliterateFilename(g, m, isMp3) == g && Paths.Suffix(g) == Paths.Suffix(filename)
  {
    var g := TransliterateFilename(filename, m, false);
    FilenameKeepsSuffix(filename, m);
    FilenameKeepsSuffix(g, m);
    TranslitIdempotent(Paths.Stem(filename), m);
    if isMp3 {
      Mp3AsPlain(filename, m);
      TranslitNoNewline(Paths.Stem(filename), m);
      Mp3AsPlain(g, m);
    }
  }

  // ---------------------------------------------------------------------------
  // Renaming the image and mp3 files
  // ---------------------------------------------------------------------------

  predicate IsMp3File(name: string, lower: string -> string)
  {
    lower(Paths.Suffix(name)) == ".mp3"
  }

  /** The files a pass looks at: images in the symbols directory, mp3s in the mp3 directory. */
  predicate Selected(name: string, isMp3: bool, lower: string -> string)
  {
    if isMp3 then IsMp3File(name, lower) else Catalog.IsImageFile(name, lower)
  }

  datatype Rename = Rename(from: string, to: string)

  /** The renames of one pass, in listing order. */
  function RenamePlan(names: seq<string>, m: CharMap, isMp3: bool, lower: string -> string): seq<Rename>
  {
    if names == [] then []
    else
      var rest := RenamePlan(names[..|names| - 1], m, isMp3, lower);
      var n := names[|names| - 1];
      var t := TransliterateFilename(n, m, isMp3);
      if Selected(n, isMp3, lower) && n != t then rest + [Rename(n, t)] else rest
  }

  /** One renaming loop of process_language over a directory listing. */
  method RenameFiles(names: seq<string>, m: CharMap, isMp3: bool, lower: string -> string) returns (plan: seq<Rename>)
    ensures plan == RenamePlan(names, m, isMp3, lower)
  {
    plan := [];
    for i := 0 to |names|
      invariant plan == RenamePlan(names[..i], m, isMp3, lower)
    {
      assert names[..i + 1][..i] == names[..i];
      var oldName := names[i];
      if Selected(oldName, isMp3, lower) {
        var newName := TransliterateFilename(oldName, m, isMp3);
        if oldName != newName {
          plan := plan + [Rename(oldName, newName)];
        }
      }
    }
    assert names[..|names|] == names;
  }

  /** Entry i of the listing is selected and its transliterated name differs: r renames it. */
  predicate PlannedAt(names: seq<string>, m: CharMap, isMp3: bool, lower: string -> string, i: int, r: Rename)
  {
    && 0 <= i < |names| && Selected(names[i], isMp3, lower)
    && TransliterateFilename(names[i], m, isMp3) != names[i]
    && r == Rename(names[i], TransliterateFilename(names[i], m, isMp3))
  }

  /** A file is renamed exactly when it is selected and its transliterated name differs. */
  lemma RenamePlanMembers(names: seq<string>, m: CharMap, isMp3: bool, lower: string -> string)
    ensures forall r :: r in RenamePlan(names, m, isMp3, lower) <==> exists i :: PlannedAt(names, m, isMp3, lower, i, r)
  {
    forall r ensures r in RenamePlan(names, m, isMp3, lower) <==> exists i :: PlannedAt(names, m, isMp3, lower, i, r) {
      if r in RenamePlan(names, m, isMp3, lower) {
        RenamePlanSound(names, m, isMp3, lower, r);
      }
      if exists i :: PlannedAt(names, m, isMp3, lower, i, r) {
        var i :| PlannedAt(names, m, isMp3, lower, i, r);
        RenamePlanComplete(names, m, isMp3, lower, i, r);
      }
    }
  }

  lemma {:induction false} RenamePlanSound(names: seq<string>, m: CharMap, isMp3: bool, lower: string -> string, r: Rename)
    requires r in RenamePlan(names, m, isMp3, lower)
    ensures exists i :: PlannedAt(names, m, isMp3, lower, i, r)
  {
    var init := names[..|names| - 1];
    var n := names[|init|];
    var t := TransliterateFilename(n, m, isMp3);
    if r in RenamePlan(init, m, isMp3, lower) {
      RenamePlanSound(init, m, isMp3, lower, r);
      var i :| PlannedAt(init, m, isMp3, lower, i, r);
      assert PlannedAt(names, m, isMp3, lower, i, r);
    } else {
      assert PlannedAt(names, m, isMp3, lower, |init|, r);
    }
  }

  lemma {:induction false} RenamePlanComplete(names: seq<string>, m: CharMap, isMp3: bool, lower: string -> string, i: int, r: Rename)
    requires PlannedAt(names, m, isMp3, lower, i, r)
    ensures r in RenamePlan(names, m, isMp3, lower)
  {
    var init := names[..|names| - 1];
    var n := names[|init|];
    var t := TransliterateFilename(n, m, isMp3);
    var rest := RenamePlan(init, m, isMp3, lower);
    var last := if Selected(n, isMp3, lower) && n != t then [Rename(n, t)] else [];
    RenamePlanLast(names, m, isMp3, lower);
    if i < |init| {
      assert init[i] == names[i];
      assert PlannedAt(init, m, isMp3, lower, i, r);
      RenamePlanComplete(init, m, isMp3, lower, i, r);
      assert r in rest + last;
    } else {
      assert i == |init| && n == names[i];
      assert r == Rename(n, t);
    }
  }

  lemma RenamePlanLast(names: seq<string>, m: CharMap, isMp3: bool, lower: string -> string)
    requires names != []
    ensures var n := names[|names| - 1];
      var t := TransliterateFilename(n, m, isMp3);
      RenamePlan(names, m, isMp3, lower)
        == RenamePlan(names[..|names| - 1], m, isMp3, lower) + (if Selected(n, isMp3, lower) && n != t then [Rename(n, t)] else [])
  {
  }

  /**
   * os.rename(from, to) on a directory's listing: on POSIX an existing file named `to`
   * is replaced, and `from` takes its place under the new name. A missing `from` raises
   * FileNotFoundError and leaves the directory as it is.
   */
  function ApplyRename(dir: seq<string>, r: Rename): (d: seq<string>)
    ensures r.from in dir ==> forall x :: x in d <==> (x in dir && x != r.from && x != r.to) || x == r.to
    ensures r.from !in dir ==> d == dir
  {
    if r.from in dir then Overwrite(dir, r) else dir
  }

  /** The listing with `from` renamed to `to` and every other entry named `to` gone. */
  function Overwrite(dir: seq<string>, r: Rename): (d: seq<string>)
    ensures forall x :: x in d <==> (x in dir && x != r.from && x != r.to) || (x == r.to && r.from in dir)
  {
    if dir == [] then []
    else
      var rest := Overwrite(dir[..|dir| - 1], r);
      var n := dir[|dir| - 1];
      assert dir == dir[..|dir| - 1] + [n];
      if n == r.from then rest + [r.to]
      else if n == r.to then rest
      else rest + [n]
  }

  /** The renames of a plan, one after the other. */
  function ApplyRenames(dir: seq<string>, plan: seq<Rename>): seq<string>
    decreases |plan|
  {
    if plan == [] then dir else ApplyRenames(ApplyRename(dir, plan[0]), plan[1..])
  }

  /** The directory listing after the pass: the listing with the planned renames applied in order. */
  function Renamed(names: seq<string>, m: CharMap, isMp3: bool, lower: string -> string): seq<string>
  {
    ApplyRenames(names, RenamePlan(names, m, isMp3, lower))
  }

  /** After a run of renames, a name is one nothing renamed away, or one something was renamed to. */
  lemma {:induction false} ApplyRenamesWithin(dir: seq<string>, plan: seq<Rename>)
    ensures forall x :: x in ApplyRenames(dir, plan) ==>
      (x in dir && forall r :: r in plan ==> r.from != x) || exists r :: r in plan && r.to == x
    decreases |plan|
  {
    if plan != [] {
      var next := ApplyRename(dir, plan[0]);
      ApplyRenamesWithin(next, plan[1..]);
      forall x | x in ApplyRenames(dir, plan)
        ensures (x in dir && forall r :: r in plan ==> r.from != x) || exists r :: r in plan && r.to == x
      {
        if x == plan[0].to {
          assert plan[0] in plan;
        } else if exists r :: r in plan[1..] && r.to == x {
          var r :| r in plan[1..] && r.to == x;
          assert r in plan;
        } else {
          assert x in next && forall r :: r in plan[1..] ==> r.from != x;
          assert plan == [plan[0]] + plan[1..];
        }
      }
    }
  }

  /**
   * With distinct sources present in the listing, none of them the target of a rename,
   * every name nothing renames away survives and every target is there afterwards.
   */
  lemma {:induction false} ApplyRenamesCovers(dir: seq<string>, plan: seq<Rename>)
    requires forall i, j :: 0 <= i < j < |plan| ==> plan[i].from != plan[j].from
    requires forall r, q :: r in plan && q in plan ==> r.from != q.to
    requires forall r :: r in plan ==> r.from in dir
    ensures forall x :: x in dir && (forall r :: r in plan ==> r.from != x) ==> x in ApplyRenames(dir, plan)
    ensures forall r :: r in plan ==> r.to in ApplyRenames(dir, plan)
    decreases |plan|
  {
    if plan != [] {
      var p0 := plan[0];
      var tail := plan[1..];
      var next := ApplyRename(dir, p0);
      assert plan == [p0] + tail;
      assert p0 in plan && p0.from in dir;
      forall i, j | 0 <= i < j < |tail| ensures tail[i].from != tail[j].from {
        assert tail[i] == plan[i + 1] && tail[j] == plan[j + 1];
      }
      forall r | r in tail ensures r.from in next {
        assert r in plan;
        var k :| 0 <= k < |tail| && tail[k] == r;
        assert plan[k + 1] == r;
      }
      ApplyRenamesCovers(next, tail);
      forall x | x in dir && (forall r :: r in plan ==> r.from != x) ensures x in ApplyRenames(dir, plan) {
        assert x in next;
        assert forall r :: r in tail ==> r in plan;
      }
      assert p0.to in next;
      assert forall r :: r in tail ==> r.from != p0.to;
    }
  }

  /** Two selected names of the listing that transliterate to one new name collide. */
  lemma RenameCollision(a: string, b: string, m: CharMap, isMp3: bool, lower: string -> string)
    requires Selected(a, isMp3, lower) && Selected(b, isMp3, lower)
    requires a != b && TransliterateFilename(a, m, isMp3) == TransliterateFilename(b, m, isMp3)
    requires TransliterateFilename(a, m, isMp3) != a && TransliterateFilename(b, m, isMp3) != b
    ensures Renamed([a, b], m, isMp3, lower) == [TransliterateFilename(a, m, isMp3)]
  {
    var t := TransliterateFilename(a, m, isMp3);
    assert [a, b][..1] == [a] && [a][..0] == [];
    RenamePlanLast([a], m, isMp3, lower);
    RenamePlanLast([a, b], m, isMp3, lower);
    assert RenamePlan([a, b], m, isMp3, lower) == [Rename(a, t), Rename(b, t)];
    OverwriteTwo(a, b, t);
  }

  /** The "mk" map's first row sends 'ж' and 'з' to "z". */
  lemma MkZeFirstRow()
    ensures 'ж' in MKRow1 && 'з' in MKRow1 && MKRow1['ж'] == "z" && MKRow1['з'] == "z"
  {
  }

  /** No other row of the "mk" map has 'ж' or 'з' as a key. */
  lemma MkZeSmallRows()
    ensures 'ж' !in MKRow2 && 'ж' !in MKRow3 && 'ж' !in MKRow4
    ensures 'з' !in MKRow2 && 'з' !in MKRow3 && 'з' !in MKRow4
  {
  }

  lemma MkZeCapitalRows()
    ensures 'ж' !in MKRow5 && 'ж' !in MKRow6 && 'ж' !in MKRow7 && 'ж' !in MKRow8
    ensures 'з' !in MKRow5 && 'з' !in MKRow6 && 'з' !in MKRow7 && 'з' !in MKRow8
  {
  }

  /** So the "mk" map sends both 'ж' and 'з' to "z". */
  lemma MkZe()
    ensures 'ж' in MK && 'з' in MK && MK['ж'] == "z" && MK['з'] == "z"
  {
    MkZeFirstRow();
    MkZeSmallRows();
    MkZeCapitalRows();
  }

  /**
   * The "mk" map sends both 'ж' and 'з' to "z", so images named "ж.png" and "з.png" are
   * both renamed to "z.png" and only one image is left.
   */
  lemma MkCollision(lower: string -> string)
    requires lower(".png") == ".png"
    ensures Renamed([['ж'] + ".png", ['з'] + ".png"], MK, false, lower) == [MK['ж'] + ".png"] && MK['ж'] == "z"
  {
    MkZe();
    LettersCollide('ж', 'з', MK, lower);
  }

  /** Images named by two letters with the same image collide: one of the two is left. */
  lemma LettersCollide(c1: char, c2: char, m: CharMap, lower: string -> string)
    requires c1 in m && c2 in m && c1 != c2 && m[c1] == m[c2] && m[c1] != [c1] && m[c2] != [c2]
    requires c1 != '.' && c2 != '.' && lower(".png") == ".png"
    ensures Renamed([[c1] + ".png", [c2] + ".png"], m, false, lower) == [m[c1] + ".png"]
  {
    var a, b := [c1] + ".png", [c2] + ".png";
    OneLetterImage(c1, m, lower);
    OneLetterImage(c2, m, lower);
    assert a != b by {
      assert a[0] == c1 && b[0] == c2;
    }
    NotItself(c1, m[c1]);
    NotItself(c2, m[c2]);
    RenameCollision(a, b, m, false, lower);
  }

  /** A letter's image other than the letter gives a file name other than the letter's. */
  lemma NotItself(c: char, image: string)
    requires image != [c]
    ensures image + ".png" != [c] + ".png"
  {
    assert (image + ".png")[..|image|] == image;
    assert ([c] + ".png")[..1] == [c];
  }

  /** An image named by one mapped letter is selected and renamed to that letter's image. */
  lemma OneLetterImage(c: char, m: CharMap, lower: string -> string)
    requires c in m && c != '.' && lower(".png") == ".png"
    ensures Selected([c] + ".png", false, lower)
    ensures TransliterateFilename([c] + ".png", m, false) == m[c] + ".png"
  {
    Paths.JoinStemSuffix([c], ".png");
    assert Translit([c], m) == m[c] by {
      assert [c][..0] == [];
    }
  }

  /** Renaming a and then b to the same t leaves t alone: the second rename overwrote the first. */
  lemma OverwriteTwo(a: string, b: string, t: string)
    requires a != b && t != a && t != b
    ensures ApplyRenames([a, b], [Rename(a, t), Rename(b, t)]) == [t]
  {
    assert ApplyRename([a, b], Rename(a, t)) == [t, b] by {
      assert a in [a, b] && [a, b][..1] == [a] && [a][..0] == [];
      assert Overwrite([a], Rename(a, t)) == [t];
    }
    assert ApplyRename([t, b], Rename(b, t)) == [t] by {
      assert b in [t, b] && [t, b][..1] == [t] && [t][..0] == [];
      assert Overwrite([t], Rename(b, t)) == [];
    }
    var plan := [Rename(a, t), Rename(b, t)];
    assert plan[1..] == [Rename(b, t)] && plan[1..][1..] == [];
    assert ApplyRenames([t], []) == [t];
  }

  lemma {:induction false} NoRenames(names: seq<string>, m: CharMap, isMp3: bool, lower: string -> string)
    requires forall i :: 0 <= i < |names| && Selected(names[i], isMp3, lower) ==> TransliterateFilename(names[i], m, isMp3) == names[i]
    ensures RenamePlan(names, m, isMp3, lower) == []
  {
    if names != [] {
      NoRenames(names[..|names| - 1], m, isMp3, lower);
    }
  }

  /** A name the pass renames away: selected, and its transliterated name differs. */
  predicate RenamedAway(name: string, m: CharMap, isMp3: bool, lower: string -> string)
  {
    Selected(name, isMp3, lower) && TransliterateFilename(name, m, isMp3) != name
  }

  /** A planned rename's target is a selected name that the pass leaves as it is. */
  lemma RenameTargetFixed(names: seq<string>, m: CharMap, isMp3: bool, lower: string -> string, r: Rename)
    requires WellBehaved(m) && lower([]) == []
    requires isMp3 ==> forall i :: 0 <= i < |names| ==> '\n' !in Paths.Stem(names[i])
    requires r in RenamePlan(names, m, isMp3, lower)
    ensures Selected(r.to, isMp3, lower) && !RenamedAway(r.to, m, isMp3, lower)
  {
    RenamePlanSound(names, m, isMp3, lower, r);
    var i :| PlannedAt(names, m, isMp3, lower, i, r);
    assert Paths.Suffix(names[i]) != [];
    FilenameIdempotent(names[i], m, isMp3);
  }

  /** The new name of a selected file is left as it is by a second pass. */
  lemma SelectedTargetFixed(name: string, m: CharMap, isMp3: bool, lower: string -> string)
    requires WellBehaved(m) && lower([]) == [] && Selected(name, isMp3, lower)
    requires isMp3 ==> '\n' !in Paths.Stem(name)
    ensures TransliterateFilename(TransliterateFilename(name, m, isMp3), m, isMp3) == TransliterateFilename(name, m, isMp3)
  {
    assert Paths.Suffix(name) != [];
    FilenameIdempotent(name, m, isMp3);
  }

  /**
   * With distinct sources present in the listing, none of them the target of a rename,
   * each rename's source is still listed when its turn comes: no rename meets a missing file.
   */
  lemma ApplyRenamesSourcesPresent(dir: seq<string>, plan: seq<Rename>)
    requires forall i, j :: 0 <= i < j < |plan| ==> plan[i].from != plan[j].from
    requires forall r, q :: r in plan && q in plan ==> r.from != q.to
    requires forall r :: r in plan ==> r.from in dir
    ensures forall k :: 0 <= k < |plan| ==> plan[k].from in ApplyRenames(dir, plan[..k])
  {
    forall k | 0 <= k < |plan| ensures plan[k].from in ApplyRenames(dir, plan[..k]) {
      var done := plan[..k];
      forall i, j | 0 <= i < j < |done| ensures done[i].from != done[j].from {
        assert done[i] == plan[i] && done[j] == plan[j];
      }
      assert forall r :: r in done ==> r in plan;
      ApplyRenamesCovers(dir, done);
      assert plan[k] in plan;
      forall r | r in done ensures r.from != plan[k].from {
        var i :| 0 <= i < |done| && done[i] == r;
        assert plan[i] == r;
      }
    }
  }

  /** Distinct names give renames from distinct names. */
  lemma {:induction false} RenamePlanSources(names: seq<string>, m: CharMap, isMp3: bool, lower: string -> string)
    requires Catalog.NoDuplicates(names)
    ensures var plan := RenamePlan(names, m, isMp3, lower);
      forall i, j :: 0 <= i < j < |plan| ==> plan[i].from != plan[j].from
  {
    if names != [] {
      var init := names[..|names| - 1];
      var n := names[|names| - 1];
      var rest := RenamePlan(init, m, isMp3, lower);
      assert Catalog.NoDuplicates(init) by {
        forall i, j | 0 <= i < j < |init| ensures init[i] != init[j] {
          assert init[i] == names[i] && init[j] == names[j];
        }
      }
      RenamePlanSources(init, m, isMp3, lower);
      RenamePlanLast(names, m, isMp3, lower);
      var plan := RenamePlan(names, m, isMp3, lower);
      forall i, j | 0 <= i < j < |plan| ensures plan[i].from != plan[j].from {
        if j >= |rest| {
          assert plan[i] == rest[i] && plan[j].from == n && rest[i] in rest;
          RenamePlanSound(init, m, isMp3, lower, rest[i]);
          var k :| PlannedAt(init, m, isMp3, lower, k, rest[i]);
          assert init[k] == names[k] && k < |names| - 1;
        } else {
          assert plan[i] == rest[i] && plan[j] == rest[j];
        }
      }
    }
  }

  /** Every name left after the pass was there and is not renamed away, or is a rename's target. */
  lemma RenamedWithin(names: seq<string>, m: CharMap, isMp3: bool, lower: string -> string)
    ensures forall x :: x in Renamed(names, m, isMp3, lower) ==>
      (x in names && !RenamedAway(x, m, isMp3, lower))
      || exists i :: 0 <= i < |names| && RenamedAway(names[i], m, isMp3, lower) && TransliterateFilename(names[i], m, isMp3) == x
  {
    var plan := RenamePlan(names, m, isMp3, lower);
    ApplyRenamesWithin(names, plan);
    forall x | x in Renamed(names, m, isMp3, lower)
      ensures (x in names && !RenamedAway(x, m, isMp3, lower))
        || exists i :: 0 <= i < |names| && RenamedAway(names[i], m, isMp3, lower) && TransliterateFilename(names[i], m, isMp3) == x
    {
      if exists r :: r in plan && r.to == x {
        var r :| r in plan && r.to == x;
        RenamePlanSound(names, m, isMp3, lower, r);
        var i :| PlannedAt(names, m, isMp3, lower, i, r);
        assert RenamedAway(names[i], m, isMp3, lower);
      } else if RenamedAway(x, m, isMp3, lower) {
        var k :| 0 <= k < |names| && names[k] == x;
        RenamePlanComplete(names, m, isMp3, lower, k, Rename(x, TransliterateFilename(x, m, isMp3)));
      }
    }
  }

  /** No planned rename is from a name another one renames to, and every source is listed. */
  lemma PlanSourcesListed(names: seq<string>, m: CharMap, isMp3: bool, lower: string -> string)
    requires WellBehaved(m) && lower([]) == []
    requires isMp3 ==> forall i :: 0 <= i < |names| ==> '\n' !in Paths.Stem(names[i])
    ensures var plan := RenamePlan(names, m, isMp3, lower);
      && (forall r, q :: r in plan && q in plan ==> r.from != q.to)
      && (forall r :: r in plan ==> r.from in names)
  {
    var plan := RenamePlan(names, m, isMp3, lower);
    forall r, q | r in plan && q in plan ensures r.from != q.to {
      RenamePlanSound(names, m, isMp3, lower, r);
      RenameTargetFixed(names, m, isMp3, lower, q);
    }
    forall r | r in plan ensures r.from in names {
      RenamePlanSound(names, m, isMp3, lower, r);
    }
  }

  /** With distinct names, every name not renamed away and every rename's target is there after the pass. */
  lemma RenamedCovers(names: seq<string>, m: CharMap, isMp3: bool, lower: string -> string)
    requires WellBehaved(m) && lower([]) == [] && Catalog.NoDuplicates(names)
    requires isMp3 ==> forall i :: 0 <= i < |names| ==> '\n' !in Paths.Stem(names[i])
    ensures forall x :: x in names && !RenamedAway(x, m, isMp3, lower) ==> x in Renamed(names, m, isMp3, lower)
    ensures forall i :: 0 <= i < |names| && RenamedAway(names[i], m, isMp3, lower) ==>
      TransliterateFilename(names[i], m, isMp3) in Renamed(names, m, isMp3, lower)
  {
    var plan := RenamePlan(names, m, isMp3, lower);
    RenamePlanSources(names, m, isMp3, lower);
    PlanSourcesListed(names, m, isMp3, lower);
    ApplyRenamesCovers(names, plan);
    forall x | x in names && !RenamedAway(x, m, isMp3, lower) ensures forall r :: r in plan ==> r.from != x {
      forall r | r in plan ensures r.from != x {
        RenamePlanSound(names, m, isMp3, lower, r);
      }
    }
    forall i | 0 <= i < |names| && RenamedAway(names[i], m, isMp3, lower)
      ensures TransliterateFilename(names[i], m, isMp3) in Renamed(names, m, isMp3, lower)
    {
      RenamePlanComplete(names, m, isMp3, lower, i, Rename(names[i], TransliterateFilename(names[i], m, isMp3)));
    }
  }

  /** With distinct names, every planned rename finds its source listed: the pass never raises FileNotFoundError. */
  lemma RenamedSourcesPresent(names: seq<string>, m: CharMap, isMp3: bool, lower: string -> string)
    requires WellBehaved(m) && lower([]) == [] && Catalog.NoDuplicates(names)
    requires isMp3 ==> forall i :: 0 <= i < |names| ==> '\n' !in Paths.Stem(names[i])
    ensures var plan := RenamePlan(names, m, isMp3, lower);
      forall k :: 0 <= k < |plan| ==> plan[k].from in ApplyRenames(names, plan[..k])
  {
    RenamePlanSources(names, m, isMp3, lower);
    PlanSourcesListed(names, m, isMp3, lower);
    ApplyRenamesSourcesPresent(names, RenamePlan(names, m, isMp3, lower));
  }

  /**
   * The listing after the pass, when it held distinct names: a name is there exactly when
   * it was there and the pass does not rename it away, or the pass renamed a file to it.
   */
  lemma RenamedMembers(names: seq<string>, m: CharMap, isMp3: bool, lower: string -> string)
    requires WellBehaved(m) && lower([]) == [] && Catalog.NoDuplicates(names)
    requires isMp3 ==> forall i :: 0 <= i < |names| ==> '\n' !in Paths.Stem(names[i])
    ensures forall x :: x in Renamed(names, m, isMp3, lower) <==>
      (x in names && !RenamedAway(x, m, isMp3, lower))
      || exists i :: 0 <= i < |names| && RenamedAway(names[i], m, isMp3, lower) && TransliterateFilename(names[i], m, isMp3) == x
  {
    RenamedWithin(names, m, isMp3, lower);
    RenamedCovers(names, m, isMp3, lower);
  }

  /**
   * Running the script a second time renames nothing: every name left is one the pass
   * did not rename away, or a renamed file's new name, which keeps its suffix and is
   * already transliterated.
   */
  lemma RerunRenamesNothing(names: seq<string>, m: CharMap, isMp3: bool, lower: string -> string)
    requires WellBehaved(m) && lower([]) == []
    requires isMp3 ==> forall i :: 0 <= i < |names| ==> '\n' !in Paths.Stem(names[i])
    ensures RenamePlan(Renamed(names, m, isMp3, lower), m, isMp3, lower) == []
  {
    var after := Renamed(names, m, isMp3, lower);
    RenamedWithin(names, m, isMp3, lower);
    forall i | 0 <= i < |after| && Selected(after[i], isMp3, lower)
      ensures TransliterateFilename(after[i], m, isMp3) == after[i]
    {
      var x := after[i];
      assert x in after;
      if !(x in names && !RenamedAway(x, m, isMp3, lower)) {
        var k :| 0 <= k < |names| && RenamedAway(names[k], m, isMp3, lower) && TransliterateFilename(names[k], m, isMp3) == x;
        SelectedTargetFixed(names[k], m, isMp3, lower);
      }
    }
    NoRenames(after, m, isMp3, lower);
  }

  // ---------------------------------------------------------------------------
  // The locale file
  // ---------------------------------------------------------------------------

  /** The new key for a locale key: a `_sentences` key keeps one tag after its base. */
  function RewriteKey(key: string, m: CharMap): string
  {
    if Text.EndsWith(key, Text.SentencesTag) then Translit(Text.RemoveAll(key, Text.SentencesTag), m) + Text.SentencesTag
    else Translit(key, m)
  }

  function RewritePairs(data: Dict<Value>, m: CharMap): (r: seq<(string, Value)>)
    ensures |r| == |data|
  {
    seq(|data|, i requires 0 <= i < |data| => (RewriteKey(data[i].0, m), data[i].1))
  }

  /** new_data after the loop: new_data[new_key] = value for each item in turn. */
  function RewriteLocale(data: Dict<Value>, m: CharMap): Dict<Value>
  {
    PutAll([], RewritePairs(data, m))
  }

  /** The loop of process_language that builds new_data. */
  method RewriteLocaleData(data: Dict<Value>, m: CharMap) returns (newData: Dict<Value>)
    ensures newData == RewriteLocale(data, m)
  {
    newData := [];
    for i := 0 to |data|
      invariant newData == PutAll([], RewritePairs(data[..i], m))
    {
      var (key, value) := data[i];
      var newKey := RewriteKey(key, m);
      assert RewritePairs(data[..i + 1], m)[..i] == RewritePairs(data[..i], m);
      newData := Put(newData, newKey, value);
    }
    assert data[..|data|] == data;
  }

  /**
   * Keys are rewritten and values carried over unchanged; on a clash the later item's
   * value wins; the keys are distinct and no more numerous than before.
   */
  lemma RewriteLocaleSpec(data: Dict<Value>, m: CharMap)
    ensures var r := RewriteLocale(data, m);
      && DistinctKeys(r) && |r| <= |data|
      && (forall k :: Get(r, k) == LastValue(RewritePairs(data, m), k))
      && (forall j :: 0 <= j < |r| ==> exists i :: 0 <= i < |data| && r[j] == (RewriteKey(data[i].0, m), data[i].1))
  {
    var kvs := RewritePairs(data, m);
    var r := RewriteLocale(data, m);
    PutAllKeys([], kvs);
    forall k ensures Get(r, k) == LastValue(kvs, k) {
      GetPutAll([], kvs, k);
    }
    forall j | 0 <= j < |r| ensures exists i :: 0 <= i < |data| && r[j] == (RewriteKey(data[i].0, m), data[i].1) {
      GetAt(r, j);
      GetPutAll([], kvs, r[j].0);
      var i := LastValueSome(kvs, r[j].0);
    }
  }

  /** Within a tag-free text followed by the tag, no occurrence starts before the tag. */
  lemma NoTagBefore(b: string, i: nat)
    requires !Text.Occurs(b, Text.SentencesTag) && i < |b|
    ensures !Text.OccursAt(b + Text.SentencesTag, Text.SentencesTag, i)
  {
    var t := Text.SentencesTag;
    var s := b + t;
    if i + |t| <= |b| {
      assert !Text.OccursAt(b, t, i);
      assert s[i..i + |t|] == b[i..i + |t|];
    } else {
      var j := |b| - i;
      assert 0 < j < |t| && t[j] != '_';
      assert s[|b|] == '_';
      assert i + |t| > |s| || s[i..i + |t|][j] == s[|b|];
    }
  }

  /** The tag's only '_' is its first character, so after a tag-free text it occurs only at the end. */
  lemma TagOnlyAtEnd(b: string)
    requires !Text.Occurs(b, Text.SentencesTag)
    ensures forall i :: Text.OccursAt(b + Text.SentencesTag, Text.SentencesTag, i) <==> i == |b|
  {
    var t := Text.SentencesTag;
    var s := b + t;
    assert s[|b|..|b| + |t|] == t;
    forall i | 0 <= i < |b| ensures !Text.OccursAt(s, t, i) {
      NoTagBefore(b, i);
    }
  }

  /**
   * A `_sentences` key keeps exactly one tag, at its end, when its transliterated base
   * holds none.
   */
  lemma RewriteKeepsOneTag(key: string, m: CharMap)
    requires Text.EndsWith(key, Text.SentencesTag)
    requires !Text.Occurs(Translit(Text.RemoveAll(key, Text.SentencesTag), m), Text.SentencesTag)
    ensures var r := RewriteKey(key, m);
      forall i :: Text.OccursAt(r, Text.SentencesTag, i) <==> i == |r| - |Text.SentencesTag|
  {
    TagOnlyAtEnd(Translit(Text.RemoveAll(key, Text.SentencesTag), m));
  }

  /** The sentence key of a tag-free base b is rewritten to that of the transliterated base. */
  lemma RewriteSentenceKey(b: string, m: CharMap)
    requires !Text.Occurs(b, Text.SentencesTag)
    ensures RewriteKey(b + Text.SentencesTag, m) == Translit(b, m) + Text.SentencesTag
  {
    Text.RemoveTagAfter(b);
  }

  // ---------------------------------------------------------------------------
  // The TTS text file
  // ---------------------------------------------------------------------------

  /** One line of the TTS loop of process_language. */
  function RewriteTtsLine(line: string, m: CharMap): string
  {
    match Text.SplitAtSpace(line)
    case None => line
    case Some((keyPart, sentencePart)) =>
      match MatchNumberSuffix(keyPart)
      case None => line
      case Some((base, suffix)) => Translit(base, m) + suffix + " " + sentencePart
  }

  function RewriteTtsLines(lines: seq<string>, m: CharMap): (r: seq<string>)
    ensures |r| == |lines|
  {
    seq(|lines|, i requires 0 <= i < |lines| => RewriteTtsLine(lines[i], m))
  }

  lemma RewriteTtsLinesStep(lines: seq<string>, i: nat, m: CharMap)
    requires i < |lines|
    ensures RewriteTtsLines(lines[..i + 1], m) == RewriteTtsLines(lines[..i], m) + [RewriteTtsLine(lines[i], m)]
  {
    var a, b := RewriteTtsLines(lines[..i + 1], m), RewriteTtsLines(lines[..i], m) + [RewriteTtsLine(lines[i], m)];
    assert forall k :: 0 <= k < i + 1 ==> a[k] == b[k];
  }

  /** The loop of process_language that builds new_lines. */
  method RewriteTtsFile(lines: seq<string>, m: CharMap) returns (newLines: seq<string>)
    ensures newLines == RewriteTtsLines(lines, m)
  {
    newLines := [];
    for i := 0 to |lines|
      invariant newLines == RewriteTtsLines(lines[..i], m)
    {
      var line := lines[i];
      var newLine := line;
      var parts := Text.SplitAtSpace(line);
      if parts.Some? {
        var (keyPart, sentencePart) := parts.value;
        var matched := MatchNumberSuffix(keyPart);
        if matched.Some? {
          var (base, suffix) := matched.value;
          newLine := Translit(base, m) + suffix + " " + sentencePart;
        }
      }
      assert newLine == RewriteTtsLine(line, m);
      RewriteTtsLinesStep(lines, i, m);
      newLines := newLines + [newLine];
    }
    assert lines[..|lines|] == lines;
  }

  /**
   * A line without a space is kept; otherwise everything from the first space on is kept
   * byte for byte, and a key part with no newline becomes its transliteration (its
   * `_digits` suffix kept, as '_' and digits are unmapped); an empty key part keeps the line.
   */
  lemma RewriteTtsLineSpec(line: string, m: CharMap)
    requires NumberSafe(m)
    ensures ' ' !in line ==> RewriteTtsLine(line, m) == line
    ensures ' ' in line ==>
      var (keyPart, sentencePart) := Text.SplitAtSpace(line).value;
      && (keyPart == [] ==> RewriteTtsLine(line, m) == line)
      && ('\n' !in keyPart ==> RewriteTtsLine(line, m) == Translit(keyPart, m) + " " + sentencePart)
  {
    if ' ' in line {
      var (keyPart, sentencePart) := Text.SplitAtSpace(line).value;
      if keyPart != [] && '\n' !in keyPart {
        MatchNumberSuffixShape(keyPart);
        var (b, t) := MatchNumberSuffix(keyPart).value;
        TranslitAppend(b, t, m);
        TranslitFixed(t, m);
      }
    }
  }

  // ---------------------------------------------------------------------------
  // process_language and the script's main block
  // ---------------------------------------------------------------------------

  /**
   * The files a run touches, keyed by language code: the listings of
   * frontend/static/symbols/<code> and frontend/static/mp3s/<code>, the parsed
   * frontend/static/locales/<code>.json, and the lines of tts/tts_<code>.txt.
   */
  datatype Project = Project(
    symbols: map<string, seq<string>>,
    mp3s: map<string, seq<string>>,
    locales: map<string, Dict<Value>>,
    tts: map<string, seq<string>>)

  /** process_language(code, m): each part that exists is rewritten, the rest left alone. */
  function ProcessLanguageSpec(p: Project, code: string, m: CharMap, lower: string -> string): Project
  {
    Project(
      if code in p.symbols then p.symbols[code := Renamed(p.symbols[code], m, false, lower)] else p.symbols,
      if code in p.mp3s then p.mp3s[code := Renamed(p.mp3s[code], m, true, lower)] else p.mp3s,
      if code in p.locales then p.locales[code := RewriteLocale(p.locales[code], m)] else p.locales,
      if code in p.tts then p.tts[code := RewriteTtsLines(p.tts[code], m)] else p.tts)
  }

  /** The renames process_language performs: images first, then mp3s. */
  function ProcessRenames(p: Project, code: string, m: CharMap, lower: string -> string): seq<Rename>
  {
    (if code in p.symbols then RenamePlan(p.symbols[code], m, false, lower) else [])
    + (if code in p.mp3s then RenamePlan(p.mp3s[code], m, true, lower) else [])
  }

  method ProcessLanguage(p: Project, code: string, m: CharMap, lower: string -> string)
    returns (q: Project, renames: seq<Rename>)
    ensures q == ProcessLanguageSpec(p, code, m, lower)
    ensures renames == ProcessRenames(p, code, m, lower)
  {
    var symbols, imageRenames := p.symbols, [];
    if code in p.symbols {
      imageRenames := RenameFiles(p.symbols[code], m, false, lower);
      symbols := p.symbols[code := Renamed(p.symbols[code], m, false, lower)];
    }
    var mp3s, mp3Renames := p.mp3s, [];
    if code in p.mp3s {
      mp3Renames := RenameFiles(p.mp3s[code], m, true, lower);
      mp3s := p.mp3s[code := Renamed(p.mp3s[code], m, true, lower)];
    }
    var locales := p.locales;
    if code in p.locales {
      var newData := RewriteLocaleData(p.locales[code], m);
      locales := p.locales[code := newData];
    }
    var tts := p.tts;
    if code in p.tts {
      var newLines := RewriteTtsFile(p.tts[code], m);
      tts := p.tts[code := newLines];
    }
    q := Project(symbols, mp3s, locales, tts);
    renames := imageRenames + mp3Renames;
  }

  /** A second run of process_language with the same map renames nothing. */
  lemma ProcessTwiceRenamesNothing(p: Project, code: string, m: CharMap, lower: string -> string)
    requires WellBehaved(m) && lower([]) == []
    requires code in p.mp3s ==> forall i :: 0 <= i < |p.mp3s[code]| ==> '\n' !in Paths.Stem(p.mp3s[code][i])
    ensures ProcessRenames(ProcessLanguageSpec(p, code, m, lower), code, m, lower) == []
  {
    if code in p.symbols {
      RerunRenamesNothing(p.symbols[code], m, false, lower);
    }
    if code in p.mp3s {
      RerunRenamesNothing(p.mp3s[code], m, true, lower);
    }
  }

  /** What the script reports for one code argument. */
  datatype Outcome = Processed(code: string) | NoMap(code: string)

  /** The script's usage error, when no language code is given. */
  datatype UsageError = Usage

  /**
   * The loop over sys.argv[1:], with `table` for language_transliteration_maps.get (the
   * script itself uses MapFor): codes without a map are reported and skipped.
   */
  function RunCodes(table: string -> Option<CharMap>, codes: seq<string>, p: Project, lower: string -> string): (seq<Outcome>, Project)
  {
    if codes == [] then ([], p)
    else
      var (outcomes, q) := RunCodes(table, codes[..|codes| - 1], p, lower);
      var code := codes[|codes| - 1];
      match table(code)
      case Some(m) => (outcomes + [Processed(code)], ProcessLanguageSpec(q, code, m, lower))
      case None => (outcomes + [NoMap(code)], q)
  }

  /** The script's main block, on the arguments after the script name. */
  function RunSpec(table: string -> Option<CharMap>, args: seq<string>, p: Project, lower: string -> string): Result<(seq<Outcome>, Project), UsageError>
  {
    if |args| < 1 then Err(Usage) else Ok(RunCodes(table, args, p, lower))
  }

  method RunScript(table: string -> Option<CharMap>, args: seq<string>, p: Project, lower: string -> string)
    returns (r: Result<(seq<Outcome>, Project), UsageError>)
    ensures r == RunSpec(table, args, p, lower)
  {
    if |args| < 1 {
      return Err(Usage);
    }
    var outcomes: seq<Outcome> := [];
    var q := p;
    for i := 0 to |args|
      invariant (outcomes, q) == RunCodes(table, args[..i], p, lower)
    {
      assert args[..i + 1][..i] == args[..i];
      var code := args[i];
      var m := table(code);
      if m.Some? {
        outcomes := outcomes + [Processed(code)];
        var renames;
        q, renames := ProcessLanguage(q, code, m.value, lower);
      } else {
        outcomes := outcomes + [NoMap(code)];
      }
    }
    assert args[..|args|] == args;
    r := Ok((outcomes, q));
  }

  /**
   * One outcome per code, in order: processed exactly when the code has a map, and codes
   * without a map change nothing.
   */
  lemma {:induction false} RunCodesSpec(table: string -> Option<CharMap>, codes: seq<string>, p: Project, lower: string -> string)
    ensures var (outcomes, q) := RunCodes(table, codes, p, lower);
      && |outcomes| == |codes|
      && (forall i :: 0 <= i < |codes| ==> outcomes[i] == if table(codes[i]).Some? then Processed(codes[i]) else NoMap(codes[i]))
      && ((forall i :: 0 <= i < |codes| ==> table(codes[i]).None?) ==> q == p)
  {
    if codes != [] {
      RunCodesSpec(table, codes[..|codes| - 1], p, lower);
    }
  }
}
