/**
 * The catalog loaders of backend/app.py: _load_symbol_image_list,
 * _load_polish_sentence_data and get_languages, with the directory listings and the
 * parsed pl.json given as inputs.
 */
module Catalog {
  import opened Wrappers
  import opened Dicts
  import Text
  import Numerals
  import Paths
  import Order

  /** The suffixes the loaders accept, compared after lower(). */
  const ImageSuffixes: set<string> := {".png", ".jpg", ".jpeg", ".gif"}

  predicate IsImageFile(name: string, lower: string -> string)
  {
    lower(Paths.Suffix(name)) in ImageSuffixes
  }

  predicate NoDuplicates<T(==)>(s: seq<T>)
  {
    forall i, j :: 0 <= i < j < |s| ==> s[i] != s[j]
  }

  // ---------------------------------------------------------------------------
  // Symbols
  // ---------------------------------------------------------------------------

  datatype SymbolEntry = SymbolEntry(symbol: string, image: string)

  /** The URL under which the file `name` of frontend/static/symbols/<dir> is served. */
  function ImageUrl(dir: string, name: string): string
  {
    "/static/symbols/" + dir + "/" + name
  }

  function SymbolOf(dir: string, name: string, lower: string -> string): SymbolEntry
  {
    SymbolEntry(lower(Paths.Stem(name)), ImageUrl(dir, name))
  }

  /** The entries one directory listing contributes, in listing order. */
  function DirEntries(names: seq<string>, dir: string, lower: string -> string): seq<SymbolEntry>
  {
    if names == [] then []
    else
      var rest := DirEntries(names[..|names| - 1], dir, lower);
      var n := names[|names| - 1];
      if IsImageFile(n, lower) then rest + [SymbolOf(dir, n, lower)] else rest
  }

  /** The listing of frontend/static/symbols/<dir>; a missing directory lists nothing. */
  function Listing(dirs: map<string, seq<string>>, dir: string): seq<string>
  {
    if dir in dirs then dirs[dir] else []
  }

  /** What _load_symbol_image_list(lang) returns: the common symbols, then the language's. */
  function SymbolCatalog(dirs: map<string, seq<string>>, lang: string, lower: string -> string): seq<SymbolEntry>
  {
    DirEntries(Listing(dirs, "common"), "common", lower) + DirEntries(Listing(dirs, lang), lang, lower)
  }

  /** _load_symbol_image_list: one pass over each directory, appending to the result. */
  method LoadSymbolImageList(dirs: map<string, seq<string>>, lang: string, lower: string -> string)
    returns (result: seq<SymbolEntry>)
    ensures result == SymbolCatalog(dirs, lang, lower)
  {
    result := [];
    if "common" in dirs {
      var names := dirs["common"];
      for i := 0 to |names|
        invariant result == DirEntries(names[..i], "common", lower)
      {
        assert names[..i + 1][..i] == names[..i];
        if IsImageFile(names[i], lower) {
          result := result + [SymbolOf("common", names[i], lower)];
        }
      }
      assert names[..|names|] == names;
    }
    var common := result;
    if lang in dirs {
      var names := dirs[lang];
      for i := 0 to |names|
        invariant result == common + DirEntries(names[..i], lang, lower)
      {
        assert names[..i + 1][..i] == names[..i];
        if IsImageFile(names[i], lower) {
          result := result + [SymbolOf(lang, names[i], lower)];
        }
      }
      assert names[..|names|] == names;
    }
  }

  /**
   * A directory contributes exactly one entry per accepted image file: the lowercased
   * stem as symbol and the file's URL as image.
   */
  lemma {:induction false} DirEntriesMembers(names: seq<string>, dir: string, lower: string -> string)
    ensures forall e :: e in DirEntries(names, dir, lower) <==>
      exists i :: 0 <= i < |names| && IsImageFile(names[i], lower) && e == SymbolOf(dir, names[i], lower)
    ensures |DirEntries(names, dir, lower)| <= |names|
  {
    if names != [] {
      var init := names[..|names| - 1];
      DirEntriesMembers(init, dir, lower);
      assert forall i :: 0 <= i < |init| ==> init[i] == names[i];
    }
  }

  predicate DistinctImages(s: seq<SymbolEntry>)
  {
    forall i, j :: 0 <= i < j < |s| ==> s[i].image != s[j].image
  }

  lemma {:induction false} DirEntriesDistinct(names: seq<string>, dir: string, lower: string -> string)
    requires NoDuplicates(names)
    ensures DistinctImages(DirEntries(names, dir, lower))
  {
    if names != [] {
      var init := names[..|names| - 1];
      var n := names[|names| - 1];
      var rest := DirEntries(init, dir, lower);
      DirEntriesDistinct(init, dir, lower);
      if IsImageFile(n, lower) {
        DirEntriesMembers(init, dir, lower);
        forall i | 0 <= i < |rest| ensures rest[i].image != ImageUrl(dir, n) {
          assert rest[i] in rest;
          var k :| 0 <= k < |init| && IsImageFile(init[k], lower) && rest[i] == SymbolOf(dir, init[k], lower);
          assert init[k] == names[k] != n;
          var p := "/static/symbols/" + dir + "/";
          assert ImageUrl(dir, init[k]) == p + init[k] && ImageUrl(dir, n) == p + n;
          assert (p + n)[|p|..] == n;
          assert (p + init[k])[|p|..] == init[k];
        }
      }
    }
  }

  /** Files of the common directory and of another language directory have different URLs. */
  lemma UrlsDiffer(n1: string, lang: string, n2: string)
    requires '/' !in n1 && '/' !in lang && lang != "common"
    ensures ImageUrl("common", n1) != ImageUrl(lang, n2)
  {
    var p := "/static/symbols/";
    var a := "common/" + n1;
    var b := lang + "/" + n2;
    assert ImageUrl("common", n1) == p + a;
    assert ImageUrl(lang, n2) == p + b;
    var m := |lang|;
    if m < 6 {
      assert b[m] == '/' && a[m] == "common"[m] != '/';
    } else if m == 6 {
      assert a[..6] == "common" != lang == b[..6];
    } else {
      assert a[6] == '/' && b[6] == lang[6] && lang[6] in lang;
    }
    assert (p + a)[|p|..] == a && (p + b)[|p|..] == b;
  }

  predicate PlainNames(names: seq<string>)
  {
    NoDuplicates(names) && forall i :: 0 <= i < |names| ==> '/' !in names[i]
  }

  /**
   * For the language "common" the loader lists the common directory twice, so the catalog
   * holds each of its entries twice and a round can show one image among its options twice.
   */
  lemma CommonListedTwice(dirs: map<string, seq<string>>, lower: string -> string)
    requires DirEntries(Listing(dirs, "common"), "common", lower) != []
    ensures !DistinctImages(SymbolCatalog(dirs, "common", lower))
  {
    var a := DirEntries(Listing(dirs, "common"), "common", lower);
    var r := SymbolCatalog(dirs, "common", lower);
    assert r == a + a;
    assert r[0] == a[0] && r[|a|] == a[0];
  }

  /**
   * When directory listings hold distinct plain names and the language is not "common",
   * no two catalog entries share an image.
   */
  lemma CatalogDistinct(dirs: map<string, seq<string>>, lang: string, lower: string -> string)
    requires lang != "common" && '/' !in lang
    requires PlainNames(Listing(dirs, "common")) && PlainNames(Listing(dirs, lang))
    ensures DistinctImages(SymbolCatalog(dirs, lang, lower))
  {
    var c := Listing(dirs, "common");
    var l := Listing(dirs, lang);
    var a := DirEntries(c, "common", lower);
    var b := DirEntries(l, lang, lower);
    DirEntriesDistinct(c, "common", lower);
    DirEntriesDistinct(l, lang, lower);
    DirEntriesMembers(c, "common", lower);
    DirEntriesMembers(l, lang, lower);
    forall i, j | 0 <= i < |a| && 0 <= j < |b| ensures a[i].image != b[j].image {
      assert a[i] in a && b[j] in b;
      var x :| 0 <= x < |c| && IsImageFile(c[x], lower) && a[i] == SymbolOf("common", c[x], lower);
      var y :| 0 <= y < |l| && IsImageFile(l[y], lower) && b[j] == SymbolOf(lang, l[y], lower);
      UrlsDiffer(c[x], lang, l[y]);
    }
    var r := a + b;
    forall i, j | 0 <= i < j < |r| ensures r[i].image != r[j].image {
      if j < |a| {
        assert r[i] == a[i] && r[j] == a[j];
      } else if i >= |a| {
        assert r[i] == b[i - |a|] && r[j] == b[j - |a|];
      } else {
        assert r[i] == a[i] && r[j] == b[j - |a|];
      }
    }
  }

  // ---------------------------------------------------------------------------
  // Polish sentences
  // ---------------------------------------------------------------------------

  /** \w restricted to ASCII: letters, digits and the underscore. */
  predicate IsAsciiLetter(c: char)
  {
    'a' <= c <= 'z' || 'A' <= c <= 'Z'
  }

  predicate IsWordChar(c: char)
  {
    IsAsciiLetter(c) || Numerals.IsDigit(c) || c == '_'
  }

  function WordRun(s: string): (n: nat)
    ensures n <= |s|
  {
    if s != [] && IsWordChar(s[0]) then 1 + WordRun(s[1..]) else 0
  }

  /** A run of word characters ends exactly where the first other character stands. */
  lemma {:induction false} WordRunIs(s: string, k: nat)
    requires k <= |s| && (forall i :: 0 <= i < k ==> IsWordChar(s[i]))
    requires k == |s| || !IsWordChar(s[k])
    ensures WordRun(s) == k
  {
    if k > 0 {
      WordRunIs(s[1..], k - 1);
    }
  }

  lemma {:induction false} WordRunSpec(s: string)
    ensures forall i :: 0 <= i < WordRun(s) ==> IsWordChar(s[i])
    ensures WordRun(s) == |s| || !IsWordChar(s[WordRun(s)])
  {
    if s != [] && IsWordChar(s[0]) {
      WordRunSpec(s[1..]);
    }
  }

  /**
   * re.match(r"sentence(\d+)_(\w+)", stem): the sentence number and the image type.
   * The match is anchored at the start only; both groups are greedy.
   */
  function MatchSentenceImage(stem: string): Option<(string, string)>
  {
    if !Text.StartsWith(stem, "sentence") then None
    else
      var rest := stem[8..];
      var d := Numerals.DigitRun(rest);
      if d == 0 || d == |rest| || rest[d] != '_' then None
      else
        var w := WordRun(rest[d + 1..]);
        if w == 0 then None else Some((rest[..d], rest[d + 1..][..w]))
  }

  predicate AllDigits(s: string)
  {
    forall i :: 0 <= i < |s| ==> Numerals.IsDigit(s[i])
  }

  predicate AllWordChars(s: string)
  {
    forall i :: 0 <= i < |s| ==> IsWordChar(s[i])
  }

  /**
   * The pattern matches with groups num and ty exactly when the stem starts with
   * "sentence" num "_" ty, num is digits, ty is word characters, and no word character
   * follows ty.
   */
  predicate Matches(stem: string, num: string, ty: string)
  {
    && num != [] && AllDigits(num) && ty != [] && AllWordChars(ty)
    && Text.StartsWith(stem, "sentence" + num + "_" + ty)
    && (|stem| == 9 + |num| + |ty| || !IsWordChar(stem[9 + |num| + |ty|]))
  }

  lemma MatchSentenceImageSound(stem: string, num: string, ty: string)
    requires MatchSentenceImage(stem) == Some((num, ty))
    ensures Matches(stem, num, ty)
  {
    var rest := stem[8..];
    var d := Numerals.DigitRun(rest);
    Numerals.DigitRunSpec(rest);
    WordRunSpec(rest[d + 1..]);
    assert rest[..d] == num;
    assert rest[d + 1..][..|ty|] == ty;
    var p1 := "sentence" + num;
    Text.StartsWithConcat(stem, "sentence", num);
    assert stem[|p1|..] == rest[d..];
    Text.StartsWithConcat(stem, p1, "_");
    assert stem[|p1 + "_"|..] == rest[d + 1..];
    Text.StartsWithConcat(stem, p1 + "_", ty);
  }

  lemma MatchSentenceImageComplete(stem: string, num: string, ty: string)
    requires Matches(stem, num, ty)
    ensures MatchSentenceImage(stem) == Some((num, ty))
  {
    var p1 := "sentence" + num;
    Text.StartsWithSplit(stem, p1 + "_", ty);
    Text.StartsWithSplit(stem, p1, "_");
    Text.StartsWithSplit(stem, "sentence", num);
    var rest := stem[8..];
    assert rest[..|num|] == num && rest[|num|] == stem[|p1|..][0] == '_';
    Numerals.DigitRunIs(rest, |num|);
    var tail := rest[|num| + 1..];
    assert tail == stem[|p1 + "_"|..];
    assert tail[..|ty|] == ty;
    assert |tail| == |ty| || tail[|ty|] == stem[9 + |num| + |ty|];
    WordRunIs(tail, |ty|);
  }

  /**
   * re.match(r"sentence(\d+)_(\w+)") succeeds with groups num and ty exactly when the
   * stem starts with "sentence" num "_" ty, num is digits, ty is word characters, and
   * no word character follows ty.
   */
  lemma MatchSentenceImageSpec(stem: string, num: string, ty: string)
    ensures MatchSentenceImage(stem) == Some((num, ty)) <==> Matches(stem, num, ty)
  {
    if MatchSentenceImage(stem) == Some((num, ty)) {
      MatchSentenceImageSound(stem, num, ty);
    }
    if Matches(stem, num, ty) {
      MatchSentenceImageComplete(stem, num, ty);
    }
  }

  datatype SentenceEntry = SentenceEntry(key: string, sentence: Value, options: seq<string>, correct: string)

  /** images_by_sentence: sentence number -> image type -> URL, numbers in first-seen order. */
  type Groups = Dict<map<string, string>>

  function ImagesOf(g: Groups, num: string): map<string, string>
  {
    match Get(g, num)
    case Some(m) => m
    case None => map[]
  }

  /** The loop over the pl directory that fills images_by_sentence. */
  function GroupImages(names: seq<string>, lower: string -> string): Groups
  {
    if names == [] then [] else AddImage(GroupImages(names[..|names| - 1], lower), names[|names| - 1], lower)
  }

  /** One pass of that loop: an image file whose stem matches is filed under its number and type. */
  function AddImage(g: Groups, n: string, lower: string -> string): Groups
  {
    if !IsImageFile(n, lower) then g
    else match MatchSentenceImage(Paths.Stem(n))
      case None => g
      case Some(m) => Put(g, m.0, ImagesOf(g, m.0)[m.1 := ImageUrl("pl", n)])
  }

  lemma GroupImagesStep(names: seq<string>, i: nat, lower: string -> string)
    requires i < |names|
    ensures GroupImages(names[..i + 1], lower) == AddImage(GroupImages(names[..i], lower), names[i], lower)
  {
    assert names[..i + 1][..i] == names[..i];
  }

  /** An independent reading: the URL of the last accepted file whose stem names (num, ty). */
  function LastImage(names: seq<string>, num: string, ty: string, lower: string -> string): Option<string>
  {
    if names == [] then None
    else
      var n := names[|names| - 1];
      if IsImageFile(n, lower) && MatchSentenceImage(Paths.Stem(n)) == Some((num, ty)) then Some(ImageUrl("pl", n))
      else LastImage(names[..|names| - 1], num, ty, lower)
  }

  function Lookup(g: Groups, num: string, ty: string): Option<string>
  {
    var m := ImagesOf(g, num);
    if ty in m then Some(m[ty]) else None
  }

  /** A later file with the same sentence number and image type overwrites an earlier one. */
  lemma {:induction false} GroupImagesLast(names: seq<string>, lower: string -> string, num: string, ty: string)
    ensures Lookup(GroupImages(names, lower), num, ty) == LastImage(names, num, ty, lower)
  {
    if names != [] {
      var init := names[..|names| - 1];
      var n := names[|names| - 1];
      var g := GroupImages(init, lower);
      GroupImagesLast(init, lower, num, ty);
      if IsImageFile(n, lower) && MatchSentenceImage(Paths.Stem(n)).Some? {
        var m := MatchSentenceImage(Paths.Stem(n)).value;
        PutGet(g, m.0, ImagesOf(g, m.0)[m.1 := ImageUrl("pl", n)], num);
      }
    }
  }

  lemma {:induction false} GroupImagesDistinct(names: seq<string>, lower: string -> string)
    ensures DistinctKeys(GroupImages(names, lower))
  {
    if names != [] {
      var init := names[..|names| - 1];
      var n := names[|names| - 1];
      var g := GroupImages(init, lower);
      GroupImagesDistinct(init, lower);
      if IsImageFile(n, lower) && MatchSentenceImage(Paths.Stem(n)).Some? {
        var m := MatchSentenceImage(Paths.Stem(n)).value;
        PutDistinct(g, m.0, ImagesOf(g, m.0)[m.1 := ImageUrl("pl", n)]);
      }
    }
  }

  /** The entry emitted for one group, when sentence_<num> is in pl.json and all three images exist. */
  function GroupEntry(pl: Dict<Value>, num: string, images: map<string, string>): Option<SentenceEntry>
  {
    var key := "sentence_" + num;
    match Get(pl, key)
    case None => None
    case Some(text) =>
      if "right" in images && "wrong_a" in images && "wrong_b" in images then
        Some(SentenceEntry(key, text, [images["right"], images["wrong_a"], images["wrong_b"]], images["right"]))
      else None
  }

  /** The loop over images_by_sentence.items() that fills the result. */
  function SentenceEntries(pl: Dict<Value>, groups: Groups): seq<SentenceEntry>
  {
    if groups == [] then []
    else
      var rest := SentenceEntries(pl, groups[..|groups| - 1]);
      var last := groups[|groups| - 1];
      match GroupEntry(pl, last.0, last.1)
      case Some(e) => rest + [e]
      case None => rest
  }

  lemma SentenceEntriesStep(pl: Dict<Value>, groups: Groups, i: nat)
    requires i < |groups|
    ensures SentenceEntries(pl, groups[..i + 1]) == SentenceEntries(pl, groups[..i])
      + (match GroupEntry(pl, groups[i].0, groups[i].1) case Some(e) => [e] case None => [])
  {
    assert groups[..i + 1][..i] == groups[..i];
  }

  /** What _load_polish_sentence_data returns; [] when pl.json or the pl directory is missing. */
  function PolishSentences(plLocale: Option<Dict<Value>>, dirs: map<string, seq<string>>, lower: string -> string): seq<SentenceEntry>
  {
    if plLocale.None? || "pl" !in dirs then [] else SentenceEntries(plLocale.value, GroupImages(dirs["pl"], lower))
  }

  /** A number is complete when its sentence text and its three images all exist. */
  predicate Complete(pl: Dict<Value>, names: seq<string>, num: string, lower: string -> string)
  {
    && Get(pl, "sentence_" + num).Some?
    && LastImage(names, num, "right", lower).Some?
    && LastImage(names, num, "wrong_a", lower).Some?
    && LastImage(names, num, "wrong_b", lower).Some?
  }

  /** The entry a complete number yields. */
  function Expected(pl: Dict<Value>, names: seq<string>, num: string, lower: string -> string): SentenceEntry
    requires Complete(pl, names, num, lower)
  {
    var right := LastImage(names, num, "right", lower).value;
    SentenceEntry("sentence_" + num, Get(pl, "sentence_" + num).value,
      [right, LastImage(names, num, "wrong_a", lower).value, LastImage(names, num, "wrong_b", lower).value], right)
  }

  lemma {:induction false} SentenceEntriesMembers(pl: Dict<Value>, groups: Groups)
    ensures forall e :: e in SentenceEntries(pl, groups) ==>
      exists i :: 0 <= i < |groups| && GroupEntry(pl, groups[i].0, groups[i].1) == Some(e)
    ensures forall i :: 0 <= i < |groups| && GroupEntry(pl, groups[i].0, groups[i].1).Some? ==>
      GroupEntry(pl, groups[i].0, groups[i].1).value in SentenceEntries(pl, groups)
  {
    if groups != [] {
      var init := groups[..|groups| - 1];
      SentenceEntriesMembers(pl, init);
      assert forall i :: 0 <= i < |init| ==> init[i] == groups[i];
    }
  }

  lemma {:induction false} SentenceEntriesDistinct(pl: Dict<Value>, groups: Groups)
    requires DistinctKeys(groups)
    ensures forall i, j :: 0 <= i < j < |SentenceEntries(pl, groups)| ==>
      SentenceEntries(pl, groups)[i].key != SentenceEntries(pl, groups)[j].key
  {
    if groups != [] {
      var init := groups[..|groups| - 1];
      var last := groups[|groups| - 1];
      var rest := SentenceEntries(pl, init);
      SentenceEntriesDistinct(pl, init);
      match GroupEntry(pl, last.0, last.1)
      case None =>
      case Some(e) =>
        SentenceEntriesMembers(pl, init);
        forall i | 0 <= i < |rest| ensures rest[i].key != e.key {
          assert rest[i] in rest;
          var k :| 0 <= k < |init| && GroupEntry(pl, init[k].0, init[k].1) == Some(rest[i]);
          assert init[k].0 == groups[k].0 != last.0;
          assert ("sentence_" + init[k].0)[9..] == init[k].0;
          assert ("sentence_" + last.0)[9..] == last.0;
        }
    }
  }

  /**
   * _load_polish_sentence_data emits an entry exactly for each complete sentence
   * number, with options [right, wrong_a, wrong_b] and correct = right, the images
   * being those of the last matching files; no two entries share a key.
   */
  lemma PolishSentencesSpec(pl: Dict<Value>, dirs: map<string, seq<string>>, lower: string -> string)
    requires "pl" in dirs
    ensures var r := PolishSentences(Some(pl), dirs, lower);
      && (forall e :: e in r ==> exists num :: Complete(pl, dirs["pl"], num, lower) && e == Expected(pl, dirs["pl"], num, lower))
      && (forall num :: Complete(pl, dirs["pl"], num, lower) ==> Expected(pl, dirs["pl"], num, lower) in r)
      && (forall i, j :: 0 <= i < j < |r| ==> r[i].key != r[j].key)
  {
    var names := dirs["pl"];
    var g := GroupImages(names, lower);
    var r := SentenceEntries(pl, g);
    GroupImagesDistinct(names, lower);
    SentenceEntriesMembers(pl, g);
    SentenceEntriesDistinct(pl, g);
    forall e | e in r ensures exists num :: Complete(pl, names, num, lower) && e == Expected(pl, names, num, lower) {
      var i :| 0 <= i < |g| && GroupEntry(pl, g[i].0, g[i].1) == Some(e);
      var num := g[i].0;
      GetAt(g, i);
      GroupImagesLast(names, lower, num, "right");
      GroupImagesLast(names, lower, num, "wrong_a");
      GroupImagesLast(names, lower, num, "wrong_b");
      assert Complete(pl, names, num, lower);
    }
    forall num | Complete(pl, names, num, lower) ensures Expected(pl, names, num, lower) in r {
      GroupImagesLast(names, lower, num, "right");
      GroupImagesLast(names, lower, num, "wrong_a");
      GroupImagesLast(names, lower, num, "wrong_b");
      assert Get(g, num).Some?;
      var i :| 0 <= i < |g| && g[i].0 == num;
      GetAt(g, i);
    }
  }

  /** _load_polish_sentence_data: the two loops, over the directory and over the groups. */
  method LoadPolishSentenceData(plLocale: Option<Dict<Value>>, dirs: map<string, seq<string>>, lower: string -> string)
    returns (result: seq<SentenceEntry>)
    ensures result == PolishSentences(plLocale, dirs, lower)
  {
    if plLocale.None? {
      return [];
    }
    var pl := plLocale.value;
    if "pl" !in dirs {
      return [];
    }
    var names := dirs["pl"];
    var groups: Groups := [];
    for i := 0 to |names|
      invariant groups == GroupImages(names[..i], lower)
    {
      GroupImagesStep(names, i, lower);
      ghost var before := groups;
      var n := names[i];
      if IsImageFile(n, lower) {
        var m := MatchSentenceImage(Paths.Stem(n));
        if m.Some? {
          var num := m.value.0;
          var images := ImagesOf(groups, num);
          groups := Put(groups, num, images[m.value.1 := ImageUrl("pl", n)]);
        }
      }
      assert groups == AddImage(before, n, lower);
    }
    assert names[..|names|] == names;
    result := [];
    for i := 0 to |groups|
      invariant result == SentenceEntries(pl, groups[..i])
    {
      SentenceEntriesStep(pl, groups, i);
      var e := GroupEntry(pl, groups[i].0, groups[i].1);
      if e.Some? {
        result := result + [e.value];
      }
    }
    assert groups[..|groups|] == groups;
  }

  // ---------------------------------------------------------------------------
  // Languages
  // ---------------------------------------------------------------------------

  /** The language code of a flag file: its stem, with "us" standing for "en". */
  function FlagCode(name: string): string
  {
    var c := Paths.Stem(name);
    if c == "us" then "en" else c
  }

  /** The codes of the files glob("*.svg") yields, in listing order. */
  function FlagCodes(names: seq<string>): seq<string>
  {
    if names == [] then []
    else
      var rest := FlagCodes(names[..|names| - 1]);
      var n := names[|names| - 1];
      if Text.EndsWith(n, ".svg") then rest + [FlagCode(n)] else rest
  }

  /** The codes are those of the .svg files, with "en" in place of "us"; "us" never appears. */
  lemma {:induction false} FlagCodesMembers(names: seq<string>)
    ensures forall c :: c in FlagCodes(names) <==>
      exists i :: 0 <= i < |names| && Text.EndsWith(names[i], ".svg") && FlagCode(names[i]) == c
    ensures "us" !in FlagCodes(names)
  {
    if names != [] {
      var init := names[..|names| - 1];
      FlagCodesMembers(init);
      assert forall i :: 0 <= i < |init| ==> init[i] == names[i];
    }
  }

  /**
   * get_languages: the codes of the .svg files of frontend/static/langs (None: no such directory),
   * sorted; every sorted rearrangement of the codes is this list.
   */
  method GetLanguages(langsDir: Option<seq<string>>) returns (languages: seq<string>)
    ensures Order.Sorted(languages)
    ensures multiset(languages) == multiset(if langsDir.Some? then FlagCodes(langsDir.value) else [])
  {
    var all: seq<string> := [];
    if langsDir.Some? {
      var names := langsDir.value;
      for i := 0 to |names|
        invariant all == FlagCodes(names[..i])
      {
        assert names[..i + 1][..i] == names[..i];
        if Text.EndsWith(names[i], ".svg") {
          var code := Paths.Stem(names[i]);
          if code == "us" {
            all := all + ["en"];
          } else {
            all := all + [code];
          }
        }
      }
      assert names[..|names|] == names;
    }
    languages := Order.SortStrings(all);
  }
}
