/**
 * The game session of backend/app.py: the next_symbol round machine and quit_game,
 * over the Flask session's "lang", "round" and "pl_sentences" keys. The random draws
 * a call makes are an input.
 */
module Rounds {
  import opened Wrappers
  import opened Dicts
  import Catalog
  import Shuffling

  /** A game has at most this many rounds. */
  const RoundLimit: nat := 10

  /** The session keys; None is a key that is not set. */
  datatype SessionState = SessionState(lang: Option<string>, round: Option<nat>, plSentences: Option<seq<Catalog.SentenceEntry>>)

  /** What the loaders read from disk: the symbol directory listings and the parsed pl.json. */
  datatype Corpus = Corpus(symbolDirs: map<string, seq<string>>, plLocale: Option<Dict<Value>>)

  /**
   * What the two loaders return to one request: _load_polish_sentence_data() and
   * _load_symbol_image_list for the session's language.
   */
  datatype Loads = Loads(sentences: seq<Catalog.SentenceEntry>, symbols: seq<Catalog.SymbolEntry>)

  /**
   * The outcome of the random calls of one request: random.choice's index, the positions
   * random.sample picks, and the draws of the shuffles of the options and of the deck.
   */
  datatype Draws = Draws(pick: nat, sample: (nat, nat), options: seq<nat>, deck: seq<nat>)

  /** The HTTP 500 replies: a missing sentence set, too few images, and random.sample's ValueError. */
  datatype Failure = NoSentenceData | NotEnoughImages | SampleTooSmall

  datatype Reply =
    | Finished
    | Failed(failure: Failure)
    | SymbolRound(symbol: string, options: seq<string>, correct: string)
    | SentenceRound(key: string, sentence: Value, options: seq<string>, correct: string)
  {
    predicate IsRound() { SymbolRound? || SentenceRound? }
  }

  /** session.get('round', 0) */
  function RoundOf(s: SessionState): nat
  {
    if s.round.Some? then s.round.value else 0
  }

  /** session.get('lang', 'en') */
  function LangOf(s: SessionState): string
  {
    if s.lang.Some? then s.lang.value else "en"
  }

  /** The state after popping "round" and "pl_sentences". */
  function Cleared(s: SessionState): SessionState
  {
    s.(round := None, plSentences := None)
  }

  /** [p for p in symbols if p != target] */
  function Others(symbols: seq<Catalog.SymbolEntry>, target: Catalog.SymbolEntry): (r: seq<Catalog.SymbolEntry>)
    ensures |r| <= |symbols|
  {
    if symbols == [] then []
    else
      var rest := Others(symbols[..|symbols| - 1], target);
      var last := symbols[|symbols| - 1];
      if last != target then rest + [last] else rest
  }

  /** The loaders' results for a request in session s. */
  function LoadsFor(c: Corpus, s: SessionState, lower: string -> string): Loads
  {
    Loads(Catalog.PolishSentences(c.plLocale, c.symbolDirs, lower), Catalog.SymbolCatalog(c.symbolDirs, LangOf(s), lower))
  }

  /** The draws of the deck shuffle fit the list the loader returns. */
  predicate ValidDeckDraws(s: SessionState, loaded: seq<Catalog.SentenceEntry>, d: Draws)
  {
    s.plSentences.None? ==> Shuffling.ValidDraws(d.deck, |loaded|)
  }

  /** The sentence list a "pl" request works on: the cached one, or the loaded one shuffled. */
  function Deck(s: SessionState, loaded: seq<Catalog.SentenceEntry>, d: Draws): seq<Catalog.SentenceEntry>
    requires ValidDeckDraws(s, loaded, d)
  {
    if s.plSentences.Some? then s.plSentences.value else Shuffling.Shuffle(loaded, d.deck)
  }

  /** The draws fit the deck and the options of the entry at the round number. */
  predicate ValidSentenceDraws(s: SessionState, loaded: seq<Catalog.SentenceEntry>, d: Draws)
  {
    && ValidDeckDraws(s, loaded, d)
    && var deck := Deck(s, loaded, d);
       RoundOf(s) < |deck| ==> Shuffling.ValidDraws(d.options, |deck[RoundOf(s)].options|)
  }

  /** The draws fit a symbol list: the choice, the two-element sample of the rest, the shuffle. */
  predicate ValidSymbolDraws(symbols: seq<Catalog.SymbolEntry>, d: Draws)
  {
    |symbols| >= 3 ==>
      && d.pick < |symbols|
      && var others := Others(symbols, symbols[d.pick]);
         |others| >= 2 ==>
           && d.sample.0 < |others| && d.sample.1 < |others| && d.sample.0 != d.sample.1
           && Shuffling.ValidDraws(d.options, 3)
  }

  /** The draws fit the lists they are drawn from, at every step the request reaches. */
  predicate ValidDrawsFor(s: SessionState, l: Loads, d: Draws)
  {
    RoundOf(s) < RoundLimit ==>
      if LangOf(s) == "pl" then ValidSentenceDraws(s, l.sentences, d) else ValidSymbolDraws(l.symbols, d)
  }

  /** A "pl" round once the round number is below the limit. */
  function SentenceStep(s: SessionState, loaded: seq<Catalog.SentenceEntry>, d: Draws): (Reply, SessionState)
    requires ValidSentenceDraws(s, loaded, d)
  {
    var round := RoundOf(s);
    if s.plSentences.None? && loaded == [] then (Failed(NoSentenceData), s)
    else
      var deck := Deck(s, loaded, d);
      if round >= |deck| then (Finished, Cleared(s))
      else
        var target := deck[round];
        var options := Shuffling.Shuffle(target.options, d.options);
        (SentenceRound(target.key, target.sentence, options, target.correct),
         s.(round := Some(round + 1), plSentences := Some(deck[round := target.(options := options)])))
  }

  /** A symbol round for any language but "pl". */
  function SymbolStep(s: SessionState, symbols: seq<Catalog.SymbolEntry>, d: Draws): (Reply, SessionState)
    requires ValidSymbolDraws(symbols, d)
  {
    var reply := SymbolReply(symbols, d);
    (reply, AfterSymbolReply(s, reply))
  }

  /** The session after a symbol reply: only a drawn round counts. */
  function AfterSymbolReply(s: SessionState, reply: Reply): SessionState
  {
    if reply.SymbolRound? then s.(round := Some(RoundOf(s) + 1)) else s
  }

  /** The reply of a non-"pl" round drawn from the symbol list. */
  function SymbolReply(symbols: seq<Catalog.SymbolEntry>, d: Draws): Reply
    requires ValidSymbolDraws(symbols, d)
  {
    if |symbols| < 3 then Failed(NotEnoughImages)
    else
      var target := symbols[d.pick];
      var others := Others(symbols, target);
      if |others| < 2 then Failed(SampleTooSmall)
      else
        var options := Shuffling.Shuffle([target.image, others[d.sample.0].image, others[d.sample.1].image], d.options);
        SymbolRound(target.symbol, options, target.image)
  }

  /** One /api/next request: the reply and the new session. */
  function Next(s: SessionState, l: Loads, d: Draws): (Reply, SessionState)
    requires ValidDrawsFor(s, l, d)
  {
    if RoundOf(s) >= RoundLimit then (Finished, Cleared(s))
    else if LangOf(s) == "pl" then SentenceStep(s, l.sentences, d)
    else SymbolStep(s, l.symbols, d)
  }

  // ---------------------------------------------------------------------------
  // Properties of a request
  // ---------------------------------------------------------------------------

  /** At the limit the game is over and the round state is gone, whatever the language. */
  lemma AtLimit(s: SessionState, l: Loads, d: Draws)
    requires ValidDrawsFor(s, l, d) && RoundOf(s) >= RoundLimit
    ensures Next(s, l, d) == (Finished, SessionState(s.lang, None, None))
  {
  }

  /** A reply of each kind leaves the session in the matching shape. */
  lemma ReplyShape(s: SessionState, l: Loads, d: Draws)
    requires ValidDrawsFor(s, l, d)
    ensures var (reply, t) := Next(s, l, d);
      && t.lang == s.lang
      && (reply.Finished? ==> t == Cleared(s))
      && (reply.Failed? ==> t == s && RoundOf(s) < RoundLimit)
      && (reply.IsRound() ==> RoundOf(s) < RoundLimit && t.round == Some(RoundOf(s) + 1))
      && (reply.SymbolRound? ==> LangOf(s) != "pl" && t.plSentences == s.plSentences)
      && (reply.SentenceRound? ==> LangOf(s) == "pl" && t.plSentences.Some?)
  {
  }

  lemma {:induction false} OthersMembers(symbols: seq<Catalog.SymbolEntry>, target: Catalog.SymbolEntry)
    ensures forall e :: e in Others(symbols, target) <==> e in symbols && e != target
  {
    if symbols != [] {
      OthersMembers(symbols[..|symbols| - 1], target);
      assert symbols == symbols[..|symbols| - 1] + [symbols[|symbols| - 1]];
    }
  }

  lemma {:induction false} OthersCount(symbols: seq<Catalog.SymbolEntry>, target: Catalog.SymbolEntry)
    requires Catalog.NoDuplicates(symbols)
    ensures Catalog.NoDuplicates(Others(symbols, target))
    ensures |Others(symbols, target)| == if target in symbols then |symbols| - 1 else |symbols|
  {
    if symbols != [] {
      var init := symbols[..|symbols| - 1];
      var last := symbols[|symbols| - 1];
      OthersCount(init, target);
      OthersMembers(init, target);
      assert symbols == init + [last];
      assert last !in init by {
        forall i | 0 <= i < |init| ensures init[i] != last {
          assert init[i] == symbols[i];
        }
      }
      var r := Others(init, target);
      if last != target {
        assert last !in r;
        forall i, j | 0 <= i < j < |r + [last]| ensures (r + [last])[i] != (r + [last])[j] {
          if j == |r| {
            assert (r + [last])[i] == r[i] && r[i] in r;
          } else {
            assert (r + [last])[i] == r[i] && (r + [last])[j] == r[j];
          }
        }
      }
    }
  }

  /**
   * A symbol round, once the symbol list has three or more distinct entries: the reply
   * names the drawn symbol, its image is the correct answer, and the options rearrange it
   * and two different other entries' images. The round counter advances and nothing else
   * changes.
   */
  lemma SymbolRoundSpec(s: SessionState, l: Loads, d: Draws)
    requires ValidDrawsFor(s, l, d) && RoundOf(s) < RoundLimit && LangOf(s) != "pl"
    requires |l.symbols| >= 3 && Catalog.NoDuplicates(l.symbols)
    ensures var (reply, t) := Next(s, l, d);
      && reply.SymbolRound?
      && reply.symbol == l.symbols[d.pick].symbol && reply.correct == l.symbols[d.pick].image
      && |reply.options| == 3 && reply.correct in reply.options
      && (exists a, b :: a in l.symbols && b in l.symbols && a != b && a != l.symbols[d.pick] && b != l.symbols[d.pick]
            && multiset(reply.options) == multiset{reply.correct, a.image, b.image})
      && t == s.(round := Some(RoundOf(s) + 1))
  {
    SymbolBranch(s, l, d);
    SymbolReplySpec(l.symbols, d);
    SymbolStepShape(s, l.symbols, d);
  }

  /** Below the limit, a request in any language but "pl" is a symbol step. */
  lemma SymbolBranch(s: SessionState, l: Loads, d: Draws)
    requires ValidDrawsFor(s, l, d) && RoundOf(s) < RoundLimit && LangOf(s) != "pl"
    ensures Next(s, l, d) == SymbolStep(s, l.symbols, d)
  {
  }

  /**
   * The reply of a symbol round over three or more distinct entries: it names the drawn
   * symbol, its image is the correct answer, and the options rearrange it and two
   * different other entries' images.
   */
  lemma SymbolReplySpec(symbols: seq<Catalog.SymbolEntry>, d: Draws)
    requires ValidSymbolDraws(symbols, d) && |symbols| >= 3 && Catalog.NoDuplicates(symbols)
    ensures var reply := SymbolReply(symbols, d);
      && reply.SymbolRound?
      && reply.symbol == symbols[d.pick].symbol && reply.correct == symbols[d.pick].image
      && |reply.options| == 3 && reply.correct in reply.options
      && (exists a, b :: a in symbols && b in symbols && a != b && a != symbols[d.pick] && b != symbols[d.pick]
            && multiset(reply.options) == multiset{reply.correct, a.image, b.image})
  {
    var target := symbols[d.pick];
    var others := Others(symbols, target);
    SampleDistinct(symbols, target);
    var a := others[d.sample.0];
    var b := others[d.sample.1];
    var options := Shuffling.Shuffle([target.image, a.image, b.image], d.options);
    assert multiset(options) == multiset{target.image, a.image, b.image};
    assert target.image in multiset(options);
    assert a in symbols && b in symbols && a != b && a != target && b != target;
  }

  /** Two different positions of Others name two different entries, both other than the target. */
  lemma SampleDistinct(symbols: seq<Catalog.SymbolEntry>, target: Catalog.SymbolEntry)
    requires Catalog.NoDuplicates(symbols) && target in symbols
    ensures |Others(symbols, target)| == |symbols| - 1
    ensures forall i, j :: 0 <= i < |Others(symbols, target)| && 0 <= j < |Others(symbols, target)| && i != j ==>
      var o := Others(symbols, target);
      o[i] != o[j] && o[i] in symbols && o[i] != target
  {
    OthersCount(symbols, target);
    OthersMembers(symbols, target);
    var o := Others(symbols, target);
    forall i | 0 <= i < |o| ensures o[i] in o {
    }
  }

  /**
   * When no two entries share an image, the three options of a symbol round are three
   * different images, each the image of an entry.
   */
  lemma SymbolOptionsDistinct(symbols: seq<Catalog.SymbolEntry>, d: Draws)
    requires ValidSymbolDraws(symbols, d) && |symbols| >= 3 && Catalog.DistinctImages(symbols)
    ensures var reply := SymbolReply(symbols, d);
      && reply.SymbolRound? && |reply.options| == 3
      && reply.options[0] != reply.options[1] && reply.options[0] != reply.options[2]
      && reply.options[1] != reply.options[2]
      && forall k :: 0 <= k < 3 ==> exists e :: e in symbols && e.image == reply.options[k]
  {
    var target := symbols[d.pick];
    assert Catalog.NoDuplicates(symbols);
    SymbolReplySpec(symbols, d);
    var reply := SymbolReply(symbols, d);
    var a, b :| a in symbols && b in symbols && a != b && a != target && b != target
      && multiset(reply.options) == multiset{reply.correct, a.image, b.image};
    ThreeImages(symbols, target, a, b, reply.options);
  }

  /** Options that rearrange the images of three different entries with distinct images. */
  lemma ThreeImages(symbols: seq<Catalog.SymbolEntry>, target: Catalog.SymbolEntry, a: Catalog.SymbolEntry,
                    b: Catalog.SymbolEntry, options: seq<string>)
    requires Catalog.DistinctImages(symbols) && target in symbols && a in symbols && b in symbols
    requires a != b && a != target && b != target
    requires multiset(options) == multiset{target.image, a.image, b.image}
    ensures |options| == 3
    ensures options[0] != options[1] && options[0] != options[2] && options[1] != options[2]
    ensures forall k :: 0 <= k < 3 ==> exists e :: e in symbols && e.image == options[k]
  {
    var three := [target.image, a.image, b.image];
    assert multiset(three) == multiset{target.image, a.image, b.image};
    ImagesDiffer(symbols, target, a);
    ImagesDiffer(symbols, target, b);
    ImagesDiffer(symbols, a, b);
    RearrangedDistinct(three, options);
    forall k | 0 <= k < 3 ensures exists e :: e in symbols && e.image == options[k] {
      if options[k] == target.image {
        assert target in symbols;
      } else if options[k] == a.image {
        assert a in symbols;
      } else {
        assert b in symbols;
      }
    }
  }

  /** A rearrangement of three different values holds three different values, the same ones. */
  lemma RearrangedDistinct<T>(three: seq<T>, options: seq<T>)
    requires |three| == 3 && three[0] != three[1] && three[0] != three[2] && three[1] != three[2]
    requires multiset(options) == multiset(three)
    ensures |options| == 3
    ensures options[0] != options[1] && options[0] != options[2] && options[1] != options[2]
    ensures forall k :: 0 <= k < 3 ==> options[k] in three
  {
    assert |options| == |multiset(options)| == 3;
    assert three == [three[0], three[1], three[2]];
    assert options == [options[0], options[1], options[2]];
    forall k | 0 <= k < 3 ensures options[k] in three {
      assert options[k] in multiset(options);
    }
    assert forall x :: multiset(three)[x] <= 1;
  }

  /** Two different entries of a list with distinct images have different images. */
  lemma ImagesDiffer(symbols: seq<Catalog.SymbolEntry>, e1: Catalog.SymbolEntry, e2: Catalog.SymbolEntry)
    requires Catalog.DistinctImages(symbols) && e1 in symbols && e2 in symbols && e1 != e2
    ensures e1.image != e2.image
  {
    var i :| 0 <= i < |symbols| && symbols[i] == e1;
    var j :| 0 <= j < |symbols| && symbols[j] == e2;
    assert i != j;
  }

  /**
   * A symbol request in a language other than "pl" and "common", over directories of
   * distinct plain file names holding three or more images: the three options shown are
   * three different images.
   */
  lemma RequestOptionsDistinct(c: Corpus, s: SessionState, lower: string -> string, d: Draws)
    requires RoundOf(s) < RoundLimit && LangOf(s) != "pl" && LangOf(s) != "common" && '/' !in LangOf(s)
    requires Catalog.PlainNames(Catalog.Listing(c.symbolDirs, "common"))
    requires Catalog.PlainNames(Catalog.Listing(c.symbolDirs, LangOf(s)))
    requires ValidDrawsFor(s, LoadsFor(c, s, lower), d) && |LoadsFor(c, s, lower).symbols| >= 3
    ensures var reply := Next(s, LoadsFor(c, s, lower), d).0;
      && reply.SymbolRound? && |reply.options| == 3
      && reply.options[0] != reply.options[1] && reply.options[0] != reply.options[2]
      && reply.options[1] != reply.options[2]
  {
    var l := LoadsFor(c, s, lower);
    Catalog.CatalogDistinct(c.symbolDirs, LangOf(s), lower);
    SymbolBranch(s, l, d);
    SymbolOptionsDistinct(l.symbols, d);
  }

  /** With no more than two images a symbol request fails and the session is untouched. */
  lemma TooFewSymbols(s: SessionState, l: Loads, d: Draws)
    requires ValidDrawsFor(s, l, d) && RoundOf(s) < RoundLimit && LangOf(s) != "pl"
    requires |l.symbols| < 3
    ensures Next(s, l, d) == (Failed(NotEnoughImages), s)
  {
  }

  /** Once the sentence list is in the session, a "pl" request does not use what the loaders return. */
  lemma CacheUsed(s: SessionState, l1: Loads, l2: Loads, d: Draws)
    requires LangOf(s) == "pl" && s.plSentences.Some?
    requires ValidDrawsFor(s, l1, d) && ValidDrawsFor(s, l2, d)
    ensures Next(s, l1, d) == Next(s, l2, d)
  {
  }

  /** A "pl" request with no cached list and no sentence data fails and changes nothing. */
  lemma NoSentences(s: SessionState, l: Loads, d: Draws)
    requires ValidDrawsFor(s, l, d) && RoundOf(s) < RoundLimit && LangOf(s) == "pl"
    requires s.plSentences.None? && l.sentences == []
    ensures Next(s, l, d) == (Failed(NoSentenceData), s)
  {
  }

  /**
   * A sentence round: the list used is the cached one, or a rearrangement of the loaded
   * one that the session then keeps; past its end the game is finished; otherwise the
   * reply is the entry at the round number with its options rearranged, and the session
   * keeps that rearrangement in place, every other entry and the entry's answer unchanged.
   */
  lemma SentenceRoundSpec(s: SessionState, l: Loads, d: Draws)
    requires ValidDrawsFor(s, l, d) && RoundOf(s) < RoundLimit && LangOf(s) == "pl"
    requires s.plSentences.Some? || l.sentences != []
    ensures var (reply, t) := Next(s, l, d);
      var deck := if s.plSentences.Some? then s.plSentences.value else Shuffling.Shuffle(l.sentences, d.deck);
      && (s.plSentences.None? ==> multiset(deck) == multiset(l.sentences))
      && (RoundOf(s) >= |deck| ==> reply == Finished && t == Cleared(s))
      && (RoundOf(s) < |deck| ==>
            && reply.SentenceRound?
            && reply.key == deck[RoundOf(s)].key && reply.sentence == deck[RoundOf(s)].sentence
            && reply.correct == deck[RoundOf(s)].correct
            && multiset(reply.options) == multiset(deck[RoundOf(s)].options)
            && t.round == Some(RoundOf(s) + 1) && t.lang == s.lang
            && t.plSentences.Some? && |t.plSentences.value| == |deck|
            && t.plSentences.value[RoundOf(s)] == deck[RoundOf(s)].(options := reply.options)
            && (forall i :: 0 <= i < |deck| && i != RoundOf(s) ==> t.plSentences.value[i] == deck[i]))
  {
  }

  // ---------------------------------------------------------------------------
  // The session invariant
  // ---------------------------------------------------------------------------

  /** An entry as the loader builds it: three options, the correct one among them. */
  predicate GoodEntry(e: Catalog.SentenceEntry)
  {
    |e.options| == 3 && e.correct in e.options
  }

  /** The round never passes the limit and every cached entry is a good one. */
  predicate WellFormed(s: SessionState)
  {
    && RoundOf(s) <= RoundLimit
    && (s.plSentences.Some? ==> forall i :: 0 <= i < |s.plSentences.value| ==> GoodEntry(s.plSentences.value[i]))
  }

  predicate AllGood(entries: seq<Catalog.SentenceEntry>)
  {
    forall i :: 0 <= i < |entries| ==> GoodEntry(entries[i])
  }

  /** The loader builds good entries only. */
  lemma LoadedGood(pl: Option<Dict<Value>>, dirs: map<string, seq<string>>, lower: string -> string)
    ensures AllGood(Catalog.PolishSentences(pl, dirs, lower))
  {
    if pl.Some? && "pl" in dirs {
      var r := Catalog.PolishSentences(pl, dirs, lower);
      Catalog.PolishSentencesSpec(pl.value, dirs, lower);
      forall i | 0 <= i < |r| ensures GoodEntry(r[i]) {
        assert r[i] in r;
      }
    }
  }

  lemma SentenceStepWellFormed(s: SessionState, loaded: seq<Catalog.SentenceEntry>, d: Draws)
    requires ValidSentenceDraws(s, loaded, d) && WellFormed(s) && RoundOf(s) < RoundLimit && AllGood(loaded)
    ensures WellFormed(SentenceStep(s, loaded, d).1)
    ensures var reply := SentenceStep(s, loaded, d).0;
      reply.SentenceRound? ==> |reply.options| == 3 && reply.correct in reply.options
  {
    if !(s.plSentences.None? && loaded == []) {
      var deck := Deck(s, loaded, d);
      assert AllGood(deck) by {
        if s.plSentences.None? {
          forall i | 0 <= i < |deck| ensures GoodEntry(deck[i]) {
            assert deck[i] in multiset(loaded);
            var k :| 0 <= k < |loaded| && loaded[k] == deck[i];
          }
        }
      }
      if RoundOf(s) < |deck| {
        var target := deck[RoundOf(s)];
        var options := Shuffling.Shuffle(target.options, d.options);
        assert target.correct in multiset(options);
        var t := SentenceStep(s, loaded, d).1;
        assert t.plSentences == Some(deck[RoundOf(s) := target.(options := options)]);
      }
    }
  }

  /** The symbol step as the reply and the session it leaves. */
  lemma SymbolStepShape(s: SessionState, symbols: seq<Catalog.SymbolEntry>, d: Draws)
    requires ValidSymbolDraws(symbols, d)
    ensures SymbolReply(symbols, d).SymbolRound? ==>
      SymbolStep(s, symbols, d) == (SymbolReply(symbols, d), s.(round := Some(RoundOf(s) + 1)))
    ensures |symbols| < 3 ==> SymbolStep(s, symbols, d) == (Failed(NotEnoughImages), s)
    ensures |symbols| >= 3 && |Others(symbols, symbols[d.pick])| < 2 ==> SymbolStep(s, symbols, d) == (Failed(SampleTooSmall), s)
  {
  }

  lemma SymbolStepWellFormed(s: SessionState, symbols: seq<Catalog.SymbolEntry>, d: Draws)
    requires ValidSymbolDraws(symbols, d) && WellFormed(s) && RoundOf(s) < RoundLimit
    ensures WellFormed(SymbolStep(s, symbols, d).1)
    ensures var reply := SymbolStep(s, symbols, d).0;
      reply.SymbolRound? ==> |reply.options| == 3 && reply.correct in reply.options
  {
    SymbolReplyOptions(symbols, d);
  }

  lemma SymbolReplyOptions(symbols: seq<Catalog.SymbolEntry>, d: Draws)
    requires ValidSymbolDraws(symbols, d)
    ensures var reply := SymbolReply(symbols, d);
      reply.SymbolRound? ==> |reply.options| == 3 && reply.correct in reply.options
  {
    if |symbols| >= 3 {
      var target := symbols[d.pick];
      var others := Others(symbols, target);
      if |others| >= 2 {
        var options := Shuffling.Shuffle([target.image, others[d.sample.0].image, others[d.sample.1].image], d.options);
        assert target.image in multiset(options);
      }
    }
  }

  /**
   * Every request keeps the invariant, and a round reply offers three options with the
   * correct answer among them, when the loaded sentences are good ones.
   */
  lemma NextWellFormed(s: SessionState, l: Loads, d: Draws)
    requires ValidDrawsFor(s, l, d) && WellFormed(s) && AllGood(l.sentences)
    ensures WellFormed(Next(s, l, d).1)
    ensures var reply := Next(s, l, d).0;
      reply.IsRound() ==> |reply.options| == 3 && reply.correct in reply.options
  {
    if RoundOf(s) < RoundLimit {
      if LangOf(s) == "pl" {
        SentenceStepWellFormed(s, l.sentences, d);
      } else {
        SymbolStepWellFormed(s, l.symbols, d);
      }
    }
  }

  /** The same for what the loaders return on any corpus. */
  lemma RequestWellFormed(s: SessionState, c: Corpus, d: Draws, lower: string -> string)
    requires ValidDrawsFor(s, LoadsFor(c, s, lower), d) && WellFormed(s)
    ensures WellFormed(Next(s, LoadsFor(c, s, lower), d).1)
    ensures var reply := Next(s, LoadsFor(c, s, lower), d).0;
      reply.IsRound() ==> |reply.options| == 3 && reply.correct in reply.options
  {
    LoadedGood(c.plLocale, c.symbolDirs, lower);
    NextWellFormed(s, LoadsFor(c, s, lower), d);
  }

  /** A session that saw k round replies after a reset has round k, at most RoundLimit. */
  lemma RoundsCounted(s: SessionState, l: Loads, d: Draws)
    requires ValidDrawsFor(s, l, d) && WellFormed(s)
    ensures var (reply, t) := Next(s, l, d);
      RoundOf(t) == (if reply.IsRound() then RoundOf(s) + 1 else if reply.Failed? then RoundOf(s) else 0)
      && RoundOf(t) <= RoundLimit
  {
    ReplyShape(s, l, d);
  }

  // ---------------------------------------------------------------------------
  // The Flask session object
  // ---------------------------------------------------------------------------

  /** The symbol branch of next_symbol once the list is loaded: the reply it sends. */
  method DrawSymbolRound(symbols: seq<Catalog.SymbolEntry>, d: Draws) returns (reply: Reply)
    requires ValidSymbolDraws(symbols, d)
    ensures reply == SymbolReply(symbols, d)
  {
    if |symbols| < 3 {
      return Failed(NotEnoughImages);
    }
    var target := symbols[d.pick];
    var others := Others(symbols, target);
    if |others| < 2 {
      return Failed(SampleTooSmall);
    }
    var options := Shuffling.Shuffle([target.image, others[d.sample.0].image, others[d.sample.1].image], d.options);
    reply := SymbolRound(target.symbol, options, target.image);
  }

  class Session {
    var lang: Option<string>
    var round: Option<nat>
    var plSentences: Option<seq<Catalog.SentenceEntry>>

    /** A new browser session has none of the keys. */
    constructor()
      ensures State() == SessionState(None, None, None)
    {
      lang := None;
      round := None;
      plSentences := None;
    }

    function State(): SessionState
      reads this
    {
      SessionState(lang, round, plSentences)
    }

    /** next_symbol: one /api/next request. */
    method NextSymbol(c: Corpus, d: Draws, lower: string -> string) returns (reply: Reply)
      requires ValidDrawsFor(State(), LoadsFor(c, State(), lower), d)
      modifies this
      ensures (reply, State()) == Next(old(State()), LoadsFor(c, old(State()), lower), d)
    {
      var roundNum := RoundOf(State());
      if roundNum >= RoundLimit {
        round := None;
        plSentences := None;
        return Finished;
      }
      var l := LangOf(State());
      if l == "pl" {
        reply := NextSentence(c, d, lower);
      } else {
        reply := NextImage(c, d, lower);
      }
    }

    /** The "pl" branch of next_symbol, below the round limit. */
    method NextSentence(c: Corpus, d: Draws, lower: string -> string) returns (reply: Reply)
      requires ValidSentenceDraws(State(), Catalog.PolishSentences(c.plLocale, c.symbolDirs, lower), d)
      modifies this
      ensures (reply, State()) == SentenceStep(old(State()), Catalog.PolishSentences(c.plLocale, c.symbolDirs, lower), d)
    {
      ghost var s0 := State();
      ghost var loaded := Catalog.PolishSentences(c.plLocale, c.symbolDirs, lower);
      var roundNum := RoundOf(State());
      if plSentences.None? {
        var sentences := Catalog.LoadPolishSentenceData(c.plLocale, c.symbolDirs, lower);
        if sentences == [] {
          return Failed(NoSentenceData);
        }
        sentences := Shuffling.Shuffle(sentences, d.deck);
        plSentences := Some(sentences);
      }
      var deck := plSentences.value;
      assert deck == Deck(s0, loaded, d);
      if roundNum >= |deck| {
        round := None;
        plSentences := None;
        return Finished;
      }
      var target := deck[roundNum];
      var options := Shuffling.Shuffle(target.options, d.options);
      plSentences := Some(deck[roundNum := target.(options := options)]);
      round := Some(roundNum + 1);
      reply := SentenceRound(target.key, target.sentence, options, target.correct);
    }

    /** The branch of next_symbol for every other language, below the round limit. */
    method NextImage(c: Corpus, d: Draws, lower: string -> string) returns (reply: Reply)
      requires ValidSymbolDraws(Catalog.SymbolCatalog(c.symbolDirs, LangOf(State()), lower), d)
      modifies this
      ensures reply == SymbolReply(Catalog.SymbolCatalog(c.symbolDirs, LangOf(old(State())), lower), d)
      ensures State() == AfterSymbolReply(old(State()), reply)
    {
      var symbols := Catalog.LoadSymbolImageList(c.symbolDirs, LangOf(State()), lower);
      reply := DrawSymbolRound(symbols, d);
      AdvanceIf(reply.SymbolRound?);
    }

    /** session['round'] = round_num + 1 when a round is replied; nothing otherwise. */
    method AdvanceIf(advance: bool)
      modifies this
      ensures State() == if advance then old(State()).(round := Some(RoundOf(old(State())) + 1)) else old(State())
    {
      if advance {
        round := Some(RoundOf(State()) + 1);
      }
    }

    /** quit_game: pops "round" and "pl_sentences". */
    method QuitGame()
      modifies this
      ensures State() == Cleared(old(State()))
    {
      round := None;
      plSentences := None;
    }
  }
}
