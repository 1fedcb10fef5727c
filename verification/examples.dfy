/** The training scenario of the package test: the corpus
    "short text for short test for you". */
module Examples {
  import opened Counting
  import Strings
  import opened Wrappers
  import opened Ranking
  import RankingFacts
  import opened Autocomp

  const Corpus: string := "short text for short test for you"
  const Tokens: seq<string> := ["short", "text", "for", "short", "test", "for", "you"]

  lemma JoinCons(w: string, ws: seq<string>)
    requires ws != []
    ensures Strings.JoinWith([w] + ws, ' ') == w + " " + Strings.JoinWith(ws, ' ')
  {
    assert ([w] + ws)[1..] == ws;
  }

  // Solver aids: the corpus joined back from its tokens, one word at a
  // time. Each step is a literal equality that keeps the final one small.

  lemma Joined2()
    ensures Strings.JoinWith(["for", "you"], ' ') == "for you"
  {
    JoinCons("for", ["you"]);
    assert ["for"] + ["you"] == ["for", "you"];
  }

  lemma Joined3()
    ensures Strings.JoinWith(["test", "for", "you"], ' ') == "test for you"
  {
    Joined2();
    JoinCons("test", ["for", "you"]);
    assert ["test"] + ["for", "you"] == ["test", "for", "you"];
  }

  lemma Joined4()
    ensures Strings.JoinWith(["short", "test", "for", "you"], ' ') == "short test for you"
  {
    Joined3();
    JoinCons("short", ["test", "for", "you"]);
    assert ["short"] + ["test", "for", "you"] == ["short", "test", "for", "you"];
  }

  lemma Joined5()
    ensures Strings.JoinWith(["for", "short", "test", "for", "you"], ' ') == "for short test for you"
  {
    Joined4();
    JoinCons("for", ["short", "test", "for", "you"]);
    assert ["for"] + ["short", "test", "for", "you"] == ["for", "short", "test", "for", "you"];
  }

  lemma Joined6()
    ensures Strings.JoinWith(["text", "for", "short", "test", "for", "you"], ' ') == "text for short test for you"
  {
    Joined5();
    JoinCons("text", ["for", "short", "test", "for", "you"]);
    assert ["text"] + ["for", "short", "test", "for", "you"] == ["text", "for", "short", "test", "for", "you"];
  }

  /** Solver aid: the corpus literal as its first word, a space and the rest. */
  lemma CorpusSplit()
    ensures Corpus == "short" + " " + "text for short test for you"
  {
  }

  /** Solver aid: the token list literal as its first word and the rest. */
  lemma TokensSplit()
    ensures Tokens == ["short"] + ["text", "for", "short", "test", "for", "you"]
  {
  }

  lemma CorpusIsJoinedTokens()
    ensures Corpus == Strings.JoinWith(Tokens, ' ')
  {
    Joined6();
    JoinCons("short", ["text", "for", "short", "test", "for", "you"]);
    CorpusSplit();
    TokensSplit();
  }

  lemma TokensAreWords()
    ensures forall i :: 0 <= i < |Tokens| ==> Tokens[i] != [] && Strings.AllKept(Tokens[i], Strings.IsWordChar)
  {
  }

  /** The tokenizer splits the corpus at its spaces. */
  lemma TokenizeCorpus()
    ensures Strings.Tokenize(Corpus) == Tokens
  {
    CorpusIsJoinedTokens();
    TokensAreWords();
    Strings.RunsOfJoin(Tokens, ' ', Strings.IsWordChar);
  }

  /** The corpus has the shape `a b c a d c e` for five different words.
      The prefixes of that shape, each one word longer than the last; a
      solver aid stating only equalities between sequence displays. */
  lemma ShapePrefixes(a: string, b: string, c: string, d: string, e: string)
    ensures [] + [a] == [a]
    ensures [a] + [b] == [a, b]
    ensures [a, b] + [c] == [a, b, c]
    ensures [a, b, c] + [a] == [a, b, c, a]
    ensures [a, b, c, a] + [d] == [a, b, c, a, d]
    ensures [a, b, c, a, d] + [c] == [a, b, c, a, d, c]
    ensures [a, b, c, a, d, c] + [e] == [a, b, c, a, d, c, e]
  {
  }

  lemma CountWordsSteps(a: string, b: string, c: string, d: string, e: string)
    ensures CountWords([a, b, c, a, d, c, e]) == Inc(Inc(Inc(Inc(Inc(Inc(Inc(map[], a), b), c), a), d), c), e)
  {
    ShapePrefixes(a, b, c, d, e);
    CountWordsSnoc([], a);
    CountWordsSnoc([a], b);
    CountWordsSnoc([a, b], c);
    CountWordsSnoc([a, b, c], a);
    CountWordsSnoc([a, b, c, a], d);
    CountWordsSnoc([a, b, c, a, d], c);
    CountWordsSnoc([a, b, c, a, d, c], e);
  }

  lemma CountWordsShape(a: string, b: string, c: string, d: string, e: string)
    requires a != b && a != c && a != d && a != e && b != c && b != d && b != e && c != d && c != e && d != e
    ensures CountWords([a, b, c, a, d, c, e]) == map[a := 2, b := 1, c := 2, d := 1, e := 1]
  {
    CountWordsSteps(a, b, c, d, e);
  }

  lemma CountPairsSteps(a: string, b: string, c: string, d: string, e: string)
    ensures CountPairs([a, b, c, a, d, c, e])
      == AddPair(AddPair(AddPair(AddPair(AddPair(AddPair(map[], a, b), b, c), c, a), a, d), d, c), c, e)
  {
    ShapePrefixes(a, b, c, d, e);
    CountPairsSnoc([a], b);
    CountPairsSnoc([a, b], c);
    CountPairsSnoc([a, b, c], a);
    CountPairsSnoc([a, b, c, a], d);
    CountPairsSnoc([a, b, c, a, d], c);
    CountPairsSnoc([a, b, c, a, d, c], e);
  }

  lemma CountPairsShape(a: string, b: string, c: string, d: string, e: string)
    requires a != b && a != c && a != d && a != e && b != c && b != d && b != e && c != d && c != e && d != e
    ensures CountPairs([a, b, c, a, d, c, e])
      == map[a := map[b := 1, d := 1], b := map[c := 1], c := map[a := 1, e := 1], d := map[c := 1]]
  {
    CountPairsSteps(a, b, c, d, e);
  }

  lemma TokensLowercase()
    ensures LowerAll(Tokens) == Tokens
  {
    LowerAllKeeps(Tokens);
  }

  lemma TrainTokens()
    ensures Train(Tokens) == Autocomp(Tokens, CountWords(Tokens), CountPairs(Tokens))
  {
    TokensLowercase();
  }

  lemma CorpusWordCounts()
    ensures CountWords(Tokens) == map["short" := 2, "text" := 1, "for" := 2, "test" := 1, "you" := 1]
  {
    CountWordsShape("short", "text", "for", "test", "you");
  }

  lemma CorpusPairCounts()
    ensures CountPairs(Tokens) == map["short" := map["text" := 1, "test" := 1], "text" := map["for" := 1],
                                      "for" := map["short" := 1, "you" := 1], "test" := map["for" := 1]]
  {
    CountPairsShape("short", "text", "for", "test", "you");
  }

  /** The tables the test expects. `you` ends the corpus and gets no inner
      map at all. */
  lemma TrainCorpus()
    ensures Train(Tokens).wordsCount == map["short" := 2, "text" := 1, "for" := 2, "test" := 1, "you" := 1]
    ensures Lookup(Train(Tokens).wordTuples, "short") == map["text" := 1, "test" := 1]
    ensures Lookup(Train(Tokens).wordTuples, "for") == map["short" := 1, "you" := 1]
    ensures Lookup(Train(Tokens).wordTuples, "text") == map["for" := 1]
    ensures Lookup(Train(Tokens).wordTuples, "test") == map["for" := 1]
    ensures "you" !in Train(Tokens).wordTuples
  {
    TrainTokens();
    CorpusWordCounts();
    CorpusPairCounts();
  }

  const WordsCount: Counter := map["short" := 2, "text" := 1, "for" := 2, "test" := 1, "you" := 1]
  const ShortSuccessors: Counter := map["text" := 1, "test" := 1]

  lemma MatchSh()
    ensures MatchingKeys(WordsCount, "sh") == {"short"}
  {
    assert "sh" <= "short";
    assert !("sh" <= "text") by { assert "text"[..2][0] != "sh"[0]; }
    assert !("sh" <= "test") by { assert "test"[..2][0] != "sh"[0]; }
    assert !("sh" <= "for") by { assert "for"[..2][0] != "sh"[0]; }
    assert !("sh" <= "you") by { assert "you"[..2][0] != "sh"[0]; }
  }

  lemma MatchT()
    ensures MatchingKeys(ShortSuccessors, "t") == {"text", "test"}
  {
    assert "t" <= "text" && "t" <= "test";
  }

  /** Only `short` starts with `sh`, so the ranking is that one pair. */
  lemma RankShortPrefix(r: seq<Prediction>)
    requires IsRanking(WordsCount, "sh", 5, r)
    ensures r == [Prediction("short", 2)]
  {
    MatchSh();
    assert r[0].word in {"short"};
  }

  /** Both successors of `short` start with `t` and both fit. */
  lemma RankAfterShort(r: seq<Prediction>)
    requires IsRanking(ShortSuccessors, "t", 5, r)
    ensures |r| == 2
    ensures WordsOf(r) == {"text", "test"}
    ensures forall i :: 0 <= i < |r| ==> r[i].count == 1
  {
    MatchT();
    RankingFacts.RankingComplete(ShortSuccessors, "t", 5, r);
  }

  const OneWordQuery: string := "sh"
  const TwoWordQuery: string := "short t"

  lemma FieldsOfOneWord()
    ensures Strings.Fields(OneWordQuery) == ["sh"]
  {
    Strings.RunsOfRun("sh", Strings.NotSpace);
  }

  lemma TwoWordQueryIsJoined()
    ensures TwoWordQuery == Strings.JoinWith(["short", "t"], ' ')
  {
    JoinCons("short", ["t"]);
    assert ["short"] + ["t"] == ["short", "t"];
  }

  lemma FieldsOfTwoWords()
    ensures Strings.Fields(TwoWordQuery) == ["short", "t"]
  {
    TwoWordQueryIsJoined();
    Strings.FieldsOfJoin(["short", "t"]);
  }

  /** The model built from the corpus file. */
  lemma CorpusModel()
    ensures New(Some(Corpus)).Some?
    ensures New(Some(Corpus)).value.wordsCount == WordsCount
    ensures Lookup(New(Some(Corpus)).value.wordTuples, "short") == ShortSuccessors
  {
    TokenizeCorpus();
    TrainCorpus();
  }

  /** The model trained on the corpus, queried as the command-line loop does
      with a limit of 5: a one-word prefix, a context word and a prefix, and
      a blank line. */
  method QueryCorpus() returns (prefix: Result<seq<Prediction>, Panic>, context: Result<seq<Prediction>, Panic>, blank: Result<seq<Prediction>, Panic>)
    ensures prefix == Success([Prediction("short", 2)])
    ensures context.Success? && |context.value| == 2 && WordsOf(context.value) == {"text", "test"}
    ensures context.Success? ==> forall i :: 0 <= i < |context.value| ==> context.value[i].count == 1
    ensures blank == Failure(IndexOutOfRange)
  {
    CorpusModel();
    var a := New(Some(Corpus)).value;
    FieldsOfOneWord();
    prefix := Predict(a, OneWordQuery, 5);
    RankShortPrefix(prefix.value);
    FieldsOfTwoWords();
    context := Predict(a, TwoWordQuery, 5);
    RankAfterShort(context.value);
    blank := Predict(a, "", 5);
  }
}
