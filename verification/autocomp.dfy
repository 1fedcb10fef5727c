/** The `autocomp` package: a first-order word model built from a corpus
    and the queries it answers. */
module Autocomp {
  import opened Wrappers
  import opened Counting
  import Strings
  import opened Ranking

  /** The Go `Autocomp` struct: the lowercased corpus words, each word's
      count, and for each word the counts of the words that follow it. */
  datatype Autocomp = Autocomp(words: seq<string>, wordsCount: Counter, wordTuples: map<string, Counter>)

  /** Reading a nested table: a missing first word gives the nil map, which
      reads as empty. */
  function Lookup(tuples: map<string, Counter>, first: string): Counter
  {
    if first in tuples then tuples[first] else map[]
  }

  /** The words at non-final positions, i.e. those that have a successor. */
  function NonFinal(ws: seq<string>): seq<string>
  {
    if ws == [] then [] else ws[..|ws| - 1]
  }

  /** The adjacent pairs `(ws[i], ws[i + 1])`, left to right. */
  function Pairs(ws: seq<string>): (ps: seq<(string, string)>)
    ensures |ps| == |NonFinal(ws)|
  {
    if ws == [] then []
    else seq(|ws| - 1, i requires 0 <= i < |ws| - 1 => (ws[i], ws[i + 1]))
  }

  lemma SnocPairs(ws: seq<string>)
    requires |ws| >= 2
    ensures NonFinal(ws) == NonFinal(ws[..|ws| - 1]) + [ws[|ws| - 2]]
    ensures Pairs(ws) == Pairs(ws[..|ws| - 1]) + [(ws[|ws| - 2], ws[|ws| - 1])]
  {
  }

  /** The first loop of `New`: the tokens lowercased, one by one, in order. */
  function LowerAll(tokens: seq<string>): (ws: seq<string>)
    ensures |ws| == |tokens|
    ensures forall i :: 0 <= i < |tokens| ==> ws[i] == Strings.ToLower(tokens[i])
  {
    if tokens == [] then []
    else LowerAll(tokens[..|tokens| - 1]) + [Strings.ToLower(tokens[|tokens| - 1])]
  }

  /** The first loop of `New`: `WordsCount[word]++` for every word in turn. */
  function CountWords(ws: seq<string>): Counter
  {
    if ws == [] then map[] else Inc(CountWords(ws[..|ws| - 1]), ws[|ws| - 1])
  }

  /** The unigram table holds exactly the words that occur, each with its
      number of occurrences. */
  lemma {:induction false} CountWordsCorrect(ws: seq<string>)
    ensures forall w :: w in CountWords(ws) <==> w in ws
    ensures forall w :: w in CountWords(ws) ==> CountWords(ws)[w] == Occ(ws, w)
  {
    if ws != [] {
      var init, last := ws[..|ws| - 1], ws[|ws| - 1];
      CountWordsCorrect(init);
      assert ws == init + [last];
      assert forall w :: Occ(ws, w) == Occ(init, w) + (if last == w then 1 else 0);
      OccPositive(init, last);
    }
  }

  /** The body of the second loop of `New`: create the inner map of `first` if it is missing, then
      `WordTuples[first][second]++`. */
  function AddPair(tuples: map<string, Counter>, first: string, second: string): map<string, Counter>
  {
    tuples[first := Inc(Lookup(tuples, first), second)]
  }

  /** `tuples` is the successor table of the word sequence `ws`: a word has
      an inner map exactly when it occurs at a non-final position, and the
      inner map of `f` holds exactly the words seen right after `f`, each
      with the number of times that pair occurs. */
  ghost predicate PairTable(tuples: map<string, Counter>, ws: seq<string>)
  {
    && (forall f :: f in tuples <==> f in NonFinal(ws))
    && (forall f, s :: s in Lookup(tuples, f) <==> (f, s) in Pairs(ws))
    && (forall f, s :: s in Lookup(tuples, f) ==> Lookup(tuples, f)[s] == Occ(Pairs(ws), (f, s)))
  }

  lemma AddPairMembers(tuples: map<string, Counter>, ps: seq<(string, string)>, first: string, second: string)
    requires forall f, s :: s in Lookup(tuples, f) <==> (f, s) in ps
    ensures forall f, s :: s in Lookup(AddPair(tuples, first, second), f) <==> (f, s) in ps + [(first, second)]
  {
    var t := AddPair(tuples, first, second);
    forall f, s
      ensures s in Lookup(t, f) <==> (f, s) in ps + [(first, second)]
    {
      if f == first {
        assert Lookup(t, f) == Inc(Lookup(tuples, first), second);
      } else {
        assert Lookup(t, f) == Lookup(tuples, f);
      }
    }
  }

  lemma AddPairCounts(tuples: map<string, Counter>, ps: seq<(string, string)>, first: string, second: string)
    requires forall f, s :: s in Lookup(tuples, f) <==> (f, s) in ps
    requires forall f, s :: s in Lookup(tuples, f) ==> Lookup(tuples, f)[s] == Occ(ps, (f, s))
    ensures forall f, s :: s in Lookup(AddPair(tuples, first, second), f) ==>
      Lookup(AddPair(tuples, first, second), f)[s] == Occ(ps + [(first, second)], (f, s))
  {
    var t := AddPair(tuples, first, second);
    forall f, s | s in Lookup(t, f)
      ensures Lookup(t, f)[s] == Occ(ps + [(first, second)], (f, s))
    {
      OccSnoc(ps, (first, second), (f, s));
      OccPositive(ps, (f, s));
      if f == first {
        assert Lookup(t, f) == Inc(Lookup(tuples, first), second);
      } else {
        assert Lookup(t, f) == Lookup(tuples, f);
      }
    }
  }

  /** The second loop of `New`: one `AddPair` for each adjacent pair, left to right. */
  function CountPairs(ws: seq<string>): map<string, Counter>
  {
    if |ws| < 2 then map[]
    else AddPair(CountPairs(ws[..|ws| - 1]), ws[|ws| - 2], ws[|ws| - 1])
  }

  /** A word has an inner counter exactly when it occurs at a non-final
      position. */
  lemma {:induction false} CountPairsKeys(ws: seq<string>)
    ensures forall f :: f in CountPairs(ws) <==> f in NonFinal(ws)
  {
    if |ws| >= 2 {
      CountPairsKeys(ws[..|ws| - 1]);
      SnocPairs(ws);
    }
  }

  /** The inner counter of `f` holds exactly the words seen right after `f`. */
  lemma {:induction false} CountPairsMembers(ws: seq<string>)
    ensures forall f, s :: s in Lookup(CountPairs(ws), f) <==> (f, s) in Pairs(ws)
  {
    if |ws| >= 2 {
      var init := ws[..|ws| - 1];
      CountPairsMembers(init);
      SnocPairs(ws);
      AddPairMembers(CountPairs(init), Pairs(init), ws[|ws| - 2], ws[|ws| - 1]);
    }
  }

  /** Each successor count is the number of times that adjacent pair occurs. */
  lemma {:induction false} CountPairsCounts(ws: seq<string>)
    ensures forall f, s :: s in Lookup(CountPairs(ws), f) ==>
      Lookup(CountPairs(ws), f)[s] == Occ(Pairs(ws), (f, s))
  {
    if |ws| >= 2 {
      var init := ws[..|ws| - 1];
      CountPairsMembers(init);
      CountPairsCounts(init);
      SnocPairs(ws);
      AddPairCounts(CountPairs(init), Pairs(init), ws[|ws| - 2], ws[|ws| - 1]);
    }
  }

  /** The successor table built from `ws` is exactly that of `ws`; with
      fewer than two words it is empty. */
  lemma CountPairsCorrect(ws: seq<string>)
    ensures PairTable(CountPairs(ws), ws)
    ensures |ws| < 2 ==> CountPairs(ws) == map[]
  {
    CountPairsKeys(ws);
    CountPairsMembers(ws);
    CountPairsCounts(ws);
  }

  /** Appending a word performs one more iteration of each loop. */
  lemma CountWordsSnoc(ws: seq<string>, w: string)
    ensures CountWords(ws + [w]) == Inc(CountWords(ws), w)
  {
    var s := ws + [w];
    assert s[..|s| - 1] == ws;
  }

  lemma CountPairsSnoc(ws: seq<string>, w: string)
    requires ws != []
    ensures CountPairs(ws + [w]) == AddPair(CountPairs(ws), ws[|ws| - 1], w)
  {
    var s := ws + [w];
    assert s[..|s| - 1] == ws;
    assert s[|s| - 2] == ws[|ws| - 1];
  }

  /** Tokens without upper-case letters are stored as they are. */
  lemma LowerAllKeeps(tokens: seq<string>)
    requires forall i, j :: 0 <= i < |tokens| && 0 <= j < |tokens[i]| ==> !('A' <= tokens[i][j] <= 'Z')
    ensures LowerAll(tokens) == tokens
  {
    forall i | 0 <= i < |tokens|
      ensures LowerAll(tokens)[i] == tokens[i]
    {
    }
  }

  /** The tables of an `Autocomp` are the count tables of its words. */
  ghost predicate Consistent(a: Autocomp)
  {
    && (forall w :: w in a.wordsCount <==> w in a.words)
    && (forall w :: w in a.wordsCount ==> a.wordsCount[w] == Occ(a.words, w))
    && PairTable(a.wordTuples, a.words)
  }

  /** Both loops of `New` on an already tokenized corpus. */
  function Train(tokens: seq<string>): Autocomp
  {
    var ws := LowerAll(tokens);
    Autocomp(ws, CountWords(ws), CountPairs(ws))
  }

  /** A trained model stores the tokens lowercased, in order, and tables
      that count them; fewer than two tokens leave the pair table empty. */
  lemma TrainConsistent(tokens: seq<string>)
    ensures |Train(tokens).words| == |tokens|
    ensures forall i :: 0 <= i < |tokens| ==> Train(tokens).words[i] == Strings.ToLower(tokens[i])
    ensures Consistent(Train(tokens))
    ensures |tokens| < 2 ==> Train(tokens).wordTuples == map[]
  {
    var ws := LowerAll(tokens);
    CountWordsCorrect(ws);
    CountPairsCorrect(ws);
  }

  /** `New`: `big` is the content of the corpus file, or `None` when it
      cannot be opened, in which case there is no model (nil). */
  function New(big: Option<string>): (a: Option<Autocomp>)
    ensures a.None? <==> big.None?
    ensures a.Some? ==> |a.value.words| == |Strings.Tokenize(big.value)| && Consistent(a.value)
    ensures a.Some? ==> forall i :: 0 <= i < |Strings.Tokenize(big.value)| ==>
      a.value.words[i] == Strings.ToLower(Strings.Tokenize(big.value)[i])
  {
    match big
    case None => None
    case Some(text) =>
      TrainConsistent(Strings.Tokenize(text));
      Some(Train(Strings.Tokenize(text)))
  }

  /** The unigram counts add up to the number of words. */
  lemma {:induction false} CountWordsSum(ws: seq<string>)
    ensures Sum(CountWords(ws)) == |ws|
  {
    if ws != [] {
      CountWordsSum(ws[..|ws| - 1]);
      SumInc(CountWords(ws[..|ws| - 1]), ws[|ws| - 1]);
    }
  }

  /** The successor counts of `f` add up to the number of non-final
      occurrences of `f`. */
  lemma {:induction false} CountPairsSum(ws: seq<string>, f: string)
    ensures Sum(Lookup(CountPairs(ws), f)) == Occ(NonFinal(ws), f)
  {
    if |ws| >= 2 {
      var init := ws[..|ws| - 1];
      var first, second := ws[|ws| - 2], ws[|ws| - 1];
      SnocPairs(ws);
      OccSnoc(NonFinal(init), first, f);
      CountPairsSum(init, f);
      if f == first {
        SumInc(Lookup(CountPairs(init), f), second);
      }
    }
  }

  /** Training on lowercased tokens gives the same model. */
  lemma TrainLowercased(tokens: seq<string>)
    ensures Train(LowerAll(tokens)) == Train(tokens)
  {
    var ws := LowerAll(tokens);
    forall i | 0 <= i < |tokens|
      ensures LowerAll(ws)[i] == ws[i]
    {
      Strings.ToLowerIdempotent(tokens[i]);
    }
    assert LowerAll(ws) == ws;
  }

  /** `PredictNextWord`: rank the successors of `first` by the prefix
      `second`. An unseen `first` reads the nil map and ranks nothing. */
  method PredictNextWord(a: Autocomp, first: string, second: string, count: int)
    returns (r: Result<seq<Prediction>, Panic>)
    ensures r.Failure? <==> count < 0
    ensures r.Failure? ==> r.error == SliceBoundsOutOfRange
    ensures r.Success? ==> IsRanking(Lookup(a.wordTuples, first), second, count, r.value)
    ensures r.Success? && first !in a.wordTuples ==> r.value == []
  {
    assert first !in a.wordTuples ==> MatchingKeys(Lookup(a.wordTuples, first), second) == {};
    r := PredictWord(Lookup(a.wordTuples, first), second, count);
  }

  /** `Predict`: split the line into fields; one field is a prefix ranked
      against the unigram counts, more fields rank the last one against
      the successors of the one before it. A line without fields indexes
      `words[0]` of an empty slice. */
  method Predict(a: Autocomp, line: string, count: int) returns (r: Result<seq<Prediction>, Panic>)
    ensures Strings.Fields(line) == [] <==> r == Failure(IndexOutOfRange)
    ensures Strings.Fields(line) != [] ==> (r.Failure? <==> count < 0)
    ensures Strings.Fields(line) != [] && r.Failure? ==> r.error == SliceBoundsOutOfRange
    ensures |Strings.Fields(line)| == 1 && r.Success? ==>
      IsRanking(a.wordsCount, Strings.Fields(line)[0], count, r.value)
    ensures |Strings.Fields(line)| >= 2 && r.Success? ==>
      var words := Strings.Fields(line);
      IsRanking(Lookup(a.wordTuples, words[|words| - 2]), words[|words| - 1], count, r.value)
  {
    var words := Strings.Fields(line);
    if |words| < 2 {
      if |words| == 0 {
        return Failure(IndexOutOfRange);
      }
      r := PredictWord(a.wordsCount, words[0], count);
    } else {
      r := PredictNextWord(a, words[|words| - 2], words[|words| - 1], count);
    }
  }
}
