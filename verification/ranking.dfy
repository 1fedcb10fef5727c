/** `predictWord` and the `ByCount` order: the keys of a count table that
    start with a prefix, most frequent first, cut to a requested length. */
module Ranking {
  import opened Wrappers
  import opened Counting

  /** A candidate completion and its count (Go `WordPrediction`). */
  datatype Prediction = Prediction(word: string, count: int)

  /** `ByCount.Less`: `a` sorts before `b` when its count is larger. */
  predicate Less(a: Prediction, b: Prediction)
  {
    a.count > b.count
  }

  /** Sortedness as `sort.IsSorted` checks it: no element is `Less` than
      the one before it. */
  predicate SortedByCount(r: seq<Prediction>)
  {
    forall i :: 0 < i < |r| ==> !Less(r[i], r[i - 1])
  }

  /** `SortedByCount` holds exactly when counts never increase between any
      two positions. */
  lemma {:induction false} SortedByCountPairwise(r: seq<Prediction>)
    ensures SortedByCount(r) <==> forall i, j :: 0 <= i < j < |r| ==> r[i].count >= r[j].count
  {
    if SortedByCount(r) {
      forall i, j | 0 <= i < j < |r|
        ensures r[i].count >= r[j].count
      {
        SortedStep(r, i, j);
      }
    }
  }

  lemma {:induction false} SortedStep(r: seq<Prediction>, i: nat, j: nat)
    requires SortedByCount(r)
    requires i < j < |r|
    ensures r[i].count >= r[j].count
    decreases j - i
  {
    if i + 1 < j {
      SortedStep(r, i + 1, j);
    }
  }

  /** The keys of `m` that start with `prefix` (`strings.HasPrefix`). */
  function MatchingKeys(m: Counter, prefix: string): set<string>
  {
    set w | w in m && prefix <= w
  }

  function WordsOf(r: seq<Prediction>): set<string>
  {
    set i | 0 <= i < |r| :: r[i].word
  }

  lemma WordsOfSnoc(r: seq<Prediction>, p: Prediction)
    ensures WordsOf(r + [p]) == WordsOf(r) + {p.word}
  {
    var s := r + [p];
    forall w | w in WordsOf(s)
      ensures w in WordsOf(r) + {p.word}
    {
      var i :| 0 <= i < |s| && s[i].word == w;
      if i < |r| {
        assert r[i].word == w;
      }
    }
    forall w | w in WordsOf(r)
      ensures w in WordsOf(s)
    {
      var i :| 0 <= i < |r| && r[i].word == w;
      assert s[i].word == w;
    }
    assert s[|r|].word == p.word;
  }

  predicate DistinctWords(r: seq<Prediction>)
  {
    forall i, j :: 0 <= i < j < |r| ==> r[i].word != r[j].word
  }

  function Min(a: int, b: int): int
  {
    if a <= b then a else b
  }

  /** What `predictWord(m, prefix, k)` may return. Go map iteration order
      is random and `sort.Sort` is not stable, so the relation fixes the
      result only up to the order of equal counts and, at the cut, up to
      which of several equally frequent keys get in. */
  predicate IsRanking(m: Counter, prefix: string, k: nat, r: seq<Prediction>)
  {
    // each result is a matching key with that key's count
    && (forall i :: 0 <= i < |r| ==>
          r[i].word in MatchingKeys(m, prefix) && r[i].count == m[r[i].word])
    // no key twice
    && DistinctWords(r)
    // as many as asked for, or all there are
    && |r| == Min(k, |MatchingKeys(m, prefix)|)
    // most frequent first
    && SortedByCount(r)
    // top-k: a matching key left out is no more frequent than any result
    && LeftOutNoMoreFrequent(m, prefix, r)
  }

  /** The loop of `predictWord`: one pass over the map in its (random) iteration order,
      keeping the keys that start with `prefix`. */
  method CollectMatches(m: Counter, prefix: string) returns (matched: set<string>)
    ensures matched == MatchingKeys(m, prefix)
  {
    matched := {};
    var rest := m.Keys;
    while rest != {}
      invariant rest <= m.Keys
      invariant matched == set w | w in m && w !in rest && prefix <= w
      decreases |rest|
    {
      var word :| word in rest;
      if prefix <= word {
        matched := matched + {word};
      }
      rest := rest - {word};
    }
  }

  /** A non-empty set of keys has a key of largest count. */
  lemma {:induction false} HasMostFrequent(m: Counter, pool: set<string>)
    requires pool != {} && pool <= m.Keys
    ensures exists best :: best in pool && forall w :: w in pool ==> m[w] <= m[best]
    decreases |pool|
  {
    var x :| x in pool;
    if pool != {x} {
      HasMostFrequent(m, pool - {x});
      var b :| b in pool - {x} && forall w :: w in pool - {x} ==> m[w] <= m[b];
      if m[x] <= m[b] {
        assert forall w :: w in pool ==> m[w] <= m[b];
      } else {
        assert forall w :: w in pool ==> m[w] <= m[x];
      }
    }
  }

  /** The state of the sort after some steps: `sorted` holds the pairs of
      the keys taken so far, most frequent first, and every key still in
      `pool` is at most as frequent as each of them. */
  predicate SortState(m: Counter, keys: set<string>, sorted: seq<Prediction>, pool: set<string>)
  {
    && keys <= m.Keys
    && pool <= keys
    && |sorted| + |pool| == |keys|
    && (forall i :: 0 <= i < |sorted| ==>
          sorted[i].word in keys && sorted[i].word !in pool && sorted[i].count == m[sorted[i].word])
    && WordsOf(sorted) + pool == keys
    && DistinctWords(sorted)
    && SortedByCount(sorted)
    && (forall i, w :: 0 <= i < |sorted| && w in pool ==> m[w] <= sorted[i].count)
  }

  lemma DistinctSnoc(r: seq<Prediction>, p: Prediction)
    requires DistinctWords(r)
    requires forall i :: 0 <= i < |r| ==> r[i].word != p.word
    ensures DistinctWords(r + [p])
  {
  }

  lemma SortedSnoc(r: seq<Prediction>, p: Prediction)
    requires SortedByCount(r)
    requires forall i :: 0 <= i < |r| ==> p.count <= r[i].count
    ensures SortedByCount(r + [p])
  {
  }

  /** Moving a most frequent key of the pool to the end of `sorted` keeps
      the sort state. */
  lemma SortStep(m: Counter, keys: set<string>, sorted: seq<Prediction>, pool: set<string>, best: string)
    requires SortState(m, keys, sorted, pool)
    requires best in pool && forall w :: w in pool ==> m[w] <= m[best]
    ensures SortState(m, keys, sorted + [Prediction(best, m[best])], pool - {best})
  {
    var p := Prediction(best, m[best]);
    var s := sorted + [p];
    var rest := pool - {best};
    WordsOfSnoc(sorted, p);
    DistinctSnoc(sorted, p);
    SortedSnoc(sorted, p);
    assert |rest| == |pool| - 1;
    forall i | 0 <= i < |s|
      ensures s[i].word in keys && s[i].word !in rest && s[i].count == m[s[i].word]
    {
    }
    forall i, w | 0 <= i < |s| && w in rest
      ensures m[w] <= s[i].count
    {
    }
  }

  /** `sort.Sort(ByCount(predictions))` in `predictWord`, on the pairs of `keys`.
      Each step takes some key of largest remaining count; which one is
      left open, as the unstable sort leaves the order of ties open. */
  method SortByCount(m: Counter, keys: set<string>) returns (sorted: seq<Prediction>)
    requires keys <= m.Keys
    ensures forall i :: 0 <= i < |sorted| ==> sorted[i].word in keys && sorted[i].count == m[sorted[i].word]
    ensures WordsOf(sorted) == keys
    ensures DistinctWords(sorted)
    ensures |sorted| == |keys|
    ensures SortedByCount(sorted)
  {
    sorted := [];
    var pool := keys;
    while pool != {}
      invariant SortState(m, keys, sorted, pool)
      decreases |pool|
    {
      HasMostFrequent(m, pool);
      var best :| best in pool && forall w :: w in pool ==> m[w] <= m[best];
      SortStep(m, keys, sorted, pool, best);
      sorted := sorted + [Prediction(best, m[best])];
      pool := pool - {best};
    }
  }

  /** A full sort of all matching keys is a ranking that leaves nothing out. */
  lemma SortedMatchesAreRanking(m: Counter, prefix: string, sorted: seq<Prediction>)
    requires forall i :: 0 <= i < |sorted| ==> sorted[i].word in m && sorted[i].count == m[sorted[i].word]
    requires WordsOf(sorted) == MatchingKeys(m, prefix)
    requires DistinctWords(sorted)
    requires |sorted| == |MatchingKeys(m, prefix)|
    requires SortedByCount(sorted)
    ensures IsRanking(m, prefix, |sorted|, sorted)
  {
    forall i | 0 <= i < |sorted|
      ensures sorted[i].word in MatchingKeys(m, prefix)
    {
      assert sorted[i].word in WordsOf(sorted);
    }
  }

  /** The top-k clause of `IsRanking`. */
  predicate LeftOutNoMoreFrequent(m: Counter, prefix: string, r: seq<Prediction>)
  {
    forall w, i :: w in MatchingKeys(m, prefix) && w !in WordsOf(r) && 0 <= i < |r| ==>
      m[w] <= r[i].count
  }

  lemma TruncateKeepsTopK(m: Counter, prefix: string, r: seq<Prediction>, n: nat)
    requires forall i :: 0 <= i < |r| ==> r[i].word in MatchingKeys(m, prefix) && r[i].count == m[r[i].word]
    requires LeftOutNoMoreFrequent(m, prefix, r)
    requires forall i, j :: 0 <= i < j < |r| ==> r[i].count >= r[j].count
    requires n <= |r|
    ensures LeftOutNoMoreFrequent(m, prefix, r[..n])
  {
    var t := r[..n];
    assert forall y :: 0 <= y < |t| ==> t[y].word in WordsOf(t);
    forall w, i | w in MatchingKeys(m, prefix) && w !in WordsOf(t) && 0 <= i < |t|
      ensures m[w] <= t[i].count
    {
      if w in WordsOf(r) {
        var x :| 0 <= x < |r| && r[x].word == w;
        assert x >= |t|;
      }
    }
  }

  /** Asking for fewer results: the first `j` results of a ranking for `k`
      form a ranking for `j`. `predictWord` cuts its sorted slice this way. */
  lemma RankingTruncate(m: Counter, prefix: string, k: nat, r: seq<Prediction>, j: nat)
    requires IsRanking(m, prefix, k, r)
    requires j <= |r|
    ensures IsRanking(m, prefix, j, r[..j])
  {
    SortedByCountPairwise(r);
    TruncateKeepsTopK(m, prefix, r, j);
  }

  /** `predictWord(wordsCount, prefix, count)`. A negative `count` always
      reaches the slice expression `predictions[:count]`, which panics. */
  method PredictWord(m: Counter, prefix: string, count: int) returns (r: Result<seq<Prediction>, Panic>)
    ensures r.Failure? <==> count < 0
    ensures r.Failure? ==> r.error == SliceBoundsOutOfRange
    ensures r.Success? ==> IsRanking(m, prefix, count, r.value)
  {
    var matched := CollectMatches(m, prefix);
    var predictions := SortByCount(m, matched);
    SortedMatchesAreRanking(m, prefix, predictions);
    if |predictions| > count {
      if count < 0 {
        return Failure(SliceBoundsOutOfRange);
      }
      RankingTruncate(m, prefix, |predictions|, predictions, count);
      return Success(predictions[..count]);
    }
    return Success(predictions);
  }
}

/** What every answer of `predictWord` has in common, and what it leaves
    open. */
module RankingFacts {
  import opened Counting
  import opened Ranking

  lemma SubsetSize<T>(a: set<T>, b: set<T>)
    requires a <= b
    ensures |a| <= |b|
  {
    assert b == a + (b - a);
  }

  /** Distinct words: as many words as results. */
  lemma {:induction false} WordsOfSize(r: seq<Prediction>)
    ensures |WordsOf(r)| <= |r|
    ensures DistinctWords(r) ==> |WordsOf(r)| == |r|
  {
    if r != [] {
      var init, last := r[..|r| - 1], r[|r| - 1];
      assert r == init + [last];
      WordsOfSize(init);
      WordsOfSnoc(init, last);
      if DistinctWords(r) {
        assert DistinctWords(init);
        assert last.word !in WordsOf(init);
      }
    }
  }

  /** The matching keys counted more than `c`. */
  function Above(m: Counter, prefix: string, c: int): set<string>
  {
    set w | w in MatchingKeys(m, prefix) && m[w] > c
  }

  /** Every key more frequent than the result at position `i` is among the
      first `i` results, so there are at most `i` of them. */
  lemma AboveFew(m: Counter, prefix: string, k: nat, r: seq<Prediction>, i: nat)
    requires IsRanking(m, prefix, k, r)
    requires i < |r|
    ensures |Above(m, prefix, r[i].count)| <= i
  {
    SortedByCountPairwise(r);
    var before := r[..i];
    forall w | w in Above(m, prefix, r[i].count)
      ensures w in WordsOf(before)
    {
      assert w in WordsOf(r);
      var x :| 0 <= x < |r| && r[x].word == w;
      assert x < i;
      assert before[x].word == w;
    }
    SubsetSize(Above(m, prefix, r[i].count), WordsOf(before));
    WordsOfSize(before);
  }

  /** If the result at position `i` is counted more than `c`, the first
      `i + 1` results are all more frequent than `c`. */
  lemma AboveMany(m: Counter, prefix: string, k: nat, r: seq<Prediction>, i: nat, c: int)
    requires IsRanking(m, prefix, k, r)
    requires i < |r|
    ensures r[i].count > c ==> |Above(m, prefix, c)| >= i + 1
  {
    if r[i].count > c {
      SortedByCountPairwise(r);
      var upto := r[..i + 1];
      forall w | w in WordsOf(upto)
        ensures w in Above(m, prefix, c)
      {
        var x :| 0 <= x < |upto| && upto[x].word == w;
        assert r[x].count >= r[i].count;
      }
      assert DistinctWords(upto);
      WordsOfSize(upto);
      SubsetSize(WordsOf(upto), Above(m, prefix, c));
    }
  }

  /** Any two answers to the same query agree position by position on the
      counts: only which of several equally frequent words sits where is
      left open. */
  lemma RankingCountsAgree(m: Counter, prefix: string, k: nat, r1: seq<Prediction>, r2: seq<Prediction>)
    requires IsRanking(m, prefix, k, r1)
    requires IsRanking(m, prefix, k, r2)
    ensures |r1| == |r2|
    ensures forall i :: 0 <= i < |r1| ==> r1[i].count == r2[i].count
  {
    forall i | 0 <= i < |r1|
      ensures r1[i].count == r2[i].count
    {
      AboveFew(m, prefix, k, r2, i);
      AboveMany(m, prefix, k, r1, i, r2[i].count);
      AboveFew(m, prefix, k, r1, i);
      AboveMany(m, prefix, k, r2, i, r1[i].count);
    }
  }

  /** When the limit is at least the number of matching keys, every
      matching key is returned, so any two answers hold the same pairs. */
  lemma RankingComplete(m: Counter, prefix: string, k: nat, r: seq<Prediction>)
    requires IsRanking(m, prefix, k, r)
    requires k >= |MatchingKeys(m, prefix)|
    ensures WordsOf(r) == MatchingKeys(m, prefix)
  {
    assert WordsOf(r) <= MatchingKeys(m, prefix);
    WordsOfSize(r);
    assert MatchingKeys(m, prefix) == WordsOf(r) + (MatchingKeys(m, prefix) - WordsOf(r));
  }

  /** With two equally frequent keys and room for one, either may be the
      answer: repeated queries need not return the same pairs. */
  lemma TieAtCutIsOpen()
    ensures IsRanking(map["ab" := 1, "ac" := 1], "a", 1, [Prediction("ab", 1)])
    ensures IsRanking(map["ab" := 1, "ac" := 1], "a", 1, [Prediction("ac", 1)])
  {
    var m := map["ab" := 1, "ac" := 1];
    assert "a" <= "ab" && "a" <= "ac";
    assert MatchingKeys(m, "a") == {"ab", "ac"};
    WordsOfSnoc([], Prediction("ab", 1));
    WordsOfSnoc([], Prediction("ac", 1));
    assert [] + [Prediction("ab", 1)] == [Prediction("ab", 1)];
    assert [] + [Prediction("ac", 1)] == [Prediction("ac", 1)];
  }
}
