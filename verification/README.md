# autocomplete — a Dafny model of the `autocomp` package

The `autocomp` package builds a word-prediction model from a corpus.
`New` reads a text file, cuts it into words with a regular expression and
lowercases them. It then counts every word (the unigram table
`WordsCount`) and every pair of adjacent words (the bigram table
`WordTuples`, one inner counter per first word). `Predict` splits a query
line into whitespace-separated fields:

- a single field is a prefix ranked against the unigram counts;
- with more fields, the last field is a prefix ranked against the
  successors of the field before it (`PredictNextWord`).

`predictWord` collects the keys that start with the prefix, sorts them by
decreasing count (`ByCount`) and keeps at most `count` of them.

The model is split into modules:

- `Wrappers`: `Option`, `Result` and `Panic`, the two Go runtime panics
  `Predict` can raise on a built model.
- `Counting`: occurrence counts `Occ`, the zero-default read `Get` and the
  increment `Inc` behind Go's `m[k]++`, and the total `Sum` of a counter.
- `Strings`:
  - the character classes `IsSpace` (Go's `unicode.IsSpace`, i.e. the
    Unicode White_Space property) and `IsWordChar` (the regex class);
  - maximal runs of a class, `Runs`, from which `Fields` (`strings.Fields`)
    and `Tokenize` (the regex's `FindAllString`) are built;
  - ASCII `ToLower`.
- `Ranking`:
  - `Prediction`, the `ByCount` order `Less`, and `SortedByCount`;
  - `IsRanking`, the relation every admissible answer of `predictWord`
    satisfies;
  - the method `PredictWord` and its steps `CollectMatches` (the map loop)
    and `SortByCount` (the sort).
- `RankingFacts`: what every ranking shares, and what it leaves open.
- `Autocomp`: the `Autocomp` record, `CountWords`, `CountPairs`, `Train`,
  `New`, `Predict` and `PredictNextWord`.
- `Examples`: the corpus of the package's test, the tables it expects,
  and the queries the command-line program sends with a limit of 5.

Go semantics are stated explicitly:

- A missing key reads as 0 (`Get`). A missing inner counter reads as the
  nil map, which has no keys (`Lookup`).
- Map iteration order is unspecified and `sort.Sort` is not stable. So
  `PredictWord` chooses its next key with `:|`, and its contract is the
  relation `IsRanking`, not one fixed list.
- A run-time panic is a `Failure`:
  - a line with no fields indexes `words[0]` of an empty slice
    (`IndexOutOfRange`);
  - a negative `count` reaches `predictions[:count]`, because every length
    exceeds it (`SliceBoundsOutOfRange`).
- `New` returns nil when the corpus file cannot be opened. Here the file
  content is a parameter, `None` when it cannot be opened.

Where the code departs from what it evidently intends, or from what its
test expects, the model follows the code:

- An empty line or a negative limit panics. The code reports no
  invalid-input error.
- The regex class is written `a-zA-z`. The range `A-z` also admits
  `[ \ ] ^ _` and the backquote, so `IsWordChar` is `'A'..'z'` plus `'`
  and `-`.
- The optional quotes around a match are part of the match returned by
  `FindAllString`, so quotes are not stripped from words.
- Repeating a query need not return the same pairs when the limit cuts
  through a group of equal counts (`RankingFacts.TieAtCutIsOpen`). What
  every answer shares is the sequence of counts
  (`RankingFacts.RankingCountsAgree`). When the limit covers all matches,
  every answer holds the same set of words (`RankingFacts.RankingComplete`).
- The test lists an empty counter for `you`, but the code creates an
  inner counter only for a word that is followed by another, so the last
  word of the corpus has none (`Examples.TrainCorpus`). The test's loops
  run over the expected entries, so they cannot see the difference.

## Model

| member | source | states |
|---|---|---|
| Counting.Inc | autocomp/autocomp.go:50 | `m[k]++` makes `k` a key whose value is one more than its old value (0 when absent) and leaves every other key unchanged |
| Counting.SumInc | autocomp/autocomp.go:50 | one increment adds exactly one to the counter's total |
| Strings.Runs | autocomp/autocomp.go:45 | the runs are non-empty, consist only of kept characters, and concatenate to the input with the rejected characters removed; there are none exactly when no character is kept |
| Strings.RunsSeparated | autocomp/autocomp.go:81 | a rejected character splits the input: the runs of `a + [c] + b` are the runs of `a` followed by those of `b` |
| Strings.RunsOfJoin | autocomp/autocomp.go:45 | joining non-empty runs with a rejected separator and splitting again gives back the runs |
| Strings.FieldsOfJoin | autocomp/autocomp.go:81 | the fields of words joined by single spaces are those words |
| Strings.ToLower | autocomp/autocomp.go:48 | lowercasing keeps the length, maps each `A`..`Z` to its lowercase letter, leaves other characters alone, and leaves no uppercase ASCII letter |
| Autocomp.LowerAll | autocomp/autocomp.go:47-49 | the stored word list is the token list lowercased position by position |
| Autocomp.CountWordsCorrect | autocomp/autocomp.go:47-51 | the unigram table has exactly the words as keys, and each value is the number of occurrences of its word |
| Autocomp.CountPairsKeys | autocomp/autocomp.go:53-58 | the bigram table has an inner counter for exactly the words that are followed by another word |
| Autocomp.CountPairsMembers | autocomp/autocomp.go:53-59 | the inner counter of a word holds exactly the words observed right after it |
| Autocomp.CountPairsCounts | autocomp/autocomp.go:53-60 | each successor count is the number of times that adjacent pair occurs in the word list |
| Autocomp.CountWordsSum | autocomp/autocomp.go:47-51 | the unigram counts add up to the number of words |
| Autocomp.CountPairsSum | autocomp/autocomp.go:53-60 | the successor counts of a word add up to the number of its occurrences that are not the last word |
| Autocomp.TrainConsistent | autocomp/autocomp.go:47-60 | training stores one lowercased word per token, in order, and both tables count those words |
| Autocomp.TrainLowercased | autocomp/autocomp.go:48 | lowercasing the tokens beforehand does not change the trained model |
| Autocomp.New | autocomp/autocomp.go:31-63 | no model exactly when the corpus cannot be opened; otherwise the words are the regex matches in order, each lowercased, and both tables count them |
| Ranking.SortedByCountPairwise | autocomp/autocomp.go:19-23 | sorted under `ByCount.Less` (no element beats its predecessor) holds exactly when counts never increase between any two positions |
| Ranking.CollectMatches | autocomp/autocomp.go:66-72 | the map loop collects exactly the keys that start with the prefix |
| Ranking.SortByCount | autocomp/autocomp.go:73 | the sorted predictions pair each collected key with its count, once each, in non-increasing count order |
| Ranking.RankingTruncate | autocomp/autocomp.go:74-77 | the first `j` results of a ranking (for any `j` up to its length) form a ranking for the limit `j`: no matching word left out is more frequent than a kept one |
| Ranking.PredictWord | autocomp/autocomp.go:65-78 | fails exactly on a negative limit, with a slice-bounds panic; otherwise returns `min(count, matches)` distinct matching words with their counts, in non-increasing count order, none more frequent than a matching word left out |
| RankingFacts.RankingCountsAgree | autocomp/autocomp.go:73-77 | any two answers to the same query have the same length and the same count at every position |
| RankingFacts.RankingComplete | autocomp/autocomp.go:74-77 | when the limit is at least the number of matches, the answer holds every matching word |
| RankingFacts.TieAtCutIsOpen | autocomp/autocomp.go:73-76 | with two equally frequent matches and a limit of one, either word is an admissible answer |
| Autocomp.PredictNextWord | autocomp/autocomp.go:88-90 | ranks the successors of the first word by the prefix; an unseen first word yields an empty answer; fails exactly on a negative limit |
| Autocomp.Predict | autocomp/autocomp.go:80-86 | a line without fields panics with an index error; one field ranks the unigram table by that prefix; more fields rank the successors of the second-to-last field by the last; otherwise fails exactly on a negative limit |
| Examples.TokenizeCorpus | autocomp/autocomp_test.go:13-15 | the test corpus tokenizes into the seven words the test lists |
| Examples.TrainCorpus | autocomp/autocomp_test.go:12-31 | training on the test corpus yields the expected unigram counts and successor counters, and no counter for the final word `you` |
| Examples.QueryCorpus | main.go:12-18 | on the test corpus with limit 5, `sh` predicts `short` (2), `short t` predicts `text` and `test` with count 1 each, and a blank line panics |

## Left out

- Opening and reading `big.txt` (autocomp/autocomp.go:37-44): the file
  content is a parameter of `New`. A failed open is `None`. The ignored
  error of `ioutil.ReadAll` is not modelled.
- The regular-expression engine: `Tokenize` takes the maximal runs of the
  class `'A'..'z'`, `'`, `-`. The optional quotes around the group are
  themselves in the class. Go's `regexp` uses leftmost-first matching, and a
  match starts at the first class character. There the optional `'?`
  takes at most one character of the run. The greedy `[...]+` then takes
  the rest of the run, and the trailing `'?` matches empty. So every match
  is a maximal run. This equivalence is argued, not proved.
- Strings.ToLower: ASCII only. Every token consists of ASCII characters,
  so on tokens it agrees with Go's Unicode `strings.ToLower`.
- Strings.IsSpace: Go's `unicode.IsSpace` is not part of this model; the
  set written out is the Unicode White_Space property it implements.
  Strings are sequences of code points, so invalid UTF-8 is not modelled.
- Counts are unbounded integers. Go's `int` is 32 or 64 bits, depending
  on the platform. An overflow needs 2^31 (or 2^63) occurrences of one
  word, more than the `Words` slice can hold in memory on that platform,
  so it is not modelled.
- `ByCount.Len` and `ByCount.Swap` (autocomp/autocomp.go:21-22) are
  plumbing for `sort.Sort`. `SortByCount` is a selection sort whose result
  satisfies the same contract as any sort by `Less`.
- The printing in `New` and the read-print loop of main.go are I/O.
- A nil receiver: when `New` fails, main.go still calls `Predict` on the
  nil result, which panics with a nil-pointer dereference when it reads
  `a.WordsCount` or `a.WordTuples`. `Predict` and `PredictNextWord` take a
  built `Autocomp`, so this call is not represented.
- The test calls `New(strings.NewReader(...))`, which does not match the
  signature `New()`. `Examples.TrainCorpus` states the tables directly
  instead.
