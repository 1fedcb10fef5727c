/** The Go standard-library string operations the model relies on:
    `unicode.IsSpace`, `strings.Fields`, `strings.ToLower` and the word
    regular expression of the corpus tokenizer. */
module Strings {

  /** Unicode White_Space, the set `unicode.IsSpace` accepts. */
  predicate IsSpace(c: char)
  {
    || ('\t' <= c <= '\r')              // tab, line feed, vertical tab, form feed, carriage return
    || c == ' '
    || c == '\U{85}' || c == '\U{A0}'
    || c == '\U{1680}'
    || ('\U{2000}' <= c <= '\U{200A}')
    || c == '\U{2028}' || c == '\U{2029}'
    || c == '\U{202F}' || c == '\U{205F}' || c == '\U{3000}'
  }

  predicate NotSpace(c: char)
  {
    !IsSpace(c)
  }

  /** The character class `[a-zA-z'-]` of the tokenizer. The range `A-z`
      runs from 'A' to 'z' and so also takes `[`, `\`, `]`, `^`, `_` and
      the backtick; it already contains `a-z`. */
  predicate IsWordChar(c: char)
  {
    ('A' <= c <= 'z') || c == '\'' || c == '-'
  }

  predicate AllKept(s: string, keep: char -> bool)
  {
    forall i :: 0 <= i < |s| ==> keep(s[i])
  }

  /** The characters of `s` that `keep` accepts, in order. */
  function Filter(s: string, keep: char -> bool): string
  {
    if s == [] then []
    else (if keep(s[0]) then [s[0]] else []) + Filter(s[1..], keep)
  }

  /** Concatenation of a sequence of strings. */
  function Flatten(ss: seq<string>): string
  {
    if ss == [] then [] else ss[0] + Flatten(ss[1..])
  }

  lemma {:induction false} FilterAppend(a: string, b: string, keep: char -> bool)
    ensures Filter(a + b, keep) == Filter(a, keep) + Filter(b, keep)
  {
    if a == [] {
      assert a + b == b;
    } else {
      assert (a + b)[0] == a[0];
      assert (a + b)[1..] == a[1..] + b;
      FilterAppend(a[1..], b, keep);
      var head := if keep(a[0]) then [a[0]] else [];
      calc {
        Filter(a + b, keep);
        head + Filter(a[1..] + b, keep);
        head + (Filter(a[1..], keep) + Filter(b, keep));
        (head + Filter(a[1..], keep)) + Filter(b, keep);
      }
    }
  }

  lemma {:induction false} FilterAllKept(s: string, keep: char -> bool)
    requires AllKept(s, keep)
    ensures Filter(s, keep) == s
  {
    if s != [] {
      FilterAllKept(s[1..], keep);
    }
  }

  /** Length of the longest prefix of `s` made of kept characters. */
  function RunLength(s: string, keep: char -> bool): (n: nat)
    ensures n <= |s|
    ensures AllKept(s[..n], keep)
    ensures n < |s| ==> !keep(s[n])
  {
    if s == [] || !keep(s[0]) then 0
    else
      var n := 1 + RunLength(s[1..], keep);
      assert s[..n] == [s[0]] + s[1..][..n - 1];
      n
  }

  /** The maximal runs of kept characters of `s`, left to right; the other
      characters separate runs and are dropped. */
  function Runs(s: string, keep: char -> bool): (r: seq<string>)
    ensures forall i :: 0 <= i < |r| ==> r[i] != [] && AllKept(r[i], keep)
    ensures Flatten(r) == Filter(s, keep)
    ensures r == [] <==> forall i :: 0 <= i < |s| ==> !keep(s[i])
    decreases |s|
  {
    if s == [] then []
    else if !keep(s[0]) then
      SkipRejected(s, keep);
      Runs(s[1..], keep)
    else
      var n := RunLength(s, keep);
      FilterRun(s, keep);
      [s[..n]] + Runs(s[n..], keep)
  }

  /** A rejected first character contributes nothing. */
  lemma SkipRejected(s: string, keep: char -> bool)
    requires s != [] && !keep(s[0])
    ensures Filter(s, keep) == Filter(s[1..], keep)
    ensures (forall i :: 0 <= i < |s| ==> !keep(s[i])) <==> (forall i :: 0 <= i < |s[1..]| ==> !keep(s[1..][i]))
  {
    assert forall i :: 0 < i < |s| ==> s[i] == s[1..][i - 1];
  }

  /** The leading run is kept whole by `Filter`. */
  lemma FilterRun(s: string, keep: char -> bool)
    ensures Filter(s, keep) == s[..RunLength(s, keep)] + Filter(s[RunLength(s, keep)..], keep)
  {
    var n := RunLength(s, keep);
    assert s == s[..n] + s[n..];
    FilterAppend(s[..n], s[n..], keep);
    FilterAllKept(s[..n], keep);
  }

  lemma RunLengthStops(a: string, t: string, keep: char -> bool)
    requires t != [] && !keep(t[0])
    ensures RunLength(a + t, keep) == RunLength(a, keep)
    decreases |a|
  {
    if a != [] && keep(a[0]) {
      assert (a + t)[1..] == a[1..] + t;
      RunLengthStops(a[1..], t, keep);
    }
  }

  /** A rejected character splits the input: the runs on either side of it
      are found independently. Together with `RunsOfRun` this pins `Runs`
      down completely. */
  lemma {:induction false} RunsSeparated(a: string, c: char, b: string, keep: char -> bool)
    requires !keep(c)
    ensures Runs(a + [c] + b, keep) == Runs(a, keep) + Runs(b, keep)
    decreases |a|
  {
    var s := a + [c] + b;
    if a == [] {
      assert s[1..] == b;
    } else if !keep(a[0]) {
      assert s[1..] == a[1..] + [c] + b;
      RunsSeparated(a[1..], c, b, keep);
    } else {
      RunLengthStops(a, [c] + b, keep);
      assert s == a + ([c] + b);
      var n := RunLength(a, keep);
      assert s[..n] == a[..n];
      assert s[n..] == a[n..] + [c] + b;
      RunsSeparated(a[n..], c, b, keep);
    }
  }

  /** A non-empty run of kept characters is one run. */
  lemma RunsOfRun(w: string, keep: char -> bool)
    requires w != [] && AllKept(w, keep)
    ensures Runs(w, keep) == [w]
  {
    var n := RunLength(w, keep);
    assert n == |w|;
    assert w[..n] == w;
    assert w[n..] == [];
  }

  /** The words of `ws` with `sep` between neighbours (`strings.Join`). */
  function JoinWith(ws: seq<string>, sep: char): string
  {
    if ws == [] then []
    else if |ws| == 1 then ws[0]
    else ws[0] + [sep] + JoinWith(ws[1..], sep)
  }

  /** Round trip: runs of words joined by a rejected separator are the words. */
  lemma {:induction false} RunsOfJoin(ws: seq<string>, sep: char, keep: char -> bool)
    requires !keep(sep)
    requires forall i :: 0 <= i < |ws| ==> ws[i] != [] && AllKept(ws[i], keep)
    ensures Runs(JoinWith(ws, sep), keep) == ws
  {
    if |ws| == 1 {
      RunsOfRun(ws[0], keep);
    } else if |ws| > 1 {
      RunsOfJoin(ws[1..], sep, keep);
      RunsSeparated(ws[0], sep, JoinWith(ws[1..], sep), keep);
      RunsOfRun(ws[0], keep);
    }
  }

  /** `strings.Fields`: the maximal runs of non-space characters. */
  function Fields(s: string): seq<string>
  {
    Runs(s, NotSpace)
  }

  /** `strings.Fields(strings.Join(ws, " "))` gives back `ws` when no word
      is empty or contains white space. */
  lemma FieldsOfJoin(ws: seq<string>)
    requires forall i :: 0 <= i < |ws| ==> ws[i] != [] && AllKept(ws[i], NotSpace)
    ensures Fields(JoinWith(ws, ' ')) == ws
  {
    RunsOfJoin(ws, ' ', NotSpace);
  }

  /** The matches of `'?([a-zA-z'-]+)'?` found by `FindAllString(text, -1)`.
      The quote is itself in the class, so the leftmost-first match starting
      at any class character is the maximal run of class characters from
      there; the optional quotes never change a match. */
  function Tokenize(text: string): seq<string>
  {
    Runs(text, IsWordChar)
  }

  predicate IsAscii(s: string)
  {
    forall i :: 0 <= i < |s| ==> s[i] < '\U{80}'
  }

  /** Every token is a non-empty run of class characters, hence ASCII. */
  lemma TokensAreAsciiWords(text: string)
    ensures forall i :: 0 <= i < |Tokenize(text)| ==>
      Tokenize(text)[i] != [] && AllKept(Tokenize(text)[i], IsWordChar) && IsAscii(Tokenize(text)[i])
  {
  }

  function LowerChar(c: char): char
  {
    if 'A' <= c <= 'Z' then (c as int + ('a' as int - 'A' as int)) as char else c
  }

  /** `strings.ToLower` restricted to ASCII letters. */
  function ToLower(s: string): (r: string)
    ensures |r| == |s|
    ensures forall i :: 0 <= i < |s| ==>
      && ('A' <= s[i] <= 'Z' ==> r[i] as int == s[i] as int + 32)
      && (!('A' <= s[i] <= 'Z') ==> r[i] == s[i])
    ensures forall i :: 0 <= i < |r| ==> !('A' <= r[i] <= 'Z')
  {
    seq(|s|, i requires 0 <= i < |s| => LowerChar(s[i]))
  }

  /** Lowercasing twice is lowercasing once. */
  lemma ToLowerIdempotent(s: string)
    ensures ToLower(ToLower(s)) == ToLower(s)
  {
  }
}
