/** The keyword step of the daily aggregation in lambda_function_analysis.py:
    the collected texts are joined with spaces, lower-cased, split into words
    by `re.findall(r'\b\w+\b', ...)`, and the words that are not stopwords
    are counted. `\w` is read as ASCII letters, digits and underscore. */
module KeywordAnalysis {
  import opened Strings
  import opened Counters

  predicate IsWordChar(c: char)
  {
    'a' <= c <= 'z' || 'A' <= c <= 'Z' || '0' <= c <= '9' || c == '_'
  }

  predicate IsUpper(c: char)
  {
    'A' <= c <= 'Z'
  }

  /** The length of the run of word characters at the start of `s`. */
  function WordLength(s: string): (n: nat)
    ensures n <= |s|
    ensures forall i :: 0 <= i < n ==> IsWordChar(s[i])
    ensures n < |s| ==> !IsWordChar(s[n])
  {
    if |s| == 0 || !IsWordChar(s[0]) then 0 else 1 + WordLength(s[1..])
  }

  /** `re.findall(r'\b\w+\b', s)`: the maximal runs of word characters, in
      order. A run is bounded by the ends of `s` or by non-word characters,
      so both `\b` hold at its ends and nowhere inside it. */
  function Words(s: string): (r: seq<string>)
    ensures forall k :: 0 <= k < |r| ==> |r[k]| > 0
    ensures forall k, i :: 0 <= k < |r| && 0 <= i < |r[k]| ==> IsWordChar(r[k][i])
    decreases |s|
  {
    if |s| == 0 then []
    else if !IsWordChar(s[0]) then Words(s[1..])
    else
      var n := WordLength(s);
      [s[..n]] + Words(s[n..])
  }

  /** `s[i..j]` is a maximal run of word characters: non-empty, made of word
      characters only, and with a word boundary at each end. */
  predicate IsRun(s: string, i: int, j: int)
  {
    0 <= i < j <= |s| &&
    (forall k :: i <= k < j ==> IsWordChar(s[k])) &&
    (i == 0 || !IsWordChar(s[i - 1])) &&
    (j == |s| || !IsWordChar(s[j]))
  }

  /** Runs of a suffix `s[d..]` are the runs of `s` shifted by `d`, when the
      cut at `d` is itself a word boundary. */
  lemma RunShift(s: string, d: nat, i: int, j: int)
    requires d <= |s| && 0 <= i
    requires d == 0 || d == |s| || !IsWordChar(s[d - 1]) || !IsWordChar(s[d])
    ensures IsRun(s[d..], i, j) <==> IsRun(s, i + d, j + d)
    ensures IsRun(s[d..], i, j) ==> s[d..][i..j] == s[i + d..j + d]
  {
    var t := s[d..];
    if IsRun(t, i, j) {
      assert forall k :: i + d <= k < j + d ==> s[k] == t[k - d];
      if i == 0 && d > 0 {
        assert IsWordChar(t[0]);
      }
    }
    if IsRun(s, i + d, j + d) {
      assert forall k :: i <= k < j ==> t[k] == s[k + d];
    }
  }

  /** The only run starting at 0 of a text that starts with a word character
      is its leading run, and every other run starts after it. */
  lemma LeadingRun(s: string, i: int, j: int)
    requires |s| > 0 && IsWordChar(s[0])
    requires IsRun(s, i, j)
    ensures i == 0 ==> j == WordLength(s)
    ensures i > 0 ==> i > WordLength(s)
  {
  }

  /** `Words(s)` holds exactly the maximal runs of word characters of `s`,
      which is what `re.findall(r'\b\w+\b', s)` returns. */
  lemma {:induction false} WordsAreRuns(s: string)
    ensures forall w :: w in Words(s) ==> exists i, j :: IsRun(s, i, j) && w == s[i..j]
    ensures forall i, j :: IsRun(s, i, j) ==> s[i..j] in Words(s)
    decreases |s|, 1
  {
    if |s| > 0 {
      if IsWordChar(s[0]) {
        WordsAreRunsLeading(s);
      } else {
        WordsAreRunsSkip(s);
      }
    }
  }

  /** A run of a suffix cut at a word boundary is a run of the whole text. */
  lemma SuffixRunIsRun(s: string, d: nat, t: string, i: int, j: int)
    requires d <= |s| && t == s[d..] && 0 <= i
    requires d == 0 || d == |s| || !IsWordChar(s[d - 1]) || !IsWordChar(s[d])
    requires IsRun(t, i, j)
    ensures IsRun(s, i + d, j + d) && t[i..j] == s[i + d..j + d]
  {
    RunShift(s, d, i, j);
  }

  /** A run of the whole text that starts at or after such a cut is a run
      of the suffix. */
  lemma RunIsSuffixRun(s: string, d: nat, t: string, i: int, j: int)
    requires d <= |s| && t == s[d..] && d <= i
    requires d == 0 || d == |s| || !IsWordChar(s[d - 1]) || !IsWordChar(s[d])
    requires IsRun(s, i, j)
    ensures IsRun(t, i - d, j - d) && t[i - d..j - d] == s[i..j]
  {
    RunShift(s, d, i - d, j - d);
  }

  /** A leading non-word character starts no run and is skipped. */
  lemma {:induction false} WordsAreRunsSkip(s: string)
    requires |s| > 0 && !IsWordChar(s[0])
    ensures forall w :: w in Words(s) ==> exists i, j :: IsRun(s, i, j) && w == s[i..j]
    ensures forall i, j :: IsRun(s, i, j) ==> s[i..j] in Words(s)
    decreases |s|, 0
  {
    WordsAreRuns(s[1..]);
    SkipWordsAreRuns(s, s[1..]);
    SkipRunsAreWords(s, s[1..]);
  }

  lemma SkipWordsAreRuns(s: string, t: string)
    requires |s| > 0 && !IsWordChar(s[0]) && t == s[1..]
    requires forall w :: w in Words(t) ==> exists i, j :: IsRun(t, i, j) && w == t[i..j]
    ensures forall w :: w in Words(s) ==> exists i, j :: IsRun(s, i, j) && w == s[i..j]
  {
    assert Words(s) == Words(t);
    forall w | w in Words(s)
      ensures exists i, j :: IsRun(s, i, j) && w == s[i..j]
    {
      var i, j :| IsRun(t, i, j) && w == t[i..j];
      SuffixRunIsRun(s, 1, t, i, j);
    }
  }

  lemma SkipRunStart(s: string, i: int, j: int)
    requires |s| > 0 && !IsWordChar(s[0])
    requires IsRun(s, i, j)
    ensures 1 <= i
  {
    assert IsWordChar(s[i]);
  }

  lemma SkipRunsAreWords(s: string, t: string)
    requires |s| > 0 && !IsWordChar(s[0]) && t == s[1..]
    requires forall i, j :: IsRun(t, i, j) ==> t[i..j] in Words(t)
    ensures forall i, j :: IsRun(s, i, j) ==> s[i..j] in Words(s)
  {
    assert Words(s) == Words(t);
    forall i, j | IsRun(s, i, j)
      ensures s[i..j] in Words(s)
    {
      SkipRunStart(s, i, j);
      RunIsSuffixRun(s, 1, t, i, j);
    }
  }

  /** A leading word character starts the first word, the leading run. */
  lemma {:induction false} WordsAreRunsLeading(s: string)
    requires |s| > 0 && IsWordChar(s[0])
    ensures forall w :: w in Words(s) ==> exists i, j :: IsRun(s, i, j) && w == s[i..j]
    ensures forall i, j :: IsRun(s, i, j) ==> s[i..j] in Words(s)
    decreases |s|, 0
  {
    var n := WordLength(s);
    WordsAreRuns(s[n..]);
    LeadingWordsAreRuns(s, n, s[n..]);
    LeadingRunsAreWords(s, n, s[n..]);
  }

  lemma LeadingRunIsRun(s: string)
    requires |s| > 0 && IsWordChar(s[0])
    ensures IsRun(s, 0, WordLength(s)) && s[..WordLength(s)] == s[0..WordLength(s)]
  {
  }

  lemma LeadingWordsAreRuns(s: string, n: nat, t: string)
    requires |s| > 0 && IsWordChar(s[0])
    requires n == WordLength(s) && t == s[n..]
    requires forall w :: w in Words(t) ==> exists i, j :: IsRun(t, i, j) && w == t[i..j]
    ensures forall w :: w in Words(s) ==> exists i, j :: IsRun(s, i, j) && w == s[i..j]
  {
    assert Words(s) == [s[..n]] + Words(t);
    forall w | w in Words(s)
      ensures exists i, j :: IsRun(s, i, j) && w == s[i..j]
    {
      if w == s[..n] {
        LeadingRunIsRun(s);
      } else {
        assert w in Words(t);
        var i, j :| IsRun(t, i, j) && w == t[i..j];
        SuffixRunIsRun(s, n, t, i, j);
      }
    }
  }

  lemma LeadingRunsAreWords(s: string, n: nat, t: string)
    requires |s| > 0 && IsWordChar(s[0])
    requires n == WordLength(s) && t == s[n..]
    requires forall i, j :: IsRun(t, i, j) ==> t[i..j] in Words(t)
    ensures forall i, j :: IsRun(s, i, j) ==> s[i..j] in Words(s)
  {
    assert Words(s) == [s[..n]] + Words(t);
    forall i, j | IsRun(s, i, j)
      ensures s[i..j] in Words(s)
    {
      LeadingRun(s, i, j);
      if i == 0 {
        LeadingRunIsRun(s);
      } else {
        RunIsSuffixRun(s, n, t, i, j);
      }
    }
  }

  /** The word characters of `s`, in order. */
  function WordChars(s: string): (r: string)
    ensures forall k :: 0 <= k < |r| ==> IsWordChar(r[k])
  {
    if |s| == 0 then []
    else (if IsWordChar(s[0]) then [s[0]] else []) + WordChars(s[1..])
  }

  /** The strings of `ws` concatenated in order. */
  function Concat(ws: seq<string>): string
  {
    if |ws| == 0 then [] else ws[0] + Concat(ws[1..])
  }

  lemma {:induction false} WordCharsOfRun(s: string, n: nat)
    requires n <= |s|
    requires forall k :: 0 <= k < n ==> IsWordChar(s[k])
    ensures WordChars(s) == s[..n] + WordChars(s[n..])
  {
    if n > 0 {
      WordCharsOfRun(s[1..], n - 1);
      assert s[1..][n - 1..] == s[n..];
      assert s[..n] == [s[0]] + s[1..][..n - 1];
    }
  }

  /** The words, concatenated in order, are exactly the word characters of
      `s` in order: no word character is lost, repeated or reordered. */
  lemma {:induction false} WordsCoverWordChars(s: string)
    ensures Concat(Words(s)) == WordChars(s)
    decreases |s|
  {
    if |s| > 0 {
      if !IsWordChar(s[0]) {
        WordsCoverWordChars(s[1..]);
      } else {
        var n := WordLength(s);
        WordsCoverWordChars(s[n..]);
        WordCharsOfRun(s, n);
        var ws := Words(s);
        assert ws == [s[..n]] + Words(s[n..]);
        assert ws[1..] == Words(s[n..]);
      }
    }
  }

  /** The nine stopwords of lambda_function_analysis.py. */
  const Stopwords: set<string> := {"the", "and", "of", "to", "a", "is", "in", "for", "on"}

  /** The words that are not stopwords, in order. */
  function DropStopwords(ws: seq<string>): seq<string>
  {
    if |ws| == 0 then []
    else if ws[0] in Stopwords then DropStopwords(ws[1..])
    else [ws[0]] + DropStopwords(ws[1..])
  }

  /** Filtering keeps every occurrence of every other word. */
  lemma {:induction false} DropStopwordsCounts(ws: seq<string>)
    ensures forall w :: w !in Stopwords ==> multiset(DropStopwords(ws))[w] == multiset(ws)[w]
    ensures forall w :: w in Stopwords ==> multiset(DropStopwords(ws))[w] == 0
  {
    if |ws| > 0 {
      DropStopwordsCounts(ws[1..]);
      assert ws == [ws[0]] + ws[1..];
    }
  }

  /** The keywords of a text, in order of occurrence, before counting. */
  function Keywords(text: string): seq<string>
  {
    DropStopwords(Words(Lower(text)))
  }

  /** `Counter(word for word in words if word not in stopwords)`. */
  function KeywordCounts(text: string): Counter<string>
  {
    Count(Keywords(text))
  }

  /** `" ".join(parts)`. */
  function Join(parts: seq<string>): string
  {
    if |parts| == 0 then ""
    else if |parts| == 1 then parts[0]
    else Join(parts[..|parts| - 1]) + " " + parts[|parts| - 1]
  }

  lemma {:induction false} WordLengthSeparated(a: string, b: string)
    ensures WordLength(a + " " + b) == WordLength(a)
  {
    if |a| > 0 && IsWordChar(a[0]) {
      assert (a + " " + b)[1..] == a[1..] + " " + b;
      WordLengthSeparated(a[1..], b);
    }
  }

  /** A space keeps words apart: no word spans it. */
  lemma {:induction false} WordsSeparated(a: string, b: string)
    ensures Words(a + " " + b) == Words(a) + Words(b)
    decreases |a|
  {
    var s := a + " " + b;
    if |a| == 0 {
      assert s[1..] == b;
    } else if !IsWordChar(a[0]) {
      assert s[1..] == a[1..] + " " + b;
      WordsSeparated(a[1..], b);
    } else {
      var n := WordLength(a);
      WordLengthSeparated(a, b);
      assert s[..n] == a[..n];
      assert s[n..] == a[n..] + " " + b;
      WordsSeparated(a[n..], b);
    }
  }

  lemma {:induction false} DropStopwordsAppend(xs: seq<string>, ys: seq<string>)
    ensures DropStopwords(xs + ys) == DropStopwords(xs) + DropStopwords(ys)
  {
    if |xs| == 0 {
      assert xs + ys == ys;
    } else {
      var zs := xs + ys;
      assert zs[0] == xs[0];
      assert zs[1..] == xs[1..] + ys;
      DropStopwordsAppend(xs[1..], ys);
      if xs[0] in Stopwords {
        assert DropStopwords(zs) == DropStopwords(zs[1..]);
        assert DropStopwords(xs) == DropStopwords(xs[1..]);
      } else {
        assert DropStopwords(zs) == [xs[0]] + DropStopwords(zs[1..]);
        assert DropStopwords(xs) == [xs[0]] + DropStopwords(xs[1..]);
        assert [xs[0]] + (DropStopwords(xs[1..]) + DropStopwords(ys)) == [xs[0]] + DropStopwords(xs[1..]) + DropStopwords(ys);
      }
    }
  }

  /** Joining texts with a space before extracting keywords gives the
      keywords of each text in turn: nothing merges across the join. */
  lemma KeywordsSeparated(a: string, b: string)
    ensures Keywords(a + " " + b) == Keywords(a) + Keywords(b)
  {
    assert Lower(a + " " + b) == Lower(a) + " " + Lower(b);
    WordsSeparated(Lower(a), Lower(b));
    DropStopwordsAppend(Words(Lower(a)), Words(Lower(b)));
  }

  /** The keywords of each text in turn. */
  function KeywordsEach(texts: seq<string>): seq<string>
  {
    if |texts| == 0 then [] else KeywordsEach(texts[..|texts| - 1]) + Keywords(texts[|texts| - 1])
  }

  /** The keywords of `" ".join(texts)` are those of each text in turn. */
  lemma {:induction false} KeywordsOfJoin(texts: seq<string>)
    ensures Keywords(Join(texts)) == KeywordsEach(texts)
  {
    var n := |texts|;
    if n == 0 {
      assert Words(Lower("")) == [];
    } else if n == 1 {
      assert texts[..0] == [];
    } else {
      KeywordsOfJoin(texts[..n - 1]);
      KeywordsSeparated(Join(texts[..n - 1]), texts[n - 1]);
    }
  }

  lemma {:induction false} WordsKeepCase(s: string)
    requires forall i :: 0 <= i < |s| ==> !IsUpper(s[i])
    ensures forall k, i :: 0 <= k < |Words(s)| && 0 <= i < |Words(s)[k]| ==> !IsUpper(Words(s)[k][i])
    decreases |s|
  {
    if |s| > 0 {
      if !IsWordChar(s[0]) {
        WordsKeepCase(s[1..]);
      } else {
        var n := WordLength(s);
        WordsKeepCase(s[n..]);
        var r := Words(s);
        assert r == [s[..n]] + Words(s[n..]);
        forall k, i | 0 <= k < |r| && 0 <= i < |r[k]| ensures !IsUpper(r[k][i]) {
          if k == 0 {
            assert r[0][i] == s[i];
          } else {
            assert r[k] == Words(s[n..])[k - 1];
          }
        }
      }
    }
  }

  /** Every keyword is a non-empty run of lower-case word characters that is
      not a stopword, and a word is a keyword exactly when it occurs in the
      lower-cased text and is not a stopword. */
  lemma KeywordsAreClean(text: string)
    ensures forall w :: w in Keywords(text) ==>
      |w| > 0 && w !in Stopwords && forall i :: 0 <= i < |w| ==> IsWordChar(w[i]) && !IsUpper(w[i])
    ensures forall w :: w in Keywords(text) <==> w in Words(Lower(text)) && w !in Stopwords
  {
    var ws := Words(Lower(text));
    WordsKeepCase(Lower(text));
    DropStopwordsCounts(ws);
    forall w ensures w in Keywords(text) <==> w in ws && w !in Stopwords {
      assert w in Keywords(text) <==> w in multiset(Keywords(text));
      assert w in ws <==> w in multiset(ws);
    }
    forall w | w in Keywords(text)
      ensures |w| > 0 && w !in Stopwords && forall i :: 0 <= i < |w| ==> IsWordChar(w[i]) && !IsUpper(w[i])
    {
      var k :| 0 <= k < |ws| && ws[k] == w;
    }
  }

  /** Each keyword is counted once per occurrence, keywords are listed in the
      order they first occur, and the counts add up to the number of
      keyword occurrences. */
  lemma KeywordCountsMeaning(text: string)
    ensures forall w :: w !in Stopwords ==> Get(KeywordCounts(text), w) == multiset(Words(Lower(text)))[w]
    ensures forall w :: w in Stopwords ==> Get(KeywordCounts(text), w) == 0
    ensures DistinctKeys(KeywordCounts(text))
    ensures FirstOccurrenceOrder(KeywordCounts(text), Keywords(text))
    ensures Total(KeywordCounts(text)) == |Keywords(text)|
  {
    var ks := Keywords(text);
    DropStopwordsCounts(Words(Lower(text)));
    forall w ensures Get(Count(ks), w) == multiset(ks)[w] {
      CountGet(ks, w);
    }
    CountShape(ks);
    CountFirstOccurrence(ks);
    CountTotal(ks);
  }
}
