/**
 * The term-frequency table of `fallbackSummarize`: every word of every candidate sentence that is not a
 * stop word and is longer than two characters is counted, and a sentence scores the sum of its words'
 * counts.
 */
module Terms {
  import opened Sentences

  /** The stop-word set of the local summariser. */
  const StopWords: set<string> := {
    "the", "a", "an", "and", "or", "but", "if", "then", "else", "for", "to", "of", "in", "on", "at", "by", "with",
    "is", "are", "was", "were", "be", "been", "it", "its", "as", "that", "this", "these", "those", "from", "we",
    "you", "your", "they", "their", "he", "she", "his", "her", "our", "us"
  }

  /** `!stop.has(w) && w.length > 2`: the words that enter the table. */
  predicate Counted(w: string) { w !in StopWords && |w| > 2 }

  /** `freq.get(w) || 0`. */
  function Get(freq: map<string, nat>, w: string): nat {
    if w in freq then freq[w] else 0
  }

  /** Occurrences of w in ws. */
  function Count(ws: seq<string>, w: string): nat {
    if ws == [] then 0 else Count(ws[..|ws| - 1], w) + (if ws[|ws| - 1] == w then 1 else 0)
  }

  /** The words of the sentences, in order. */
  function AllWords(ss: seq<string>): seq<string> {
    if ss == [] then [] else AllWords(ss[..|ss| - 1]) + Words(ss[|ss| - 1])
  }

  /** The inner loop over one sentence's words, from table f. */
  function Tally(f: map<string, nat>, ws: seq<string>): map<string, nat> {
    if ws == [] then f
    else
      var g := Tally(f, ws[..|ws| - 1]);
      var w := ws[|ws| - 1];
      if Counted(w) then g[w := Get(g, w) + 1] else g
  }

  /** The table after the outer loop has visited every sentence of ss. */
  function TermFreq(ss: seq<string>): map<string, nat> {
    if ss == [] then map[] else Tally(TermFreq(ss[..|ss| - 1]), Words(ss[|ss| - 1]))
  }

  /** The nested loops that fill `freq`. */
  method CountTerms(sentences: seq<string>) returns (freq: map<string, nat>)
    ensures freq == TermFreq(sentences)
  {
    freq := map[];
    for i := 0 to |sentences|
      invariant freq == TermFreq(sentences[..i])
    {
      var ws := Words(sentences[i]);
      ghost var before := freq;
      for j := 0 to |ws|
        invariant freq == Tally(before, ws[..j])
      {
        var w := ws[j];
        if Counted(w) {
          freq := freq[w := Get(freq, w) + 1];
        }
        assert ws[..j + 1][..j] == ws[..j];
      }
      assert ws[..|ws|] == ws;
      assert sentences[..i + 1][..i] == sentences[..i];
    }
    assert sentences[..|sentences|] == sentences;
  }

  lemma {:induction false} CountAppend(a: seq<string>, b: seq<string>, w: string)
    ensures Count(a + b, w) == Count(a, w) + Count(b, w)
    decreases |b|
  {
    if b == [] {
      assert a + b == a;
    } else {
      assert (a + b)[..|a + b| - 1] == a + b[..|b| - 1];
      CountAppend(a, b[..|b| - 1], w);
    }
  }

  lemma {:induction false} CountPositive(ws: seq<string>, w: string)
    requires w in ws
    ensures Count(ws, w) >= 1
  {
    if ws[|ws| - 1] != w {
      var k :| 0 <= k < |ws| && ws[k] == w;
      assert ws[..|ws| - 1][k] == w;
      CountPositive(ws[..|ws| - 1], w);
    }
  }

  lemma {:induction false} TallyCounts(f: map<string, nat>, ws: seq<string>, w: string)
    ensures Get(Tally(f, ws), w) == Get(f, w) + (if Counted(w) then Count(ws, w) else 0)
    ensures w in Tally(f, ws) <==> w in f || (Counted(w) && Count(ws, w) > 0)
  {
    if ws != [] {
      TallyCounts(f, ws[..|ws| - 1], w);
    }
  }

  /**
   * The table counts exactly the counted words: each one's entry is its number of occurrences in all the
   * sentences, and a word has an entry exactly when it is counted and occurs.
   */
  lemma {:induction false} TermFreqCounts(ss: seq<string>, w: string)
    ensures Get(TermFreq(ss), w) == (if Counted(w) then Count(AllWords(ss), w) else 0)
    ensures w in TermFreq(ss) <==> Counted(w) && Count(AllWords(ss), w) > 0
  {
    if ss != [] {
      var init := ss[..|ss| - 1];
      TermFreqCounts(init, w);
      TallyCounts(TermFreq(init), Words(ss[|ss| - 1]), w);
      CountAppend(AllWords(init), Words(ss[|ss| - 1]), w);
    }
  }

  /** `reduce((sum, w) => sum + (freq.get(w) || 0), 0)`. */
  function WordsScore(freq: map<string, nat>, ws: seq<string>): nat {
    if ws == [] then 0 else WordsScore(freq, ws[..|ws| - 1]) + Get(freq, ws[|ws| - 1])
  }

  /** A sentence's score: the table entries of its words summed, repeats included. */
  function Score(freq: map<string, nat>, s: string): nat {
    WordsScore(freq, Words(s))
  }

  lemma {:induction false} WordsScoreAtLeast(freq: map<string, nat>, ws: seq<string>, k: nat)
    requires k < |ws|
    ensures WordsScore(freq, ws) >= Get(freq, ws[k])
  {
    if k < |ws| - 1 {
      assert ws[..|ws| - 1][k] == ws[k];
      WordsScoreAtLeast(freq, ws[..|ws| - 1], k);
    }
  }

  lemma {:induction false} WordsScoreUncounted(ss: seq<string>, ws: seq<string>)
    requires forall k :: 0 <= k < |ws| ==> !Counted(ws[k])
    ensures WordsScore(TermFreq(ss), ws) == 0
  {
    if ws != [] {
      TermFreqCounts(ss, ws[|ws| - 1]);
      WordsScoreUncounted(ss, ws[..|ws| - 1]);
    }
  }

  lemma {:induction false} AllWordsHas(ss: seq<string>, k: nat, w: string)
    requires k < |ss| && w in Words(ss[k])
    ensures w in AllWords(ss)
  {
    if k < |ss| - 1 {
      assert ss[..|ss| - 1][k] == ss[k];
      AllWordsHas(ss[..|ss| - 1], k, w);
    }
  }

  /**
   * A sentence scores zero against its own table exactly when none of its words is counted: a counted
   * word always scores at least its occurrence in that very sentence.
   */
  lemma ScoreZeroIff(ss: seq<string>, k: nat)
    requires k < |ss|
    ensures Score(TermFreq(ss), ss[k]) == 0 <==> forall j :: 0 <= j < |Words(ss[k])| ==> !Counted(Words(ss[k])[j])
  {
    var ws := Words(ss[k]);
    if forall j :: 0 <= j < |ws| ==> !Counted(ws[j]) {
      WordsScoreUncounted(ss, ws);
    } else {
      var j :| 0 <= j < |ws| && Counted(ws[j]);
      AllWordsHas(ss, k, ws[j]);
      CountPositive(AllWords(ss), ws[j]);
      TermFreqCounts(ss, ws[j]);
      WordsScoreAtLeast(TermFreq(ss), ws, j);
    }
  }
}
