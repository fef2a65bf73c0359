/** The text handling of `fallbackSummarize`: white-space normalisation, sentence splitting and word matching. */
module Sentences {
  import opened Strings

  /** White space at k, if any, is a plain space followed by a non-white character or the end. */
  predicate SpacedAt(s: string, k: nat)
    requires k < |s|
  {
    IsWhite(s[k]) ==> s[k] == ' ' && (k + 1 < |s| ==> !IsWhite(s[k + 1]))
  }

  /** Only single plain spaces between non-white characters. */
  predicate SingleSpaced(s: string) {
    forall k :: 0 <= k < |s| ==> SpacedAt(s, k)
  }

  /** `replace(/\s+/g, " ")`: every maximal run of white space becomes one space. */
  function Collapse(s: string): (r: string)
    ensures s != "" ==> r != "" && (IsWhite(r[0]) <==> IsWhite(s[0]))
    decreases |s|
  {
    if s == "" then ""
    else if IsWhite(s[0]) then " " + Collapse(TrimStart(s[1..]))
    else [s[0]] + Collapse(s[1..])
  }

  /** Collapsing keeps every non-white character, in order. */
  lemma {:induction false} CollapseVisible(s: string)
    ensures Visible(Collapse(s)) == Visible(s)
    decreases |s|
  {
    if s != "" {
      assert s == [s[0]] + s[1..];
      VisibleAppend([s[0]], s[1..]);
      if IsWhite(s[0]) {
        var rest := s[1..];
        var t := TrimStart(rest);
        CollapseVisible(t);
        assert rest == rest[..|rest| - |t|] + t;
        VisibleAppend(rest[..|rest| - |t|], t);
        VisibleBlank(rest[..|rest| - |t|]);
        VisibleAppend(" ", Collapse(t));
      } else {
        CollapseVisible(s[1..]);
        VisibleAppend([s[0]], Collapse(s[1..]));
      }
    }
  }

  /** After collapsing, white space is single plain spaces. */
  lemma {:induction false} CollapseSingleSpaced(s: string)
    ensures SingleSpaced(Collapse(s))
    decreases |s|
  {
    if s != "" {
      if IsWhite(s[0]) {
        var t := TrimStart(s[1..]);
        CollapseSingleSpaced(t);
        var r := Collapse(s);
        assert r == " " + Collapse(t);
        forall k | 0 <= k < |r| ensures SpacedAt(r, k) {
          if k > 0 { assert r[k] == Collapse(t)[k - 1]; assert SpacedAt(Collapse(t), k - 1); }
          if k + 1 < |r| { assert r[k + 1] == Collapse(t)[k]; }
        }
      } else {
        CollapseSingleSpaced(s[1..]);
        var r := Collapse(s);
        assert r == [s[0]] + Collapse(s[1..]);
        forall k | 0 <= k < |r| ensures SpacedAt(r, k) {
          if k > 0 { assert r[k] == Collapse(s[1..])[k - 1]; assert SpacedAt(Collapse(s[1..]), k - 1); }
          if k + 1 < |r| { assert r[k + 1] == Collapse(s[1..])[k]; }
        }
      }
    }
  }

  /** The last character is white space. */
  predicate EndsWhite(s: string) { s != "" && IsWhite(s[|s| - 1]) }

  /** The first character is white space. */
  predicate StartsWhite(s: string) { s != "" && IsWhite(s[0]) }

  /** Collapsing looks at one character at a time: white space starts a run that becomes one space. */
  lemma CollapseCons(c: char, t: string)
    ensures Collapse([c] + t) == if IsWhite(c) then " " + Collapse(TrimStart(t)) else [c] + Collapse(t)
  {
    assert ([c] + t)[0] == c;
    assert ([c] + t)[1..] == t;
  }

  /** A suffix that is not empty ends where the text ends. */
  lemma SuffixEnds(s: string, u: string)
    requires u != "" && |u| <= |s| && u == s[|s| - |u|..]
    ensures EndsWhite(u) == EndsWhite(s)
  {
    assert u[|u| - 1] == s[|s| - 1];
  }

  /** The step for a text starting with a character that is not white space. */
  lemma CollapseAppendVisible(c: char, t: string, b: string)
    requires !IsWhite(c) && Collapse(t + b) == Collapse(t) + Collapse(b)
    ensures Collapse([c] + t + b) == Collapse([c] + t) + Collapse(b)
  {
    ConsAppend(c, t, b);
    CollapseCons(c, t + b);
    CollapseCons(c, t);
    ConsAppend(c, Collapse(t), Collapse(b));
  }

  /** The step for a text starting with white space that is not blank: its run is skipped. */
  lemma CollapseAppendRun(c: char, t: string, b: string)
    requires IsWhite(c) && !IsBlank(t)
    requires Collapse(TrimStart(t) + b) == Collapse(TrimStart(t)) + Collapse(b)
    ensures Collapse([c] + t + b) == Collapse([c] + t) + Collapse(b)
  {
    ConsAppend(c, t, b);
    CollapseCons(c, t + b);
    CollapseCons(c, t);
    TrimStartAppend(t, b);
    ConsAppend(' ', Collapse(TrimStart(t)), Collapse(b));
  }

  /** The step for a blank text, followed by text that does not start with white space. */
  lemma CollapseAppendBlank(c: char, t: string, b: string)
    requires IsWhite(c) && IsBlank(t) && !StartsWhite(b)
    ensures Collapse([c] + t + b) == Collapse([c] + t) + Collapse(b)
  {
    assert TrimStart(b) == b by {
      if b != "" {
        HeadTail(b);
        TrimStartCons(b[0], b[1..]);
      }
    }
    TrimStartAppend(t, b);
    TrimStartEmpty(t);
    CollapseCons(c, t);
    assert Collapse([c] + t) == " ";
    ConsAppend(c, t, b);
    CollapseCons(c, t + b);
    assert Collapse([c] + t + b) == " " + Collapse(b);
  }

  /** Collapsing works piece by piece wherever the cut does not fall inside a run of white space. */
  lemma {:induction false} CollapseAppend(a: string, b: string)
    requires !(EndsWhite(a) && StartsWhite(b))
    ensures Collapse(a + b) == Collapse(a) + Collapse(b)
    decreases |a|
  {
    if a == "" {
      assert a + b == b;
    } else {
      var c, t := a[0], a[1..];
      HeadTail(a);
      TrimStartEmpty(t);
      if !IsWhite(c) {
        if t != "" {
          SuffixEnds(a, t);
          CollapseAppend(t, b);
        } else {
          assert t + b == b;
        }
        CollapseAppendVisible(c, t, b);
      } else if IsBlank(t) {
        if t != "" { SuffixEnds(a, t); }
        CollapseAppendBlank(c, t, b);
      } else {
        var u := TrimStart(t);
        SuffixEnds(t, u);
        SuffixEnds(a, t);
        CollapseAppend(u, b);
        CollapseAppendRun(c, t, b);
      }
    }
  }

  /** A run of white space followed by text that does not start with white space becomes one space. */
  lemma CollapseRun(w: string, b: string)
    requires w != "" && IsBlank(w) && !StartsWhite(b)
    ensures Collapse(w + b) == " " + Collapse(b)
  {
    HeadTail(w);
    ConsAppend(w[0], w[1..], b);
    CollapseCons(w[0], w[1..] + b);
    BlankCons(w[0], w[1..]);
    TrimStartAppend(w[1..], b);
    assert TrimStart(b) == b by {
      if b != "" { HeadTail(b); TrimStartCons(b[0], b[1..]); }
    }
  }

  /** A character that is not white space is kept as it is. */
  lemma CollapseChar(c: char)
    requires !IsWhite(c)
    ensures Collapse([c]) == [c]
  {
    assert [c][1..] == "";
  }

  /** Each maximal run of white space between two texts becomes exactly one space, in place. */
  lemma CollapseBetween(a: string, w: string, b: string)
    requires !EndsWhite(a) && w != "" && IsBlank(w) && !StartsWhite(b)
    ensures Collapse(a + w + b) == Collapse(a) + " " + Collapse(b)
  {
    assert a + w + b == a + (w + b);
    CollapseAppend(a, w + b);
    CollapseRun(w, b);
  }

  /** `raw.replace(/\s+/g, " ").trim()`. */
  function Normalize(raw: string): string {
    Trim(Collapse(raw))
  }

  lemma SingleSpacedDrop(s: string, i: nat)
    requires SingleSpaced(s) && i <= |s|
    ensures SingleSpaced(s[i..])
  {
    forall k | 0 <= k < |s| - i
      ensures SpacedAt(s[i..], k)
    {
      assert SpacedAt(s, i + k);
      assert s[i..][k] == s[i + k];
      if k + 1 < |s| - i { assert s[i..][k + 1] == s[i + k + 1]; }
    }
  }

  lemma SingleSpacedTake(s: string, j: nat)
    requires SingleSpaced(s) && j <= |s|
    ensures SingleSpaced(s[..j])
  {
    forall k | 0 <= k < j
      ensures SpacedAt(s[..j], k)
    {
      assert SpacedAt(s, k);
      assert s[..j][k] == s[k];
      if k + 1 < j { assert s[..j][k + 1] == s[k + 1]; }
    }
  }

  /** The normalised text is empty exactly when the input is blank. */
  lemma NormalizeBlank(raw: string)
    ensures Normalize(raw) == "" <==> IsBlank(raw)
  {
    var c := Collapse(raw);
    CollapseVisible(raw);
    BlankIffInvisible(c);
    BlankIffInvisible(raw);
  }

  /** The normalised text is single-spaced. */
  lemma NormalizeSingleSpaced(raw: string)
    ensures SingleSpaced(Normalize(raw))
  {
    CollapseSingleSpaced(raw);
    TrimSingleSpaced(Collapse(raw));
  }

  /** Trimming keeps a text single-spaced. */
  lemma TrimSingleSpaced(c: string)
    requires SingleSpaced(c)
    ensures SingleSpaced(Trim(c))
  {
    var t := TrimStart(c);
    SingleSpacedDrop(c, |c| - |t|);
    var u := TrimEnd(t);
    SingleSpacedTake(t, |u|);
  }

  /** The normalised text is empty exactly when the input is blank; otherwise it is single-spaced. */
  lemma NormalizeShape(raw: string)
    ensures Normalize(raw) == "" <==> IsBlank(raw)
    ensures SingleSpaced(Normalize(raw))
  {
    NormalizeBlank(raw);
    NormalizeSingleSpaced(raw);
  }

  /** `[A-Z0-9]`: what must follow the white space after a sentence end. */
  predicate SentenceStart(c: char) { ('A' <= c <= 'Z') || ('0' <= c <= '9') }

  /** The end of the white-space run that starts at j. */
  function RunEnd(s: string, j: nat): (e: nat)
    requires j <= |s|
    ensures j <= e <= |s| && IsBlank(s[j..e]) && (e == |s| || !IsWhite(s[e]))
  {
    var t := TrimStart(s[j..]);
    assert s[j..][..|s[j..]| - |t|] == s[j..|s| - |t|];
    |s| - |t|
  }

  /** `/(?<=[\.!\?])\s+(?=[A-Z0-9])/` matches at q: a terminal before it, white space from q on, and an
      upper-case letter or digit right after the (greedy) run. */
  predicate Boundary(s: string, q: nat) {
    1 <= q < |s| && IsTerminal(s[q - 1]) && IsWhite(s[q]) && RunEnd(s, q) < |s| && SentenceStart(s[RunEnd(s, q)])
  }

  /** `split` from a piece starting at p, the search having reached q. */
  function SplitFrom(s: string, p: nat, q: nat): (r: seq<string>)
    requires p <= q <= |s|
    ensures r != []
    decreases |s| - q
  {
    if q == |s| then [s[p..]]
    else if Boundary(s, q) then [s[p..q]] + SplitFrom(s, RunEnd(s, q), RunEnd(s, q))
    else SplitFrom(s, p, q + 1)
  }

  /** `text.split(/(?<=[\.!\?])\s+(?=[A-Z0-9])/)`. */
  function SplitSentences(s: string): seq<string> {
    SplitFrom(s, 0, 0)
  }

  /** The split cuts at the first boundary from q on: the piece from p ends there, and the split goes on
      after that boundary's run of white space. */
  lemma {:induction false} SplitAtFirstBoundary(s: string, p: nat, q: nat, b: nat)
    requires p <= q <= b < |s| && Boundary(s, b)
    requires forall j :: q <= j < b ==> !Boundary(s, j)
    ensures SplitFrom(s, p, q) == [s[p..b]] + SplitFrom(s, RunEnd(s, b), RunEnd(s, b))
    decreases b - q
  {
    if q < b {
      SplitAtFirstBoundary(s, p, q + 1, b);
    }
  }

  /** With no boundary from q on, the rest of the text from p is the last piece. */
  lemma {:induction false} SplitWithoutBoundary(s: string, p: nat, q: nat)
    requires p <= q <= |s| && forall j :: q <= j < |s| ==> !Boundary(s, j)
    ensures SplitFrom(s, p, q) == [s[p..]]
    decreases |s| - q
  {
    if q < |s| {
      SplitWithoutBoundary(s, p, q + 1);
    }
  }

  /** In single-spaced text a white-space run is one character long. */
  lemma SingleRun(s: string, q: nat)
    requires SingleSpaced(s) && q < |s| && IsWhite(s[q])
    ensures RunEnd(s, q) == q + 1
  {
    assert SpacedAt(s, q);
    if q + 1 < |s| {
      assert !IsWhite(s[q + 1]);
      assert s[q..][1..] == s[q + 1..];
      assert TrimStart(s[q + 1..]) == s[q + 1..];
    } else {
      assert s[q..][1..] == [];
    }
  }

  lemma JoinCons(x: string, rest: seq<string>, sep: string)
    requires rest != []
    ensures Join([x] + rest, sep) == x + sep + Join(rest, sep)
  {
    assert ([x] + rest)[1..] == rest;
    HeadTail(rest);
  }

  /** The pieces from p, the search having reached q, joined with spaces give back the text from p. */
  predicate JoinsBack(s: string, p: nat, q: nat)
    requires p <= q <= |s|
  {
    Join(SplitFrom(s, p, q), " ") == s[p..]
  }

  /** At a boundary the piece so far, a space and the join of the rest give back the text from p. */
  lemma JoinAtBoundary(s: string, p: nat, q: nat)
    requires p <= q < |s| && SingleSpaced(s) && Boundary(s, q) && JoinsBack(s, q + 1, q + 1)
    ensures JoinsBack(s, p, q)
  {
    SingleRun(s, q);
    var rest := SplitFrom(s, q + 1, q + 1);
    assert SplitFrom(s, p, q) == [s[p..q]] + rest;
    JoinCons(s[p..q], rest, " ");
    assert SpacedAt(s, q);
    SplitAtSpace(s, p, q);
  }

  /** Cutting out the space at q and putting it back gives the same text. */
  lemma SplitAtSpace(s: string, p: nat, q: nat)
    requires p <= q < |s| && s[q] == ' '
    ensures s[p..q] + " " + s[q + 1..] == s[p..]
  {
  }

  lemma JoinAtEnd(s: string, p: nat)
    requires p <= |s|
    ensures JoinsBack(s, p, |s|)
  {
    assert SplitFrom(s, p, |s|) == [s[p..]];
  }

  lemma SkipNonBoundary(s: string, p: nat, q: nat)
    requires p <= q < |s| && !Boundary(s, q) && JoinsBack(s, p, q + 1)
    ensures JoinsBack(s, p, q)
  {
    assert SplitFrom(s, p, q) == SplitFrom(s, p, q + 1);
  }

  lemma {:induction false} SplitFromJoin(s: string, p: nat, q: nat)
    requires p <= q <= |s| && SingleSpaced(s)
    ensures JoinsBack(s, p, q)
    decreases |s| - q, 1
  {
    if q == |s| {
      JoinAtEnd(s, p);
    } else if Boundary(s, q) {
      SplitFromJoinAtBoundary(s, p, q);
    } else {
      SplitFromJoinSkip(s, p, q);
    }
  }

  /** The step of SplitFromJoin at a boundary: the rest is split from just after its one space. */
  lemma {:induction false} SplitFromJoinAtBoundary(s: string, p: nat, q: nat)
    requires p <= q < |s| && SingleSpaced(s) && Boundary(s, q)
    ensures JoinsBack(s, p, q)
    decreases |s| - q, 0
  {
    SplitFromJoin(s, q + 1, q + 1);
    JoinAtBoundary(s, p, q);
  }

  /** The step of SplitFromJoin where the pattern does not match. */
  lemma {:induction false} SplitFromJoinSkip(s: string, p: nat, q: nat)
    requires p <= q < |s| && SingleSpaced(s) && !Boundary(s, q)
    ensures JoinsBack(s, p, q)
    decreases |s| - q, 0
  {
    SplitFromJoin(s, p, q + 1);
    SkipNonBoundary(s, p, q);
  }

  /** On single-spaced text, splitting into sentences loses nothing: joining them with spaces gives the text back. */
  lemma SplitJoin(s: string)
    requires SingleSpaced(s)
    ensures Join(SplitSentences(s), " ") == s
  {
    SplitFromJoin(s, 0, 0);
    assert s[0..] == s;
  }

  /** Sentences kept as candidates must be longer than this. */
  const MinSentenceLength: nat := 20

  /** At most this many candidates are kept. */
  const MaxCandidates: nat := 900

  /** `.filter((s) => s.length > 20)`. */
  function LongEnough(ss: seq<string>): (r: seq<string>)
    ensures |r| <= |ss|
    ensures forall k :: 0 <= k < |r| ==> |r[k]| > MinSentenceLength && r[k] in ss
    ensures (forall k :: 0 <= k < |ss| ==> |ss[k]| > MinSentenceLength) ==> r == ss
  {
    if ss == [] then []
    else (if |ss[0]| > MinSentenceLength then [ss[0]] else []) + LongEnough(ss[1..])
  }

  /** The filter works element by element, keeping the order. */
  lemma {:induction false} LongEnoughAppend(a: seq<string>, b: seq<string>)
    ensures LongEnough(a + b) == LongEnough(a) + LongEnough(b)
  {
    if a == [] {
      assert a + b == b;
    } else {
      var x, t := a[0], a[1..];
      HeadTail(a);
      ConsAppend(x, t, b);
      var k := if |x| > MinSentenceLength then [x] else [];
      LongEnoughCons(x, t + b);
      LongEnoughCons(x, t);
      LongEnoughAppend(t, b);
      AppendAssoc(k, LongEnough(t), LongEnough(b));
    }
  }

  lemma LongEnoughCons(x: string, t: seq<string>)
    ensures LongEnough([x] + t) == (if |x| > MinSentenceLength then [x] else []) + LongEnough(t)
  {
    assert ([x] + t)[0] == x;
    assert ([x] + t)[1..] == t;
  }

  /** One sentence is kept exactly when it is longer than 20 characters. */
  lemma LongEnoughOne(x: string)
    ensures LongEnough([x]) == if |x| > MinSentenceLength then [x] else []
  {
    assert [x][1..] == [];
  }

  /** Every sentence longer than 20 characters is kept. */
  lemma {:induction false} LongEnoughKeeps(ss: seq<string>)
    ensures forall x :: x in ss && |x| > MinSentenceLength ==> x in LongEnough(ss)
  {
    if ss != [] {
      LongEnoughKeeps(ss[1..]);
      forall x | x in ss && |x| > MinSentenceLength ensures x in LongEnough(ss) {
        if x != ss[0] {
          assert x in ss[1..];
        }
      }
    }
  }

  /** The candidate sentences: split, filtered to those over 20 characters, the first 900 kept. */
  function Candidates(text: string): (r: seq<string>)
    ensures |r| <= MaxCandidates
    ensures forall k :: 0 <= k < |r| ==> |r[k]| > MinSentenceLength
    ensures |r| <= |LongEnough(SplitSentences(text))| && r == LongEnough(SplitSentences(text))[..|r|]
    ensures |r| == Min(|LongEnough(SplitSentences(text))|, MaxCandidates)
  {
    var long := LongEnough(SplitSentences(text));
    if |long| <= MaxCandidates then long else long[..MaxCandidates]
  }

  /** `[a-z]`: a word's first character. */
  predicate WordStart(c: char) { 'a' <= c <= 'z' }

  /** `[a-z0-9'-]`: the characters a word continues with. */
  predicate WordChar(c: char) { ('a' <= c <= 'z') || ('0' <= c <= '9') || c == '\'' || c == '-' }

  /** A match of the word pattern: one of `[a-z]`, then any number of `[a-z0-9'-]`. */
  predicate IsWord(w: string) {
    |w| >= 1 && WordStart(w[0]) && forall k :: 0 <= k < |w| ==> WordChar(w[k])
  }

  /** The end of the greedy run of `[a-z0-9'-]` from i. */
  function WordEnd(s: string, i: nat): (e: nat)
    requires i <= |s|
    ensures i <= e <= |s| && (forall k :: i <= k < e ==> WordChar(s[k])) && (e == |s| || !WordChar(s[e]))
    decreases |s| - i
  {
    if i < |s| && WordChar(s[i]) then WordEnd(s, i + 1) else i
  }

  /** Global matching of the word pattern from i on: after a match the search resumes where it ended. */
  function WordsFrom(s: string, i: nat): (ws: seq<string>)
    requires i <= |s|
    ensures forall k :: 0 <= k < |ws| ==> IsWord(ws[k])
    decreases |s| - i
  {
    if i == |s| then []
    else if WordStart(s[i]) then
      var e := WordEnd(s, i + 1);
      [s[i..e]] + WordsFrom(s, e)
    else WordsFrom(s, i + 1)
  }

  /** The next match starts at the first `[a-z]` from i on and runs greedily; the search resumes after it. */
  lemma {:induction false} WordsFromFirst(s: string, i: nat, j: nat)
    requires i <= j < |s| && WordStart(s[j]) && forall k :: i <= k < j ==> !WordStart(s[k])
    ensures WordsFrom(s, i) == [s[j..WordEnd(s, j + 1)]] + WordsFrom(s, WordEnd(s, j + 1))
    decreases j - i
  {
    if i < j {
      WordsFromFirst(s, i + 1, j);
    }
  }

  /** Without an `[a-z]` from i on, nothing more matches. */
  lemma {:induction false} WordsFromNone(s: string, i: nat)
    requires i <= |s| && forall k :: i <= k < |s| ==> !WordStart(s[k])
    ensures WordsFrom(s, i) == []
    decreases |s| - i
  {
    if i < |s| {
      WordsFromNone(s, i + 1);
    }
  }

  /** The `[a-z]` characters of s, in order. */
  function Letters(s: string): string {
    if s == "" then "" else (if WordStart(s[0]) then [s[0]] else "") + Letters(s[1..])
  }

  lemma LettersCons(c: char, t: string)
    ensures Letters([c] + t) == (if WordStart(c) then [c] else "") + Letters(t)
  {
    assert ([c] + t)[0] == c;
    assert ([c] + t)[1..] == t;
  }

  lemma {:induction false} LettersAppend(a: string, b: string)
    ensures Letters(a + b) == Letters(a) + Letters(b)
  {
    if a == "" {
      assert a + b == b;
    } else {
      var c, t := a[0], a[1..];
      HeadTail(a);
      ConsAppend(c, t, b);
      LettersCons(c, t + b);
      LettersCons(c, t);
      LettersAppend(t, b);
    }
  }

  /** The words, end to end, hold every `[a-z]` character of the text from i, in order, and no other. */
  lemma {:induction false} WordsFromLetters(s: string, i: nat)
    requires i <= |s|
    ensures Letters(Concat(WordsFrom(s, i))) == Letters(s[i..])
    decreases |s| - i
  {
    if i < |s| {
      if WordStart(s[i]) {
        var e := WordEnd(s, i + 1);
        var rest := WordsFrom(s, e);
        WordsFromLetters(s, e);
        assert WordsFrom(s, i) == [s[i..e]] + rest;
        assert Concat([s[i..e]] + rest) == s[i..e] + Concat(rest) by {
          assert ([s[i..e]] + rest)[1..] == rest;
        }
        assert s[i..] == s[i..e] + s[e..];
        LettersAppend(s[i..e], s[e..]);
        LettersAppend(s[i..e], Concat(rest));
      } else {
        WordsFromLetters(s, i + 1);
        assert s[i..] == [s[i]] + s[i + 1..];
        LettersAppend([s[i]], s[i + 1..]);
        assert Letters([s[i]]) == "" by { assert [s[i]][1..] == ""; }
      }
    }
  }

  /** `s.toLowerCase().match(...)` with the global word pattern, or `[]` when nothing matches. */
  function Words(s: string): seq<string> {
    WordsFrom(Lower(s), 0)
  }
}
