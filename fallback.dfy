/**
 * `fallbackSummarize`: the local extractive summariser used when the hosted engine is unavailable. It
 * normalises the text, keeps the first 900 sentences longer than 20 characters, scores them by term
 * frequency, keeps the best `base` of them (ties to the earlier sentence), restores document order and lays
 * them out as three bulleted sections.
 */
module Fallback {
  import opened Strings
  import opened LengthPolicy
  import opened Sentences
  import opened StableSort
  import opened Terms

  const NoReadableText := "No readable text.\n"

  /** How many sentences the summary keeps: long 18, medium 12, anything else 6. */
  function BaseCount(preset: Preset): nat {
    if preset == Long then 18 else if preset == Medium then 12 else 6
  }

  /** `sentences.map((s, i) => ({ i, s, score }))`. */
  function ScoredSentences(freq: map<string, nat>, ss: seq<string>): (items: seq<Scored>)
    ensures |items| == |ss|
    ensures forall i :: 0 <= i < |items| ==> items[i] == Scored(i, ss[i], Score(freq, ss[i]))
  {
    seq(|ss|, i requires 0 <= i < |ss| => Scored(i, ss[i], Score(freq, ss[i])))
  }

  /** Every item sits at its own position. */
  predicate AtOwnIndex(items: seq<Scored>) {
    forall i :: 0 <= i < |items| ==> items[i].index == i
  }

  /** By score, highest first; the first `base` of those; back into document order. */
  function Chosen(items: seq<Scored>, base: nat): seq<Scored> {
    var ranked := Sort(ByScoreDescending, items);
    Sort(ByIndex, ranked[..Min(|items|, base)])
  }

  lemma MemberAtOwnIndex(items: seq<Scored>, x: Scored)
    requires AtOwnIndex(items) && x in multiset(items)
    ensures x.index < |items| && x == items[x.index]
  {
    assert x in items;
  }

  /** Sorting by score keeps every item, ordered by score with ties in document order. */
  lemma RankedFacts(items: seq<Scored>)
    requires AtOwnIndex(items)
    ensures multiset(Sort(ByScoreDescending, items)) == multiset(items)
    ensures |Sort(ByScoreDescending, items)| == |items|
    ensures StablySorted(ByScoreDescending, Sort(ByScoreDescending, items))
  {
    SortPermutes(ByScoreDescending, items);
    SortStable(ByScoreDescending, items);
  }

  lemma {:induction false} HeadDistinct(items: seq<Scored>, take: nat)
    requires AtOwnIndex(items) && take <= |items|
    ensures DistinctIndices(Sort(ByScoreDescending, items)[..take])
  {
    var ranked := Sort(ByScoreDescending, items);
    RankedFacts(items);
    var head := ranked[..take];
    forall a, b | 0 <= a < |head| && 0 <= b < |head| && a != b ensures head[a].index != head[b].index {
      assert head[a] == ranked[a] && head[b] == ranked[b];
      MemberAtOwnIndex(items, ranked[a]);
      MemberAtOwnIndex(items, ranked[b]);
      if a < b {
        assert Before(ByScoreDescending, ranked[a], ranked[b]);
      } else {
        assert Before(ByScoreDescending, ranked[b], ranked[a]);
      }
    }
  }

  /**
   * What `scored.slice(0, take).sort((a, b) => a.i - b.i)` selects: `take` = min(count, base) of the
   * items, each one of them, in document order, and every selected item beats every item left out (a
   * higher score, or the same score and an earlier sentence).
   */
  lemma {:induction false} Selection(items: seq<Scored>, base: nat)
    requires AtOwnIndex(items)
    ensures |Chosen(items, base)| == Min(|items|, base)
    ensures IndexIncreasing(Chosen(items, base))
    ensures forall k :: 0 <= k < |Chosen(items, base)| ==>
      Chosen(items, base)[k].index < |items| && Chosen(items, base)[k] == items[Chosen(items, base)[k].index]
    ensures forall k, i :: 0 <= k < |Chosen(items, base)| && 0 <= i < |items| && items[i] !in Chosen(items, base) ==>
      Before(ByScoreDescending, Chosen(items, base)[k], items[i])
  {
    var ranked := Sort(ByScoreDescending, items);
    RankedFacts(items);
    var take := Min(|items|, base);
    var head := ranked[..take];
    var c := Sort(ByIndex, head);
    SortPermutes(ByIndex, head);
    HeadDistinct(items, take);
    SortByIndexIncreasing(head);
    forall k | 0 <= k < |c| ensures c[k].index < |items| && c[k] == items[c[k].index] {
      assert c[k] in multiset(head);
      assert head[..] <= ranked;
      assert c[k] in multiset(ranked);
      MemberAtOwnIndex(items, c[k]);
    }
    forall k, i | 0 <= k < |c| && 0 <= i < |items| && items[i] !in c ensures Before(ByScoreDescending, c[k], items[i]) {
      LeftOutLoses(items, take, c[k], items[i]);
    }
  }

  /** An item among the first `take` by score beats one that is not among them. */
  lemma LeftOutLoses(items: seq<Scored>, take: nat, x: Scored, y: Scored)
    requires AtOwnIndex(items) && take <= |items|
    requires x in multiset(Sort(ByIndex, Sort(ByScoreDescending, items)[..take]))
    requires y in multiset(items) && y !in multiset(Sort(ByIndex, Sort(ByScoreDescending, items)[..take]))
    ensures Before(ByScoreDescending, x, y)
  {
    var ranked := Sort(ByScoreDescending, items);
    RankedFacts(items);
    var head := ranked[..take];
    SortPermutes(ByIndex, head);
    assert x in head;
    var a :| 0 <= a < |head| && head[a] == x;
    assert y in ranked;
    var b :| 0 <= b < |ranked| && ranked[b] == y;
    assert ranked[a] == x;
    assert y !in multiset(head);
    assert forall j :: 0 <= j < take ==> ranked[j] != y by {
      forall j | 0 <= j < take ensures ranked[j] != y {
        assert head[j] == ranked[j];
      }
    }
  }

  /** `.map((x) => x.s.trim())`. */
  function Trimmed(xs: seq<Scored>): (top: seq<string>)
    ensures |top| == |xs|
    ensures forall k :: 0 <= k < |top| ==> top[k] == Trim(xs[k].sentence)
  {
    seq(|xs|, k requires 0 <= k < |xs| => Trim(xs[k].sentence))
  }

  /** `Math.max(1, Math.floor(n / 3))`. */
  function Third(n: nat): nat { Max(1, n / 3) }

  /** Where the first section ends: `third`, as far as the selection reaches. */
  function FirstCut(top: seq<string>): nat { Min(Third(|top|), |top|) }

  /** Where the second section ends: `third * 2`, as far as the selection reaches. */
  function SecondCut(top: seq<string>): nat { Min(2 * Third(|top|), |top|) }

  /** `top.slice(0, third)`. */
  function TlDr(top: seq<string>): seq<string> { top[..FirstCut(top)] }

  /** `top.slice(third, third * 2)`. */
  function KeyPoints(top: seq<string>): seq<string> { top[FirstCut(top)..SecondCut(top)] }

  /** `top.slice(third * 2)`. */
  function Details(top: seq<string>): seq<string> { top[SecondCut(top)..] }

  /**
   * The three sections split the selection without loss or overlap; from three sentences on each section
   * has at least one, the first two a third each, rounded down, and the last the rest.
   */
  lemma Layout(top: seq<string>)
    ensures TlDr(top) + KeyPoints(top) + Details(top) == top
    ensures |top| >= 3 ==> |TlDr(top)| == |KeyPoints(top)| == |top| / 3 >= 1
    ensures |top| >= 3 ==> |Details(top)| == |top| - 2 * (|top| / 3) >= 1
    ensures |top| == 1 ==> TlDr(top) == top && KeyPoints(top) == [] && Details(top) == []
    ensures |top| == 2 ==> TlDr(top) == [top[0]] && KeyPoints(top) == [top[1]] && Details(top) == []
  {
    SliceThree(top, FirstCut(top), SecondCut(top));
  }

  lemma SliceThree<T>(xs: seq<T>, a: nat, b: nat)
    requires a <= b <= |xs|
    ensures xs[..a] + xs[a..b] + xs[b..] == xs
  {
  }

  /** Where each part sits in three headed sections, the second and third after a separator line. */
  lemma SectionsIndex<T>(h1: T, xs: seq<T>, e: T, h2: T, ys: seq<T>, h3: T, zs: seq<T>)
    ensures var ls := [h1] + xs + [e, h2] + ys + [e, h3] + zs;
      && |ls| == |xs| + |ys| + |zs| + 5
      && ls[0] == h1 && ls[|xs| + 1] == e && ls[|xs| + 2] == h2
      && ls[|xs| + |ys| + 3] == e && ls[|xs| + |ys| + 4] == h3
      && (forall k :: 0 <= k < |xs| ==> ls[k + 1] == xs[k])
      && (forall k :: 0 <= k < |ys| ==> ls[|xs| + 3 + k] == ys[k])
      && (forall k :: 0 <= k < |zs| ==> ls[|xs| + |ys| + 5 + k] == zs[k])
  {
  }

  /** The bullet, U+2022, and a space. */
  const BulletMark := "\U{2022} "

  /** `` `\U{2022} ${s}` ``: each sentence after the bullet mark. */
  function Bullets(xs: seq<string>): (r: seq<string>)
    ensures |r| == |xs|
    ensures forall k :: 0 <= k < |r| ==> r[k] == BulletMark + xs[k]
  {
    seq(|xs|, k requires 0 <= k < |xs| => BulletMark + xs[k])
  }

  /** Three headed sections of bullets, split at i and j, the second and third after a blank line. */
  function Sections(top: seq<string>, i: nat, j: nat): seq<string>
    requires i <= j <= |top|
  {
    ["TL;DR:"] + Bullets(top[..i]) + ["", "Key Points:"] + Bullets(top[i..j]) + ["", "Details:"] + Bullets(top[j..])
  }

  /** The lines of the summary before they are joined with newlines. */
  function Lines(top: seq<string>): seq<string> {
    Sections(top, FirstCut(top), SecondCut(top))
  }

  function Render(top: seq<string>): string {
    Join(Lines(top), "\n")
  }

  /** The line of Sections(top, i, j) that shows sentence k: after the first heading, two more lines per section passed. */
  function SectionLine(k: nat, i: nat, j: nat): nat {
    k + 1 + (if k >= i then 2 else 0) + (if k >= j then 2 else 0)
  }

  /** The line that shows the k-th selected sentence. */
  function LinePosition(top: seq<string>, k: nat): nat {
    SectionLine(k, FirstCut(top), SecondCut(top))
  }

  /**
   * The summary's lines: the three headings with a blank line before the second and third, and every
   * selected sentence, in order, as a bullet under the heading of its section.
   */
  lemma LinesShape(top: seq<string>)
    ensures |Lines(top)| == |top| + 5
    ensures var a, b := |TlDr(top)|, |KeyPoints(top)|;
      Lines(top)[0] == "TL;DR:" && Lines(top)[a + 1] == "" && Lines(top)[a + 2] == "Key Points:"
      && Lines(top)[a + b + 3] == "" && Lines(top)[a + b + 4] == "Details:"
    ensures forall k :: 0 <= k < |top| ==> LinePosition(top, k) < |Lines(top)| && Lines(top)[LinePosition(top, k)] == BulletMark + top[k]
  {
    SectionsShape(top, FirstCut(top), SecondCut(top));
  }

  /** The layout with the section bounds i and j left open. */
  lemma SectionsShape(top: seq<string>, i: nat, j: nat)
    requires i <= j <= |top|
    ensures var ls := Sections(top, i, j);
      && |ls| == |top| + 5
      && ls[0] == "TL;DR:" && ls[i + 1] == "" && ls[i + 2] == "Key Points:" && ls[j + 3] == "" && ls[j + 4] == "Details:"
      && forall k :: 0 <= k < |top| ==> SectionLine(k, i, j) < |ls| && ls[SectionLine(k, i, j)] == BulletMark + top[k]
  {
    var t, p, d := top[..i], top[i..j], top[j..];
    var ls := Sections(top, i, j);
    SectionsIndex("TL;DR:", Bullets(t), "", "Key Points:", Bullets(p), "Details:", Bullets(d));
    forall k | 0 <= k < |top|
      ensures SectionLine(k, i, j) < |ls| && ls[SectionLine(k, i, j)] == BulletMark + top[k]
    {
      if k < i {
        assert top[k] == t[k];
        assert ls[k + 1] == Bullets(t)[k];
      } else if k < j {
        assert top[k] == p[k - i];
        assert ls[i + 3 + (k - i)] == Bullets(p)[k - i];
      } else {
        assert top[k] == d[k - j];
        assert ls[i + (j - i) + 5 + (k - j)] == Bullets(d)[k - j];
      }
    }
  }

  /** The sentences the summary shows, in document order, before they are laid out. */
  function TopSentences(text: string, preset: Preset): seq<string> {
    var cands := Candidates(text);
    Trimmed(Chosen(ScoredSentences(TermFreq(cands), cands), BaseCount(preset)))
  }

  /** What `fallbackSummarize(raw, preset)` returns. */
  function Summary(raw: string, preset: Preset): string {
    var text := Normalize(raw);
    if text == "" then NoReadableText else Render(TopSentences(text, preset))
  }

  /** `fallbackSummarize`, with the term-frequency loops run as written. */
  method FallbackSummarize(raw: string, preset: Preset) returns (summary: string)
    ensures summary == Summary(raw, preset)
  {
    var text := Normalize(raw);
    if text == "" {
      return NoReadableText;
    }
    var base := BaseCount(preset);
    var sentences := Candidates(text);
    var freq := CountTerms(sentences);
    var scored := Sort(ByScoreDescending, ScoredSentences(freq, sentences));
    var take := Min(|sentences|, base);
    var top := Trimmed(Sort(ByIndex, scored[..take]));
    summary := Render(top);
  }

  /** The summary opens with its first heading. */
  lemma RenderStartsWithHeading(top: seq<string>)
    ensures |Render(top)| >= 6 && Render(top)[..6] == "TL;DR:"
  {
    var ls := Lines(top);
    LinesShape(top);
    assert Render(top) == ls[0] + Prefixed(ls[1..], "\n");
  }

  /** Text with nothing but white space has no readable text, and only such text. */
  lemma SummaryBlank(raw: string, preset: Preset)
    ensures Summary(raw, preset) == NoReadableText <==> IsBlank(raw)
  {
    NormalizeShape(raw);
    if !IsBlank(raw) {
      RenderStartsWithHeading(TopSentences(Normalize(raw), preset));
      assert NoReadableText[..6][0] == 'N';
    }
  }

  /** The summary is never empty. */
  lemma SummaryNonEmpty(raw: string, preset: Preset)
    ensures Summary(raw, preset) != ""
  {
    NormalizeShape(raw);
    if !IsBlank(raw) {
      RenderStartsWithHeading(TopSentences(Normalize(raw), preset));
    }
  }

  /**
   * On readable text, the summary shows min(candidates, base) sentences: the best-scoring candidates
   * (ties to the earlier one), trimmed, in document order.
   */
  lemma {:induction false} SummarySelection(raw: string, preset: Preset)
    requires !IsBlank(raw)
    ensures var cands := Candidates(Normalize(raw));
      var items := ScoredSentences(TermFreq(cands), cands);
      var chosen := Chosen(items, BaseCount(preset));
      |TopSentences(Normalize(raw), preset)| == Min(|cands|, BaseCount(preset))
      && IndexIncreasing(chosen)
      && (forall k :: 0 <= k < |chosen| ==>
            chosen[k].index < |cands| && TopSentences(Normalize(raw), preset)[k] == Trim(cands[chosen[k].index]))
      && (forall k, i :: 0 <= k < |chosen| && 0 <= i < |items| && items[i] !in chosen ==>
            Before(ByScoreDescending, chosen[k], items[i]))
  {
    var cands := Candidates(Normalize(raw));
    var items := ScoredSentences(TermFreq(cands), cands);
    Selection(items, BaseCount(preset));
  }

  /** With no sentence long enough, only the three headings remain. */
  lemma NoCandidates(raw: string, preset: Preset)
    requires !IsBlank(raw) && Candidates(Normalize(raw)) == []
    ensures Summary(raw, preset) == Join(["TL;DR:", "", "Key Points:", "", "Details:"], "\n")
  {
    NormalizeShape(raw);
    var items := ScoredSentences(TermFreq([]), []);
    assert items == [];
    assert Chosen(items, BaseCount(preset)) == [];
    var top := TopSentences(Normalize(raw), preset);
    assert top == [];
    EmptyLines();
  }

  lemma EmptyLines()
    ensures Lines([]) == ["TL;DR:", "", "Key Points:", "", "Details:"]
  {
    assert TlDr([]) == [] && KeyPoints([]) == [] && Details([]) == [];
  }
}
