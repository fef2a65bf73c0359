/** `splitIntoChunks`: cuts a text into pieces that end, where possible, at a sentence stop. */
module Chunker {
  import opened Strings

  /** The chunk size the orchestrator passes (and the default). */
  const DefaultChunkSize: nat := 2800

  /** How far past the chunk size the search for a sentence stop looks. */
  const Lookahead: nat := 400

  /** The two characters a, then a space, at index j. */
  predicate PairAt(s: string, j: int, a: char) {
    0 <= j && j + 1 < |s| && s[j] == a && s[j + 1] == ' '
  }

  /** A sentence stop at j: a terminal character followed by a plain space. */
  predicate IsStop(s: string, j: int) {
    PairAt(s, j, '.') || PairAt(s, j, '!') || PairAt(s, j, '?')
  }

  /** The greatest j < n at which a space follows a, or -1. */
  function LastPairBelow(s: string, a: char, n: int): (r: int)
    ensures r == -1 || (0 <= r < n && PairAt(s, r, a))
    decreases n
  {
    if n <= 0 then -1
    else if PairAt(s, n - 1, a) then n - 1
    else LastPairBelow(s, a, n - 1)
  }

  /** No pair lies between the one found and n. */
  lemma {:induction false} LastPairBelowIsLast(s: string, a: char, n: int, j: int)
    requires LastPairBelow(s, a, n) < j < n
    ensures !PairAt(s, j, a)
    decreases n
  {
    if n > 0 && !PairAt(s, n - 1, a) && j < n - 1 {
      LastPairBelowIsLast(s, a, n - 1, j);
    }
  }

  /** A pair below n is found, or one after it. */
  lemma {:induction false} LastPairBelowAtLeast(s: string, a: char, n: int, j: int)
    requires 0 <= j < n && PairAt(s, j, a)
    ensures LastPairBelow(s, a, n) >= j
    decreases n
  {
    if !PairAt(s, n - 1, a) {
      LastPairBelowAtLeast(s, a, n - 1, j);
    }
  }

  /** `s.lastIndexOf(a + " ")`: the greatest index of the two-character pattern, or -1. */
  function LastIndexOfStop(s: string, a: char): (r: int)
    ensures r == -1 || PairAt(s, r, a)
  {
    LastPairBelow(s, a, |s|)
  }

  /** The greatest of `lastIndexOf(". ")`, `lastIndexOf("! ")` and `lastIndexOf("? ")`: the last sentence stop, or -1. */
  function LastStop(s: string): (r: int)
    ensures r == -1 || IsStop(s, r)
  {
    Max(Max(LastIndexOfStop(s, '.'), LastIndexOfStop(s, '!')), LastIndexOfStop(s, '?'))
  }

  /** No sentence stop lies after the one LastStop finds. */
  lemma LastStopIsLast(s: string, j: int)
    requires LastStop(s) < j
    ensures !IsStop(s, j)
  {
    if j < |s| {
      LastPairBelowIsLast(s, '.', |s|, j);
      LastPairBelowIsLast(s, '!', |s|, j);
      LastPairBelowIsLast(s, '?', |s|, j);
    }
  }

  /** A sentence stop at j is found, or one after it. */
  lemma LastStopAtLeast(s: string, j: int)
    requires IsStop(s, j)
    ensures LastStop(s) >= j
  {
    if PairAt(s, j, '.') {
      LastPairBelowAtLeast(s, '.', |s|, j);
    } else if PairAt(s, j, '!') {
      LastPairBelowAtLeast(s, '!', |s|, j);
    } else {
      LastPairBelowAtLeast(s, '?', |s|, j);
    }
  }

  /** Where the piece starting at i ends: just after the last stop at a window index above 0, else a hard cut. */
  function Cut(text: string, chunkSize: nat, i: nat): (cut: nat)
    requires chunkSize >= 1 && i < |text|
    ensures i < cut <= |text|
  {
    var end := i + chunkSize;
    var lastStop := LastStop(text[i..Min(end + Lookahead, |text|)]);
    if lastStop > 0 then i + lastStop + 1 else Min(end, |text|)
  }

  /** The pieces the loop pushes, from offset i on, before blank ones are filtered out. */
  function Pieces(text: string, chunkSize: nat, i: nat): seq<string>
    requires chunkSize >= 1 && i <= |text|
    decreases |text| - i
  {
    if i == |text| then [] else [text[i..Cut(text, chunkSize, i)]] + Pieces(text, chunkSize, Cut(text, chunkSize, i))
  }

  /** `c.trim().length > 0`. */
  predicate Readable(c: string) { |Trim(c)| > 0 }

  /** `pieces.filter((c) => c.trim().length > 0)`. */
  function DropBlank(pieces: seq<string>): (r: seq<string>)
    ensures |r| <= |pieces|
  {
    if pieces == [] then []
    else (if Readable(pieces[0]) then [pieces[0]] else []) + DropBlank(pieces[1..])
  }

  /** `c.trim().length > 0` holds exactly for the strings that are not blank. */
  lemma ReadableIff(c: string)
    ensures Readable(c) <==> !IsBlank(c)
  {
  }

  /** The filter keeps only non-blank pieces, each one of the input's. */
  lemma {:induction false} DropBlankMembers(pieces: seq<string>)
    ensures forall c :: c in DropBlank(pieces) ==> !IsBlank(c) && c in pieces
  {
    if pieces != [] {
      var tail := DropBlank(pieces[1..]);
      DropBlankMembers(pieces[1..]);
      ReadableIff(pieces[0]);
      if Readable(pieces[0]) {
        assert DropBlank(pieces) == [pieces[0]] + tail;
      } else {
        assert DropBlank(pieces) == tail;
      }
    }
  }

  /** When no piece is blank the filter keeps them all. */
  lemma {:induction false} DropBlankNone(pieces: seq<string>)
    requires forall c :: c in pieces ==> !IsBlank(c)
    ensures DropBlank(pieces) == pieces
  {
    if pieces != [] {
      assert pieces[0] in pieces;
      ReadableIff(pieces[0]);
      assert forall c :: c in pieces[1..] ==> c in pieces;
      DropBlankNone(pieces[1..]);
      HeadTail(pieces);
    }
  }

  /** What `splitIntoChunks(text, chunkSize)` returns. */
  function Chunks(text: string, chunkSize: nat): seq<string>
    requires chunkSize >= 1
  {
    DropBlank(Pieces(text, chunkSize, 0))
  }

  /** One pass of the loop: the piece up to the cut, then the pieces from the cut on. */
  lemma PiecesStep(text: string, chunkSize: nat, i: nat, cut: nat)
    requires chunkSize >= 1 && i < |text| && cut == Cut(text, chunkSize, i)
    ensures i < cut <= |text|
    ensures Pieces(text, chunkSize, i) == [text[i..cut]] + Pieces(text, chunkSize, cut)
  {
  }

  /** The loop of `splitIntoChunks`: each pass pushes the text from i up to the cut. */
  method CutPieces(text: string, chunkSize: nat) returns (pieces: seq<string>)
    requires chunkSize >= 1
    ensures pieces == Pieces(text, chunkSize, 0)
  {
    pieces := [];
    var i := 0;
    while i < |text|
      invariant i <= |text|
      invariant pieces + Pieces(text, chunkSize, i) == Pieces(text, chunkSize, 0)
      decreases |text| - i
    {
      var end := i + chunkSize;
      var window := text[i..Min(end + Lookahead, |text|)];
      var lastStop := LastStop(window);
      var cut := if lastStop > 0 then i + lastStop + 1 else Min(end, |text|);
      PiecesStep(text, chunkSize, i, cut);
      PushOne(pieces, text[i..cut], Pieces(text, chunkSize, cut));
      pieces := pieces + [text[i..cut]];
      i := cut;
    }
  }

  /** `splitIntoChunks`: the loop, then the filter. */
  method SplitIntoChunks(text: string, chunkSize: nat) returns (chunks: seq<string>)
    requires chunkSize >= 1
    ensures chunks == Chunks(text, chunkSize)
  {
    var pieces := CutPieces(text, chunkSize);
    chunks := DropBlank(pieces);
  }

  /** Each step either cuts after a stop (at least two characters in, shorter than chunkSize + 400, the
      next character a space) or, when the window has no stop above index 0, cuts hard at chunkSize. */
  lemma CutShape(text: string, chunkSize: nat, i: nat)
    requires chunkSize >= 1 && i < |text|
    ensures var cut := Cut(text, chunkSize, i);
      || (i + 2 <= cut < i + chunkSize + Lookahead && cut < |text|
          && IsTerminal(text[cut - 1]) && text[cut] == ' ')
      || (cut == Min(i + chunkSize, |text|)
          && forall j :: i < j && j + 1 < Min(i + chunkSize + Lookahead, |text|) ==> !IsStop(text, j))
  {
    var end := i + chunkSize;
    var window := text[i..Min(end + Lookahead, |text|)];
    var lastStop := LastStop(window);
    if lastStop <= 0 {
      forall j | i < j && j + 1 < Min(end + Lookahead, |text|) ensures !IsStop(text, j) {
        assert window[j - i] == text[j] && window[j - i + 1] == text[j + 1];
        LastStopIsLast(window, j - i);
      }
    }
  }

  /** The pieces placed end to end give back the text from offset i: nothing dropped or repeated. */
  lemma {:induction false} PiecesCover(text: string, chunkSize: nat, i: nat)
    requires chunkSize >= 1 && i <= |text|
    ensures Concat(Pieces(text, chunkSize, i)) == text[i..]
    decreases |text| - i
  {
    if i < |text| {
      var cut := Cut(text, chunkSize, i);
      PiecesCover(text, chunkSize, cut);
      assert text[i..] == text[i..cut] + text[cut..];
    }
  }

  /** The first piece from offset i on: non-empty, shorter than chunkSize + 400, and when longer than
      chunkSize it ends in a terminal character followed, in the text, by a space. */
  lemma FirstPieceBounds(text: string, chunkSize: nat, i: nat)
    requires chunkSize >= 1 && i < |text|
    ensures var cut := Cut(text, chunkSize, i);
      && 0 < cut - i < chunkSize + Lookahead
      && (cut - i > chunkSize ==> cut < |text| && IsTerminal(text[cut - 1]) && text[cut] == ' ')
  {
    CutShape(text, chunkSize, i);
  }

  /** Piece k of ps is non-empty and shorter than chunkSize + 400; one longer than chunkSize ends in a
      terminal character and the piece after it begins with a space. */
  predicate WellCut(ps: seq<string>, chunkSize: nat, k: nat)
    requires k < |ps|
  {
    && 0 < |ps[k]| < chunkSize + Lookahead
    && (|ps[k]| > chunkSize ==> IsTerminal(ps[k][|ps[k]| - 1]) && k + 1 < |ps| && |ps[k + 1]| > 0 && ps[k + 1][0] == ' ')
  }

  lemma WellCutShift(ps: seq<string>, x: string, rest: seq<string>, chunkSize: nat, k: nat)
    requires ps == [x] + rest && 0 < k < |ps| && WellCut(rest, chunkSize, k - 1)
    ensures WellCut(ps, chunkSize, k)
  {
    assert ps[k] == rest[k - 1];
    if k + 1 < |ps| {
      assert ps[k + 1] == rest[k];
    }
  }

  lemma SliceAt<T>(xs: seq<T>, i: nat, j: nat, k: nat)
    requires i <= j <= |xs| && k < j - i
    ensures xs[i..j][k] == xs[i + k]
  {
  }

  lemma WellCutFirst(text: string, chunkSize: nat, i: nat)
    requires chunkSize >= 1 && i < |text|
    ensures WellCut(Pieces(text, chunkSize, i), chunkSize, 0)
  {
    var cut := Cut(text, chunkSize, i);
    var ps := Pieces(text, chunkSize, i);
    var p := text[i..cut];
    PiecesStep(text, chunkSize, i, cut);
    assert ps[0] == p;
    FirstPieceBounds(text, chunkSize, i);
    if cut - i > chunkSize {
      SliceAt(text, i, cut, cut - 1 - i);
      var next := Cut(text, chunkSize, cut);
      var q := text[cut..next];
      PiecesStep(text, chunkSize, cut, next);
      assert ps[1] == q;
      SliceAt(text, cut, next, 0);
    }
  }

  /** Every piece from offset i on is well cut. */
  lemma {:induction false} PieceBounds(text: string, chunkSize: nat, i: nat, k: nat)
    requires chunkSize >= 1 && i <= |text| && k < |Pieces(text, chunkSize, i)|
    ensures WellCut(Pieces(text, chunkSize, i), chunkSize, k)
    decreases |text| - i
  {
    if k > 0 {
      var cut := Cut(text, chunkSize, i);
      PieceBounds(text, chunkSize, cut, k - 1);
      WellCutShift(Pieces(text, chunkSize, i), text[i..cut], Pieces(text, chunkSize, cut), chunkSize, k);
    } else {
      WellCutFirst(text, chunkSize, i);
    }
  }

  lemma {:induction false} DropBlankVisible(pieces: seq<string>)
    ensures Visible(Concat(DropBlank(pieces))) == Visible(Concat(pieces))
  {
    if pieces != [] {
      var head := if Readable(pieces[0]) then [pieces[0]] else [];
      DropBlankVisible(pieces[1..]);
      ConcatAppend(head, DropBlank(pieces[1..]));
      VisibleAppend(Concat(head), Concat(DropBlank(pieces[1..])));
      VisibleAppend(pieces[0], Concat(pieces[1..]));
      if !Readable(pieces[0]) { VisibleBlank(pieces[0]); } else { assert Concat(head) == pieces[0]; }
    }
  }

  /** The returned chunks, in order, hold every non-white character of the text; none of them is blank. */
  lemma ChunksCover(text: string, chunkSize: nat)
    requires chunkSize >= 1
    ensures Visible(Concat(Chunks(text, chunkSize))) == Visible(text)
    ensures forall k :: 0 <= k < |Chunks(text, chunkSize)| ==> !IsBlank(Chunks(text, chunkSize)[k])
  {
    PiecesCover(text, chunkSize, 0);
    DropBlankVisible(Pieces(text, chunkSize, 0));
    DropBlankMembers(Pieces(text, chunkSize, 0));
  }

  /** Every chunk is shorter than the chunk size plus the look-ahead window. */
  lemma ChunkLengths(text: string, chunkSize: nat)
    requires chunkSize >= 1
    ensures forall k :: 0 <= k < |Chunks(text, chunkSize)| ==> 0 < |Chunks(text, chunkSize)[k]| < chunkSize + Lookahead
  {
    var ps := Pieces(text, chunkSize, 0);
    DropBlankMembers(ps);
    forall k | 0 <= k < |Chunks(text, chunkSize)| ensures 0 < |Chunks(text, chunkSize)[k]| < chunkSize + Lookahead {
      var c := Chunks(text, chunkSize)[k];
      assert c in ps;
      var j :| 0 <= j < |ps| && ps[j] == c;
      PieceBounds(text, chunkSize, 0, j);
    }
  }

  /** A text with something readable in it yields at least one chunk. */
  lemma ReadableTextHasChunk(text: string, chunkSize: nat)
    requires chunkSize >= 1 && !IsBlank(text)
    ensures |Chunks(text, chunkSize)| >= 1
  {
    ChunksCover(text, chunkSize);
    VisibleReadable(text);
  }

  lemma HelloFirstCut()
    ensures Cut("Hello. World", DefaultChunkSize, 0) == 6
  {
    var t := "Hello. World";
    assert t[0..Min(0 + DefaultChunkSize + Lookahead, |t|)] == t;
    assert IsStop(t, 5);
    LastStopAtLeast(t, 5);
  }

  lemma HelloSecondCut()
    ensures Cut("Hello. World", DefaultChunkSize, 6) == 12
  {
    var t := "Hello. World";
    var w := t[6..Min(6 + DefaultChunkSize + Lookahead, |t|)];
    assert w == " World";
  }

  lemma HelloPieces()
    ensures Pieces("Hello. World", DefaultChunkSize, 0) == ["Hello.", " World"]
  {
    var t := "Hello. World";
    HelloFirstCut();
    HelloSecondCut();
    assert Pieces(t, DefaultChunkSize, 12) == [];
    assert Pieces(t, DefaultChunkSize, 6) == [t[6..12]];
    assert t[..6] == "Hello.";
    assert t[6..12] == " World";
  }

  /** Even a short text is cut at its stops: "Hello. World" gives "Hello." and " World". */
  lemma HelloWorld()
    ensures Chunks("Hello. World", DefaultChunkSize) == ["Hello.", " World"]
  {
    HelloPieces();
    var ps := ["Hello.", " World"];
    assert !IsWhite(ps[0][0]) && !IsWhite(ps[1][1]);
    DropBlankNone(ps);
  }
}
