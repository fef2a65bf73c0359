# Lecture summarisation, modelled in Dafny

The classroom backend summarises an uploaded lecture file through a single route, `POST /:code/lectures/:id/summarize`. The pipeline behind it:

- **Extraction.** `extractTextFromFile` picks a reader from the file's extension (or a MIME hint). The route never passes a hint.
- **Clamping.** `clampText` bounds the text at 12000 characters. It keeps a head of 70 %, a truncation marker and a tail of 20 %.
- **Hosted engine.** With an `HF_API_KEY`, `hfSummarize` cuts the clamped text into sentence-aligned chunks (`splitIntoChunks`) and summarises each one with the hosted Hugging Face engine. When there are two or more chunks, the per-chunk calls demote the long preset to medium. A single chunk keeps the requested preset. A final call then summarises the first 6000 characters of the joined partial summaries. `hfSummarizeOnce` reads each reply and turns it into a string.
- **Local fallback.** Without a key, or when any engine call fails, `fallbackSummarize` runs on the *unclamped* text. It works in these steps:
  - normalises white space;
  - splits the text into sentences;
  - keeps the first 900 sentences longer than 20 characters;
  - scores them by term frequency, ignoring stop words;
  - keeps the best 6, 12 or 18 (short, medium or long);
  - restores document order;
  - lays them out as three bulleted sections.

## How it is modelled

The model is organised like the source, one module per step:

| file | module | models |
|---|---|---|
| `strings.dfy` | `Strings` | JavaScript `trim`, ASCII `toLowerCase`, `slice`, `join` |
| `clamp.dfy` | `Clamp` | `clampText` |
| `chunker.dfy` | `Chunker` | `splitIntoChunks` |
| `length_policy.dfy` | `LengthPolicy` | `lengthParams`, the chunk-level demotion, the query's preset |
| `hf_client.dfy` | `HfClient` | `hfSummarizeOnce` and how it reads a reply |
| `orchestrator.dfy` | `Orchestrator` | `hfSummarize` |
| `sentences.dfy` | `Sentences` | normalisation, the sentence split, the candidate filter, the word pattern |
| `terms.dfy` | `Terms` | the term-frequency table and scores |
| `sort.dfy` | `StableSort` | the two stable sorts |
| `fallback.dfy` | `Fallback` | `fallbackSummarize` |
| `extract.dfy` | `Extract` | the format choice of `extractTextFromFile` |
| `route.dfy` | `Route` | the route's decisions |

The loops of the source are Dafny methods. Each is proved to compute a specification function:

- `Chunker.SplitIntoChunks` computes `Chunker.Chunks`.
- `Orchestrator.MapChunks` computes `Orchestrator.MapPhase`.
- `Orchestrator.HfSummarize` computes `Orchestrator.Orchestrate`.
- `Terms.CountTerms` computes `Terms.TermFreq`.
- `Fallback.FallbackSummarize` computes `Fallback.Summary`.
- `Route.Summarize` computes `Route.Respond`.

The properties are lemmas about those functions.

Things that cannot be seen from inside the program are parameters:

- **The network.** `net(k, request)` is what the k-th request of a run gets back. Its result is a `Transport` value: `fetch` rejected, or a status with the body text and the body decoded as JSON (`None` when the body is not JSON).
- **The environment.** The key and the model name are a `Config`.
- **Lookups and the file.** The database lookups and the file-exists test are a `Stored` record.
- **Extraction.** The result of extraction is `Ok(text)` or `Err(message)`.

The hosted engine as the orchestrator sees it is `Route.Hosted`. Its k-th call is `HfClient.SummarizeOnce` on the k-th request. A call's outcome may therefore depend on its position in the run, not only on its input.

Some points where the model and the source line up only under stated conditions:

- **The route rejects a file only when its clamped text is blank.** A blank file longer than 12000 characters is not rejected, because the truncation marker is not blank. Such a file goes on to the engine or to the fallback, which answers `"No readable text.\n"` as a summary. `Route.UnreadableIff` states this.
- **The chunk size is at least 1.** With a chunk size of 0 the source's loop (lines 52-61) never ends on a text whose first window has no stop after its first character, because the cut stays at `i`; the route only ever uses 2800, so the chunker functions require a chunk size of at least 1.
- **Even a short text is cut wherever it has a stop.** `"Hello. World"` gives the two chunks `"Hello."` and `" World"` (`Chunker.HelloWorld`).
- **`chunks[0] || text`.** The single-call input falls back to the whole text only when there are no chunks. A chunk is never blank, so it is never empty.
- **The sort.** `Array.prototype.sort` is modelled by an insertion sort. JavaScript's sort is stable, and with a consistent comparator a stable sort has exactly one possible result, so the two agree.

## Model

| member | source | states |
|---|---|---|
| Clamp.Marker | backend/src/routes/lectures.ts:45 | the truncation marker: two newlines, "[…truncated…]", two newlines |
| Clamp.LastChars | backend/src/routes/lectures.ts:44 | `slice(-n)` gives the last n characters, and the whole string when n is 0 |
| Clamp.ClampText | backend/src/routes/lectures.ts:40-46 | empty stays empty; text within the limit is unchanged; longer text is the first 7m/10 characters, the marker, and the last 2m/10 characters; the result is blank exactly when the text is blank and within the limit |
| Clamp.ClampBound | backend/src/routes/lectures.ts:40-46 | from a limit of 5 up, the result is at most the limit plus the marker's length |
| Clamp.ClampZeroTail | backend/src/routes/lectures.ts:44 | below a limit of 5 the `slice(-0)` tail is the whole text, so the bound fails |
| Clamp.ClampIdempotent | backend/src/routes/lectures.ts:40-46 | clamping twice is clamping once whenever head, marker and tail fit under the limit |
| Clamp.RouteClamp | backend/src/routes/lectures.ts:273 | at the route's limit: head 8400, tail 2400, at most 12017 characters, idempotent |
| Chunker.PairAt | backend/src/routes/lectures.ts:55-57 | the pattern `a + " "` occurs at j: a inside the text with a plain space right after it |
| Chunker.IsStop | backend/src/routes/lectures.ts:54-58 | a sentence stop at j: one of `. `, `! `, `? ` starts there |
| Chunker.LastPairBelow | backend/src/routes/lectures.ts:55-57 | the result is -1 or an index below n where the character is followed by a space |
| Chunker.LastPairBelowIsLast | backend/src/routes/lectures.ts:55-57 | no such pair lies between the result and n |
| Chunker.LastPairBelowAtLeast | backend/src/routes/lectures.ts:55-57 | every pair below n is at or before the result |
| Chunker.LastIndexOfStop | backend/src/routes/lectures.ts:55-57 | `lastIndexOf(a + " ")` is -1 or a position of the pattern |
| Chunker.LastStop | backend/src/routes/lectures.ts:54-58 | the maximum of the three `lastIndexOf` calls is -1 or a sentence stop |
| Chunker.LastStopIsLast | backend/src/routes/lectures.ts:54-58 | no sentence stop lies after the one found |
| Chunker.LastStopAtLeast | backend/src/routes/lectures.ts:54-58 | any sentence stop is at or before the one found |
| Chunker.Cut | backend/src/routes/lectures.ts:52-59 | every pass strictly advances and stays within the text, so the loop ends |
| Chunker.CutShape | backend/src/routes/lectures.ts:52-59 | a cut is either just after a stop (at least two characters in, shorter than chunkSize + 400, the next character a space) or a hard cut at min(i + chunkSize, length) when the window has no stop above index 0 |
| Chunker.FirstPieceBounds | backend/src/routes/lectures.ts:52-60 | a pushed piece is non-empty and shorter than chunkSize + 400; one longer than chunkSize ends in `.`, `!` or `?` followed by a space |
| Chunker.PiecesStep | backend/src/routes/lectures.ts:59-61 | one pass pushes the text up to the cut and resumes there |
| Chunker.Pieces | backend/src/routes/lectures.ts:49-62 | the pieces the while loop pushes from offset i: the text up to the cut, then the pieces from the cut on, none when the text is used up |
| Chunker.CutPieces | backend/src/routes/lectures.ts:49-62 | the while loop pushes exactly the pieces of the specification |
| Chunker.Chunks | backend/src/routes/lectures.ts:48-64 | what `splitIntoChunks` returns: the pieces with the blank ones filtered out |
| Chunker.SplitIntoChunks | backend/src/routes/lectures.ts:48-64 | the loop followed by the filter returns exactly the specified chunks |
| Chunker.PiecesCover | backend/src/routes/lectures.ts:49-62 | the unfiltered pieces, end to end, are exactly the text |
| Chunker.PieceBounds | backend/src/routes/lectures.ts:51-62 | every piece is non-empty and shorter than chunkSize + 400; one longer than chunkSize ends in a terminal and the next piece starts with a space |
| Chunker.Readable | backend/src/routes/lectures.ts:63 | the filter test `c.trim().length > 0` |
| Chunker.ReadableIff | backend/src/routes/lectures.ts:63 | `c.trim().length > 0` holds exactly for non-blank strings |
| Chunker.DropBlank | backend/src/routes/lectures.ts:63 | the filter never lengthens the list |
| Chunker.DropBlankMembers | backend/src/routes/lectures.ts:63 | what the filter keeps is non-blank and taken from its input |
| Chunker.DropBlankNone | backend/src/routes/lectures.ts:63 | a list without blank pieces passes the filter unchanged |
| Chunker.DropBlankVisible | backend/src/routes/lectures.ts:63 | the filter drops no non-white character |
| Chunker.ChunksCover | backend/src/routes/lectures.ts:48-64 | the chunks hold, in order, every non-white character of the text, and none is blank |
| Chunker.ChunkLengths | backend/src/routes/lectures.ts:48-64 | every chunk is non-empty and shorter than chunkSize + 400 |
| Chunker.ReadableTextHasChunk | backend/src/routes/lectures.ts:48-64 | a text that is not blank gives at least one chunk |
| Chunker.HelloFirstCut | backend/src/routes/lectures.ts:52-59 | "Hello. World" is first cut just after the full stop |
| Chunker.HelloSecondCut | backend/src/routes/lectures.ts:52-59 | the rest of "Hello. World" is cut hard at its end |
| Chunker.HelloPieces | backend/src/routes/lectures.ts:49-62 | the loop pushes "Hello." and " World" |
| Chunker.HelloWorld | backend/src/routes/lectures.ts:48-64 | a short text with a stop still comes back as two chunks |
| LengthPolicy.LengthParams | backend/src/routes/lectures.ts:69-73 | every preset's minimum is below its maximum |
| LengthPolicy.LengthTable | backend/src/routes/lectures.ts:69-73 | long 280-900, medium 160-600, short 80-250; the demotion maps long to medium and keeps the others |
| LengthPolicy.ChunkPreset | backend/src/routes/lectures.ts:112 | never long; any other preset unchanged; never a larger maximum than the requested preset |
| LengthPolicy.ChunkPresetIdempotent | backend/src/routes/lectures.ts:112 | demoting twice is demoting once |
| LengthPolicy.ParsePreset | backend/src/routes/lectures.ts:254-257 | no query or an empty one gives medium; a known name, in any ASCII case, gives that preset; anything else gives medium |
| LengthPolicy.ParseName | backend/src/routes/lectures.ts:254-257 | each preset's name parses back to the preset |
| HfClient.ModelName | backend/src/routes/lectures.ts:78 | `HF_MODEL || "facebook/bart-large-cnn"`: never empty; the default exactly when the variable is unset, empty, or names the default |
| HfClient.BuildRequest | backend/src/routes/lectures.ts:78-96 | the request goes to the endpoint followed by the model name, and carries the text, the key, the preset's bounds, repetition penalty 1.05, no sampling and waiting for the model |
| HfClient.HasKey | backend/src/routes/lectures.ts:76-77 | `!token` rejects an absent and an empty key alike |
| HfClient.Truthy | backend/src/routes/lectures.ts:104 | JavaScript truthiness of the decoded reply: null, false, 0 and "" are falsy, everything else truthy |
| HfClient.Property | backend/src/routes/lectures.ts:104 | `v?.summary_text`: a field of an object, `undefined` for any other value |
| HfClient.Picked | backend/src/routes/lectures.ts:104 | an array reads its head's field (nothing when empty); otherwise the field when truthy, else the reply itself |
| HfClient.NoSummaryTrimmed | backend/src/routes/lectures.ts:105 | "No summary." is its own trim |
| HfClient.TrimmedOrNoSummary | backend/src/routes/lectures.ts:105 | the result is never empty and already trimmed: the trimmed string, or "No summary." when it is blank |
| HfClient.Interpret | backend/src/routes/lectures.ts:104-105 | the summary is never empty and trimmed; it is "No summary." or the trim of the picked string |
| HfClient.InterpretString | backend/src/routes/lectures.ts:104-105 | when a string is picked, the summary is its trim, or "No summary." if it is blank |
| HfClient.InterpretWrapped | backend/src/routes/lectures.ts:104-105 | `[{summary_text: s, ...}, ...]` reads s |
| HfClient.InterpretObject | backend/src/routes/lectures.ts:104-105 | `{summary_text: s, ...}` reads s |
| HfClient.InterpretBareString | backend/src/routes/lectures.ts:104-105 | a bare string reply is itself the summary |
| HfClient.InterpretNoPick | backend/src/routes/lectures.ts:104-105 | when nothing or a non-string is picked, the reply reads "No summary." |
| HfClient.InterpretNoString | backend/src/routes/lectures.ts:104-105 | an object whose field is not a string, an empty array, or an array whose head lacks a string field all read "No summary." |
| HfClient.Answer | backend/src/routes/lectures.ts:99-105 | an HTTP error, carrying the reply's status and body text, exactly for a non-2xx reply; a network failure exactly when `fetch` rejected; a malformed body exactly for a 2xx reply that is not JSON; success exactly for a 2xx JSON reply, and then the interpreted summary, never empty |
| HfClient.SummarizeOnce | backend/src/routes/lectures.ts:75-106 | the missing-key error exactly when the key is absent or empty; otherwise the answer to this call's request; a success is never empty and trimmed |
| HfClient.ServiceUnavailable | backend/src/routes/lectures.ts:99-102 | a 503 reply fails with that status and its body |
| Orchestrator.SingleInput | backend/src/routes/lectures.ts:110 | `chunks[0] || text`: the first chunk unless there is none or it is empty |
| Orchestrator.MapPhase | backend/src/routes/lectures.ts:113-114 | after n chunks: the partials so far or the first error, and the calls made, each chunk at the given preset, nothing after an error |
| Orchestrator.Schedule | backend/src/routes/lectures.ts:109-116 | one call on the single input at the requested preset for at most one chunk; otherwise the map phase at the demoted preset and, if it succeeds, one call on the cut-down partials |
| Orchestrator.Orchestrate | backend/src/routes/lectures.ts:108-117 | `hfSummarize`: the schedule on the 2800-character chunks of the text |
| Orchestrator.ReduceInput | backend/src/routes/lectures.ts:115-116 | the final input is a prefix of the partials joined by blank lines, at most 6000 characters |
| Orchestrator.MapChunks | backend/src/routes/lectures.ts:113-114 | the for loop yields the specified partials or first error, and the calls made |
| Orchestrator.HfSummarize | backend/src/routes/lectures.ts:108-117 | the method returns the specified result and call log |
| Orchestrator.MapPhaseStopsAtError | backend/src/routes/lectures.ts:114 | after a failed call, later chunks change nothing |
| Orchestrator.MapPhaseShape | backend/src/routes/lectures.ts:113-114 | calls go chunk by chunk in order at the given preset; every call but the last succeeded; on success there is one partial per chunk and call; on failure the error is the last call's |
| Orchestrator.StoppedRun | backend/src/routes/lectures.ts:114 | a failing chunk call ends the run with its error and no further call |
| Orchestrator.CompletedRun | backend/src/routes/lectures.ts:115-116 | when every chunk call succeeds, the run ends with one call on the cut-down partials |
| Orchestrator.ScheduleLastCall | backend/src/routes/lectures.ts:110-116 | at least one call is made, and the result is the engine's answer to the last one |
| Orchestrator.ResultIsLastCall | backend/src/routes/lectures.ts:108-117 | the same for the run on a text |
| Orchestrator.SingleChunkSchedule | backend/src/routes/lectures.ts:109-110 | with at most one chunk: exactly one call, on the chunk or on the text, at the requested preset |
| Orchestrator.ManyChunkSchedule | backend/src/routes/lectures.ts:112-116 | with n ≥ 2 chunks all succeeding: n calls in chunk order at the demoted preset, then one at the requested preset on at most 6000 characters of the joined partials, whose answer is the result |
| Orchestrator.AbortOnFirstError | backend/src/routes/lectures.ts:114 | a failure at chunk j ends the run after j + 1 calls with that failure |
| Orchestrator.CallsBounded | backend/src/routes/lectures.ts:108-117 | no call's input is longer than both the text and 6000 characters |
| Orchestrator.NonEmptyResult | backend/src/routes/lectures.ts:108-117 | if the engine never succeeds with an empty string, neither does the run |
| Strings.IsWhite | backend/src/routes/lectures.ts:120 | the characters `\s` matches and `trim` removes: ECMAScript white space and line terminators |
| Strings.TrimStart | backend/src/routes/lectures.ts:105 | leading white space removed: the result is a suffix, everything cut off is white space, and it does not start with white space |
| Strings.TrimEnd | backend/src/routes/lectures.ts:105 | trailing white space removed: the result is a prefix, everything cut off is white space, and it does not end with white space |
| Strings.Trim | backend/src/routes/lectures.ts:105 | `trim` is empty exactly for blank input, never starts or ends with white space, and never lengthens |
| Strings.TrimmedAlready | backend/src/routes/lectures.ts:105 | a string without white space at either end is its own trim |
| Strings.Take | backend/src/routes/lectures.ts:116 | `slice(0, n)` is a prefix of at most n characters, the whole string when shorter |
| Strings.Lower | backend/src/routes/lectures.ts:254 | `toLowerCase` (also lines 26, 137 and 143) on ASCII: the same length, no upper-case ASCII letter left, other characters unchanged, each upper-case letter moved to its lower-case form |
| Strings.Join | backend/src/routes/lectures.ts:115-116 | `join(sep)` (also line 166): the empty list gives "", otherwise the separator goes between neighbours |
| Strings.JoinOne | backend/src/routes/lectures.ts:115-116 | a single string joins to itself, whatever the separator |
| Sentences.CollapseCons | backend/src/routes/lectures.ts:120 | `\s+` replaced by a space from the front: a white character and the run after it become one space; any other character is kept |
| Sentences.Collapse | backend/src/routes/lectures.ts:120 | collapsing keeps a non-empty text non-empty and keeps whether it starts with white space; what it does to each run is stated by the lemmas below |
| Strings.TrimStartAppend | backend/src/routes/lectures.ts:120 | trimming the front of a + b skips a when a is blank, and otherwise trims a only |
| Sentences.CollapseAppend | backend/src/routes/lectures.ts:120 | collapsing works piece by piece at any cut that does not fall inside a run of white space |
| Sentences.CollapseRun | backend/src/routes/lectures.ts:120 | a non-empty run of white space before text becomes exactly one space |
| Sentences.CollapseChar | backend/src/routes/lectures.ts:120 | a character that is not white space is kept as it is |
| Sentences.CollapseBetween | backend/src/routes/lectures.ts:120 | each maximal run of white space between two pieces becomes exactly one space, in place: Collapse(a + w + b) is Collapse(a) + " " + Collapse(b) |
| Sentences.CollapseVisible | backend/src/routes/lectures.ts:120 | collapsing keeps every non-white character, in order |
| Sentences.CollapseSingleSpaced | backend/src/routes/lectures.ts:120 | after collapsing, every white-space run is one plain space |
| Sentences.TrimSingleSpaced | backend/src/routes/lectures.ts:120 | trimming keeps a text single-spaced |
| Sentences.Normalize | backend/src/routes/lectures.ts:120 | `raw.replace(/\s+/g, " ").trim()`: collapse, then trim |
| Sentences.NormalizeBlank | backend/src/routes/lectures.ts:120-121 | the normalised text is empty exactly when the input is blank |
| Sentences.NormalizeSingleSpaced | backend/src/routes/lectures.ts:120 | the normalised text is single-spaced |
| Sentences.NormalizeShape | backend/src/routes/lectures.ts:120-121 | both of the above |
| Sentences.RunEnd | backend/src/routes/lectures.ts:126 | `\s+` matches greedily: a blank run ending at the end or before a non-white character |
| Sentences.Boundary | backend/src/routes/lectures.ts:126 | the split pattern matches at q: a terminal before q, white space from q, and an upper-case letter or digit after the greedy run |
| Sentences.SplitFrom | backend/src/routes/lectures.ts:126 | the split always yields at least one piece; where it cuts is stated by the two lemmas below |
| Sentences.SplitAtFirstBoundary | backend/src/routes/lectures.ts:126 | the search cuts at the first boundary from where it stands: the piece ends there and the split resumes after that boundary's run of white space |
| Sentences.SplitWithoutBoundary | backend/src/routes/lectures.ts:126 | without a boundary ahead, the rest of the text is the last piece |
| Sentences.SplitSentences | backend/src/routes/lectures.ts:126 | `text.split(...)`: the split from the start of the text |
| Sentences.SingleRun | backend/src/routes/lectures.ts:126 | in single-spaced text a white-space run is one character |
| Sentences.JoinAtBoundary | backend/src/routes/lectures.ts:126 | a split at a boundary removes exactly one space |
| Sentences.JoinAtEnd | backend/src/routes/lectures.ts:126 | the last piece is the rest of the text |
| Sentences.SkipNonBoundary | backend/src/routes/lectures.ts:126 | where the pattern does not match, the search moves on without cutting |
| Sentences.SplitFromJoin | backend/src/routes/lectures.ts:126 | the pieces from any point, joined with spaces, give back the text from there |
| Sentences.SplitJoin | backend/src/routes/lectures.ts:125-126 | on normalised text the split loses nothing: the sentences joined with spaces are the text |
| Sentences.LongEnough | backend/src/routes/lectures.ts:127 | the filter keeps only sentences of more than 20 characters, taken from its input, and keeps all of an input of such sentences |
| Sentences.LongEnoughAppend | backend/src/routes/lectures.ts:127 | the filter works piece by piece, so it keeps the order of its input |
| Sentences.LongEnoughOne | backend/src/routes/lectures.ts:127 | a single sentence is kept exactly when it is longer than 20 characters |
| Sentences.LongEnoughKeeps | backend/src/routes/lectures.ts:127 | every sentence longer than 20 characters is kept |
| Sentences.Candidates | backend/src/routes/lectures.ts:125-128 | exactly min(filtered, 900) candidates, each longer than 20 characters, the first of the filtered sentences in order |
| Sentences.WordEnd | backend/src/routes/lectures.ts:137 | `[a-z0-9'-]*` matches greedily |
| Sentences.WordsFrom | backend/src/routes/lectures.ts:137 | every match is a word of the pattern `[a-z][a-z0-9'-]*`; which words are matched is stated by the lemmas below |
| Sentences.WordsFromFirst | backend/src/routes/lectures.ts:137 | the first match starts at the first letter from where the search stands and runs greedily; the search goes on after it |
| Sentences.WordsFromNone | backend/src/routes/lectures.ts:137 | without a letter ahead there is no further match |
| Sentences.WordsFromLetters | backend/src/routes/lectures.ts:137 | every letter of the text lies in some match, in order, and no letter is matched twice |
| Sentences.Words | backend/src/routes/lectures.ts:137 | `s.toLowerCase().match(...) || []`: the matches in the lower-cased sentence |
| Terms.StopWords | backend/src/routes/lectures.ts:130-134 | the 42 stop words of the local summariser |
| Terms.Counted | backend/src/routes/lectures.ts:138 | `!stop.has(w) && w.length > 2`: the words that enter the table |
| Terms.Get | backend/src/routes/lectures.ts:138 | `freq.get(w) || 0`: the entry, or 0 for a word without one |
| Terms.Tally | backend/src/routes/lectures.ts:137-139 | the inner loop: each counted word of a sentence adds one to its entry |
| Terms.TermFreq | backend/src/routes/lectures.ts:135-140 | the table after the outer loop has visited every candidate in order |
| Terms.CountTerms | backend/src/routes/lectures.ts:135-140 | the nested loops fill exactly the specified table |
| Terms.TallyCounts | backend/src/routes/lectures.ts:137-139 | one sentence's pass adds each counted word's occurrences, and nothing for other words |
| Terms.TermFreqCounts | backend/src/routes/lectures.ts:135-140 | a word's entry is its number of occurrences over all candidates when it is not a stop word and longer than two characters, and there is no entry otherwise |
| Terms.WordsScore | backend/src/routes/lectures.ts:143-144 | the reduce: entries of the words summed, repeats included, 0 for a word without an entry |
| Terms.Score | backend/src/routes/lectures.ts:143-144 | a sentence's score: the sum over the words of its lower-cased text |
| Terms.WordsScoreAtLeast | backend/src/routes/lectures.ts:143-144 | a sentence scores at least the entry of each of its words |
| Terms.WordsScoreUncounted | backend/src/routes/lectures.ts:143-144 | a sentence with no counted word scores 0 |
| Terms.ScoreZeroIff | backend/src/routes/lectures.ts:135-144 | a candidate scores 0 exactly when none of its words is counted |
| StableSort.Key | backend/src/routes/lectures.ts:147 | the two comparators `b.score - a.score` and `a.i - b.i` as differences of integer keys |
| StableSort.Insert | backend/src/routes/lectures.ts:147 | inserting adds one element |
| StableSort.Sort | backend/src/routes/lectures.ts:147 | the sort keeps the length |
| StableSort.InsertPermutes | backend/src/routes/lectures.ts:147 | inserting adds exactly that element |
| StableSort.SortPermutes | backend/src/routes/lectures.ts:147 | the sort returns a permutation of its input |
| StableSort.InsertSorted | backend/src/routes/lectures.ts:147 | inserting into sorted input keeps it sorted |
| StableSort.SortSorted | backend/src/routes/lectures.ts:147 | the output is ordered by the comparator |
| StableSort.InsertStable | backend/src/routes/lectures.ts:147 | inserting a later element into stably sorted input keeps it stably sorted |
| StableSort.SortStable | backend/src/routes/lectures.ts:147 | on input in document order, ties keep document order |
| StableSort.InsertIncreasing | backend/src/routes/lectures.ts:150 | inserting by position a new position keeps positions increasing |
| StableSort.SortByIndexIncreasing | backend/src/routes/lectures.ts:150 | sorting distinct positions by position gives strictly increasing document order |
| Fallback.BaseCount | backend/src/routes/lectures.ts:123 | long keeps 18 sentences, medium 12, anything else 6 |
| Fallback.ScoredSentences | backend/src/routes/lectures.ts:141-146 | each candidate paired with its position and its score |
| Fallback.RankedFacts | backend/src/routes/lectures.ts:147 | sorting by score keeps every item, highest score first, ties in document order |
| Fallback.Chosen | backend/src/routes/lectures.ts:147-150 | sorted by score, the first `base`, sorted back by position |
| Fallback.HeadDistinct | backend/src/routes/lectures.ts:149-150 | the first `take` by score are distinct sentences |
| Fallback.Selection | backend/src/routes/lectures.ts:147-150 | min(count, base) sentences are chosen, in document order, each one of the candidates, and each beats every sentence left out |
| Fallback.LeftOutLoses | backend/src/routes/lectures.ts:147-150 | a chosen sentence beats one left out: a higher score, or the same score and earlier |
| Fallback.Trimmed | backend/src/routes/lectures.ts:150 | each chosen sentence, trimmed |
| Fallback.Third | backend/src/routes/lectures.ts:152 | `Math.max(1, Math.floor(n / 3))` |
| Fallback.TlDr | backend/src/routes/lectures.ts:153 | `top.slice(0, third)` |
| Fallback.KeyPoints | backend/src/routes/lectures.ts:154 | `top.slice(third, third * 2)` |
| Fallback.Details | backend/src/routes/lectures.ts:155 | `top.slice(third * 2)` |
| Fallback.Layout | backend/src/routes/lectures.ts:152-155 | the three groups together are the selection; from three sentences on the first two have floor(n/3) each and the last the rest; with one or two sentences the groups are as `third = 1` makes them |
| Fallback.Bullets | backend/src/routes/lectures.ts:159 | each sentence after the bullet mark |
| Fallback.Sections | backend/src/routes/lectures.ts:157-166 | the three headed sections of bullets, the second and third after a blank line |
| Fallback.SectionsShape | backend/src/routes/lectures.ts:157-166 | the headings and blank lines sit where the group sizes put them, and every sentence is a bullet on its own line |
| Fallback.Lines | backend/src/routes/lectures.ts:157-166 | the lines of the summary, split at `third` and `third * 2` |
| Fallback.LinesShape | backend/src/routes/lectures.ts:157-166 | the summary has the selection's count plus five lines: "TL;DR:", the first group, "", "Key Points:", the second, "", "Details:", the third |
| Fallback.EmptyLines | backend/src/routes/lectures.ts:157-166 | with nothing selected only the headings and separators remain |
| Fallback.Render | backend/src/routes/lectures.ts:157-166 | the lines joined with newlines |
| Fallback.RenderStartsWithHeading | backend/src/routes/lectures.ts:157-166 | the rendered summary starts with "TL;DR:" |
| Fallback.TopSentences | backend/src/routes/lectures.ts:141-150 | the sentences shown: the chosen candidates, trimmed, in document order |
| Fallback.Summary | backend/src/routes/lectures.ts:119-167 | `fallbackSummarize`: "No readable text.\n" for a blank input, otherwise the rendered top sentences |
| Fallback.FallbackSummarize | backend/src/routes/lectures.ts:119-167 | the method returns the specified summary |
| Fallback.SummaryBlank | backend/src/routes/lectures.ts:120-121 | the summary is "No readable text.\n" exactly when the input is blank |
| Fallback.SummaryNonEmpty | backend/src/routes/lectures.ts:119-167 | the summary is never empty |
| Fallback.SummarySelection | backend/src/routes/lectures.ts:125-150 | on readable text, min(candidates, base) sentences are shown, the best-scoring candidates with ties to the earlier one, trimmed, in document order |
| Fallback.NoCandidates | backend/src/routes/lectures.ts:141-166 | readable text without a long-enough sentence gives only the headings |
| Extract.Includes | backend/src/routes/lectures.ts:29-33 | `s.includes(sub)` as a search from each position |
| Extract.ChooseFormat | backend/src/routes/lectures.ts:25-38 | PDF for ".pdf" or a hint with "pdf"; otherwise Word for ".docx" or a Word hint; otherwise text |
| Extract.LowerIdempotent | backend/src/routes/lectures.ts:26 | lower-casing twice is lower-casing once |
| Extract.ExtensionCaseInsensitive | backend/src/routes/lectures.ts:26-37 | the format does not depend on the extension's ASCII case |
| Extract.RouteDispatch | backend/src/routes/lectures.ts:29-37 | without a hint: PDF exactly for ".pdf", Word exactly for ".docx", text otherwise (in any ASCII case) |
| Extract.PdfHintWins | backend/src/routes/lectures.ts:29 | a hint containing "pdf" selects the PDF reader for any extension |
| Extract.IncludesAt | backend/src/routes/lectures.ts:29 | an occurrence at some position makes `includes` true |
| Extract.IncludesSomewhere | backend/src/routes/lectures.ts:29 | `includes` true means an occurrence at some position |
| Extract.IncludesIff | backend/src/routes/lectures.ts:29 | `includes` holds exactly when the substring occurs at some position |
| Route.ServedFromUploads | backend/src/routes/lectures.ts:265 | `lecture.fileUrl` is set, non-empty and starts with "/uploads/" |
| Route.Hosted | backend/src/routes/lectures.ts:278 | the engine `hfSummarize` calls at the route: the k-th call of a run is `hfSummarizeOnce` on the k-th request |
| Route.Precheck | backend/src/routes/lectures.ts:259-270 | the checks before extraction, in order: class, lecture, uploads path, file on disk |
| Route.Respond | backend/src/routes/lectures.ts:254-291 | the answer: precheck errors, 500 on a failed read, 400 on blank clamped text, the local summary without a key, the engine's on success, and the local summary with the note otherwise |
| Route.Summarize | backend/src/routes/lectures.ts:254-291 | the handler's answer and engine calls are the specified ones |
| Route.EarlyFailures | backend/src/routes/lectures.ts:259-294 | a failed lookup or read answers with an error and calls no engine; a missing class gives 404 "Class not found"; a failed read gives 500 "Summarization failed" |
| Route.UnreadableIff | backend/src/routes/lectures.ts:273-274 | "No readable text in file" exactly when the file is blank and within 12000 characters |
| Route.NoKeyNoEngine | backend/src/routes/lectures.ts:276-291 | without a key no engine call is made and the local summary of the unclamped text is returned without a note |
| Route.EngineSucceeds | backend/src/routes/lectures.ts:276-279 | with a key and a successful run, the engine's summary, provider huggingface |
| Route.EngineFails | backend/src/routes/lectures.ts:280-291 | with a key and a failed run, the local summary of the unclamped text with the note appended, provider fallback |
| Route.HostedNonEmpty | backend/src/routes/lectures.ts:278 | a successful hosted run never returns an empty summary |
| Route.SummaryNonEmpty | backend/src/routes/lectures.ts:276-291 | every summary answered is non-empty and reports the requested preset |
| Route.RespondCalls | backend/src/routes/lectures.ts:272-285 | the engine is called only for a readable file with a key, and then as the run on the clamped text |
| Route.EngineInputBounded | backend/src/routes/lectures.ts:273-278 | no engine input exceeds 12017 characters |

## Left out

- The network, `process.env` and the JSON decoding of the reply are parameters (`net`, `Config`, `Transport.json`). `fetch` and `resp.json()` themselves are not modelled.
- The reading of the error body (`resp.text().catch(...)`) is folded into the `bodyText` the transport supplies.
- The database lookups, the path join and the file-exists check are the booleans of `Stored`. Prisma and `fs` are not modelled.
- `extractTextFromFile` reads the file and parses PDF and Word documents with foreign libraries. Only the format choice is modelled, and the route's extracted text (or the error it throws) is a parameter.
- `path.extname` is not modelled: the extension is an input of `Extract.ChooseFormat`.
- `Clamp.ClampText`: uses `7m/10` and `2m/10` on integers, not `Math.floor(m * 0.7)` and `Math.floor(m * 0.2)` on floating point. In floating point these differ for some limits (for example 90), but not for the 12000 the route uses.
- A Dafny `char` is a Unicode scalar value, while JavaScript's `length` and `slice` count UTF-16 code units. Lengths here count scalar values, so on text with characters outside the Basic Multilingual Plane these limits count differently from the source: the 12000-character clamp, the 2800-character chunk size and its 400-character look-ahead, the 20-character sentence filter and the 6000-character cut of the final input.
- `Strings.Lower`: lower-cases the ASCII letters only, not the full Unicode case mapping of `toLowerCase`.
- The white-space set is ECMAScript's white space and line terminators, as `\s` and `trim` use them.
- JSON numbers are integers. Only their truthiness matters to the reply's interpretation.
- The query value is a string or absent: an array-valued or other non-string `length` query is not modelled.
- `console.error` logging, and the `detail` field of the 500 answer, are not modelled.
- The trimming and lower-casing of the class code and the lecture id only reach the lookups, which are parameters.
- The top-level `catch` of the route is modelled only for a failed extraction. Exceptions from the lookups (which are parameters) are not modelled.
- The hosted engine's answer depends on the call's position in the run as well as on its input. Two calls with the same input may therefore be answered differently.
- The other routes of the same file (listing, creating and deleting lectures), the multer storage, authentication and the React client are not part of this model.
- `Fallback.RenderStartsWithHeading`: states only that the rendered text starts with "TL;DR:". The full layout is stated on the lines before the join (`Fallback.LinesShape`).
