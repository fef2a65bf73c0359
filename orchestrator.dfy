/**
 * `hfSummarize`: the map-reduce schedule of engine calls over the chunks of a text.
 * The engine is a parameter: `ext(k, text, preset)` is what the k-th call of the run returns.
 */
module Orchestrator {
  import opened Wrappers
  import opened Strings
  import opened LengthPolicy
  import opened Chunker
  import opened HfClient

  /** Call number, input text and preset to engine outcome. */
  type Engine = (nat, string, Preset) -> Result<string, HfError>

  /** One engine call as issued: its input text and preset. */
  datatype Call = Call(input: string, preset: Preset)

  /** How much of the joined partial summaries the final call sees. */
  const ReduceLimit: nat := 6000

  /** What goes between partial summaries. */
  const PartialSeparator := "\n\n"

  /** The map phase after n chunks: the partial summaries so far or the first error, and the calls issued. */
  datatype Phase = Phase(outcome: Result<seq<string>, HfError>, calls: seq<Call>)

  function MapPhase(ext: Engine, chunks: seq<string>, preset: Preset, n: nat): Phase
    requires n <= |chunks|
  {
    if n == 0 then Phase(Ok([]), [])
    else
      var prev := MapPhase(ext, chunks, preset, n - 1);
      if prev.outcome.Err? then prev
      else
        var call := Call(chunks[n - 1], preset);
        match ext(n - 1, chunks[n - 1], preset)
        case Ok(s) => Phase(Ok(prev.outcome.value + [s]), prev.calls + [call])
        case Err(e) => Phase(Err(e), prev.calls + [call])
  }

  /** The input of the final call: the partials joined by blank lines, cut to 6000 characters. */
  function ReduceInput(partials: seq<string>): (r: string)
    ensures |r| <= ReduceLimit && r <= Join(partials, PartialSeparator)
  {
    Take(Join(partials, PartialSeparator), ReduceLimit)
  }

  /** `chunks[0] || text`: the single call's input. */
  function SingleInput(chunks: seq<string>, text: string): string {
    if chunks != [] && chunks[0] != "" then chunks[0] else text
  }

  /** What `hfSummarize(text, preset)` returns (or throws) and the calls it makes. */
  function Orchestrate(ext: Engine, text: string, preset: Preset): (Result<string, HfError>, seq<Call>) {
    Schedule(ext, Chunks(text, DefaultChunkSize), text, preset)
  }

  /** The run of `hfSummarize` once the text has been cut into chunks. */
  function Schedule(ext: Engine, chunks: seq<string>, text: string, preset: Preset): (Result<string, HfError>, seq<Call>) {
    if |chunks| <= 1 then
      var input := SingleInput(chunks, text);
      (ext(0, input, preset), [Call(input, preset)])
    else
      var m := MapPhase(ext, chunks, ChunkPreset(preset), |chunks|);
      match m.outcome
      case Err(e) => (Err(e), m.calls)
      case Ok(partials) =>
        var input := ReduceInput(partials);
        (ext(|chunks|, input, preset), m.calls + [Call(input, preset)])
  }

  /** `for (const c of chunks) partials.push(await hfSummarizeOnce(c, chunkPreset))`: a failing call ends the loop. */
  method MapChunks(ext: Engine, chunks: seq<string>, chunkPreset: Preset) returns (ph: Phase)
    ensures ph == MapPhase(ext, chunks, chunkPreset, |chunks|)
  {
    var partials: seq<string> := [];
    var calls: seq<Call> := [];
    for k := 0 to |chunks|
      invariant MapPhase(ext, chunks, chunkPreset, k) == Phase(Ok(partials), calls)
    {
      var res := ext(k, chunks[k], chunkPreset);
      calls := calls + [Call(chunks[k], chunkPreset)];
      if res.Err? {
        MapPhaseStopsAtError(ext, chunks, chunkPreset, k + 1, |chunks|);
        return Phase(Err(res.error), calls);
      }
      partials := partials + [res.value];
    }
    ph := Phase(Ok(partials), calls);
  }

  method HfSummarize(ext: Engine, text: string, preset: Preset) returns (r: Result<string, HfError>, ghost calls: seq<Call>)
    ensures r == Orchestrate(ext, text, preset).0
    ensures calls == Orchestrate(ext, text, preset).1
  {
    var chunks := SplitIntoChunks(text, DefaultChunkSize);
    if |chunks| <= 1 {
      var input := if chunks != [] && chunks[0] != "" then chunks[0] else text;
      r := ext(0, input, preset);
      calls := [Call(input, preset)];
      return;
    }
    var chunkPreset := if preset == Long then Medium else preset;
    var ph := MapChunks(ext, chunks, chunkPreset);
    calls := ph.calls;
    if ph.outcome.Err? {
      r := Err(ph.outcome.error);
      StoppedRun(ext, text, preset, ph.outcome.error, calls);
      return;
    }
    var partials := ph.outcome.value;
    var combined := Join(partials, PartialSeparator);
    var input := Take(combined, ReduceLimit);
    r := ext(|chunks|, input, preset);
    CompletedRun(ext, text, preset, partials, calls);
    calls := calls + [Call(input, preset)];
  }

  /** How a run over several chunks ends when a chunk call fails: with that error, after the calls so far. */
  lemma StoppedRun(ext: Engine, text: string, preset: Preset, e: HfError, calls: seq<Call>)
    requires var chunks := Chunks(text, DefaultChunkSize);
      |chunks| > 1 && MapPhase(ext, chunks, ChunkPreset(preset), |chunks|) == Phase(Err(e), calls)
    ensures Orchestrate(ext, text, preset) == (Err(e), calls)
  {
  }

  /** How a run over several chunks ends when every chunk call succeeds: the final call on the joined partials. */
  lemma CompletedRun(ext: Engine, text: string, preset: Preset, partials: seq<string>, calls: seq<Call>)
    requires var chunks := Chunks(text, DefaultChunkSize);
      |chunks| > 1 && MapPhase(ext, chunks, ChunkPreset(preset), |chunks|) == Phase(Ok(partials), calls)
    ensures var input := ReduceInput(partials);
      Orchestrate(ext, text, preset) == (ext(|Chunks(text, DefaultChunkSize)|, input, preset), calls + [Call(input, preset)])
  {
  }

  /** Once a call has failed, later chunks change nothing. */
  lemma {:induction false} MapPhaseStopsAtError(ext: Engine, chunks: seq<string>, preset: Preset, m: nat, n: nat)
    requires m <= n <= |chunks| && MapPhase(ext, chunks, preset, m).outcome.Err?
    ensures MapPhase(ext, chunks, preset, n) == MapPhase(ext, chunks, preset, m)
    decreases n - m
  {
    if m < n {
      MapPhaseStopsAtError(ext, chunks, preset, m, n - 1);
    }
  }

  /** The map phase calls the chunks in order at the given preset; it goes on while calls succeed and
      stops at the first failure, whose error it keeps. */
  lemma {:induction false} MapPhaseShape(ext: Engine, chunks: seq<string>, preset: Preset, n: nat)
    requires n <= |chunks|
    ensures var ph := MapPhase(ext, chunks, preset, n);
      && 1 <= |ph.calls| + (if n == 0 then 1 else 0) && |ph.calls| <= n
      && (forall j :: 0 <= j < |ph.calls| ==> ph.calls[j] == Call(chunks[j], preset))
      && (forall j :: 0 <= j < |ph.calls| - 1 ==> ext(j, chunks[j], preset).Ok?)
      && (ph.outcome.Ok? ==>
            && |ph.calls| == n && |ph.outcome.value| == n
            && forall j :: 0 <= j < n ==> ext(j, chunks[j], preset) == Ok(ph.outcome.value[j]))
      && (ph.outcome.Err? ==> ext(|ph.calls| - 1, chunks[|ph.calls| - 1], preset) == Err(ph.outcome.error))
  {
    if n > 0 {
      MapPhaseShape(ext, chunks, preset, n - 1);
    }
  }

  /** At least one call was issued, and the result is what the engine returned for the last of them. */
  predicate EndsWithLastCall(ext: Engine, run: (Result<string, HfError>, seq<Call>)) {
    var (r, calls) := run;
    |calls| >= 1 && r == ext(|calls| - 1, calls[|calls| - 1].input, calls[|calls| - 1].preset)
  }

  /** The result is always the outcome of the last call issued. */
  lemma ResultIsLastCall(ext: Engine, text: string, preset: Preset)
    ensures EndsWithLastCall(ext, Orchestrate(ext, text, preset))
  {
    ScheduleLastCall(ext, Chunks(text, DefaultChunkSize), text, preset);
  }

  /** The same for any list of chunks. */
  lemma ScheduleLastCall(ext: Engine, chunks: seq<string>, text: string, preset: Preset)
    ensures EndsWithLastCall(ext, Schedule(ext, chunks, text, preset))
  {
    if |chunks| > 1 {
      MapPhaseShape(ext, chunks, ChunkPreset(preset), |chunks|);
    }
  }

  /** At most one chunk: exactly one call, on that chunk (or the text when there is none), at the requested preset. */
  lemma SingleChunkSchedule(ext: Engine, text: string, preset: Preset)
    requires |Chunks(text, DefaultChunkSize)| <= 1
    ensures var (r, calls) := Orchestrate(ext, text, preset);
      var chunks := Chunks(text, DefaultChunkSize);
      && calls == [Call(if |chunks| == 1 then chunks[0] else text, preset)]
      && r == ext(0, calls[0].input, preset)
  {
    var chunks := Chunks(text, DefaultChunkSize);
    if |chunks| == 1 {
      ChunksCover(text, DefaultChunkSize);
      assert chunks[0] != "" by { assert !IsBlank(chunks[0]); }
    }
  }

  /** Several chunks, all calls succeeding: one call per chunk in order at the demoted preset, then one
      call at the requested preset on the first 6000 characters of the partials joined by blank lines. */
  lemma ManyChunkSchedule(ext: Engine, text: string, preset: Preset)
    requires var chunks := Chunks(text, DefaultChunkSize);
      |chunks| >= 2 && forall j :: 0 <= j < |chunks| ==> ext(j, chunks[j], ChunkPreset(preset)).Ok?
    ensures var (r, calls) := Orchestrate(ext, text, preset);
      var chunks := Chunks(text, DefaultChunkSize);
      var n := |chunks|;
      var partials := seq(n, j requires 0 <= j < n => ext(j, chunks[j], ChunkPreset(preset)).value);
      && |calls| == n + 1
      && (forall j :: 0 <= j < n ==> calls[j] == Call(chunks[j], ChunkPreset(preset)))
      && calls[n] == Call(ReduceInput(partials), preset)
      && |calls[n].input| <= ReduceLimit
      && r == ext(n, ReduceInput(partials), preset)
  {
    var chunks := Chunks(text, DefaultChunkSize);
    var n := |chunks|;
    var cp := ChunkPreset(preset);
    MapPhaseShape(ext, chunks, cp, n);
    var ph := MapPhase(ext, chunks, cp, n);
    var partials := seq(n, j requires 0 <= j < n => ext(j, chunks[j], cp).value);
    assert ph.outcome.value == partials;
  }

  /** A failing call aborts the run: no call follows it and its error is the result. */
  lemma AbortOnFirstError(ext: Engine, text: string, preset: Preset, j: nat)
    requires var chunks := Chunks(text, DefaultChunkSize);
      && |chunks| >= 2 && j < |chunks|
      && ext(j, chunks[j], ChunkPreset(preset)).Err?
      && forall i :: 0 <= i < j ==> ext(i, chunks[i], ChunkPreset(preset)).Ok?
    ensures var (r, calls) := Orchestrate(ext, text, preset);
      var chunks := Chunks(text, DefaultChunkSize);
      && |calls| == j + 1
      && r == ext(j, chunks[j], ChunkPreset(preset))
  {
    var chunks := Chunks(text, DefaultChunkSize);
    var n := |chunks|;
    var cp := ChunkPreset(preset);
    MapPhaseShape(ext, chunks, cp, n);
    var ph := MapPhase(ext, chunks, cp, n);
  }

  /** Every call's input is a chunk, the whole text, or the cut-down partials: never longer than the text or 6000 characters. */
  lemma CallsBounded(ext: Engine, text: string, preset: Preset)
    ensures forall c :: c in Orchestrate(ext, text, preset).1 ==> |c.input| <= Max(|text|, ReduceLimit)
  {
    var chunks := Chunks(text, DefaultChunkSize);
    ChunkLengths(text, DefaultChunkSize);
    if |chunks| > 1 {
      var cp := ChunkPreset(preset);
      var m := MapPhase(ext, chunks, cp, |chunks|);
      MapPhaseShape(ext, chunks, cp, |chunks|);
      forall c | c in m.calls ensures |c.input| < DefaultChunkSize + Lookahead {
        var j :| 0 <= j < |m.calls| && m.calls[j] == c;
        assert c.input == chunks[j];
      }
    }
  }

  /** An engine whose every success is non-empty gives a run whose success is non-empty. */
  lemma NonEmptyResult(ext: Engine, text: string, preset: Preset)
    requires forall k, t, p :: ext(k, t, p).Ok? ==> ext(k, t, p).value != ""
    ensures Orchestrate(ext, text, preset).0.Ok? ==> Orchestrate(ext, text, preset).0.value != ""
  {
    ResultIsLastCall(ext, text, preset);
  }
}
