/**
 * The decision logic of `POST /:code/lectures/:id/summarize`: parse the preset, check that the lecture and
 * its file exist, clamp the extracted text, try the hosted engine when a key is configured and fall back to
 * the local summariser otherwise or on any engine error. The database lookups, the file system and the
 * extraction libraries are parameters.
 */
module Route {
  import opened Wrappers
  import opened Strings
  import opened Clamp
  import opened LengthPolicy
  import opened HfClient
  import opened Orchestrator
  import opened Fallback

  /** What the lookups before extraction found. */
  datatype Stored = Stored(
    courseFound: bool,
    lectureFound: bool,
    fileUrl: Option<string>,
    fileExists: bool)

  datatype Provider = HuggingFace | LocalFallback

  /** The JSON the handler answers with: an error with its status, or a summary. */
  datatype Outcome =
    | Failure(status: nat, error: string)
    | Answered(summary: string, provider: Provider, length: Preset)

  /** Appended to a fallback summary when a key was configured, so the engine must have failed. */
  const FallbackNote := "\n\n(Note: HF unavailable; used local fallback.)"

  const UploadsPrefix := "/uploads/"

  /** `lecture.fileUrl && lecture.fileUrl.startsWith("/uploads/")`. */
  predicate ServedFromUploads(fileUrl: Option<string>) {
    fileUrl.Some? && fileUrl.value != "" && UploadsPrefix <= fileUrl.value
  }

  /** The hosted engine as the orchestrator sees it: the k-th call of the run goes to the network as the k-th request. */
  function Hosted(cfg: Config, net: (nat, Request) -> Transport): Engine {
    (k: nat, t: string, p: Preset) => SummarizeOnce(cfg, net, k, t, p)
  }

  /** The checks before any text is looked at; None when they all pass. */
  function Precheck(stored: Stored): Option<Outcome> {
    if !stored.courseFound then Some(Failure(404, "Class not found"))
    else if !stored.lectureFound then Some(Failure(404, "Lecture not found"))
    else if !ServedFromUploads(stored.fileUrl) then Some(Failure(400, "Lecture file not found"))
    else if !stored.fileExists then Some(Failure(404, "File missing on server"))
    else None
  }

  /** The answer to a request, and the engine calls made on the way. */
  function Respond(cfg: Config, net: (nat, Request) -> Transport, query: Option<string>, stored: Stored,
                   extracted: Result<string, string>): (Outcome, seq<Call>)
  {
    var preset := ParsePreset(query);
    if Precheck(stored).Some? then (Precheck(stored).value, [])
    else if extracted.Err? then (Failure(500, "Summarization failed"), [])
    else
      var textRaw := extracted.value;
      var text := ClampText(textRaw, RouteMaxChars);
      if IsBlank(text) then (Failure(400, "No readable text in file"), [])
      else if !HasKey(cfg) then (Answered(Summary(textRaw, preset), LocalFallback, preset), [])
      else
        var (r, calls) := Orchestrate(Hosted(cfg, net), text, preset);
        if r.Ok? then (Answered(r.value, HuggingFace, preset), calls)
        else (Answered(Summary(textRaw, preset) + FallbackNote, LocalFallback, preset), calls)
  }

  /** The handler, calling the orchestrator and the local summariser as written. */
  method Summarize(cfg: Config, net: (nat, Request) -> Transport, query: Option<string>, stored: Stored,
                   extracted: Result<string, string>) returns (outcome: Outcome, ghost calls: seq<Call>)
    ensures outcome == Respond(cfg, net, query, stored, extracted).0
    ensures calls == Respond(cfg, net, query, stored, extracted).1
  {
    var preset := ParsePreset(query);
    calls := [];
    var pre := Precheck(stored);
    if pre.Some? {
      return pre.value, calls;
    }
    if extracted.Err? {
      return Failure(500, "Summarization failed"), calls;
    }
    var textRaw := extracted.value;
    var text := ClampText(textRaw, RouteMaxChars);
    if IsBlank(text) {
      return Failure(400, "No readable text in file"), calls;
    }
    if HasKey(cfg) {
      var r;
      r, calls := HfSummarize(Hosted(cfg, net), text, preset);
      if r.Ok? {
        return Answered(r.value, HuggingFace, preset), calls;
      }
      assert Respond(cfg, net, query, stored, extracted).1 == calls;
    }
    var summary := FallbackSummarize(textRaw, preset);
    var note := if HasKey(cfg) then FallbackNote else "";
    outcome := Answered(summary + note, LocalFallback, preset);
    assert HasKey(cfg) ==> Respond(cfg, net, query, stored, extracted).0 == outcome;
    assert !HasKey(cfg) ==> summary + note == summary;
    assert !HasKey(cfg) ==> Respond(cfg, net, query, stored, extracted).0 == outcome;
  }

  /** Lookups pass and the file was read. */
  predicate Reached(stored: Stored, extracted: Result<string, string>) {
    Precheck(stored).None? && extracted.Ok?
  }

  /** Without a key the engine is never called and the local summary of the unclamped text is returned as is. */
  lemma NoKeyNoEngine(cfg: Config, net: (nat, Request) -> Transport, query: Option<string>, stored: Stored,
                      extracted: Result<string, string>)
    requires !HasKey(cfg)
    ensures Respond(cfg, net, query, stored, extracted).1 == []
    ensures Reached(stored, extracted) && !IsBlank(ClampText(extracted.value, RouteMaxChars)) ==>
      Respond(cfg, net, query, stored, extracted).0
        == Answered(Summary(extracted.value, ParsePreset(query)), LocalFallback, ParsePreset(query))
  {
  }

  /**
   * The text is rejected as unreadable exactly when its clamped form is blank, which is when the file is
   * blank and no longer than the clamp limit: a longer blank file passes, because the truncation marker
   * is not blank.
   */
  lemma UnreadableIff(cfg: Config, net: (nat, Request) -> Transport, query: Option<string>, stored: Stored,
                      extracted: Result<string, string>)
    requires Reached(stored, extracted)
    ensures Respond(cfg, net, query, stored, extracted).0 == Failure(400, "No readable text in file")
      <==> IsBlank(extracted.value) && |extracted.value| <= RouteMaxChars
  {
  }

  /** With a key, the engine's run on the clamped text decides: its summary when it succeeds. */
  lemma EngineSucceeds(cfg: Config, net: (nat, Request) -> Transport, query: Option<string>, stored: Stored,
                       extracted: Result<string, string>)
    requires Reached(stored, extracted) && HasKey(cfg)
    requires !IsBlank(ClampText(extracted.value, RouteMaxChars))
    requires Orchestrate(Hosted(cfg, net), ClampText(extracted.value, RouteMaxChars), ParsePreset(query)).0.Ok?
    ensures var (r, calls) := Orchestrate(Hosted(cfg, net), ClampText(extracted.value, RouteMaxChars), ParsePreset(query));
      Respond(cfg, net, query, stored, extracted) == (Answered(r.value, HuggingFace, ParsePreset(query)), calls)
  {
  }

  /** With a key and a failing engine, the local summary of the unclamped text, with the note appended. */
  lemma EngineFails(cfg: Config, net: (nat, Request) -> Transport, query: Option<string>, stored: Stored,
                    extracted: Result<string, string>)
    requires Reached(stored, extracted) && HasKey(cfg)
    requires !IsBlank(ClampText(extracted.value, RouteMaxChars))
    requires Orchestrate(Hosted(cfg, net), ClampText(extracted.value, RouteMaxChars), ParsePreset(query)).0.Err?
    ensures Respond(cfg, net, query, stored, extracted).0
      == Answered(Summary(extracted.value, ParsePreset(query)) + FallbackNote, LocalFallback, ParsePreset(query))
  {
  }

  /** The hosted run's result, when it succeeds, is a non-empty summary. */
  lemma HostedNonEmpty(cfg: Config, net: (nat, Request) -> Transport, text: string, preset: Preset)
    ensures var r := Orchestrate(Hosted(cfg, net), text, preset).0;
      r.Ok? ==> r.value != ""
  {
    var e := Hosted(cfg, net);
    forall k, t, p ensures e(k, t, p).Ok? ==> e(k, t, p).value != "" {
      assert e(k, t, p) == SummarizeOnce(cfg, net, k, t, p);
    }
    NonEmptyResult(e, text, preset);
  }

  /** Every summary the route returns is non-empty and reports the preset the query asked for. */
  lemma SummaryNonEmpty(cfg: Config, net: (nat, Request) -> Transport, query: Option<string>, stored: Stored,
                        extracted: Result<string, string>)
    ensures var o := Respond(cfg, net, query, stored, extracted).0;
      o.Answered? ==> o.summary != "" && o.length == ParsePreset(query)
  {
    if Reached(stored, extracted) {
      var text := ClampText(extracted.value, RouteMaxChars);
      var preset := ParsePreset(query);
      Fallback.SummaryNonEmpty(extracted.value, preset);
      if !IsBlank(text) {
        if !HasKey(cfg) {
          NoKeyNoEngine(cfg, net, query, stored, extracted);
        } else if Orchestrate(Hosted(cfg, net), text, preset).0.Ok? {
          HostedNonEmpty(cfg, net, text, preset);
          EngineSucceeds(cfg, net, query, stored, extracted);
        } else {
          EngineFails(cfg, net, query, stored, extracted);
        }
      }
    }
  }

  /** A failed lookup or read answers with its error before any engine call. */
  lemma EarlyFailures(cfg: Config, net: (nat, Request) -> Transport, query: Option<string>, stored: Stored,
                      extracted: Result<string, string>)
    requires !Reached(stored, extracted)
    ensures Respond(cfg, net, query, stored, extracted).1 == []
    ensures Respond(cfg, net, query, stored, extracted).0.Failure?
    ensures !stored.courseFound ==> Respond(cfg, net, query, stored, extracted).0 == Failure(404, "Class not found")
    ensures Precheck(stored).None? ==> Respond(cfg, net, query, stored, extracted).0 == Failure(500, "Summarization failed")
  {
  }

  /** The engine is called only for a readable file when a key is configured, and then on the clamped text. */
  lemma RespondCalls(cfg: Config, net: (nat, Request) -> Transport, query: Option<string>, stored: Stored,
                     extracted: Result<string, string>)
    ensures Respond(cfg, net, query, stored, extracted).1 ==
      if Reached(stored, extracted) && HasKey(cfg) && !IsBlank(ClampText(extracted.value, RouteMaxChars))
      then Orchestrate(Hosted(cfg, net), ClampText(extracted.value, RouteMaxChars), ParsePreset(query)).1
      else []
  {
  }

  /** The engine sees at most the clamped text: never more than the clamp limit plus the marker. */
  lemma EngineInputBounded(cfg: Config, net: (nat, Request) -> Transport, query: Option<string>, stored: Stored,
                           extracted: Result<string, string>)
    requires Reached(stored, extracted) && HasKey(cfg)
    ensures forall c :: c in Respond(cfg, net, query, stored, extracted).1 ==> |c.input| <= RouteMaxChars + |Marker|
  {
    var text := ClampText(extracted.value, RouteMaxChars);
    RespondCalls(cfg, net, query, stored, extracted);
    RouteClamp(extracted.value);
    if !IsBlank(text) {
      CallsBounded(Hosted(cfg, net), text, ParsePreset(query));
    }
  }
}
