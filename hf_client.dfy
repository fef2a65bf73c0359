/**
 * `hfSummarizeOnce`: one call to the hosted summarisation engine, and how its reply is read.
 * The network is a parameter: `net(k, request)` is the transport outcome of the k-th request.
 */
module HfClient {
  import opened Wrappers
  import opened Strings
  import opened LengthPolicy

  /** A decoded JSON value. Only the truthiness of a number matters here, so numbers are integers. */
  datatype Json =
    | JNull
    | JBool(b: bool)
    | JNum(n: int)
    | JStr(s: string)
    | JArr(items: seq<Json>)
    | JObj(fields: map<string, Json>)

  /** JavaScript truthiness of a JSON value. */
  predicate Truthy(v: Json) {
    match v
    case JNull => false
    case JBool(b) => b
    case JNum(n) => n != 0
    case JStr(s) => s != ""
    case _ => true
  }

  /** `v?.[key]`: only objects carry named properties; anything else gives `undefined` (None). */
  function Property(v: Json, key: string): Option<Json> {
    if v.JObj? && key in v.fields then Some(v.fields[key]) else None
  }

  const SummaryField := "summary_text"

  /** The reply used when no summary string can be found. */
  const NoSummary := "No summary."

  lemma NoSummaryTrimmed()
    ensures Trim(NoSummary) == NoSummary
  {
    TrimmedAlready(NoSummary);
  }

  /** `Array.isArray(data) ? data[0]?.summary_text : data?.summary_text || data`; None is `undefined`. */
  function Picked(data: Json): Option<Json> {
    match data
    case JArr(items) => if items == [] then None else Property(items[0], SummaryField)
    case _ =>
      var f := Property(data, SummaryField);
      if f.Some? && Truthy(f.value) then f else Some(data)
  }

  /** `s.trim() || "No summary."`: never empty, and already trimmed. */
  function TrimmedOrNoSummary(s: string): (r: string)
    ensures r != "" && Trim(r) == r
    ensures r == if IsBlank(s) then NoSummary else Trim(s)
  {
    var t := Trim(s);
    NoSummaryTrimmed();
    TrimmedAlready(t);
    if t == "" then NoSummary else t
  }

  /** `(typeof s === "string" ? s : "").trim() || "No summary."`. */
  function Interpret(data: Json): (r: string)
    ensures r != "" && Trim(r) == r
    ensures r == NoSummary || (Picked(data).Some? && Picked(data).value.JStr? && r == Trim(Picked(data).value.s))
  {
    var p := Picked(data);
    TrimmedOrNoSummary(if p.Some? && p.value.JStr? then p.value.s else "")
  }

  /** Whenever the picked value is a string s, the summary is s trimmed, or the fallback text when s is blank. */
  lemma InterpretString(data: Json, s: string)
    requires Picked(data) == Some(JStr(s))
    ensures Interpret(data) == if IsBlank(s) then NoSummary else Trim(s)
  {
  }

  /** The engine's usual reply, `[{"summary_text": s}]`, gives s trimmed, or the fallback text when s is blank. */
  lemma InterpretWrapped(s: string, rest: seq<Json>, others: map<string, Json>)
    ensures Interpret(JArr([JObj(others[SummaryField := JStr(s)])] + rest)) == if IsBlank(s) then NoSummary else Trim(s)
  {
    var head := JObj(others[SummaryField := JStr(s)]);
    var data := JArr([head] + rest);
    assert ([head] + rest)[0] == head;
    assert Property(head, SummaryField) == Some(JStr(s));
    InterpretString(data, s);
  }

  /** The unwrapped object reply reads the same field. */
  lemma InterpretObject(s: string, others: map<string, Json>)
    ensures Interpret(JObj(others[SummaryField := JStr(s)])) == if IsBlank(s) then NoSummary else Trim(s)
  {
    var data := JObj(others[SummaryField := JStr(s)]);
    assert Property(data, SummaryField) == Some(JStr(s));
    if s == "" {
      assert Picked(data) == Some(data);
      assert Interpret(data) == NoSummary;
    } else {
      InterpretString(data, s);
    }
  }

  /** A bare string reply is itself the summary (`data?.summary_text` is undefined, so `|| data` picks it). */
  lemma InterpretBareString(s: string)
    ensures Interpret(JStr(s)) == if IsBlank(s) then NoSummary else Trim(s)
  {
    assert Property(JStr(s), SummaryField) == None;
    InterpretString(JStr(s), s);
  }

  /** When no string is picked the reply reads as "No summary.". */
  lemma InterpretNoPick(data: Json)
    requires Picked(data).None? || !Picked(data).value.JStr?
    ensures Interpret(data) == NoSummary
  {
    assert Trim("") == "";
  }

  /** An object whose field is not a string, an empty list, or a list whose head has no string field all read as "No summary.". */
  lemma InterpretNoString(data: Json)
    requires || (data.JObj? && (SummaryField !in data.fields || !data.fields[SummaryField].JStr?))
             || data == JArr([])
             || (data.JArr? && data.items != [] && !(data.items[0].JObj? && SummaryField in data.items[0].fields
                                                   && data.items[0].fields[SummaryField].JStr?))
    ensures Interpret(data) == NoSummary
  {
    if data.JObj? {
      var f := Property(data, SummaryField);
      assert f.Some? ==> !f.value.JStr?;
      assert Picked(data) == (if f.Some? && Truthy(f.value) then f else Some(data));
    }
    InterpretNoPick(data);
  }

  /** The environment the client reads: `HF_API_KEY` and `HF_MODEL`. */
  datatype Config = Config(apiKey: Option<string>, model: Option<string>)

  /** `if (!token)`: an absent or empty key counts as missing. */
  predicate HasKey(cfg: Config) {
    cfg.apiKey.Some? && cfg.apiKey.value != ""
  }

  const DefaultModel := "facebook/bart-large-cnn"
  const Endpoint := "https://api-inference.huggingface.co/models/"

  /** `process.env.HF_MODEL || "facebook/bart-large-cnn"`. */
  /** `process.env.HF_MODEL || "facebook/bart-large-cnn"`: never empty. */
  function ModelName(cfg: Config): (r: string)
    ensures r != ""
    ensures r == DefaultModel <==> cfg.model.None? || cfg.model.value == "" || cfg.model.value == DefaultModel
  {
    if cfg.model.Some? && cfg.model.value != "" then cfg.model.value else DefaultModel
  }

  /** What the POST carries: URL, bearer token, input text and the fixed generation parameters. */
  datatype Request = Request(
    url: string,
    token: string,
    inputs: string,
    minLength: nat,
    maxLength: nat,
    doSample: bool,
    repetitionPenalty: real,
    waitForModel: bool)

  function BuildRequest(cfg: Config, text: string, preset: Preset): (req: Request)
    requires HasKey(cfg)
    ensures req.inputs == text && req.token == cfg.apiKey.value
    ensures Bounds(req.minLength, req.maxLength) == LengthParams(preset) && req.minLength < req.maxLength
    ensures !req.doSample && req.waitForModel && req.repetitionPenalty == 1.05
    ensures req.url == Endpoint + ModelName(cfg)
  {
    var b := LengthParams(preset);
    Request(Endpoint + ModelName(cfg), cfg.apiKey.value, text, b.minLength, b.maxLength, false, 1.05, true)
  }

  /** What came back: `fetch` rejected, or a status, the body text and the body decoded as JSON (None when it is not JSON). */
  datatype Transport =
    | FetchFailed
    | Reply(status: int, bodyText: string, json: Option<Json>)

  /** Why a call failed: the key check, a non-2xx status (with its body), a rejected fetch, or a body that is not JSON. */
  datatype HfError =
    | MissingKey
    | HttpStatus(status: int, body: string)
    | NetworkFailure
    | MalformedBody

  /** `resp.ok`. */
  predicate StatusOk(status: int) { 200 <= status <= 299 }

  /** What `hfSummarizeOnce` makes of the transport's outcome: the failures in order, else the interpreted JSON. */
  function Answer(t: Transport): (r: Result<string, HfError>)
    ensures r != Err(MissingKey)
    ensures r.Ok? ==> r.value != "" && Trim(r.value) == r.value
    ensures r.Err? && r.error.HttpStatus? <==> t.Reply? && !StatusOk(t.status)
    ensures r.Ok? <==> t.Reply? && StatusOk(t.status) && t.json.Some?
    ensures r.Ok? ==> t.Reply? && t.json.Some? && r.value == Interpret(t.json.value)
    ensures r.Err? && r.error.HttpStatus? ==> t.Reply? && r.error == HttpStatus(t.status, t.bodyText)
    ensures r == Err(NetworkFailure) <==> t.FetchFailed?
    ensures r == Err(MalformedBody) <==> t.Reply? && StatusOk(t.status) && t.json.None?
  {
    match t
    case FetchFailed => Err(NetworkFailure)
    case Reply(status, body, json) =>
      if !StatusOk(status) then Err(HttpStatus(status, body))
      else if json.None? then Err(MalformedBody)
      else Ok(Interpret(json.value))
  }

  /** `hfSummarizeOnce(text, preset)` as the k-th request of a run. */
  function SummarizeOnce(cfg: Config, net: (nat, Request) -> Transport, k: nat, text: string, preset: Preset)
    : (r: Result<string, HfError>)
    ensures !HasKey(cfg) <==> r == Err(MissingKey)
    ensures r.Ok? ==> r.value != "" && Trim(r.value) == r.value
    ensures HasKey(cfg) ==> r == Answer(net(k, BuildRequest(cfg, text, preset)))
  {
    if !HasKey(cfg) then Err(MissingKey) else Answer(net(k, BuildRequest(cfg, text, preset)))
  }

  /** A 503 reply is an HTTP error carrying that status. */
  lemma ServiceUnavailable(cfg: Config, net: (nat, Request) -> Transport, k: nat, text: string, preset: Preset)
    requires HasKey(cfg) && net(k, BuildRequest(cfg, text, preset)).Reply?
    requires net(k, BuildRequest(cfg, text, preset)).status == 503
    ensures SummarizeOnce(cfg, net, k, text, preset) == Err(HttpStatus(503, net(k, BuildRequest(cfg, text, preset)).bodyText))
  {
  }
}
