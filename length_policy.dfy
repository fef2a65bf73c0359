/** The length presets, their bounds table, the chunk-level demotion and the query parsing. */
module LengthPolicy {
  import opened Wrappers
  import opened Strings

  datatype Preset = Short | Medium | Long

  /** Summary length bounds, in the engine's units. */
  datatype Bounds = Bounds(minLength: nat, maxLength: nat)

  /** `lengthParams`: long 280-900, medium 160-600, anything else 80-250. */
  function LengthParams(preset: Preset): (b: Bounds)
    ensures b.minLength < b.maxLength
  {
    if preset == Long then Bounds(280, 900)
    else if preset == Medium then Bounds(160, 600)
    else Bounds(80, 250)
  }

  /** The preset used for each chunk when a text has several: long is demoted to medium. */
  function ChunkPreset(preset: Preset): (p: Preset)
    ensures p != Long
    ensures preset != Long ==> p == preset
    ensures LengthParams(p).maxLength <= LengthParams(preset).maxLength
  {
    if preset == Long then Medium else preset
  }

  /** The preset's name as the query spells it. */
  function Name(preset: Preset): string {
    match preset
    case Short => "short"
    case Medium => "medium"
    case Long => "long"
  }

  /** `String(query.length || "medium").toLowerCase()`, then a known name or "medium". */
  function ParsePreset(query: Option<string>): (p: Preset)
    ensures query.None? || query == Some("") ==> p == Medium
    ensures query.Some? && Lower(query.value) in {"short", "medium", "long"} ==> Name(p) == Lower(query.value)
    ensures query.Some? && Lower(query.value) !in {"short", "medium", "long"} ==> p == Medium
  {
    var q := Lower(if query.Some? && query.value != "" then query.value else "medium");
    if q == "short" then Short
    else if q == "medium" then Medium
    else if q == "long" then Long
    else Medium
  }

  /** Every preset's name parses back to it. */
  lemma ParseName(preset: Preset)
    ensures ParsePreset(Some(Name(preset))) == preset
  {
    var n := Name(preset);
    assert Lower(n) == n;
  }

  /** Demoting twice is demoting once. */
  lemma ChunkPresetIdempotent(preset: Preset)
    ensures ChunkPreset(ChunkPreset(preset)) == ChunkPreset(preset)
  {
  }

  /** The bounds table as the route uses it. */
  lemma LengthTable()
    ensures LengthParams(Short) == Bounds(80, 250)
    ensures LengthParams(Medium) == Bounds(160, 600)
    ensures LengthParams(Long) == Bounds(280, 900)
    ensures ChunkPreset(Long) == Medium && ChunkPreset(Medium) == Medium && ChunkPreset(Short) == Short
  {
  }
}
