/** `clampText`: bounds a document's length, keeping its head and its tail. */
module Clamp {
  import opened Strings

  /** The notice put between the kept head and tail. */
  const Marker: string := "\n\n[\U{2026}truncated\U{2026}]\n\n"

  /** The ceiling the summarise route uses (and the default). */
  const RouteMaxChars: nat := 12000

  /** `Math.floor(maxChars * 0.7)`, computed on integers. */
  function HeadLength(maxChars: nat): nat { 7 * maxChars / 10 }

  /** `Math.floor(maxChars * 0.2)`, computed on integers. */
  function TailLength(maxChars: nat): nat { 2 * maxChars / 10 }

  /** `t.slice(-n)`: the last n characters, except that `slice(-0)` is the whole string. */
  function LastChars(t: string, n: nat): (r: string)
    requires n <= |t|
    ensures |r| <= |t| && r == t[|t| - |r|..]
    ensures n > 0 ==> |r| == n
    ensures n == 0 ==> r == t
  {
    if n == 0 then t else t[|t| - n..]
  }

  function ClampText(t: string, maxChars: nat): (r: string)
    ensures t == "" ==> r == ""
    ensures |t| <= maxChars ==> r == t
    ensures |t| > maxChars ==> |r| >= HeadLength(maxChars) + |Marker|
    ensures |t| > maxChars ==> r[..HeadLength(maxChars)] == t[..HeadLength(maxChars)]
    ensures |t| > maxChars ==> r[HeadLength(maxChars)..HeadLength(maxChars) + |Marker|] == Marker
    ensures |t| > maxChars && TailLength(maxChars) > 0 ==>
              |r| == HeadLength(maxChars) + |Marker| + TailLength(maxChars)
              && r[|r| - TailLength(maxChars)..] == t[|t| - TailLength(maxChars)..]
    ensures IsBlank(r) <==> IsBlank(t) && |t| <= maxChars
  {
    if t == "" then ""
    else if |t| <= maxChars then t
    else
      var head := t[..HeadLength(maxChars)];
      var r := head + Marker + LastChars(t, TailLength(maxChars));
      assert r[HeadLength(maxChars) + 2] == '[';
      r
  }

  /** The output never exceeds the ceiling plus the marker, once the tail is not the `slice(-0)` case. */
  lemma ClampBound(t: string, maxChars: nat)
    requires maxChars >= 5
    ensures |ClampText(t, maxChars)| <= maxChars + |Marker|
  {
  }

  /** Below a ceiling of 5 the tail length is 0 and `slice(-0)` keeps the whole text after the marker. */
  lemma ClampZeroTail(t: string, maxChars: nat)
    requires maxChars < 5 && |t| > maxChars
    ensures ClampText(t, maxChars) == t[..HeadLength(maxChars)] + Marker + t
    ensures |ClampText(t, maxChars)| > maxChars + |Marker|
  {
  }

  /** Clamping twice changes nothing when a clamped text fits under the ceiling. */
  lemma ClampIdempotent(t: string, maxChars: nat)
    requires HeadLength(maxChars) + |Marker| + TailLength(maxChars) <= maxChars
    ensures ClampText(ClampText(t, maxChars), maxChars) == ClampText(t, maxChars)
  {
  }

  /** At the route's ceiling: head 8400, tail 2400, at most 12017 characters, and idempotent. */
  lemma RouteClamp(t: string)
    ensures HeadLength(RouteMaxChars) == 8400 && TailLength(RouteMaxChars) == 2400
    ensures |ClampText(t, RouteMaxChars)| <= RouteMaxChars + |Marker| == 12017
    ensures ClampText(ClampText(t, RouteMaxChars), RouteMaxChars) == ClampText(t, RouteMaxChars)
  {
    ClampBound(t, RouteMaxChars);
    ClampIdempotent(t, RouteMaxChars);
  }
}
