/** Which fields of a result the renderer shows, and when it refuses to render at all. */
module RenderSelection {
  import opened Prelude
  import opened Settings
  import opened ToolResults
  import opened FieldBudget

  datatype RenderOptions = RenderOptions(
    format: OutputFormat, includePolicy: bool, includeDiagnostics: bool, includeCost: bool)

  datatype Channel = PolicyChannel | DiagnosticsChannel | CostChannel

  /** The options in force: those requested, or the defaults, limited by the verbosity. */
  function EffectiveOptions(d: Defaults, requested: Option<RenderOptions>): RenderOptions {
    var o :=
      if requested.Some? then requested.value
      else RenderOptions(d.format, d.includePolicy, d.includeDiagnostics, d.includeCost);
    match d.verbosity
    case Minimal => RenderOptions(o.format, false, false, false)
    case Normal => RenderOptions(o.format, false, false, false)
    case Expanded => o.(includeCost := false)
    case Debug => RenderOptions(o.format, true, true, true)
  }

  function FieldLimit(d: Defaults): Option<nat> {
    match d.granularity
    case Summary => Some(if d.maxInlineLines < 1 then d.maxInlineLines else 1)
    case KeyFields => Some(if d.maxInlineLines < 3 then d.maxInlineLines else 3)
    case Full => None
  }

  function NormalChar(c: char): char {
    if 'A' <= c <= 'Z' then (c as int + 32) as char
    else if c == '-' || c == '.' || c == ' ' then '_'
    else c
  }

  function Normalize(key: string): string {
    var t := Trim(key);
    seq(|t|, i requires 0 <= i < |t| => NormalChar(t[i]))
  }

  predicate EndsWith(s: string, suffix: string) {
    |suffix| <= |s| && s[|s| - |suffix|..] == suffix
  }

  /** The optional channel a key belongs to, if any. */
  function ChannelOf(key: string): Option<Channel> {
    var k := Normalize(key);
    if k == "policy" || "policy_" <= k || k == "needs_approval" || k == "blocked_reason" then Some(PolicyChannel)
    else if k == "diagnostic" || k == "diagnostics" || "diagnostic_" <= k || "diagnostics_" <= k ||
            k == "retry_hint" || k == "parser_failure" then Some(DiagnosticsChannel)
    else if k == "cost" || "cost_" <= k || EndsWith(k, "_tokens") || k == "duration_ms" || k == "elapsed_ms"
    then Some(CostChannel)
    else None
  }

  predicate ShouldRender(key: string, o: RenderOptions) {
    match ChannelOf(key)
    case None => true
    case Some(PolicyChannel) => o.includePolicy
    case Some(DiagnosticsChannel) => o.includeDiagnostics
    case Some(CostChannel) => o.includeCost
  }

  // ---- the selection, which depends on the keys alone

  function FieldKeys(fields: seq<ResultField>): (keys: seq<string>)
    ensures |keys| == |fields|
  {
    seq(|fields|, i requires 0 <= i < |fields| => fields[i].key)
  }

  /** The positions of the wanted keys, in order. */
  function Positions(keys: seq<string>, wanted: string -> bool): (r: seq<nat>)
    ensures forall i :: i in r <==> 0 <= i < |keys| && wanted(keys[i])
    ensures |r| <= |keys|
  {
    var n := |keys| - 1;
    if keys == [] then []
    else
      assert forall i | 0 <= i < n :: keys[..n][i] == keys[i];
      Positions(keys[..n], wanted) + if wanted(keys[n]) then [n] else []
  }

  /** The kept positions after a stable sort that brings summaries to the front. */
  function SummariesFirst(keys: seq<string>, wanted: string -> bool): (r: seq<nat>)
    ensures forall i :: i in r <==> 0 <= i < |keys| && wanted(keys[i])
  {
    Positions(keys, k => wanted(k) && k == "summary") + Positions(keys, k => wanted(k) && k != "summary")
  }

  /** The positions that are shown, of which a limit keeps the first ones. */
  function Shown(keys: seq<string>, wanted: string -> bool, limit: Option<nat>): (r: seq<nat>)
    ensures forall i | i in r :: i < |keys| && wanted(keys[i])
    ensures limit.Some? ==> |r| <= limit.value
  {
    if limit.None? then Positions(keys, wanted)
    else
      var sorted := SummariesFirst(keys, wanted);
      if |sorted| <= limit.value then sorted
      else
        assert forall i | i in sorted[..limit.value] :: i in sorted;
        sorted[..limit.value]
  }

  /** If the limit does not bite, exactly the wanted fields are shown. */
  lemma ShownWithinLimit(keys: seq<string>, wanted: string -> bool, limit: Option<nat>, i: nat)
    requires limit.None? || |SummariesFirst(keys, wanted)| <= limit.value
    ensures i in Shown(keys, wanted, limit) <==> i < |keys| && wanted(keys[i])
  {
  }

  function ShownIn(fields: seq<ResultField>, d: Defaults, requested: Option<RenderOptions>): (r: seq<nat>)
    ensures forall i | i in r :: i < |fields|
  {
    var o := EffectiveOptions(d, requested);
    Shown(FieldKeys(fields), k => ShouldRender(k, o), FieldLimit(d))
  }

  /** The fields the byte budget is applied to. */
  function Renderable(fields: seq<ResultField>, d: Defaults, requested: Option<RenderOptions>): (r: seq<ResultField>) {
    var shown := ShownIn(fields, d, requested);
    seq(|shown|, j requires 0 <= j < |shown| => assert shown[j] in shown; fields[shown[j]])
  }

  /** Rendering is refused exactly if oversized output is rejected and a shown field is oversized. */
  predicate Renders(fields: seq<ResultField>, d: Defaults, requested: Option<RenderOptions>) {
    !(d.oversizePolicy.RejectOversize? && AnyOversized(Renderable(fields, d, requested), d.maxInlineBytes))
  }

  lemma OverLimitIff(fields: seq<ResultField>, d: Defaults, requested: Option<RenderOptions>)
    ensures AnyOversized(Renderable(fields, d, requested), d.maxInlineBytes) <==>
            exists i | i in ShownIn(fields, d, requested) :: Oversized(fields[i], d.maxInlineBytes)
  {
    hide Oversized; hide ShownIn;
    var shown := ShownIn(fields, d, requested);
    var r := Renderable(fields, d, requested);
    assert forall j | 0 <= j < |shown| :: shown[j] in shown && r[j] == fields[shown[j]];
    if exists i | i in shown :: Oversized(fields[i], d.maxInlineBytes) {
      var i :| i in shown && Oversized(fields[i], d.maxInlineBytes);
      var j :| 0 <= j < |shown| && shown[j] == i;
      assert Oversized(r[j], d.maxInlineBytes);
    }
  }

  /** Selects the fields and applies the byte budget to a copy of them. */
  method Render(
    fields: seq<ResultField>, truncation: Option<TruncationMetadata>, d: Defaults, requested: Option<RenderOptions>)
    returns (ok: bool, rendered: seq<ResultField>, metadata: Option<TruncationMetadata>)
    ensures ok == Renders(fields, d, requested)
    ensures ok ==>
      var (chosen, max) := (Renderable(fields, d, requested), d.maxInlineBytes);
      if !AnyOversized(chosen, max) then rendered == chosen && metadata == truncation
      else
        var totals := CutTotals(chosen, RenderFields(chosen, max), max);
        && rendered == RenderFields(chosen, max)
        && metadata == Some(MergeTruncation(truncation, totals.original, totals.retained, RENDER_REASON))
  {
    hide Renderable; hide AnyOversized; hide RenderFields; hide CutTotals;
    var shown := Renderable(fields, d, requested);
    var copy := new ResultField[|shown|](i requires 0 <= i < |shown| => shown[i]);
    assert copy[..] == shown;
    var outcome, merged := ApplyRenderByteBudget(copy, truncation, d.maxInlineBytes, d.oversizePolicy);
    return !outcome.Rejected?, copy[..], merged;
  }
}
