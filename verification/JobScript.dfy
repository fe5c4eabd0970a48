/** Everything the surroundings decide about one run of a tool job, and what follows from it. */
module JobScript {
  import opened Prelude
  import opened Utf8
  import opened Settings
  import opened ToolResults
  import opened FieldBudget
  import opened RenderSelection
  import opened ArtifactStore
  import opened ArtifactSpill
  import opened JobStore

  datatype SpillOptions = SpillOptions(max: nat, mediaType: string)

  const DEFAULT_MEDIA_TYPE := "text/plain; charset=utf-8"

  /**
   * The request, the policy's decision, the tool's result, the settings in force, what the artifact
   * store will hand out and what its disk will do, and the answer of the idempotency finalizer.
   */
  datatype Script = Script(
    requestOk: bool,
    scope: string,
    outcome: PolicyOutcome,
    decision: nat,
    toolId: string,
    resultValid: bool,
    status: ResultStatus,
    fields: seq<ResultField>,
    truncation: Option<TruncationMetadata>,
    defaults: Defaults,
    options: Option<RenderOptions>,
    explicitSpill: Option<SpillOptions>,
    nextArtifact: nat -> Fresh,
    disk: string -> Fate,
    finalizer: Option<bool>)
  {
    function Limit(): nat { defaults.maxInlineBytes }

    function Supply(): (r: seq<Fresh>)
      ensures |r| == |fields| && forall i: nat | i < |fields| :: r[i] == nextArtifact(i)
    {
      seq(|fields|, (i: nat) => nextArtifact(i))
    }

    predicate Rejects() { defaults.oversizePolicy.RejectOversize? }
  }

  predicate Runs(s: Script) { s.outcome.Allowed? || s.outcome.Audited? }

  /** The spill that is asked for: by the request, or by the settings at their own limit. */
  function SpillOf(s: Script): Option<Request> {
    if s.explicitSpill.Some? then
      Some(Request(s.scope, s.toolId, s.explicitSpill.value.max, s.explicitSpill.value.mediaType))
    else if s.defaults.oversizePolicy.SpillToArtifactRef? then
      Some(Request(s.scope, s.toolId, s.Limit(), DEFAULT_MEDIA_TYPE))
    else None
  }

  predicate SpillFails(s: Script) {
    SpillOf(s).Some? && Fails(SpillOf(s).value, s.fields, s.Supply(), s.disk)
  }

  /** The size-limiting step changes the result. */
  predicate Rewrites(s: Script) {
    match SpillOf(s)
    case Some(q) => q.max > 0 && AnyOversized(s.fields, q.max)
    case None => s.defaults.oversizePolicy.TruncateWithMetadata? && AnyOversized(s.fields, s.Limit())
  }

  /** The fields that are recorded. */
  function Recorded(s: Script): seq<ResultField> {
    if !Rewrites(s) then s.fields
    else
      match SpillOf(s)
      case Some(q) => SpilledFields(q, s.fields, s.Supply())
      case None => RuntimeFields(s.fields, s.Limit())
  }

  /** The tool ran but its result is turned away before it is recorded. */
  predicate FailsEarly(s: Script) {
    || !s.resultValid
    || (s.Rejects() && AnyOversized(s.fields, s.Limit()))
    || !Renders(s.fields, s.defaults, s.options)
    || SpillFails(s)
  }

  /** The result was rewritten and the rewritten result does not render. */
  predicate Strands(s: Script) {
    Runs(s) && !FailsEarly(s) && Rewrites(s) && !Renders(Recorded(s), s.defaults, s.options)
  }

  /** Whether an undisturbed run of the script ends in a receipt. */
  predicate Completes(s: Script) { !Runs(s) || (!FailsEarly(s) && !Strands(s)) }

  // ---- when a run is stranded

  /** A result that passes the size check renders: the first rendering never fails on its own. */
  lemma FirstRenderingWorks(s: Script)
    requires !(s.Rejects() && AnyOversized(s.fields, s.Limit()))
    ensures Renders(s.fields, s.defaults, s.options)
  {
    hide Oversized; hide ShownIn; hide Renderable;
    OverLimitIff(s.fields, s.defaults, s.options);
  }

  lemma SpillKeepsKeys(q: Request, fields: seq<ResultField>, supply: seq<Fresh>)
    requires |fields| == |supply|
    ensures FieldKeys(SpilledFields(q, fields, supply)) == FieldKeys(fields)
  {
    hide Oversized;
  }

  /** Of a spilled result that was within the limit, a field is over it exactly if its reference is. */
  lemma OnlyReferencesOverflow(s: Script, q: Request, i: nat)
    requires i < |s.fields| && !AnyOversized(s.fields, s.Limit())
    ensures Oversized(SpilledFields(q, s.fields, s.Supply())[i], s.Limit()) <==>
            Oversized(s.fields[i], q.max) && ByteLen(Replacement(s.nextArtifact(i))) > s.Limit()
  {
    hide ByteLen; hide JoinedLen;
    assert !Oversized(s.fields[i], s.Limit());
    assert SpilledFields(q, s.fields, s.Supply())[i] == SpilledField(q, s.fields[i], s.nextArtifact(i));
  }

  /** A field that is shown, is spilled, and comes back as a reference over the limit. */
  ghost predicate ShowsLongReference(s: Script, max: nat) {
    exists i | i in ShownIn(s.fields, s.defaults, s.options) ::
      Oversized(s.fields[i], max) && ByteLen(Replacement(s.nextArtifact(i))) > s.Limit()
  }

  /**
   * Oversized output is rejected and the result is within the limit, but an explicit spill at a lower
   * limit, whose writes all work, turns a field that is shown into a reference over the limit.
   */
  ghost predicate OverflowsOnSpill(s: Script) {
    && Runs(s) && s.resultValid && s.Rejects() && !AnyOversized(s.fields, s.Limit())
    && s.explicitSpill.Some? && s.explicitSpill.value.max > 0 && !SpillFails(s)
    && ShowsLongReference(s, s.explicitSpill.value.max)
  }

  /** A run is stranded in exactly this case. */
  lemma StrandsIff(s: Script)
    ensures Strands(s) <==> OverflowsOnSpill(s)
  {
    hide Oversized; hide ShownIn; hide Renderable; hide Fails; hide ByteLen; hide SpilledFields;
    if !(s.Rejects() && AnyOversized(s.fields, s.Limit())) { FirstRenderingWorks(s); }
    if s.Rejects() && s.explicitSpill.Some? && !AnyOversized(s.fields, s.Limit()) {
      var q := SpillOf(s).value;
      var after := SpilledFields(q, s.fields, s.Supply());
      OverLimitIff(after, s.defaults, s.options);
      SpillShows(s, q);
      forall i: nat | i < |s.fields|
        ensures Oversized(after[i], s.Limit()) <==>
                Oversized(s.fields[i], q.max) && ByteLen(Replacement(s.nextArtifact(i))) > s.Limit()
      {
        OnlyReferencesOverflow(s, q, i);
      }
    }
  }

  lemma SpillShows(s: Script, q: Request)
    ensures ShownIn(SpilledFields(q, s.fields, s.Supply()), s.defaults, s.options) ==
            ShownIn(s.fields, s.defaults, s.options)
  {
    hide SpilledFields; hide ShouldRender; hide Shown;
    SpillKeepsKeys(q, s.fields, s.Supply());
  }

  // ---- a run that is stranded

  const LONG_PATH: string := seq(MIN_BYTES, (i: nat) => 'd')

  /**
   * The smallest limit the settings allow, with oversized output rejected; a two-byte result, spilled
   * at one byte, comes back as a reference to a path of 256 characters.
   */
  const STRANDED := Script(
    true, "repository", Allowed, 0, "echo", true, ResultStatus.Succeeded, [ResultField("out", Str("xy"))], None,
    DEFAULTS.(maxInlineBytes := MIN_BYTES, oversizePolicy := RejectOversize), None,
    Some(SpillOptions(1, DEFAULT_MEDIA_TYPE)), (i: nat) => Fresh("artifact", LONG_PATH, 0),
    (id: string) => Fate(Indexed, true, true, true), None)

  lemma PlainKey()
    ensures ChannelOf("out") == None
  {
    var k := "out";
    assert TrimStart(k) == k && TrimEnd(k) == k;
    assert Normalize(k) == k;
  }

  lemma StrandedShows()
    ensures 0 in ShownIn(STRANDED.fields, STRANDED.defaults, STRANDED.options)
  {
    hide ChannelOf; hide Positions;
    PlainKey();
    var o := EffectiveOptions(STRANDED.defaults, STRANDED.options);
    var keys := FieldKeys(STRANDED.fields);
    assert keys == ["out"] && ShouldRender(keys[0], o);
    ShownWithinLimit(keys, k => ShouldRender(k, o), FieldLimit(STRANDED.defaults), 0);
  }

  lemma StrandedSizes()
    ensures !AnyOversized(STRANDED.fields, STRANDED.Limit()) && Oversized(STRANDED.fields[0], 1)
    ensures ByteLen(Replacement(STRANDED.nextArtifact(0))) > STRANDED.Limit()
  {
    hide ByteLen;
    TwoBytes();
    BytesPerChar(Replacement(STRANDED.nextArtifact(0)));
  }

  /** Settings within their range, a small result and an ordinary spill are enough to strand a run. */
  lemma StrandedRunExists()
    ensures InRange(STRANDED.defaults) && Strands(STRANDED)
  {
    hide ByteLen; hide Oversized; hide ShownIn;
    StrandedShows();
    StrandedSizes();
    assert !SpillFails(STRANDED) by { StrandedSpillWorks(); }
    StrandsIff(STRANDED);
    assert ShowsLongReference(STRANDED, 1);
  }

  lemma StrandedSpillWorks()
    ensures !SpillFails(STRANDED)
  {
    var q := SpillOf(STRANDED).value;
    var n := FailureFrom(q, STRANDED.fields, STRANDED.Supply(), STRANDED.disk, 0);
    hide FailureFrom; hide Oversized;
    assert forall id :: STRANDED.disk(id).Holds();
  }
}
