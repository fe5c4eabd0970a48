/** Tool-output settings: scoped overrides, how they combine along a scope's chain, and the audited
    service that stores them. */
module Settings {
  import opened Prelude

  datatype OutputFormat = Toon | Json | Text
  datatype Verbosity = Minimal | Normal | Expanded | Debug
  datatype Granularity = Summary | KeyFields | Full
  datatype OversizePolicy = TruncateWithMetadata | SpillToArtifactRef | RejectOversize

  datatype Level =
    | Workspace
    | Repository(repositoryId: string)
    | Project(projectId: string)
    | Session(sessionId: string)
    | AgentProfile(agentId: string)

  datatype Scope = Scope(level: Level, tool: Option<string>)

  datatype Defaults = Defaults(
    format: OutputFormat, includePolicy: bool, includeDiagnostics: bool, includeCost: bool,
    maxInlineBytes: nat, maxInlineLines: nat,
    verbosity: Verbosity, granularity: Granularity, oversizePolicy: OversizePolicy)

  datatype Overrides = Overrides(
    format: Option<OutputFormat>, includePolicy: Option<bool>, includeDiagnostics: Option<bool>,
    includeCost: Option<bool>, maxInlineBytes: Option<nat>, maxInlineLines: Option<nat>,
    verbosity: Option<Verbosity>, granularity: Option<Granularity>, oversizePolicy: Option<OversizePolicy>)

  const DEFAULTS := Defaults(Toon, false, false, false, 16 * 1024, 200, Normal, KeyFields, TruncateWithMetadata)
  const NO_OVERRIDES := Overrides(None, None, None, None, None, None, None, None, None)

  const MIN_BYTES := 256
  const MAX_BYTES := 1024 * 1024
  const MIN_LINES := 1
  const MAX_LINES := 10_000

  predicate InRange(d: Defaults) {
    MIN_BYTES <= d.maxInlineBytes <= MAX_BYTES && MIN_LINES <= d.maxInlineLines <= MAX_LINES
  }

  // ---- override algebra

  function Or<T>(update: Option<T>, current: Option<T>): Option<T> {
    if update.Some? then update else current
  }

  function Pick<T>(o: Option<T>, d: T): T {
    if o.Some? then o.value else d
  }

  function Changed<T(==)>(base: T, inherited: T): Option<T> {
    if base != inherited then Some(base) else None
  }

  function Merge(o: Overrides, update: Overrides): Overrides {
    Overrides(
      Or(update.format, o.format), Or(update.includePolicy, o.includePolicy),
      Or(update.includeDiagnostics, o.includeDiagnostics), Or(update.includeCost, o.includeCost),
      Or(update.maxInlineBytes, o.maxInlineBytes), Or(update.maxInlineLines, o.maxInlineLines),
      Or(update.verbosity, o.verbosity), Or(update.granularity, o.granularity),
      Or(update.oversizePolicy, o.oversizePolicy))
  }

  function ApplyTo(o: Overrides, d: Defaults): Defaults {
    Defaults(
      Pick(o.format, d.format), Pick(o.includePolicy, d.includePolicy),
      Pick(o.includeDiagnostics, d.includeDiagnostics), Pick(o.includeCost, d.includeCost),
      Pick(o.maxInlineBytes, d.maxInlineBytes), Pick(o.maxInlineLines, d.maxInlineLines),
      Pick(o.verbosity, d.verbosity), Pick(o.granularity, d.granularity),
      Pick(o.oversizePolicy, d.oversizePolicy))
  }

  /** The overrides that turn `inherited` into `base`, naming only the fields that differ. */
  function Diff(base: Defaults, inherited: Defaults): Overrides {
    Overrides(
      Changed(base.format, inherited.format), Changed(base.includePolicy, inherited.includePolicy),
      Changed(base.includeDiagnostics, inherited.includeDiagnostics), Changed(base.includeCost, inherited.includeCost),
      Changed(base.maxInlineBytes, inherited.maxInlineBytes), Changed(base.maxInlineLines, inherited.maxInlineLines),
      Changed(base.verbosity, inherited.verbosity), Changed(base.granularity, inherited.granularity),
      Changed(base.oversizePolicy, inherited.oversizePolicy))
  }

  // ---- the same algebra, one field at a time

  datatype Field =
    | FormatField | PolicyField | DiagnosticsField | CostField | BytesField | LinesField
    | VerbosityField | GranularityField | OversizeField

  datatype Value =
    | FormatValue(format: OutputFormat) | BoolValue(b: bool) | NatValue(n: nat)
    | VerbosityValue(verbosity: Verbosity) | GranularityValue(granularity: Granularity)
    | OversizeValue(oversize: OversizePolicy)

  function Get(d: Defaults, f: Field): Value {
    match f
    case FormatField => FormatValue(d.format)
    case PolicyField => BoolValue(d.includePolicy)
    case DiagnosticsField => BoolValue(d.includeDiagnostics)
    case CostField => BoolValue(d.includeCost)
    case BytesField => NatValue(d.maxInlineBytes)
    case LinesField => NatValue(d.maxInlineLines)
    case VerbosityField => VerbosityValue(d.verbosity)
    case GranularityField => GranularityValue(d.granularity)
    case OversizeField => OversizeValue(d.oversizePolicy)
  }

  predicate Sets(o: Overrides, f: Field) {
    match f
    case FormatField => o.format.Some?
    case PolicyField => o.includePolicy.Some?
    case DiagnosticsField => o.includeDiagnostics.Some?
    case CostField => o.includeCost.Some?
    case BytesField => o.maxInlineBytes.Some?
    case LinesField => o.maxInlineLines.Some?
    case VerbosityField => o.verbosity.Some?
    case GranularityField => o.granularity.Some?
    case OversizeField => o.oversizePolicy.Some?
  }

  lemma SameFields(a: Defaults, b: Defaults)
    ensures a == b <==> forall f :: Get(a, f) == Get(b, f)
  {
    if forall f :: Get(a, f) == Get(b, f) {
      assert Get(a, FormatField) == Get(b, FormatField) && Get(a, PolicyField) == Get(b, PolicyField);
      assert Get(a, DiagnosticsField) == Get(b, DiagnosticsField) && Get(a, CostField) == Get(b, CostField);
      assert Get(a, BytesField) == Get(b, BytesField) && Get(a, LinesField) == Get(b, LinesField);
      assert Get(a, VerbosityField) == Get(b, VerbosityField) && Get(a, GranularityField) == Get(b, GranularityField);
      assert Get(a, OversizeField) == Get(b, OversizeField);
    }
  }

  /** Overriding a field ignores what was inherited; not overriding it keeps what was inherited. */
  lemma ApplyField(o: Overrides, d: Defaults, e: Defaults, f: Field)
    ensures Sets(o, f) ==> Get(ApplyTo(o, d), f) == Get(ApplyTo(o, e), f)
    ensures !Sets(o, f) ==> Get(ApplyTo(o, d), f) == Get(d, f)
  {
  }

  lemma DiffField(base: Defaults, inherited: Defaults, d: Defaults, f: Field)
    ensures Get(ApplyTo(Diff(base, inherited), d), f) ==
            if Get(base, f) == Get(inherited, f) then Get(d, f) else Get(base, f)
  {
  }

  lemma DiffRestores(base: Defaults, inherited: Defaults)
    ensures ApplyTo(Diff(base, inherited), inherited) == base
  {
  }

  /** Storing a merged override has the effect of applying the update on top of the old one. */
  lemma MergeComposes(o: Overrides, update: Overrides, d: Defaults)
    ensures ApplyTo(Merge(o, update), d) == ApplyTo(update, ApplyTo(o, d))
  {
  }

  // ---- stored settings and resolution

  /** A stored record. A legacy one carries full defaults instead of overrides. */
  datatype Setting = Setting(
    scope: Scope, overrides: Overrides, updatedAt: int, updatedBy: Option<string>, legacy: Option<Defaults>)

  function NewSetting(scope: Scope, at: int): Setting {
    Setting(scope, NO_OVERRIDES, at, None, None)
  }

  function ResolvedOverrides(s: Setting, inherited: Defaults): Overrides {
    if s.legacy.Some? then Diff(s.legacy.value, inherited) else s.overrides
  }

  function Layer(s: Setting, inherited: Defaults): Defaults {
    ApplyTo(ResolvedOverrides(s, inherited), inherited)
  }

  const WORKSPACE := Scope(Workspace, None)

  function LevelScope(s: Scope): Scope {
    Scope(s.level, None)
  }

  function ToolScope(s: Scope): Scope {
    Scope(Workspace, s.tool)
  }

  function PushUnique(chain: seq<Scope>, s: Scope): seq<Scope> {
    if s in chain then chain else chain + [s]
  }

  /** The scopes that contribute to a scope, most general first. */
  function Chain(s: Scope): seq<Scope> {
    var chain := PushUnique([WORKSPACE], LevelScope(s));
    if s.tool.None? then chain else PushUnique(PushUnique(chain, ToolScope(s)), s)
  }

  function Find(settings: seq<Setting>, s: Scope): (r: Option<nat>)
    ensures r.Some? ==> r.value < |settings| && settings[r.value].scope == s
    ensures r.Some? ==> forall i | 0 <= i < r.value :: settings[i].scope != s
    ensures r.None? ==> forall i | 0 <= i < |settings| :: settings[i].scope != s
  {
    if settings == [] then None
    else if settings[0].scope == s then Some(0)
    else match Find(settings[1..], s) case None => None case Some(i) => Some(i + 1)
  }

  /** One step of resolution: the layer stored at a scope, if there is one. */
  function LayerAt(settings: seq<Setting>, s: Scope, inherited: Defaults): Defaults {
    match Find(settings, s)
    case None => inherited
    case Some(i) => Layer(settings[i], inherited)
  }

  function ResolveAlong(settings: seq<Setting>, chain: seq<Scope>, d: Defaults): Defaults {
    if chain == [] then d else ResolveAlong(settings, chain[1..], LayerAt(settings, chain[0], d))
  }

  function Resolve(settings: seq<Setting>, s: Scope): Defaults {
    ResolveAlong(settings, Chain(s), DEFAULTS)
  }

  /** The part of a chain before the scope itself. */
  function Ancestors(s: Scope): seq<Scope> {
    Chain(s)[..|Chain(s)| - 1]
  }

  function ResolveParent(settings: seq<Setting>, s: Scope): Defaults {
    ResolveAlong(settings, Ancestors(s), DEFAULTS)
  }
}
