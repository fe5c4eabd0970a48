/** What resolution and updates mean, field by field and record by record. */
module SettingsRules {
  import opened Prelude
  import opened Settings
  import opened SettingsMigration
  import opened SettingsService

  // ---- the nearest record that says something wins

  function Lift<T>(o: Option<T>, wrap: T -> Value): Option<Value> {
    if o.Some? then Some(wrap(o.value)) else None
  }

  /** What overrides say about a field, if anything. */
  function Stated(o: Overrides, f: Field): Option<Value> {
    match f
    case FormatField => Lift(o.format, x => FormatValue(x))
    case PolicyField => Lift(o.includePolicy, x => BoolValue(x))
    case DiagnosticsField => Lift(o.includeDiagnostics, x => BoolValue(x))
    case CostField => Lift(o.includeCost, x => BoolValue(x))
    case BytesField => Lift(o.maxInlineBytes, x => NatValue(x))
    case LinesField => Lift(o.maxInlineLines, x => NatValue(x))
    case VerbosityField => Lift(o.verbosity, x => VerbosityValue(x))
    case GranularityField => Lift(o.granularity, x => GranularityValue(x))
    case OversizeField => Lift(o.oversizePolicy, x => OversizeValue(x))
  }

  /** What a record says about a field: a legacy one says something about all of them. */
  function Says(s: Setting, f: Field): Option<Value> {
    if s.legacy.Some? then Some(Get(s.legacy.value, f)) else Stated(s.overrides, f)
  }

  /** The scopes a value may come from, nearest first. */
  function Sources(s: Scope): seq<Scope> {
    if s.tool.None? then [s, Scope(Workspace, None)]
    else [s, Scope(Workspace, s.tool), Scope(s.level, None), Scope(Workspace, None)]
  }

  ghost predicate SaysAt(settings: seq<Setting>, s: Scope, f: Field, v: Value) {
    exists i | 0 <= i < |settings| :: settings[i].scope == s && Says(settings[i], f) == Some(v)
  }

  ghost predicate Silent(settings: seq<Setting>, s: Scope, f: Field) {
    forall i | 0 <= i < |settings| && settings[i].scope == s :: Says(settings[i], f).None?
  }

  lemma AppliesStated(o: Overrides, d: Defaults, f: Field)
    ensures Get(ApplyTo(o, d), f) == if Stated(o, f).Some? then Stated(o, f).value else Get(d, f)
  {
  }

  /** One layer: what the scope's record says, otherwise what was there. */
  lemma LayerSays(settings: seq<Setting>, s: Scope, d: Defaults, f: Field)
    requires DistinctScopes(settings)
    ensures Silent(settings, s, f) ==> Get(LayerAt(settings, s, d), f) == Get(d, f)
    ensures forall v | SaysAt(settings, s, f, v) :: Get(LayerAt(settings, s, d), f) == v
    ensures Silent(settings, s, f) || exists v :: SaysAt(settings, s, f, v)
  {
    hide ApplyTo; hide Get; hide Diff; hide Stated;
    var i := Find(settings, s);
    if i.Some? {
      var r := settings[i.value];
      if r.legacy.Some? { DiffRestores(r.legacy.value, d); } else { AppliesStated(r.overrides, d, f); }
      if Says(r, f).Some? { assert SaysAt(settings, s, f, Says(r, f).value); }
    }
  }

  /**
   * Every field of every scope resolves to what the nearest of its sources says about it, and to the
   * built-in default if none says anything.
   */
  lemma NearestWins(settings: seq<Setting>, s: Scope, f: Field)
    requires DistinctScopes(settings)
    ensures forall k, v | 0 <= k < |Sources(s)| && SaysAt(settings, Sources(s)[k], f, v) ::
              (forall j | 0 <= j < k :: Silent(settings, Sources(s)[j], f)) ==> Get(Resolve(settings, s), f) == v
    ensures (forall k | 0 <= k < |Sources(s)| :: Silent(settings, Sources(s)[k], f)) ==>
              Get(Resolve(settings, s), f) == Get(DEFAULTS, f)
  {
    hide Get; hide LayerAt; hide SaysAt; hide Silent; hide Resolve; hide ResolveParent;
    var w := Scope(Workspace, None);
    ResolveShape(settings, w);
    ResolveShape(settings, s);
    LayerSays(settings, w, DEFAULTS, f);
    LayerSays(settings, s, ResolveParent(settings, s), f);
    if s.tool.Some? {
      var level, tool := Scope(s.level, None), Scope(Workspace, s.tool);
      ResolveShape(settings, level);
      LayerSays(settings, level, ResolveParent(settings, level), f);
      LayerSays(settings, tool, Resolve(settings, level), f);
      assert Sources(s)[0] == s && Sources(s)[1] == tool && Sources(s)[2] == level && Sources(s)[3] == w;
    } else {
      assert Sources(s)[0] == s && Sources(s)[1] == w;
    }
  }

  // ---- what an update writes

  /** The record an update writes: who, when, and field by field the update over what was said before. */
  predicate Written(q: Request, record: Setting) {
    record.scope == q.scope && record.updatedAt == q.at && record.updatedBy == Some(q.actor) && record.legacy.None?
  }

  lemma MergeStated(o: Overrides, update: Overrides, f: Field)
    ensures Stated(Merge(o, update), f) == if Stated(update, f).Some? then Stated(update, f) else Stated(o, f)
  {
  }

  lemma DiffStated(base: Defaults, inherited: Defaults, f: Field)
    ensures Stated(Diff(base, inherited), f) ==
            if Get(base, f) == Get(inherited, f) then None else Some(Get(base, f))
  {
  }

  /**
   * A successful update says who asked, why and when, writes one record, and leaves every other record
   * where and as it was.
   */
  lemma UpdateSays(settings: seq<Setting>, q: Request)
    requires DistinctScopes(settings) && Update(settings, q).Ok?
    ensures var u := Update(settings, q).value;
            && u.change.actor == q.actor && u.change.reason == q.reason && u.change.changedAt == q.at
            && |settings| <= |u.settings| <= |settings| + 1
            && (|u.settings| > |settings| <==> forall i | 0 <= i < |settings| :: settings[i].scope != q.scope)
            && (|u.settings| > |settings| ==> u.settings[|settings|].scope == q.scope)
            && (forall i | 0 <= i < |settings| && settings[i].scope != q.scope :: u.settings[i] == settings[i])
            && (forall i | 0 <= i < |u.settings| && u.settings[i].scope == q.scope :: Written(q, u.settings[i]))
  {
    hide ResolveParent; hide Trim; hide Merge; hide ApplyTo; hide Diff;
  }

  /** What the written record says about each field. */
  lemma UpdateSaysFields(settings: seq<Setting>, q: Request, i: nat, f: Field)
    requires DistinctScopes(settings) && Update(settings, q).Ok?
    requires i < |Update(settings, q).value.settings| && Update(settings, q).value.settings[i].scope == q.scope
    ensures var said := Stated(Update(settings, q).value.settings[i].overrides, f);
            if Stated(q.update, f).Some? then said == Stated(q.update, f)
            else if i == |settings| then said == None
            else if settings[i].legacy.None? then said == Stated(settings[i].overrides, f)
            else said == var base := Get(settings[i].legacy.value, f);
                         if base == Get(ResolveParent(settings, q.scope), f) then None else Some(base)
  {
    hide ResolveParent; hide Trim; hide Merge; hide ApplyTo; hide Diff; hide Stated; hide Get;
    var inherited := ResolveParent(settings, q.scope);
    if i == |settings| {
      MergeStated(NO_OVERRIDES, q.update, f);
      NothingStated(f);
    } else {
      assert settings[i].scope == q.scope && Find(settings, q.scope) == Some(i);
      MergeStated(ResolvedOverrides(settings[i], inherited), q.update, f);
      if settings[i].legacy.Some? { DiffStated(settings[i].legacy.value, inherited, f); }
    }
  }

  lemma NothingStated(f: Field)
    ensures Stated(NO_OVERRIDES, f) == None
  {
  }

  lemma StatesNothing(o: Overrides)
    ensures o == NO_OVERRIDES <==> forall f :: Stated(o, f) == None
  {
    if forall f :: Stated(o, f) == None {
      assert Stated(o, FormatField) == None && Stated(o, PolicyField) == None && Stated(o, DiagnosticsField) == None;
      assert Stated(o, CostField) == None && Stated(o, BytesField) == None && Stated(o, LinesField) == None;
      assert Stated(o, VerbosityField) == None && Stated(o, GranularityField) == None;
      assert Stated(o, OversizeField) == None;
    }
  }

  /** Which refusal a failing update meets, and with which value. */
  lemma UpdateRefusals(settings: seq<Setting>, q: Request)
    ensures Update(settings, q) == Err(EmptyUpdate) <==> forall f :: Stated(q.update, f) == None
    ensures Update(settings, q) == Err(MissingReason) <==>
            (exists f :: Stated(q.update, f) != None) && Trim(q.reason) == ""
    ensures (exists f :: Stated(q.update, f) != None) && Trim(q.reason) != "" ==>
      var d := ApplyTo(q.update, Resolve(settings, q.scope));
      if d.maxInlineBytes < 256 || d.maxInlineBytes > 1_048_576 then
        Update(settings, q) == Err(BytesOutOfRange(d.maxInlineBytes))
      else if d.maxInlineLines < 1 || d.maxInlineLines > 10_000 then
        Update(settings, q) == Err(LinesOutOfRange(d.maxInlineLines))
      else Update(settings, q).Ok?
  {
    hide ResolveParent; hide Resolve; hide Trim; hide Stated; hide Merge; hide Diff;
    StatesNothing(q.update);
    ResolveShape(settings, q.scope);
  }

  // ---- what migration keeps of a record

  /** Migration rewrites only the overrides of legacy records, each by what differs from what it inherits. */
  lemma MigrationKeepsRecords(settings: seq<Setting>, i: nat)
    requires DistinctScopes(settings) && i < |settings|
    ensures |Migrate(settings)| == |settings|
    ensures var was, now := settings[i], Migrate(settings)[i];
            && now.scope == was.scope && now.updatedAt == was.updatedAt && now.updatedBy == was.updatedBy
            && now.legacy == None && (was.legacy.None? ==> now == was)
  {
    hide Migrate; hide InheritedAt; hide Diff;
    MigrateIsClosedForm(settings);
  }

  /** The order of migration: every record once, those without a tool first, each group as stored. */
  lemma MigrationOrderIs(settings: seq<Setting>, a: nat, b: nat)
    requires a < b < |MigrationOrder(settings)|
    ensures var i, j := MigrationOrder(settings)[a], MigrationOrder(settings)[b];
            && (settings[i].scope.tool.Some? ==> settings[j].scope.tool.Some?)
            && (settings[i].scope.tool.Some? == settings[j].scope.tool.Some? ==> i < j)
  {
    var first := Indices(settings, false, |settings|);
    var second := Indices(settings, true, |settings|);
    hide Indices;
    assert forall x | 0 <= x < |first| :: first[x] in first && !Tooled(settings, first[x]);
    assert forall x | 0 <= x < |second| :: second[x] in second && Tooled(settings, second[x]);
  }
}
