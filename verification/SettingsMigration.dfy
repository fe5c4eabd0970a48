/** The one-time migration of legacy full-default records into overrides against their parents. */
module SettingsMigration {
  import opened Prelude
  import opened Settings

  predicate DistinctScopes(settings: seq<Setting>) {
    forall i, j | 0 <= i < j < |settings| :: settings[i].scope != settings[j].scope
  }

  // ---- the migration, step by step

  function MigrateSetting(s: Setting, inherited: Defaults): Setting {
    if s.legacy.Some? then s.(overrides := Diff(s.legacy.value, inherited), legacy := None) else s
  }

  function MigrateAt(settings: seq<Setting>, i: nat): seq<Setting>
    requires i < |settings|
  {
    settings[i := MigrateSetting(settings[i], ResolveParent(settings, settings[i].scope))]
  }

  function MigrateInOrder(settings: seq<Setting>, order: seq<nat>): (r: seq<Setting>)
    requires forall i | 0 <= i < |order| :: order[i] < |settings|
    ensures |r| == |settings|
    decreases |order|
  {
    if order == [] then settings else MigrateInOrder(MigrateAt(settings, order[0]), order[1..])
  }

  predicate Tooled(settings: seq<Setting>, i: nat)
    requires i < |settings|
  {
    settings[i].scope.tool.Some?
  }

  /** The indices below `n` whose scope has, or lacks, a tool, in increasing order. */
  function Indices(settings: seq<Setting>, tooled: bool, n: nat): (r: seq<nat>)
    requires n <= |settings|
    ensures forall i :: i in r <==> 0 <= i < n && Tooled(settings, i) == tooled
    ensures forall a, b | 0 <= a < b < |r| :: r[a] < r[b]
  {
    if n == 0 then []
    else
      var r := Indices(settings, tooled, n - 1);
      assert forall a | 0 <= a < |r| :: r[a] in r;
      if Tooled(settings, n - 1) == tooled then r + [n - 1] else r
  }

  /** All indices, sorted by depth and then by position. */
  function MigrationOrder(settings: seq<Setting>): (r: seq<nat>)
    ensures forall a | 0 <= a < |r| :: r[a] < |settings|
  {
    var r := Indices(settings, false, |settings|) + Indices(settings, true, |settings|);
    assert forall a | 0 <= a < |r| :: r[a] in r;
    r
  }

  // ---- the migration in closed form

  /** What the record at index `i` inherits at the moment it is migrated, in terms of the records
      before migration. Only a tool record above the workspace can notice the order: it sees the
      workspace's record for the tool already migrated exactly when that one is stored before it. */
  function InheritedAt(settings: seq<Setting>, i: nat): Defaults
    requires i < |settings|
  {
    var s := settings[i].scope;
    if s.tool.None? || s.level == Workspace then ResolveParent(settings, s)
    else
      var level := Resolve(settings, LevelScope(s));
      match Find(settings, ToolScope(s))
      case None => level
      case Some(j) =>
        if j < i then ApplyTo(MigrateSetting(settings[j], Resolve(settings, WORKSPACE)).overrides, level)
        else Layer(settings[j], level)
  }

  function Migrated(settings: seq<Setting>): (r: seq<Setting>)
    ensures |r| == |settings|
    ensures forall i | 0 <= i < |settings| :: r[i].legacy.None? && r[i].scope == settings[i].scope
  {
    seq(|settings|, i requires 0 <= i < |settings| => MigrateSetting(settings[i], InheritedAt(settings, i)))
  }

  ghost function Members(order: seq<nat>): set<nat> {
    set i | i in order
  }

  /** The records once those in `done` have been migrated. */
  ghost function Partly(settings: seq<Setting>, done: set<nat>): (r: seq<Setting>)
    ensures |r| == |settings|
  {
    seq(|settings|, i requires 0 <= i < |settings| => if i in done then Migrated(settings)[i] else settings[i])
  }

  // ---- resolution

  lemma ChainShape(s: Scope)
    ensures Chain(s) == Ancestors(s) + [s]
    ensures s == WORKSPACE ==> Ancestors(s) == []
    ensures s != WORKSPACE && (s.tool.None? || s.level == Workspace) ==> Ancestors(s) == [WORKSPACE]
    ensures s.tool.Some? && s.level != Workspace ==> Ancestors(s) == [WORKSPACE, LevelScope(s), ToolScope(s)]
  {
  }

  lemma {:induction false} ResolveAlongSplit(settings: seq<Setting>, a: seq<Scope>, b: seq<Scope>, d: Defaults)
    ensures ResolveAlong(settings, a + b, d) == ResolveAlong(settings, b, ResolveAlong(settings, a, d))
  {
    if a == [] {
      assert a + b == b;
    } else {
      assert (a + b)[1..] == a[1..] + b;
      ResolveAlongSplit(settings, a[1..], b, LayerAt(settings, a[0], d));
    }
  }

  /** Resolution is the scope's own layer on top of what it inherits, and what it inherits is known. */
  lemma ResolveShape(settings: seq<Setting>, s: Scope)
    ensures Resolve(settings, s) == LayerAt(settings, s, ResolveParent(settings, s))
    ensures s == WORKSPACE ==> ResolveParent(settings, s) == DEFAULTS
    ensures s != WORKSPACE && (s.tool.None? || s.level == Workspace) ==>
              ResolveParent(settings, s) == Resolve(settings, WORKSPACE)
    ensures s.tool.Some? && s.level != Workspace ==>
              ResolveParent(settings, s) == LayerAt(settings, ToolScope(s), Resolve(settings, LevelScope(s)))
  {
    hide LayerAt; hide Chain; hide Ancestors;
    ChainShape(s);
    ChainShape(WORKSPACE);
    ResolveAlongSplit(settings, Ancestors(s), [s], DEFAULTS);
    assert Chain(WORKSPACE) == [WORKSPACE];
    if s.tool.Some? && s.level != Workspace {
      ChainShape(LevelScope(s));
      ResolveAlongSplit(settings, [WORKSPACE, LevelScope(s)], [ToolScope(s)], DEFAULTS);
      assert Ancestors(s) == [WORKSPACE, LevelScope(s)] + [ToolScope(s)];
    }
  }

  lemma FindUnique(settings: seq<Setting>, other: seq<Setting>, s: Scope)
    requires |other| == |settings|
    requires forall i | 0 <= i < |settings| :: other[i].scope == settings[i].scope
    ensures Find(other, s) == Find(settings, s)
  {
  }

  // ---- partial migrations do not disturb what migration still needs

  lemma PartlyFinds(settings: seq<Setting>, done: set<nat>, s: Scope)
    ensures Find(Partly(settings, done), s) == Find(settings, s)
  {
    FindUnique(settings, Partly(settings, done), s);
  }

  /** A migrated layer acts as the legacy one did wherever it inherits what it was migrated against. */
  lemma MigratedLayer(settings: seq<Setting>, done: set<nat>, s: Scope, inherited: Defaults)
    requires Find(settings, s).Some? ==> inherited == InheritedAt(settings, Find(settings, s).value)
    ensures LayerAt(Partly(settings, done), s, inherited) == LayerAt(settings, s, inherited)
  {
    PartlyFinds(settings, done, s);
  }

  lemma PartlyResolves(settings: seq<Setting>, done: set<nat>, s: Scope)
    requires s.tool.None? || s.level == Workspace
    ensures Resolve(Partly(settings, done), s) == Resolve(settings, s)
    ensures ResolveParent(Partly(settings, done), s) == ResolveParent(settings, s)
  {
    hide LayerAt; hide InheritedAt; hide Partly; hide Resolve; hide ResolveParent;
    var p := Partly(settings, done);
    ResolveShape(settings, WORKSPACE);
    ResolveShape(p, WORKSPACE);
    ResolveShape(settings, s);
    ResolveShape(p, s);
    InheritedIsParent(settings, WORKSPACE);
    MigratedLayer(settings, done, WORKSPACE, DEFAULTS);
    InheritedIsParent(settings, s);
    MigratedLayer(settings, done, s, ResolveParent(settings, s));
  }

  lemma InheritedIsParent(settings: seq<Setting>, s: Scope)
    requires s.tool.None? || s.level == Workspace
    ensures Find(settings, s).Some? ==> InheritedAt(settings, Find(settings, s).value) == ResolveParent(settings, s)
  {
  }

  /** At the moment a record's turn comes, what it inherits is what the closed form says. */
  lemma InheritedOnTurn(settings: seq<Setting>, done: set<nat>, i: nat)
    requires DistinctScopes(settings) && i < |settings|
    requires Tooled(settings, i) ==> forall j | 0 <= j < |settings| && Tooled(settings, j) :: j in done <==> j < i
    ensures ResolveParent(Partly(settings, done), settings[i].scope) == InheritedAt(settings, i)
  {
    var s := settings[i].scope;
    var p := Partly(settings, done);
    if s.tool.None? || s.level == Workspace {
      PartlyResolves(settings, done, s);
    } else {
      ResolveShape(p, s);
      PartlyResolves(settings, done, LevelScope(s));
      PartlyFinds(settings, done, ToolScope(s));
      InheritedIsParent(settings, ToolScope(s));
      ResolveShape(settings, ToolScope(s));
    }
  }

  lemma PartlyStep(settings: seq<Setting>, done: set<nat>, i: nat)
    requires i < |settings| && i !in done
    requires ResolveParent(Partly(settings, done), settings[i].scope) == InheritedAt(settings, i)
    ensures MigrateAt(Partly(settings, done), i) == Partly(settings, done + {i})
  {
    hide ResolveParent; hide InheritedAt;
    assert Partly(settings, done)[i] == settings[i];
  }

  lemma {:induction false} MigrateFrom(settings: seq<Setting>, k: nat)
    requires DistinctScopes(settings)
    requires k <= |MigrationOrder(settings)|
    ensures
      var order := MigrationOrder(settings);
      MigrateInOrder(Partly(settings, Members(order[..k])), order[k..]) == Migrated(settings)
    decreases |MigrationOrder(settings)| - k
  {
    hide MigrateAt; hide ResolveParent; hide InheritedAt; hide MigrationOrder;
    var order := MigrationOrder(settings);
    var done := Members(order[..k]);
    var p := Partly(settings, done);
    if k == |order| {
      assert order[..k] == order && order[k..] == [];
      forall i | 0 <= i < |settings| ensures i in done { OrderCovers(settings, i); }
      assert p == Migrated(settings);
    } else {
      var i := order[k];
      OrderSplits(settings, k);
      InheritedOnTurn(settings, done, i);
      assert order[k..][1..] == order[k + 1..];
      assert order[..k + 1] == order[..k] + [i];
      assert Members(order[..k + 1]) == done + {i};
      PartlyStep(settings, done, i);
      MigrateFrom(settings, k + 1);
    }
  }

  lemma OrderCovers(settings: seq<Setting>, i: nat)
    requires i < |settings|
    ensures i in MigrationOrder(settings)
  {
    assert i in Indices(settings, Tooled(settings, i), |settings|);
  }

  /** When a tool record's turn comes, the tool records migrated so far are those stored before it;
      no record takes a second turn. */
  lemma OrderSplits(settings: seq<Setting>, k: nat)
    requires k < |MigrationOrder(settings)|
    ensures
      var order := MigrationOrder(settings);
      && order[k] < |settings|
      && order[k] !in order[..k]
      && (Tooled(settings, order[k]) ==>
            forall j | 0 <= j < |settings| && Tooled(settings, j) ::
              j in order[..k] <==> j < order[k])
  {
    var first := Indices(settings, false, |settings|);
    var second := Indices(settings, true, |settings|);
    var order := first + second;
    hide Indices;
    assert forall a | 0 <= a < |first| :: first[a] in first && !Tooled(settings, first[a]);
    assert forall b | 0 <= b < |second| :: second[b] in second && Tooled(settings, second[b]);
    if Tooled(settings, order[k]) {
      forall j | 0 <= j < |settings| && Tooled(settings, j)
        ensures j in order[..k] <==> j < order[k]
      {
        assert j in second;
        var b :| 0 <= b < |second| && second[b] == j;
        assert order[|first| + b] == j;
      }
    }
  }

  // ---- what migration preserves

  function Migrate(settings: seq<Setting>): seq<Setting> {
    MigrateInOrder(settings, MigrationOrder(settings))
  }

  lemma MigrateIsClosedForm(settings: seq<Setting>)
    requires DistinctScopes(settings)
    ensures Migrate(settings) == Migrated(settings)
  {
    assert Members(MigrationOrder(settings)[..0]) == {};
    assert Partly(settings, {}) == settings;
    assert MigrationOrder(settings)[0..] == MigrationOrder(settings);
    MigrateFrom(settings, 0);
  }

  /** The one way a field of a scope can change its resolved value. The workspace has a legacy record
      for the scope's tool whose value for the field is the workspace's own, so its migrated form does
      not mention the field; the scope's level overrides the field, and now shows through; and the
      scope's own record does not put the value back. A legacy record of the scope's own fails to put
      it back only if it was migrated first, against a parent that still had the value. */
  predicate Leaks(settings: seq<Setting>, s: Scope, f: Field) {
    && s.tool.Some? && s.level != Workspace
    && Find(settings, ToolScope(s)).Some?
    && var j := Find(settings, ToolScope(s)).value;
       && settings[j].legacy.Some?
       && Get(settings[j].legacy.value, f) == Get(Resolve(settings, WORKSPACE), f)
       && Get(Resolve(settings, WORKSPACE), f) != Get(Resolve(settings, LevelScope(s)), f)
       && match Find(settings, s)
          case None => true
          case Some(i) =>
            if settings[i].legacy.None? then !Sets(settings[i].overrides, f)
            else i < j && Get(settings[i].legacy.value, f) == Get(settings[j].legacy.value, f)
  }

  ghost function Below(n: nat): (r: set<nat>)
    ensures forall i :: i in r <==> 0 <= i < n
  {
    if n == 0 then {} else Below(n - 1) + {n - 1}
  }

  lemma AllDone(settings: seq<Setting>)
    ensures Partly(settings, Below(|settings|)) == Migrated(settings)
  {
  }

  /** What a tool record above the workspace inherits before and after migration, field by field. */
  lemma ToolLayerField(settings: seq<Setting>, s: Scope, f: Field)
    requires s.tool.Some? && s.level != Workspace
    ensures
      var j := Find(settings, ToolScope(s));
      var (w, level) := (Resolve(settings, WORKSPACE), Resolve(settings, LevelScope(s)));
      var before := ResolveParent(settings, s);
      var after := ResolveParent(Migrated(settings), s);
      if j.Some? && settings[j.value].legacy.Some? then
        && before == settings[j.value].legacy.value
        && Get(after, f) == (if Get(before, f) == Get(w, f) then Get(level, f) else Get(before, f))
      else after == before
  {
    var all := Below(|settings|);
    AllDone(settings);
    ResolveShape(settings, s);
    ResolveShape(Migrated(settings), s);
    PartlyResolves(settings, all, LevelScope(s));
    PartlyFinds(settings, all, ToolScope(s));
    InheritedIsParent(settings, ToolScope(s));
    ResolveShape(settings, ToolScope(s));
    if Find(settings, ToolScope(s)).Some? {
      var j := Find(settings, ToolScope(s)).value;
      if settings[j].legacy.Some? {
        DiffRestores(settings[j].legacy.value, Resolve(settings, LevelScope(s)));
        DiffField(settings[j].legacy.value, Resolve(settings, WORKSPACE), Resolve(settings, LevelScope(s)), f);
      }
    }
  }

  /** A scope's resolved value after migration, field by field. */
  lemma AfterField(settings: seq<Setting>, s: Scope, f: Field)
    ensures
      var after := ResolveParent(Migrated(settings), s);
      var value := Get(Resolve(Migrated(settings), s), f);
      match Find(settings, s)
      case None => value == Get(after, f)
      case Some(i) =>
        if settings[i].legacy.None? then value == Get(ApplyTo(settings[i].overrides, after), f)
        else
          var base := settings[i].legacy.value;
          value == if Get(base, f) == Get(InheritedAt(settings, i), f) then Get(after, f) else Get(base, f)
  {
    hide Resolve; hide ResolveParent; hide Get; hide ApplyTo; hide Diff; hide Partly; hide InheritedAt;
    AllDone(settings);
    PartlyFinds(settings, Below(|settings|), s);
    ResolveShape(Migrated(settings), s);
    if Find(settings, s).Some? {
      var i := Find(settings, s).value;
      if settings[i].legacy.Some? {
        DiffField(settings[i].legacy.value, InheritedAt(settings, i), ResolveParent(Migrated(settings), s), f);
      }
    }
  }

  /** Field by field, migration preserves exactly what does not leak. */
  lemma FieldPreservedIff(settings: seq<Setting>, s: Scope, f: Field)
    requires DistinctScopes(settings)
    ensures Get(Resolve(Migrated(settings), s), f) == Get(Resolve(settings, s), f) <==> !Leaks(settings, s, f)
  {
    hide Resolve; hide ResolveParent; hide Get; hide ApplyTo; hide Diff; hide Partly; hide InheritedAt; hide Migrated;
    if s.tool.None? || s.level == Workspace {
      AllDone(settings);
      PartlyResolves(settings, Below(|settings|), s);
    } else {
      ToolLayerField(settings, s, f);
      ResolveShape(settings, s);
      AfterField(settings, s, f);
      if Find(settings, s).Some? {
        var i := Find(settings, s).value;
        if settings[i].legacy.Some? {
          DiffRestores(settings[i].legacy.value, ResolveParent(settings, s));
          InheritedLate(settings, i);
        } else {
          ApplyField(settings[i].overrides, ResolveParent(settings, s), ResolveParent(Migrated(settings), s), f);
          ApplyField(settings[i].overrides, ResolveParent(Migrated(settings), s), ResolveParent(settings, s), f);
        }
      }
    }
  }

  /** A tool record migrated after the workspace's one for the same tool inherits its final form. */
  lemma InheritedLate(settings: seq<Setting>, i: nat)
    requires DistinctScopes(settings) && i < |settings|
    requires settings[i].scope.tool.Some? && settings[i].scope.level != Workspace
    ensures
      var s := settings[i].scope;
      var j := Find(settings, ToolScope(s));
      if j.Some? && settings[j.value].legacy.Some? && i < j.value
      then InheritedAt(settings, i) == settings[j.value].legacy.value
      else InheritedAt(settings, i) == ResolveParent(Migrated(settings), s)
  {
    var s := settings[i].scope;
    var all := Below(|settings|);
    AllDone(settings);
    ResolveShape(Migrated(settings), s);
    PartlyResolves(settings, all, LevelScope(s));
    PartlyFinds(settings, all, ToolScope(s));
    InheritedIsParent(settings, ToolScope(s));
    ResolveShape(settings, ToolScope(s));
    if Find(settings, ToolScope(s)).Some? {
      var j := Find(settings, ToolScope(s)).value;
      assert j != i;
      if settings[j].legacy.Some? {
        DiffRestores(settings[j].legacy.value, Resolve(settings, LevelScope(s)));
      }
    }
  }

  /** For any stored records with distinct scopes, in any order: migration leaves no legacy record,
      and a scope resolves afterwards to what it resolved to before exactly when no field leaks. */
  lemma MigrationPreservesIff(settings: seq<Setting>, s: Scope)
    requires DistinctScopes(settings)
    ensures forall i | 0 <= i < |settings| :: Migrate(settings)[i].legacy.None?
    ensures Resolve(Migrate(settings), s) == Resolve(settings, s) <==> forall f :: !Leaks(settings, s, f)
  {
    hide Resolve; hide Get; hide Leaks;
    MigrateIsClosedForm(settings);
    SameFields(Resolve(Migrated(settings), s), Resolve(settings, s));
    forall f
      ensures Get(Resolve(Migrated(settings), s), f) == Get(Resolve(settings, s), f) <==> !Leaks(settings, s, f)
    {
      FieldPreservedIff(settings, s, f);
    }
  }

  /** Every legacy record's scope resolves to exactly its stored defaults once migrated, unless it is
      a tool record above the workspace stored before the workspace's legacy record for the tool. */
  lemma LegacyDefaultsSurvive(settings: seq<Setting>, i: nat)
    requires DistinctScopes(settings) && i < |settings| && settings[i].legacy.Some?
    requires
      var s := settings[i].scope;
      s.tool.Some? && s.level != Workspace ==>
        var j := Find(settings, ToolScope(s));
        j.Some? && settings[j.value].legacy.Some? ==> j.value < i
    ensures Resolve(Migrate(settings), settings[i].scope) == settings[i].legacy.value
  {
    hide Resolve; hide ResolveParent;
    var s := settings[i].scope;
    MigrationPreservesIff(settings, s);
    ResolveShape(settings, s);
    DiffRestores(settings[i].legacy.value, ResolveParent(settings, s));
    assert Find(settings, s) == Some(i);
  }

  const LOSSY_SESSION := Scope(Session("s"), None)
  const LOSSY_TOOL := Scope(Session("s"), Some("t"))
  const LOSSY := [
    Setting(LOSSY_SESSION, NO_OVERRIDES, 0, None, Some(DEFAULTS.(verbosity := Debug))),
    Setting(LOSSY_TOOL, NO_OVERRIDES, 0, None, Some(DEFAULTS)),
    Setting(Scope(Workspace, Some("t")), NO_OVERRIDES, 0, None, Some(DEFAULTS))
  ]

  lemma LossyScopes()
    ensures DistinctScopes(LOSSY)
    ensures Find(LOSSY, WORKSPACE) == None && Find(LOSSY, LOSSY_SESSION) == Some(0) &&
      Find(LOSSY, LOSSY_TOOL) == Some(1)
    ensures LOSSY[2].scope == ToolScope(LOSSY_TOOL) && Find(LOSSY, ToolScope(LOSSY_TOOL)) == Some(2)
  {
    assert LOSSY[2].scope == ToolScope(LOSSY_TOOL);
    assert Find(LOSSY, ToolScope(LOSSY_TOOL)).Some?;
  }

  /** The exception is real: three legacy records whose order costs one of them a field. */
  lemma MigrationCanLoseAField()
    ensures exists settings: seq<Setting>, i: nat ::
              && DistinctScopes(settings) && i < |settings| && settings[i].legacy.Some?
              && Resolve(Migrate(settings), settings[i].scope) != settings[i].legacy.value
  {
    LossyScopes();
    hide Find; hide DistinctScopes; hide Migrate;
    ResolveShape(LOSSY, WORKSPACE);
    ResolveShape(LOSSY, LOSSY_SESSION);
    ResolveShape(LOSSY, LOSSY_TOOL);
    DiffRestores(DEFAULTS.(verbosity := Debug), DEFAULTS);
    DiffRestores(DEFAULTS, ResolveParent(LOSSY, LOSSY_TOOL));
    assert Leaks(LOSSY, LOSSY_TOOL, VerbosityField);
    MigrationPreservesIff(LOSSY, LOSSY_TOOL);
    assert LOSSY[1].legacy.Some?;
  }
}
