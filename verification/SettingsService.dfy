/** Audited updates of tool-output settings and the service that performs them. */
module SettingsService {
  import opened Prelude
  import opened Settings
  import opened SettingsMigration

  datatype SettingsError =
    | DuplicateScope(scope: Scope)
    | EmptyUpdate
    | MissingReason
    | BytesOutOfRange(value: nat)
    | LinesOutOfRange(value: nat)

  datatype Request = Request(actor: string, scope: Scope, update: Overrides, reason: string, at: int)

  /** One entry of the audit log. */
  datatype Change = Change(
    actor: string, scope: Scope, oldDefaults: Defaults, newDefaults: Defaults, reason: string, changedAt: int)

  datatype Updated = Updated(settings: seq<Setting>, change: Change)

  function RangeError(d: Defaults): (e: Option<SettingsError>)
    ensures e.None? <==> InRange(d)
  {
    if !(MIN_BYTES <= d.maxInlineBytes <= MAX_BYTES) then Some(BytesOutOfRange(d.maxInlineBytes))
    else if !(MIN_LINES <= d.maxInlineLines <= MAX_LINES) then Some(LinesOutOfRange(d.maxInlineLines))
    else None
  }

  /** Updating one record against what it inherits. */
  function UpdateSetting(s: Setting, q: Request, inherited: Defaults): Result<(Setting, Change), SettingsError> {
    if q.update == NO_OVERRIDES then Err(EmptyUpdate)
    else if Trim(q.reason) == "" then Err(MissingReason)
    else
      var resolved := ResolvedOverrides(s, inherited);
      var oldDefaults := ApplyTo(resolved, inherited);
      var newDefaults := ApplyTo(q.update, oldDefaults);
      if RangeError(newDefaults).Some? then Err(RangeError(newDefaults).value)
      else
        Ok((Setting(s.scope, Merge(resolved, q.update), q.at, Some(q.actor), None),
            Change(q.actor, s.scope, oldDefaults, newDefaults, q.reason, q.at)))
  }

  /** Updating the record stored at the request's scope, or a new one. */
  function Update(settings: seq<Setting>, q: Request): Result<Updated, SettingsError> {
    var inherited := ResolveParent(settings, q.scope);
    var i := Find(settings, q.scope);
    match UpdateSetting(if i.Some? then settings[i.value] else NewSetting(q.scope, q.at), q, inherited)
    case Err(e) => Err(e)
    case Ok((s, change)) => Ok(Updated(if i.Some? then settings[i.value := s] else settings + [s], change))
  }

  // ---- each update is exact

  lemma FindAppend(settings: seq<Setting>, x: Setting, s: Scope)
    ensures Find(settings + [x], s) ==
            if Find(settings, s).Some? then Find(settings, s) else if x.scope == s then Some(|settings|) else None
  {
    if settings != [] {
      assert (settings + [x])[1..] == settings[1..] + [x];
    }
  }

  /** An update touches the layer at its own scope only. */
  lemma UpdateLayers(settings: seq<Setting>, q: Request, s: Scope, d: Defaults)
    requires Update(settings, q).Ok? && s != q.scope
    ensures LayerAt(Update(settings, q).value.settings, s, d) == LayerAt(settings, s, d)
  {
    hide ResolveParent;
    var t := Update(settings, q).value.settings;
    if Find(settings, q.scope).Some? {
      FindUnique(settings, t, s);
    } else {
      FindAppend(settings, t[|settings|], s);
    }
  }

  lemma {:induction false} UpdateAlong(settings: seq<Setting>, q: Request, chain: seq<Scope>, d: Defaults)
    requires Update(settings, q).Ok? && q.scope !in chain
    ensures ResolveAlong(Update(settings, q).value.settings, chain, d) == ResolveAlong(settings, chain, d)
    decreases |chain|
  {
    hide Update;
    if chain == [] {
    } else {
      UpdateLayers(settings, q, chain[0], d);
      UpdateAlong(settings, q, chain[1..], LayerAt(settings, chain[0], d));
    }
  }

  /** A scope that does not inherit from the updated one resolves as before. */
  lemma UpdateLeavesOthers(settings: seq<Setting>, q: Request, s: Scope)
    requires Update(settings, q).Ok? && q.scope !in Chain(s)
    ensures Resolve(Update(settings, q).value.settings, s) == Resolve(settings, s)
  {
    hide Update; hide Chain;
    UpdateAlong(settings, q, Chain(s), DEFAULTS);
  }

  /** The audit entry records what the scope resolved to just before and just after the update. */
  lemma ChangeIsExact(settings: seq<Setting>, q: Request)
    requires Update(settings, q).Ok?
    ensures
      var u := Update(settings, q).value;
      && u.change.scope == q.scope
      && u.change.oldDefaults == Resolve(settings, q.scope)
      && u.change.newDefaults == Resolve(u.settings, q.scope)
      && u.change.newDefaults == ApplyTo(q.update, u.change.oldDefaults)
      && InRange(u.change.newDefaults)
  {
    hide ResolveParent; hide Resolve;
    var u := Update(settings, q).value;
    var inherited := ResolveParent(settings, q.scope);
    ResolveShape(settings, q.scope);
    ResolveShape(u.settings, q.scope);
    assert ResolveParent(u.settings, q.scope) == inherited by {
      ChainShape(q.scope);
      UpdateParent(settings, q);
    }
    var i := Find(settings, q.scope);
    if i.Some? {
      FindUnique(settings, u.settings, q.scope);
      MergeComposes(ResolvedOverrides(settings[i.value], inherited), q.update, inherited);
    } else {
      FindAppend(settings, u.settings[|settings|], q.scope);
      MergeComposes(NO_OVERRIDES, q.update, inherited);
    }
  }

  lemma UpdateParent(settings: seq<Setting>, q: Request)
    requires Update(settings, q).Ok?
    ensures ResolveParent(Update(settings, q).value.settings, q.scope) == ResolveParent(settings, q.scope)
  {
    hide Update; hide Chain; hide Ancestors;
    ChainShape(q.scope);
    UpdateAlong(settings, q, Ancestors(q.scope), DEFAULTS);
  }

  /** An update succeeds exactly when it sets something, gives a reason, and the resolved result is in range. */
  lemma UpdateSucceedsIff(settings: seq<Setting>, q: Request)
    ensures Update(settings, q).Ok? <==>
            && q.update != NO_OVERRIDES && Trim(q.reason) != ""
            && InRange(ApplyTo(q.update, Resolve(settings, q.scope)))
  {
    hide ResolveParent; hide Resolve; hide Trim;
    ResolveShape(settings, q.scope);
  }

  // ---- ranges

  predicate OverridesInRange(o: Overrides) {
    && (o.maxInlineBytes.Some? ==> MIN_BYTES <= o.maxInlineBytes.value <= MAX_BYTES)
    && (o.maxInlineLines.Some? ==> MIN_LINES <= o.maxInlineLines.value <= MAX_LINES)
  }

  predicate StoredInRange(settings: seq<Setting>) {
    forall i | 0 <= i < |settings| ::
      if settings[i].legacy.Some? then InRange(settings[i].legacy.value) else OverridesInRange(settings[i].overrides)
  }

  lemma {:induction false} ResolveAlongInRange(settings: seq<Setting>, chain: seq<Scope>, d: Defaults)
    requires StoredInRange(settings) && InRange(d)
    ensures InRange(ResolveAlong(settings, chain, d))
    decreases |chain|
  {
    if chain == [] {
    } else {
      ResolveAlongInRange(settings, chain[1..], LayerAt(settings, chain[0], d));
    }
  }

  /** Every scope resolves in range exactly when every stored record is in range. */
  lemma ResolutionsInRangeIff(settings: seq<Setting>)
    requires DistinctScopes(settings)
    ensures (forall s :: InRange(Resolve(settings, s))) <==> StoredInRange(settings)
  {
    if StoredInRange(settings) {
      forall s ensures InRange(Resolve(settings, s)) { ResolveAlongInRange(settings, Chain(s), DEFAULTS); }
    }
    if forall s :: InRange(Resolve(settings, s)) {
      forall i | 0 <= i < |settings|
        ensures if settings[i].legacy.Some? then InRange(settings[i].legacy.value)
                else OverridesInRange(settings[i].overrides)
      {
        var s := settings[i].scope;
        assert InRange(Resolve(settings, s));
        hide Resolve; hide ResolveParent;
        ResolveShape(settings, s);
        assert Find(settings, s) == Some(i);
        if settings[i].legacy.Some? {
          DiffRestores(settings[i].legacy.value, ResolveParent(settings, s));
        }
      }
    }
  }

  lemma ClosedFormInRange(settings: seq<Setting>)
    requires StoredInRange(settings)
    ensures StoredInRange(Migrated(settings))
  {
  }

  /** Records in range stay so when they are migrated, and every scope then resolves in range. */
  lemma MigrationKeepsRange(settings: seq<Setting>, s: Scope)
    requires DistinctScopes(settings) && StoredInRange(settings)
    ensures StoredInRange(Migrate(settings)) && InRange(Resolve(Migrate(settings), s))
  {
    hide Migrate; hide Migrated; hide StoredInRange;
    MigrateIsClosedForm(settings);
    ClosedFormInRange(settings);
    ResolveAlongInRange(Migrate(settings), Chain(s), DEFAULTS);
  }

  // ---- every run

  /** The stored settings after a sequence of requests, failed ones included. */
  function RunUpdates(settings: seq<Setting>, requests: seq<Request>): seq<Setting>
    decreases |requests|
  {
    if requests == [] then settings
    else
      var r := Update(settings, requests[0]);
      RunUpdates(if r.Ok? then r.value.settings else settings, requests[1..])
  }

  lemma UpdateKeepsRecords(settings: seq<Setting>, q: Request)
    requires DistinctScopes(settings) && StoredInRange(settings) && Update(settings, q).Ok?
    ensures DistinctScopes(Update(settings, q).value.settings) && StoredInRange(Update(settings, q).value.settings)
  {
    hide ResolveParent; hide Trim;
  }

  /** From any start whose resolutions are in range, they stay in range and scopes stay distinct. */
  lemma {:induction false} RunsStayInRange(settings: seq<Setting>, requests: seq<Request>, s: Scope)
    requires DistinctScopes(settings) && StoredInRange(settings)
    ensures DistinctScopes(RunUpdates(settings, requests))
    ensures InRange(Resolve(RunUpdates(settings, requests), s))
    decreases |requests|
  {
    hide Update;
    if requests == [] {
      ResolveAlongInRange(settings, Chain(s), DEFAULTS);
    } else {
      var r := Update(settings, requests[0]);
      if r.Ok? { UpdateKeepsRecords(settings, requests[0]); }
      RunsStayInRange(if r.Ok? then r.value.settings else settings, requests[1..], s);
    }
  }

  // ---- the service

  class ToolOutputSettingsService {
    var settings: seq<Setting>
    var changes: seq<Change>

    constructor (settings: seq<Setting>)
      ensures this.settings == settings && changes == []
    {
      this.settings, changes := settings, [];
    }

    /** Walks the chain, layering each stored record it finds. */
    method ResolveDefaults(s: Scope) returns (d: Defaults)
      ensures d == Resolve(settings, s)
    {
      hide Layer; hide Chain;
      d := DEFAULTS;
      var chain := Chain(s);
      for k := 0 to |chain|
        invariant ResolveAlong(settings, chain[k..], d) == Resolve(settings, s)
      {
        var i := Find(settings, chain[k]);
        if i.Some? {
          d := Layer(settings[i.value], d);
        }
      }
    }

    /** The same walk, stopped at the scope itself. */
    method ResolveParentDefaults(s: Scope) returns (d: Defaults)
      ensures d == ResolveParent(settings, s)
    {
      hide Layer; hide Chain;
      ChainShape(s);
      d := DEFAULTS;
      var chain := Chain(s);
      var k := 0;
      assert Ancestors(s)[0..] == Ancestors(s);
      while chain[k] != s
        invariant 0 <= k <= |Ancestors(s)|
        invariant ResolveAlong(settings, Ancestors(s)[k..], d) == ResolveParent(settings, s)
        decreases |chain| - k
      {
        var i := Find(settings, chain[k]);
        if i.Some? {
          d := Layer(settings[i.value], d);
        }
        k := k + 1;
      }
      AncestorsExclude(s);
    }

    method ApplyUpdate(q: Request) returns (r: Result<Change, SettingsError>)
      modifies this
      ensures match Update(old(settings), q)
              case Ok(u) => r == Ok(u.change) && settings == u.settings && changes == old(changes) + [u.change]
              case Err(e) => r == Err(e) && settings == old(settings) && changes == old(changes)
    {
      hide ResolveParent;
      var i := Find(settings, q.scope);
      var inherited := ResolveParentDefaults(q.scope);
      if i.Some? {
        match UpdateSetting(settings[i.value], q, inherited)
        case Err(e) => return Err(e);
        case Ok((s, change)) =>
          settings := settings[i.value := s];
          r := Ok(change);
      } else {
        match UpdateSetting(NewSetting(q.scope, q.at), q, inherited)
        case Err(e) => return Err(e);
        case Ok((s, change)) =>
          settings := settings + [s];
          r := Ok(change);
      }
      changes := changes + [r.value];
    }

    /** Migrates the stored records in place, shallow scopes first. */
    method MigrateLegacySettings()
      modifies this`settings
      ensures settings == Migrate(old(settings))
    {
      hide MigrationOrder; hide MigrateSetting; hide ResolveParent;
      var order := MigrationOrder(settings);
      assert order[0..] == order;
      for k := 0 to |order|
        invariant |settings| == |old(settings)|
        invariant MigrateInOrder(settings, order[k..]) == Migrate(old(settings))
      {
        var inherited := ResolveParentDefaults(settings[order[k]].scope);
        assert order[k..][0] == order[k] && order[k..][1..] == order[k + 1..];
        settings := settings[order[k] := MigrateSetting(settings[order[k]], inherited)];
      }
    }
  }

  /** Every vector of records with distinct scopes is accepted; the service starts from its migration,
      with a blank workspace record appended if there was none. */
  method NewWithSettings(at: int, settings: seq<Setting>) returns (r: Result<ToolOutputSettingsService, SettingsError>)
    ensures r.Ok? <==> DistinctScopes(settings)
    ensures r.Ok? ==> r.value.settings == Migrate(WithWorkspace(settings, at)) && r.value.changes == []
    ensures r.Err? ==>
              exists i, j :: 0 <= i < j < |settings| && settings[i].scope == settings[j].scope &&
                r.error == DuplicateScope(settings[j].scope)
  {
    hide Migrate; hide MigrationOrder;
    var scopes: seq<Scope> := [];
    for k := 0 to |settings|
      invariant |scopes| == k
      invariant forall i | 0 <= i < k :: scopes[i] == settings[i].scope
      invariant DistinctScopes(settings[..k])
    {
      if settings[k].scope in scopes {
        return Err(DuplicateScope(settings[k].scope));
      }
      assert forall i | 0 <= i < k :: settings[i].scope == settings[..k][i].scope && scopes[i] in scopes;
      scopes := scopes + [settings[k].scope];
    }
    assert settings[..|settings|] == settings;
    var service := new ToolOutputSettingsService(WithWorkspace(settings, at));
    service.MigrateLegacySettings();
    return Ok(service);
  }

  function WithWorkspace(settings: seq<Setting>, at: int): seq<Setting> {
    if Find(settings, WORKSPACE).Some? then settings else settings + [NewSetting(WORKSPACE, at)]
  }

  lemma {:induction false} BlankWorkspaceAlong(settings: seq<Setting>, at: int, chain: seq<Scope>, d: Defaults)
    ensures ResolveAlong(WithWorkspace(settings, at), chain, d) == ResolveAlong(settings, chain, d)
    decreases |chain|
  {
    if chain == [] {
    } else {
      if Find(settings, WORKSPACE).None? { FindAppend(settings, NewSetting(WORKSPACE, at), chain[0]); }
      BlankWorkspaceAlong(settings, at, chain[1..], LayerAt(settings, chain[0], d));
    }
  }

  /** What a newly built service resolves, in terms of the records it was given: a scope keeps its
      resolution exactly when no field leaks. */
  lemma NewServicePreservesIff(settings: seq<Setting>, at: int, s: Scope)
    requires DistinctScopes(settings)
    ensures DistinctScopes(WithWorkspace(settings, at))
    ensures forall i | 0 <= i < |WithWorkspace(settings, at)| :: Migrate(WithWorkspace(settings, at))[i].legacy.None?
    ensures Resolve(Migrate(WithWorkspace(settings, at)), s) == Resolve(settings, s) <==>
            forall f :: !Leaks(WithWorkspace(settings, at), s, f)
  {
    hide Migrate; hide Leaks; hide Chain;
    BlankWorkspaceAlong(settings, at, Chain(s), DEFAULTS);
    MigrationPreservesIff(WithWorkspace(settings, at), s);
  }

  lemma AncestorsExclude(s: Scope)
    ensures s !in Ancestors(s)
  {
  }
}
