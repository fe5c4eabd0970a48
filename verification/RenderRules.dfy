/** Which fields a rendering shows, stated without the sort and the cut that select them. */
module RenderRules {
  import opened Prelude
  import opened Settings
  import opened ToolResults
  import opened FieldBudget
  import opened RenderSelection

  // ---- options in force

  /**
   * A debug rendering shows every channel and a minimal or normal one none; an expanded one shows policy and
   * diagnostics as asked, and never cost. The format is always as asked.
   */
  lemma OptionsInForce(d: Defaults, requested: Option<RenderOptions>)
    ensures var o := EffectiveOptions(d, requested);
            var (policy, diagnostics) :=
              if requested == None then (d.includePolicy, d.includeDiagnostics)
              else (requested.value.includePolicy, requested.value.includeDiagnostics);
            && (o.format == if requested == None then d.format else requested.value.format)
            && (o.includePolicy <==> d.verbosity == Debug || (d.verbosity == Expanded && policy))
            && (o.includeDiagnostics <==> d.verbosity == Debug || (d.verbosity == Expanded && diagnostics))
            && (o.includeCost <==> d.verbosity == Debug)
  {
  }

  /** At most one field for a summary and three for key fields, never more than there are lines. */
  lemma LimitSays(d: Defaults)
    ensures FieldLimit(d) == None <==> d.granularity == Full
    ensures d.granularity == Summary && d.maxInlineLines >= 1 ==> FieldLimit(d) == Some(1)
    ensures d.granularity == KeyFields && d.maxInlineLines >= 3 ==> FieldLimit(d) == Some(3)
    ensures d.granularity == KeyFields && d.maxInlineLines < 3 ==> FieldLimit(d) == Some(d.maxInlineLines)
    ensures d.granularity == Summary && d.maxInlineLines == 0 ==> FieldLimit(d) == Some(0)
  {
  }

  // ---- selection

  /** Summaries go ahead of other fields, and otherwise fields keep their order. */
  predicate Ahead(keys: seq<string>, i: nat, j: nat)
    requires i < |keys| && j < |keys|
  {
    if (keys[i] == "summary") == (keys[j] == "summary") then i < j else keys[i] == "summary"
  }

  predicate Before(keys: seq<string>, limited: bool, i: nat, j: nat)
    requires i < |keys| && j < |keys|
  {
    if limited then Ahead(keys, i, j) else i < j
  }

  /** Positions come in increasing order. */
  lemma {:induction false} PositionsIncrease(keys: seq<string>, wanted: string -> bool, a: nat, b: nat)
    requires a < b < |Positions(keys, wanted)|
    ensures Positions(keys, wanted)[a] < Positions(keys, wanted)[b]
  {
    if keys == [] {
    } else {
      var n := |keys| - 1;
      var r := Positions(keys[..n], wanted);
      if b < |r| {
        PositionsIncrease(keys[..n], wanted, a, b);
      } else {
        assert r[a] in r;
      }
    }
  }

  lemma ShownIsPrefix(keys: seq<string>, wanted: string -> bool, limit: nat)
    ensures Shown(keys, wanted, Some(limit)) <= SummariesFirst(keys, wanted)
    ensures |Shown(keys, wanted, Some(limit))| ==
            if |SummariesFirst(keys, wanted)| <= limit then |SummariesFirst(keys, wanted)| else limit
  {
  }

  /** The shown fields are in the order the rendering prints them. */
  lemma SummariesFirstInOrder(keys: seq<string>, wanted: string -> bool, a: nat, b: nat)
    requires a < b < |SummariesFirst(keys, wanted)|
    ensures var r := SummariesFirst(keys, wanted);
            r[a] < |keys| && r[b] < |keys| && Ahead(keys, r[a], r[b])
  {
    var front := Positions(keys, k => wanted(k) && k == "summary");
    var back := Positions(keys, k => wanted(k) && k != "summary");
    assert SummariesFirst(keys, wanted) == front + back;
    assert forall x | 0 <= x < |front| :: front[x] in front;
    assert forall x | 0 <= x < |back| :: back[x] in back;
    hide Positions;
    if b < |front| {
      PositionsIncrease(keys, k => wanted(k) && k == "summary", a, b);
    } else if a >= |front| {
      PositionsIncrease(keys, k => wanted(k) && k != "summary", a - |front|, b - |front|);
    }
  }

  /** Shown fields are wanted ones, in order, each once. */
  lemma ShownInOrder(keys: seq<string>, wanted: string -> bool, limit: Option<nat>, a: nat, b: nat)
    requires a < b < |Shown(keys, wanted, limit)|
    ensures var r := Shown(keys, wanted, limit);
            r[a] < |keys| && r[b] < |keys| && Before(keys, limit.Some?, r[a], r[b])
  {
    var r := Shown(keys, wanted, limit);
    assert r[a] in r && r[b] in r;
    if limit.Some? {
      ShownIsPrefix(keys, wanted, limit.value);
      SummariesFirstInOrder(keys, wanted, a, b);
    } else {
      PositionsIncrease(keys, wanted, a, b);
    }
  }

  /** A wanted field is left out only for a limit's worth of wanted fields that go ahead of it. */
  lemma LeftOutIff(keys: seq<string>, wanted: string -> bool, limit: Option<nat>, i: nat)
    requires i < |keys| && wanted(keys[i])
    ensures var r := Shown(keys, wanted, limit);
            i !in r <==>
            limit.Some? && |r| == limit.value && forall j | j in r :: j < |keys| && Ahead(keys, j, i)
  {
    var r := Shown(keys, wanted, limit);
    var all := SummariesFirst(keys, wanted);
    if limit.Some? {
      ShownIsPrefix(keys, wanted, limit.value);
      hide Shown;
      hide SummariesFirst;
      assert i in all;
      var k :| 0 <= k < |all| && all[k] == i;
      if k < |r| {
        assert r[k] == i && i in r && !Ahead(keys, i, i);
      } else {
        forall j | j in r
          ensures j < |keys| && Ahead(keys, j, i)
        {
          var x :| 0 <= x < |r| && r[x] == j;
          assert all[x] == j;
          SummariesFirstInOrder(keys, wanted, x, k);
        }
        assert !Ahead(keys, i, i);
      }
    }
  }

  // ---- channels

  /** A key is compared trimmed, in lower case, with hyphens, dots and spaces as underscores. */
  lemma NormalizeSays(key: string)
    ensures |Normalize(key)| == |Trim(key)|
    ensures forall i | 0 <= i < |Trim(key)| ::
              var c := Trim(key)[i];
              Normalize(key)[i] ==
              if c in "-. " then '_' else if 65 <= c as int <= 90 then (c as int + 32) as char else c
  {
    hide Trim;
  }

  /** The names, prefixes and suffixes that put a normalized key in a channel. */
  ghost predicate Named(k: string, names: seq<string>, prefixes: seq<string>, suffixes: seq<string>) {
    || k in names
    || (exists x, rest :: x in prefixes && k == x + rest)
    || (exists x, stem :: x in suffixes && k == stem + x)
  }

  ghost predicate PolicyKey(k: string) { Named(k, ["policy", "needs_approval", "blocked_reason"], ["policy_"], []) }

  ghost predicate DiagnosticsKey(k: string) {
    Named(k, ["diagnostic", "diagnostics", "retry_hint", "parser_failure"], ["diagnostic_", "diagnostics_"], [])
  }

  ghost predicate CostKey(k: string) {
    Named(k, ["cost", "duration_ms", "elapsed_ms"], ["cost_"], ["_tokens"])
  }

  lemma PrefixIff(x: string, k: string)
    ensures x <= k <==> exists rest :: k == x + rest
  {
    if x <= k { assert k == x + k[|x|..]; }
  }

  lemma SuffixIff(x: string, k: string)
    ensures EndsWith(k, x) <==> exists stem :: k == stem + x
  {
    if EndsWith(k, x) { assert k == k[..|k| - |x|] + x; }
    if stem :| k == stem + x { assert k[|k| - |x|..] == x; }
  }

  /** Policy names go first, then diagnostics, then cost. */
  lemma ChannelIff(key: string)
    ensures var k := Normalize(key);
            && (ChannelOf(key) == Some(PolicyChannel) <==> PolicyKey(k))
            && (ChannelOf(key) == Some(DiagnosticsChannel) <==> !PolicyKey(k) && DiagnosticsKey(k))
            && (ChannelOf(key) == Some(CostChannel) <==> !PolicyKey(k) && !DiagnosticsKey(k) && CostKey(k))
  {
    hide Normalize; hide EndsWith;
    var k := Normalize(key);
    PrefixIff("policy_", k);
    PrefixIff("diagnostic_", k);
    PrefixIff("diagnostics_", k);
    PrefixIff("cost_", k);
    SuffixIff("_tokens", k);
  }

  /** Fields of a channel are shown exactly if the channel is; all other fields always are. */
  lemma ShownChannels(key: string, o: RenderOptions)
    ensures ChannelOf(key) == Some(PolicyChannel) ==> (ShouldRender(key, o) <==> o.includePolicy)
    ensures ChannelOf(key) == Some(DiagnosticsChannel) ==> (ShouldRender(key, o) <==> o.includeDiagnostics)
    ensures ChannelOf(key) == Some(CostChannel) ==> (ShouldRender(key, o) <==> o.includeCost)
    ensures ChannelOf(key) == None ==> ShouldRender(key, o)
  {
  }
}
