/** Spilling oversized tool-result fields into artifacts, all of them or none. */
module ArtifactSpill {
  import opened Prelude
  import opened Utf8
  import opened ArtifactIndex
  import opened ArtifactStore
  import opened ToolResults
  import opened FieldBudget

  /** What is asked for; a limit of zero turns spilling off. */
  datatype Request = Request(scope: string, toolId: string, max: nat, mediaType: string)

  /** The id, path and time the next artifact gets. */
  datatype Fresh = Fresh(id: string, uri: string, at: int)

  /** One planned replacement. */
  datatype Planned = Planned(at: nat, key: string, replacement: string, ref: OutputRef)

  datatype Outcome = Failed | NothingToSpill | Spilled(keys: seq<string>, original: nat, retained: nat)

  const SPILL_REASON := "artifact spillover"

  function Content(v: StructuredValue): (r: seq<Byte>)
    ensures FieldBytes(v).Some? ==> |r| == FieldBytes(v).value
  {
    match v
    case Str(s) => Encode(s)
    case StrList(items) => Encode(Join(items))
    case _ => []
  }

  function Replacement(fr: Fresh): string { "artifact_ref " + fr.uri }

  function NewRow(q: Request, f: ResultField, fr: Fresh): Row {
    Row(fr.id, fr.uri, q.mediaType, q.toolId + "." + f.key, fr.at, None, None, None)
  }

  /** The row of a spilled field records its size before and after. */
  function SpilledRow(q: Request, f: ResultField, fr: Fresh): Row {
    NewRow(q, f, fr).(originalBytes := Some(|Content(f.value)|), retainedBytes := Some(ByteLen(Replacement(fr))))
  }

  function RefTo(q: Request, f: ResultField, fr: Fresh): OutputRef {
    OutputRef(fr.id, fr.uri, q.mediaType, Some(q.toolId + "." + f.key), None)
  }

  function SpilledField(q: Request, f: ResultField, fr: Fresh): ResultField {
    if Oversized(f, q.max) then f.(value := Str(Replacement(fr))) else f
  }

  function SpilledFields(q: Request, fields: seq<ResultField>, supply: seq<Fresh>): (r: seq<ResultField>)
    requires |fields| == |supply|
    ensures |r| == |fields|
  {
    seq(|fields|, i requires 0 <= i < |fields| => SpilledField(q, fields[i], supply[i]))
  }

  function Plan(q: Request, fields: seq<ResultField>, supply: seq<Fresh>): (plan: seq<Planned>)
    requires |fields| == |supply|
    ensures forall p | p in plan :: p.at < |fields|
    ensures plan == [] <==> !AnyOversized(fields, q.max)
  {
    var n := |fields| - 1;
    if fields == [] then []
    else
      var plan := Plan(q, fields[..n], supply[..n]);
      assert forall i | 0 <= i < n :: fields[..n][i] == fields[i];
      if Oversized(fields[n], q.max)
      then plan + [Planned(n, fields[n].key, Replacement(supply[n]), RefTo(q, fields[n], supply[n]))] else plan
  }

  function Refs(plan: seq<Planned>): (r: seq<OutputRef>)
    ensures |r| == |plan|
  {
    seq(|plan|, i requires 0 <= i < |plan| => plan[i].ref)
  }

  function Keys(plan: seq<Planned>): (r: seq<string>)
    ensures |r| == |plan|
  {
    seq(|plan|, i requires 0 <= i < |plan| => plan[i].key)
  }

  /** The bytes of the oversized fields. */
  function OriginalTotal(q: Request, fields: seq<ResultField>): nat {
    var n := |fields| - 1;
    if fields == [] then 0
    else OriginalTotal(q, fields[..n]) + if Oversized(fields[n], q.max) then |Content(fields[n].value)| else 0
  }

  /** The bytes of what replaces them. */
  function RetainedTotal(plan: seq<Planned>): nat {
    var n := |plan| - 1;
    if plan == [] then 0 else RetainedTotal(plan[..n]) + ByteLen(plan[n].replacement)
  }

  // ---- applying the plan

  function Apply(fields: seq<ResultField>, plan: seq<Planned>): (r: seq<ResultField>)
    requires forall p | p in plan :: p.at < |fields|
    ensures |r| == |fields|
  {
    var n := |plan| - 1;
    if plan == [] then fields
    else
      assert forall p | p in plan[..n] :: p in plan;
      var r := Apply(fields, plan[..n]);
      assert plan[n] in plan;
      r[plan[n].at := r[plan[n].at].(value := Str(plan[n].replacement))]
  }

  /** A planned replacement names its field, its artifact and what replaces it. */
  predicate Names(q: Request, p: Planned, f: ResultField, fr: Fresh) {
    && p.key == f.key && p.replacement == "artifact_ref " + fr.uri
    && p.ref == OutputRef(fr.id, fr.uri, q.mediaType, Some(q.toolId + "." + f.key), None)
  }

  /** The plan lists the oversized fields in order, each under its own name. */
  ghost predicate PlanExact(q: Request, fields: seq<ResultField>, supply: seq<Fresh>, plan: seq<Planned>)
    requires |fields| == |supply|
  {
    && (forall p | p in plan ::
          p.at < |fields| && Oversized(fields[p.at], q.max) && Names(q, p, fields[p.at], supply[p.at]))
    && (forall k, l | 0 <= k < l < |plan| :: plan[k].at < plan[l].at)
    && (forall i: nat | i < |fields| && Oversized(fields[i], q.max) :: exists p :: p in plan && p.at == i)
  }

  lemma PlanExactNext(
    q: Request, fields: seq<ResultField>, supply: seq<Fresh>, f: ResultField, fr: Fresh, init: seq<Planned>, p: Planned)
    requires |fields| == |supply| && PlanExact(q, fields, supply, init)
    requires Oversized(f, q.max) && p.at == |fields| && Names(q, p, f, fr)
    ensures PlanExact(q, fields + [f], supply + [fr], init + [p])
  {
    hide Oversized; hide Names;
    var plan := init + [p];
    assert forall k | 0 <= k < |init| :: init[k] in init && plan[k] == init[k];
    forall i: nat | i < |fields| + 1 && Oversized((fields + [f])[i], q.max)
      ensures exists p :: p in plan && p.at == i
    {
      if i < |fields| {
        assert Oversized(fields[i], q.max);
        var e :| e in init && e.at == i;
        assert e in plan;
      } else {
        assert p in plan && p.at == i;
      }
    }
  }

  lemma PlanExactSkips(
    q: Request, fields: seq<ResultField>, supply: seq<Fresh>, f: ResultField, fr: Fresh, plan: seq<Planned>)
    requires |fields| == |supply| && PlanExact(q, fields, supply, plan) && !Oversized(f, q.max)
    ensures PlanExact(q, fields + [f], supply + [fr], plan)
  {
    hide Oversized; hide Names;
    assert forall i: nat | i < |fields| :: (fields + [f])[i] == fields[i];
  }

  lemma EmptyPlanIsExact(q: Request)
    ensures PlanExact(q, [], [], Plan(q, [], []))
  {
  }

  lemma PlannedNames(q: Request, f: ResultField, fr: Fresh, n: nat)
    ensures Names(q, Planned(n, f.key, Replacement(fr), RefTo(q, f, fr)), f, fr)
  {
  }

  lemma {:induction false} PlanIsExact(q: Request, fields: seq<ResultField>, supply: seq<Fresh>, n: nat)
    requires n <= |fields| == |supply|
    ensures PlanExact(q, fields[..n], supply[..n], Plan(q, fields[..n], supply[..n]))
  {
    hide *;
    if n == 0 {
      assert fields[..0] == [] && supply[..0] == [];
      EmptyPlanIsExact(q);
    } else {
      var (f, fr) := (fields[n - 1], supply[n - 1]);
      var init := Plan(q, fields[..n - 1], supply[..n - 1]);
      PlanIsExact(q, fields, supply, n - 1);
      PlanNext(q, fields, supply, n - 1);
      assert fields[..n] == fields[..n - 1] + [f] && supply[..n] == supply[..n - 1] + [fr];
      if Oversized(f, q.max) {
        PlannedNames(q, f, fr, n - 1);
        PlanExactNext(q, fields[..n - 1], supply[..n - 1], f, fr, init,
                      Planned(n - 1, f.key, Replacement(fr), RefTo(q, f, fr)));
      } else {
        assert init + [] == init;
        PlanExactSkips(q, fields[..n - 1], supply[..n - 1], f, fr, init);
      }
    }
  }

  lemma {:induction false} ApplyLater(fields: seq<ResultField>, more: seq<ResultField>, plan: seq<Planned>)
    requires forall p | p in plan :: p.at < |fields|
    ensures Apply(fields + more, plan) == Apply(fields, plan) + more
  {
    if plan == [] {
    } else {
      var n := |plan| - 1;
      assert forall p | p in plan[..n] :: p in plan;
      assert plan[n] in plan;
      ApplyLater(fields, more, plan[..n]);
    }
  }

  /** Applying the plan replaces exactly the oversized fields. */
  lemma {:induction false} PlanSpillsOversized(q: Request, fields: seq<ResultField>, supply: seq<Fresh>)
    requires |fields| == |supply|
    ensures Apply(fields, Plan(q, fields, supply)) == SpilledFields(q, fields, supply)
  {
    hide Oversized;
    if fields == [] {
    } else {
      var n := |fields| - 1;
      var plan := Plan(q, fields[..n], supply[..n]);
      PlanSpillsOversized(q, fields[..n], supply[..n]);
      ApplyLater(fields[..n], [fields[n]], plan);
      assert fields == fields[..n] + [fields[n]];
      assert SpilledFields(q, fields, supply) ==
             SpilledFields(q, fields[..n], supply[..n]) + [SpilledField(q, fields[n], supply[n])];
      if Oversized(fields[n], q.max) {
        assert Plan(q, fields, supply)[..|plan|] == plan;
      }
    }
  }

  lemma OneFieldConserves(q: Request, f: ResultField, fr: Fresh)
    ensures SizeOf(SpilledField(q, f, fr)) + (if Oversized(f, q.max) then |Content(f.value)| else 0) ==
            SizeOf(f) + (if Oversized(f, q.max) then ByteLen(Replacement(fr)) else 0)
  {
    hide ByteLen; hide JoinedLen; hide Encode; hide Replacement;
  }

  lemma TotalBytesNext(fields: seq<ResultField>, f: ResultField)
    ensures TotalBytes(fields + [f]) == TotalBytes(fields) + SizeOf(f)
  {
    hide SizeOf;
    assert (fields + [f])[..|fields|] == fields;
  }

  lemma SpilledFieldsNext(q: Request, fields: seq<ResultField>, supply: seq<Fresh>, n: nat)
    requires n < |fields| == |supply|
    ensures SpilledFields(q, fields[..n + 1], supply[..n + 1]) ==
            SpilledFields(q, fields[..n], supply[..n]) + [SpilledField(q, fields[n], supply[n])]
  {
    hide SpilledField;
  }

  lemma {:induction false} PrefixConservesBytes(q: Request, fields: seq<ResultField>, supply: seq<Fresh>, n: nat)
    requires n <= |fields| == |supply|
    ensures TotalBytes(SpilledFields(q, fields[..n], supply[..n])) + OriginalTotal(q, fields[..n]) ==
            TotalBytes(fields[..n]) + RetainedTotal(Plan(q, fields[..n], supply[..n]))
  {
    hide Oversized; hide Content; hide SizeOf; hide SpilledField; hide ByteLen;
    if n == 0 {
      assert fields[..0] == [] && supply[..0] == [];
    } else {
      var (f, fr) := (fields[n - 1], supply[n - 1]);
      PrefixConservesBytes(q, fields, supply, n - 1);
      OneFieldConserves(q, f, fr);
      SpilledFieldsNext(q, fields, supply, n - 1);
      TotalBytesNext(SpilledFields(q, fields[..n - 1], supply[..n - 1]), SpilledField(q, f, fr));
      TotalBytesNext(fields[..n - 1], f);
      assert fields[..n] == fields[..n - 1] + [f];
      TotalsNext(q, fields, n - 1);
      PlanNext(q, fields, supply, n - 1);
      var plan := Plan(q, fields[..n - 1], supply[..n - 1]);
      RefsNext(plan, Planned(n - 1, f.key, Replacement(fr), RefTo(q, f, fr)));
      assert plan + [] == plan;
    }
  }

  /** Inline bytes out, replacement bytes in: what is reported accounts for every byte. */
  lemma SpillConservesBytes(q: Request, fields: seq<ResultField>, supply: seq<Fresh>)
    requires |fields| == |supply|
    ensures TotalBytes(SpilledFields(q, fields, supply)) + OriginalTotal(q, fields) ==
            TotalBytes(fields) + RetainedTotal(Plan(q, fields, supply))
  {
    hide *;
    PrefixConservesBytes(q, fields, supply, |fields|);
    assert fields[..|fields|] == fields && supply[..|fields|] == supply;
  }

  /**
   * Within what limit the spilled result stays: the replacements must fit it too. With the spill's
   * own limit this says when spilling again finds nothing; with the limit of a rejecting renderer,
   * when the rewritten result still renders.
   */
  lemma SpilledResultFitsIff(q: Request, fields: seq<ResultField>, supply: seq<Fresh>, limit: nat)
    requires |fields| == |supply|
    ensures !AnyOversized(SpilledFields(q, fields, supply), limit) <==>
            forall i | 0 <= i < |fields| ::
              if Oversized(fields[i], q.max) then ByteLen(Replacement(supply[i])) <= limit
                else !Oversized(fields[i], limit)
  {
    hide ByteLen;
    hide JoinedLen;
    var after := SpilledFields(q, fields, supply);
    assert forall i | 0 <= i < |fields| :: after[i] == SpilledField(q, fields[i], supply[i]);
    forall i | 0 <= i < |fields|
      ensures Oversized(after[i], limit) <==>
              if Oversized(fields[i], q.max) then ByteLen(Replacement(supply[i])) > limit
                else Oversized(fields[i], limit)
    {
    }
  }

  lemma {:induction false} BytesPerChar(s: string)
    ensures |s| <= ByteLen(s)
  {
    if s == "" {
    } else {
      BytesPerChar(s[1..]);
    }
  }

  lemma TwoBytes()
    ensures ByteLen("xy") == 2
  {
    assert "xy"[1..] == "y" && "y"[1..] == "";
  }

  /** Whatever the renderer's limit, a result within it may be over it once spilled: a long path suffices. */
  lemma SpillCanOversize(q: Request, fr: Fresh, limit: nat)
    requires q.max == 1 && 2 <= limit <= |fr.uri|
    ensures !AnyOversized([ResultField("out", Str("xy"))], limit)
    ensures AnyOversized(SpilledFields(q, [ResultField("out", Str("xy"))], [fr]), limit)
  {
    hide ByteLen; hide SpilledFields;
    TwoBytes();
    var f := ResultField("out", Str("xy"));
    assert !Oversized(f, limit) && Oversized(f, q.max);
    BytesPerChar(Replacement(fr));
    SpilledResultFitsIff(q, [f], [fr], limit);
    assert [f][0] == f && [fr][0] == fr && ByteLen(Replacement(fr)) > limit;
  }

  // ---- writing the artifacts

  /** The artifact of a field holds its whole content, and its row says so. */
  ghost predicate StoredField(q: Request, files: Files, rows: seq<Row>, f: ResultField, fr: Fresh) {
    && Key(q.scope, fr.id) in files && files[Key(q.scope, fr.id)] == Content(f.value)
    && Look(rows, fr.id) == Some(SpilledRow(q, f, fr))
  }

  /** The same in full: the file is the field's text in UTF-8, lines joined by newlines, and the row names
      it, its origin, and its size before and after. */
  ghost predicate ArtifactHolds(q: Request, files: Files, rows: seq<Row>, f: ResultField, fr: Fresh) {
    && Key(q.scope, fr.id) in files
    && var bytes := files[Key(q.scope, fr.id)];
       && (f.value.Str? ==> bytes == Encode(f.value.s))
       && (f.value.StrList? ==> bytes == Encode(Join(f.value.items)))
       && Look(rows, fr.id) ==
          Some(Row(fr.id, fr.uri, q.mediaType, q.toolId + "." + f.key, fr.at,
                   Some(|bytes|), Some(|Encode("artifact_ref " + fr.uri)|), None))
  }

  lemma StoredHolds(q: Request, files: Files, rows: seq<Row>, f: ResultField, fr: Fresh)
    requires StoredField(q, files, rows, f, fr)
    ensures ArtifactHolds(q, files, rows, f, fr)
  {
    hide Encode; hide ByteLen; hide Join; hide Look;
  }

  /** What was spilled can be read back: a text exactly, a list of lines line by line. */
  lemma SpilledTextRecovered(q: Request, files: Files, rows: seq<Row>, f: ResultField, fr: Fresh)
    requires ArtifactHolds(q, files, rows, f, fr)
    ensures f.value.Str? ==> Decode(files[Key(q.scope, fr.id)]) == Some(f.value.s)
    ensures f.value.StrList? && f.value.items != [] &&
            (forall i | 0 <= i < |f.value.items| :: '\n' !in f.value.items[i]) ==>
              var text := Decode(files[Key(q.scope, fr.id)]);
              text.Some? && Lines(text.value) == f.value.items
  {
    hide Encode; hide Decode; hide Join; hide Lines; hide Look;
    if f.value.Str? { EncodingRoundTrip(f.value.s); }
    if f.value.StrList? {
      var items := f.value.items;
      EncodingRoundTrip(Join(items));
      if items != [] && (forall i | 0 <= i < |items| :: '\n' !in items[i]) { LinesOfJoin(items); }
    }
  }

  /** Ids are new: no file, no row, no other field has them. */
  ghost predicate Unused(q: Request, files: Files, rows: seq<Row>, supply: seq<Fresh>) {
    && (forall i | 0 <= i < |supply| :: Key(q.scope, supply[i].id) !in files && Look(rows, supply[i].id) == None)
    && (forall i, j | 0 <= i < j < |supply| :: supply[i].id != supply[j].id)
  }

  /** What one attempt to store a field does to the store. */
  ghost predicate Tried(
    q: Request, files: Files, rows: seq<Row>, midFiles: Files, midRows: seq<Row>, fr: Fresh, fate: Fate)
  {
    && SameFilesBut(files, midFiles, q.scope, {fr.id}) && SameRowsBut(rows, midRows, {fr.id})
    && (Key(q.scope, fr.id) in files <==> fate.write.Indexed? || !fate.ClearsFile())
    && (Look(rows, fr.id).Some? <==> fate.write.Indexed?)
  }

  /** Writes one artifact and its sizes; what is there afterwards is what the disk decided. */
  method StoreField(store: LocalArtifactStore, q: Request, f: ResultField, fr: Fresh, fate: Fate)
    returns (ok: bool)
    requires store.Valid() && Look(store.Rows(q.scope), fr.id) == None && Key(q.scope, fr.id) !in store.files
    modifies store
    ensures store.Valid() && store.OnlyScope(old(store.index), q.scope)
    ensures ok == fate.Holds()
    ensures Tried(q, store.files, store.Rows(q.scope), old(store.files), old(store.Rows(q.scope)), fr, fate)
    ensures ok ==> StoredField(q, store.files, store.Rows(q.scope), f, fr)
  {
    hide Look; hide After; hide UniqueIds; hide Sorted;
    ghost var before := store.Rows(q.scope);
    var row := NewRow(q, f, fr);
    LookFinds(before, fr.id);
    UniqueRows(store, q.scope);
    var bytes := Content(f.value);
    var ref := store.WriteBytes(q.scope, row, bytes, fate.write);
    if ref.None? { return false; }
    ghost var between := store.Rows(q.scope);
    UniqueRows(store, q.scope);
    AppendTouches(before, row);
    LookFinds(between, fr.id);
    var original, retained := Some(|bytes|), Some(ByteLen(Replacement(fr)));
    ok := store.UpdateRecordBytes(q.scope, fr.id, original, retained, fate.updated);
    if ok { UpdateTouches(between, fr.id, original, retained); }
  }

  lemma AppendTouches(rows: seq<Row>, row: Row)
    requires UniqueIds(rows) && row.id !in Ids(rows)
    ensures SameRowsBut(After(rows, AppendRow(row)), rows, {row.id})
    ensures Look(After(rows, AppendRow(row)), row.id) == Some(row)
  {
    hide Look;
    hide After;
    SectionActs(rows, AppendRow(row), row.id);
    forall id | id != row.id
      ensures Look(After(rows, AppendRow(row)), id) == Look(rows, id)
    {
      SectionActs(rows, AppendRow(row), id);
    }
  }

  lemma UpdateTouches(rows: seq<Row>, id: string, original: Option<nat>, retained: Option<nat>)
    requires UniqueIds(rows) && original.Some? && retained.Some?
    ensures SameRowsBut(After(rows, SetBytes(id, original, retained)), rows, {id})
    ensures Look(rows, id).Some? ==>
              Look(After(rows, SetBytes(id, original, retained)), id) ==
              Some(Look(rows, id).value.(originalBytes := original, retainedBytes := retained))
  {
    hide Look;
    hide After;
    var w := SetBytes(id, original, retained);
    SectionActs(rows, w, id);
    forall other | other != id
      ensures Look(After(rows, w), other) == Look(rows, other)
    {
      SectionActs(rows, w, other);
    }
  }

  // ---- which ids are in play

  /** The ids of the first n fields that are spilled. */
  function SpillIds(q: Request, fields: seq<ResultField>, supply: seq<Fresh>, n: nat): set<string>
    requires n <= |fields| == |supply|
  {
    set i | 0 <= i < n && Oversized(fields[i], q.max) :: supply[i].id
  }

  function SupplyIds(supply: seq<Fresh>): set<string> {
    set i | 0 <= i < |supply| :: supply[i].id
  }

  lemma SpillIdsNext(q: Request, fields: seq<ResultField>, supply: seq<Fresh>, n: nat)
    requires n < |fields| == |supply|
    ensures SpillIds(q, fields, supply, n + 1) ==
            SpillIds(q, fields, supply, n) + if Oversized(fields[n], q.max) then {supply[n].id} else {}
  {
    hide Oversized;
  }

  lemma SpillIdsSupplied(q: Request, fields: seq<ResultField>, supply: seq<Fresh>, n: nat)
    requires n <= |fields| == |supply|
    ensures SpillIds(q, fields, supply, n) <= SupplyIds(supply)
  {
    hide Oversized;
  }

  /** With new ids, the i-th id is among those of the first n spilled fields exactly if it should be. */
  lemma SpillIdsExact(q: Request, files: Files, rows: seq<Row>, fields: seq<ResultField>, supply: seq<Fresh>, n: nat,
    i: nat)
    requires n <= |fields| == |supply| && i < |fields| && Unused(q, files, rows, supply)
    ensures supply[i].id in SpillIds(q, fields, supply, n) <==> i < n && Oversized(fields[i], q.max)
  {
    hide Oversized; hide Look;
    forall j | 0 <= j < |supply| && j != i
      ensures supply[j].id != supply[i].id
    {
      var lo, hi := if i < j then i else j, if i < j then j else i;
      assert supply[lo].id != supply[hi].id;
    }
  }

  lemma PlanNext(q: Request, fields: seq<ResultField>, supply: seq<Fresh>, n: nat)
    requires n < |fields| == |supply|
    ensures Plan(q, fields[..n + 1], supply[..n + 1]) ==
            Plan(q, fields[..n], supply[..n]) +
            if Oversized(fields[n], q.max)
            then [Planned(n, fields[n].key, Replacement(supply[n]), RefTo(q, fields[n], supply[n]))] else []
  {
    hide Oversized;
    assert fields[..n + 1][..n] == fields[..n] && supply[..n + 1][..n] == supply[..n];
  }

  lemma RefsNext(plan: seq<Planned>, p: Planned)
    ensures Refs(plan + [p]) == Refs(plan) + [p.ref]
    ensures RefIds(Refs(plan + [p])) == RefIds(Refs(plan)) + {p.ref.id}
    ensures RetainedTotal(plan + [p]) == RetainedTotal(plan) + ByteLen(p.replacement)
  {
    hide ByteLen;
    var refs := Refs(plan + [p]);
    assert refs == Refs(plan) + [p.ref];
    RefIdsNext(refs, |plan|);
    assert refs[..|plan|] == Refs(plan) && refs[..|plan| + 1] == refs;
    assert (plan + [p])[..|plan|] == plan;
  }

  /** The references planned so far are those of the fields spilled so far. */
  lemma {:induction false} PlannedIds(q: Request, fields: seq<ResultField>, supply: seq<Fresh>, n: nat)
    requires n <= |fields| == |supply|
    ensures RefIds(Refs(Plan(q, fields[..n], supply[..n]))) == SpillIds(q, fields, supply, n)
  {
    hide *;
    if n == 0 {
      assert fields[..0] == [] && supply[..0] == [];
      NoRefs(q, fields, supply);
    } else {
      PlannedIds(q, fields, supply, n - 1);
      SpillIdsNext(q, fields, supply, n - 1);
      PlanNext(q, fields, supply, n - 1);
      var plan := Plan(q, fields[..n - 1], supply[..n - 1]);
      if Oversized(fields[n - 1], q.max) {
        PlannedRef(q, plan, n - 1, fields[n - 1], supply[n - 1]);
      } else {
        assert plan + [] == plan;
      }
    }
  }

  lemma PlannedRef(q: Request, plan: seq<Planned>, n: nat, f: ResultField, fr: Fresh)
    ensures var more := plan + [Planned(n, f.key, Replacement(fr), RefTo(q, f, fr))];
            RefIds(Refs(more)) == RefIds(Refs(plan)) + {fr.id}
  {
    hide Refs; hide RefIds;
    RefsNext(plan, Planned(n, f.key, Replacement(fr), RefTo(q, f, fr)));
  }

  lemma NoRefs(q: Request, fields: seq<ResultField>, supply: seq<Fresh>)
    requires |fields| == |supply|
    ensures RefIds(Refs(Plan(q, [], []))) == {} == SpillIds(q, fields, supply, 0)
  {
  }

  lemma TotalsNext(q: Request, fields: seq<ResultField>, n: nat)
    requires n < |fields|
    ensures OriginalTotal(q, fields[..n + 1]) ==
            OriginalTotal(q, fields[..n]) + if Oversized(fields[n], q.max) then |Content(fields[n].value)| else 0
  {
    hide Oversized;
    hide Content;
    assert fields[..n + 1][..n] == fields[..n];
  }

  // ---- the loop so far

  /** Everything the loop has done: other files and rows as they were, spilled fields stored. */
  ghost predicate Progress(
    q: Request, files: Files, rows: seq<Row>, wasFiles: Files, wasRows: seq<Row>,
    fields: seq<ResultField>, supply: seq<Fresh>, n: nat)
    requires n <= |fields| == |supply|
  {
    && SameFilesBut(files, wasFiles, q.scope, SpillIds(q, fields, supply, n))
    && SameRowsBut(rows, wasRows, SpillIds(q, fields, supply, n))
    && forall i | 0 <= i < n && Oversized(fields[i], q.max) :: StoredField(q, files, rows, fields[i], supply[i])
  }

  lemma SameButCompose(
    f: Files, g: Files, h: Files, a: seq<Row>, b: seq<Row>, c: seq<Row>, scope: string,
    ids: set<string>, more: set<string>)
    requires SameFilesBut(f, g, scope, ids) && SameFilesBut(g, h, scope, more)
    requires SameRowsBut(a, b, ids) && SameRowsBut(b, c, more)
    ensures SameFilesBut(f, h, scope, ids + more) && SameRowsBut(a, c, ids + more)
  {
    hide Look;
  }

  lemma ProgressNext(
    q: Request, files: Files, rows: seq<Row>, midFiles: Files, midRows: seq<Row>, wasFiles: Files, wasRows: seq<Row>,
    fields: seq<ResultField>, supply: seq<Fresh>, fate: Fate, n: nat)
    requires n < |fields| == |supply| && Unused(q, wasFiles, wasRows, supply)
    requires Progress(q, midFiles, midRows, wasFiles, wasRows, fields, supply, n)
    requires Oversized(fields[n], q.max)
    requires Tried(q, files, rows, midFiles, midRows, supply[n], fate)
    requires StoredField(q, files, rows, fields[n], supply[n])
    ensures Progress(q, files, rows, wasFiles, wasRows, fields, supply, n + 1)
  {
    hide SpillIds; hide Look; hide Oversized; hide Content; hide SpilledRow;
    SpillIdsNext(q, fields, supply, n);
    var ids := SpillIds(q, fields, supply, n);
    SameButCompose(files, midFiles, wasFiles, rows, midRows, wasRows, q.scope, {supply[n].id}, ids);
    assert {supply[n].id} + ids == ids + {supply[n].id};
    forall i | 0 <= i < n + 1 && Oversized(fields[i], q.max)
      ensures StoredField(q, files, rows, fields[i], supply[i])
    {
      if i < n { assert supply[i].id != supply[n].id; }
    }
  }

  lemma ProgressSkips(
    q: Request, files: Files, rows: seq<Row>, wasFiles: Files, wasRows: seq<Row>,
    fields: seq<ResultField>, supply: seq<Fresh>, n: nat)
    requires n < |fields| == |supply| && !Oversized(fields[n], q.max)
    requires Progress(q, files, rows, wasFiles, wasRows, fields, supply, n)
    ensures Progress(q, files, rows, wasFiles, wasRows, fields, supply, n + 1)
  {
    hide SpillIds; hide Look; hide Oversized; hide StoredField;
    SpillIdsNext(q, fields, supply, n);
    var ids := SpillIds(q, fields, supply, n);
    assert ids + {} == ids;
  }

  lemma ProgressStarts(q: Request, files: Files, rows: seq<Row>, fields: seq<ResultField>, supply: seq<Fresh>)
    requires |fields| == |supply|
    ensures Progress(q, files, rows, files, rows, fields, supply, 0)
    ensures Plan(q, fields[..0], supply[..0]) == [] && OriginalTotal(q, fields[..0]) == 0 && RetainedTotal([]) == 0
  {
    hide Look;
  }

  lemma ProgressBounds(
    q: Request, files: Files, rows: seq<Row>, wasFiles: Files, wasRows: seq<Row>,
    fields: seq<ResultField>, supply: seq<Fresh>, n: nat)
    requires n <= |fields| == |supply|
    requires Progress(q, files, rows, wasFiles, wasRows, fields, supply, n)
    ensures SameFilesBut(files, wasFiles, q.scope, SupplyIds(supply)) && SameRowsBut(rows, wasRows, SupplyIds(supply))
  {
    hide SpillIds; hide SupplyIds; hide Look; hide StoredField; hide Oversized;
    SpillIdsSupplied(q, fields, supply, n);
  }

  lemma NextIsUnused(
    q: Request, files: Files, rows: seq<Row>, wasFiles: Files, wasRows: seq<Row>,
    fields: seq<ResultField>, supply: seq<Fresh>, n: nat)
    requires n < |fields| == |supply| && Unused(q, wasFiles, wasRows, supply)
    requires Progress(q, files, rows, wasFiles, wasRows, fields, supply, n)
    ensures Key(q.scope, supply[n].id) !in files && Look(rows, supply[n].id) == None
  {
    hide SpillIds; hide Look; hide StoredField; hide Oversized;
    SpillIdsExact(q, wasFiles, wasRows, fields, supply, n, n);
  }

  // ---- failure

  /** The first spilled field, from i on, whose write or size update fails; the number of fields if none does. */
  function FailureFrom(
    q: Request, fields: seq<ResultField>, supply: seq<Fresh>, disk: string -> Fate, i: nat): (n: nat)
    requires i <= |fields| == |supply|
    ensures i <= n <= |fields|
    ensures forall j | i <= j < n && Oversized(fields[j], q.max) :: disk(supply[j].id).Holds()
    ensures n < |fields| ==> Oversized(fields[n], q.max) && !disk(supply[n].id).Holds()
    decreases |fields| - i
  {
    if i == |fields| || (Oversized(fields[i], q.max) && !disk(supply[i].id).Holds()) then i
    else FailureFrom(q, fields, supply, disk, i + 1)
  }

  lemma FailureStep(q: Request, fields: seq<ResultField>, supply: seq<Fresh>, disk: string -> Fate, i: nat)
    requires i < |fields| == |supply|
    ensures FailureFrom(q, fields, supply, disk, i) ==
            if Oversized(fields[i], q.max) && !disk(supply[i].id).Holds() then i
            else FailureFrom(q, fields, supply, disk, i + 1)
  {
    hide Oversized;
  }

  /** What a spill that failed at field n leaves of field i: a file, a row. */
  predicate LeavesFile(q: Request, f: ResultField, fate: Fate, i: nat, n: nat) {
    i <= n && Oversized(f, q.max) && !fate.ClearsFile()
  }

  predicate LeavesRow(q: Request, f: ResultField, fate: Fate, i: nat, n: nat) {
    i <= n && Oversized(f, q.max) && !fate.ClearsRow()
  }

  /** The store after a spill that failed at field n: as it was, but for exactly these leftovers. */
  ghost predicate Leftovers(
    q: Request, files: Files, rows: seq<Row>, wasFiles: Files, wasRows: seq<Row>,
    fields: seq<ResultField>, supply: seq<Fresh>, disk: string -> Fate, n: nat)
    requires |fields| == |supply|
  {
    && SameFilesBut(files, wasFiles, q.scope, SupplyIds(supply))
    && SameRowsBut(rows, wasRows, SupplyIds(supply))
    && (forall i | 0 <= i < |fields| ::
          Key(q.scope, supply[i].id) in files <==> LeavesFile(q, fields[i], disk(supply[i].id), i, n))
    && (forall i | 0 <= i < |fields| ::
          Look(rows, supply[i].id).Some? <==> LeavesRow(q, fields[i], disk(supply[i].id), i, n))
  }

  /** Files, and rows, are back exactly if nothing of them is left. */
  lemma RestoredIff(
    q: Request, files: Files, rows: seq<Row>, wasFiles: Files, wasRows: seq<Row>,
    fields: seq<ResultField>, supply: seq<Fresh>, disk: string -> Fate, n: nat)
    requires |fields| == |supply| && Unused(q, wasFiles, wasRows, supply)
    requires Sorted(rows) && UniqueIds(rows) && Sorted(wasRows) && UniqueIds(wasRows)
    requires Leftovers(q, files, rows, wasFiles, wasRows, fields, supply, disk, n)
    ensures files == wasFiles <==>
            forall i | 0 <= i < |fields| :: !LeavesFile(q, fields[i], disk(supply[i].id), i, n)
    ensures rows == wasRows <==>
            forall i | 0 <= i < |fields| :: !LeavesRow(q, fields[i], disk(supply[i].id), i, n)
  {
    hide Look; hide Sorted; hide UniqueIds; hide LeavesFile; hide LeavesRow;
    if forall i | 0 <= i < |fields| :: !LeavesFile(q, fields[i], disk(supply[i].id), i, n) {
      UndoneFiles(files, wasFiles, q.scope, SupplyIds(supply));
    }
    if forall i | 0 <= i < |fields| :: !LeavesRow(q, fields[i], disk(supply[i].id), i, n) {
      UndoneRows(rows, wasRows, SupplyIds(supply));
    }
  }

  /** Which fields the rollback is asked to take back: those stored, and the failed one if its row was written. */
  function Taken(fate: Fate, n: nat): nat { if fate.write.Indexed? then n + 1 else n }

  lemma LeftoverAt(
    q: Request, files: Files, rows: seq<Row>, triedFiles: Files, triedRows: seq<Row>, midFiles: Files,
    midRows: seq<Row>,
    wasFiles: Files, wasRows: seq<Row>, fields: seq<ResultField>, supply: seq<Fresh>, disk: string -> Fate,
    n: nat, i: nat)
    requires n < |fields| == |supply| && i < |fields| && Unused(q, wasFiles, wasRows, supply)
    requires Oversized(fields[n], q.max) && !disk(supply[n].id).Holds()
    requires forall j | 0 <= j < n && Oversized(fields[j], q.max) :: disk(supply[j].id).Holds()
    requires Progress(q, midFiles, midRows, wasFiles, wasRows, fields, supply, n)
    requires Tried(q, triedFiles, triedRows, midFiles, midRows, supply[n], disk(supply[n].id))
    requires var ids := SpillIds(q, fields, supply, Taken(disk(supply[n].id), n));
             FilesTakenBack(files, triedFiles, q.scope, ids, disk) && RowsTakenBack(rows, triedRows, ids, disk)
    ensures Key(q.scope, supply[i].id) in files <==> LeavesFile(q, fields[i], disk(supply[i].id), i, n)
    ensures Look(rows, supply[i].id).Some? <==> LeavesRow(q, fields[i], disk(supply[i].id), i, n)
  {
    hide SpillIds; hide Look; hide Oversized; hide Content; hide SpilledRow;
    SpillIdsExact(q, wasFiles, wasRows, fields, supply, Taken(disk(supply[n].id), n), i);
    SpillIdsExact(q, wasFiles, wasRows, fields, supply, n, i);
    if i < n { assert supply[i].id != supply[n].id; }
    if n < i { assert supply[n].id != supply[i].id; }
  }

  lemma LeftoversExact(
    q: Request, files: Files, rows: seq<Row>, triedFiles: Files, triedRows: seq<Row>, midFiles: Files,
    midRows: seq<Row>,
    wasFiles: Files, wasRows: seq<Row>, fields: seq<ResultField>, supply: seq<Fresh>, disk: string -> Fate, n: nat)
    requires n < |fields| == |supply| && Unused(q, wasFiles, wasRows, supply)
    requires Oversized(fields[n], q.max) && !disk(supply[n].id).Holds()
    requires forall j | 0 <= j < n && Oversized(fields[j], q.max) :: disk(supply[j].id).Holds()
    requires Progress(q, midFiles, midRows, wasFiles, wasRows, fields, supply, n)
    requires Tried(q, triedFiles, triedRows, midFiles, midRows, supply[n], disk(supply[n].id))
    requires var ids := SpillIds(q, fields, supply, Taken(disk(supply[n].id), n));
             FilesTakenBack(files, triedFiles, q.scope, ids, disk) && RowsTakenBack(rows, triedRows, ids, disk)
    ensures Leftovers(q, files, rows, wasFiles, wasRows, fields, supply, disk, n)
  {
    hide SpillIds; hide Look; hide Oversized; hide StoredField; hide LeavesFile; hide LeavesRow; hide Unused;
    var ids := SpillIds(q, fields, supply, Taken(disk(supply[n].id), n));
    SpillIdsSupplied(q, fields, supply, Taken(disk(supply[n].id), n));
    SpillIdsSupplied(q, fields, supply, n);
    assert supply[n].id in SupplyIds(supply);
    forall i | 0 <= i < |fields|
      ensures Key(q.scope, supply[i].id) in files <==> LeavesFile(q, fields[i], disk(supply[i].id), i, n)
      ensures Look(rows, supply[i].id).Some? <==> LeavesRow(q, fields[i], disk(supply[i].id), i, n)
    {
      LeftoverAt(q, files, rows, triedFiles, triedRows, midFiles, midRows, wasFiles, wasRows,
                 fields, supply, disk, n, i);
    }
  }

  /** Fails a spill at field n, after its own attempt, and rolls back. */
  method FailAt(
    store: LocalArtifactStore, q: Request, plan: seq<Planned>, fields: seq<ResultField>, supply: seq<Fresh>,
    disk: string -> Fate, n: nat,
    ghost midFiles: Files, ghost midRows: seq<Row>, ghost wasFiles: Files, ghost wasRows: seq<Row>)
    requires store.Valid() && n < |fields| == |supply| && plan == Plan(q, fields[..n], supply[..n])
    requires Unused(q, wasFiles, wasRows, supply)
    requires Oversized(fields[n], q.max) && !disk(supply[n].id).Holds()
    requires forall j | 0 <= j < n && Oversized(fields[j], q.max) :: disk(supply[j].id).Holds()
    requires Progress(q, midFiles, midRows, wasFiles, wasRows, fields, supply, n)
    requires Tried(q, store.files, store.Rows(q.scope), midFiles, midRows, supply[n], disk(supply[n].id))
    modifies store
    ensures store.Valid() && store.OnlyScope(old(store.index), q.scope)
    ensures Leftovers(q, store.files, store.Rows(q.scope), wasFiles, wasRows, fields, supply, disk, n)
  {
    hide *;
    ghost var triedFiles, triedRows := store.files, store.Rows(q.scope);
    PlannedIds(q, fields, supply, n);
    SpillIdsNext(q, fields, supply, n);
    var refs := Refs(plan);
    if disk(supply[n].id).write.Indexed? {
      var p := Planned(n, fields[n].key, Replacement(supply[n]), RefTo(q, fields[n], supply[n]));
      RefsNext(plan, p);
      PlannedRef(q, plan, n, fields[n], supply[n]);
      refs := refs + [p.ref];
    }
    TakenIds(disk(supply[n].id), n);
    store.RollBack(q.scope, refs, disk);
    LeftoversExact(q, store.files, store.Rows(q.scope), triedFiles, triedRows, midFiles, midRows,
                   wasFiles, wasRows, fields, supply, disk, n);
  }

  lemma TakenIds(fate: Fate, n: nat)
    ensures Taken(fate, n) == if fate.write.Indexed? then n + 1 else n
  {
  }

  /** The writing loop: artifacts for every oversized field, or the leftovers of the first failure. */
  method WriteAll(
    store: LocalArtifactStore, q: Request, fields: seq<ResultField>, supply: seq<Fresh>, disk: string -> Fate)
    returns (ok: bool, plan: seq<Planned>, original: nat, retained: nat)
    requires store.Valid() && |fields| == |supply|
    requires Unused(q, store.files, store.Rows(q.scope), supply)
    modifies store
    ensures store.Valid() && store.OnlyScope(old(store.index), q.scope)
    ensures ok <==> FailureFrom(q, fields, supply, disk, 0) == |fields|
    ensures ok ==>
      && plan == Plan(q, fields, supply) && original == OriginalTotal(q, fields) && retained == RetainedTotal(plan)
      && Progress(q, store.files, store.Rows(q.scope), old(store.files), old(store.Rows(q.scope)),
                  fields, supply, |fields|)
    ensures !ok ==>
      Leftovers(q, store.files, store.Rows(q.scope), old(store.files), old(store.Rows(q.scope)),
                fields, supply, disk, FailureFrom(q, fields, supply, disk, 0))
  {
    hide Look; hide Sorted; hide UniqueIds; hide Unused; hide SupplyIds; hide Refs; hide Plan; hide Oversized;
    hide Content; hide StoredField; hide OriginalTotal; hide RetainedTotal; hide SpillIds; hide Progress;
    hide Leftovers;
    hide Tried; hide FailureFrom;
    ghost var wasFiles, wasRows := store.files, store.Rows(q.scope);
    plan, original, retained := [], 0, 0;
    ProgressStarts(q, wasFiles, wasRows, fields, supply);
    for i := 0 to |fields|
      invariant store.Valid() && store.OnlyScope(old(store.index), q.scope)
      invariant FailureFrom(q, fields, supply, disk, 0) == FailureFrom(q, fields, supply, disk, i)
      invariant plan == Plan(q, fields[..i], supply[..i])
      invariant original == OriginalTotal(q, fields[..i]) && retained == RetainedTotal(plan)
      invariant Progress(q, store.files, store.Rows(q.scope), wasFiles, wasRows, fields, supply, i)
    {
      ghost var midFiles, midRows := store.files, store.Rows(q.scope);
      PlanNext(q, fields, supply, i);
      TotalsNext(q, fields, i);
      FailureStep(q, fields, supply, disk, i);
      if Oversized(fields[i], q.max) {
        NextIsUnused(q, midFiles, midRows, wasFiles, wasRows, fields, supply, i);
        var fate := disk(supply[i].id);
        var done := StoreField(store, q, fields[i], supply[i], fate);
        if !done {
          FailAt(store, q, plan, fields, supply, disk, i, midFiles, midRows, wasFiles, wasRows);
          return false, [], 0, 0;
        }
        ProgressNext(q, store.files, store.Rows(q.scope), midFiles, midRows, wasFiles, wasRows,
                     fields, supply, fate, i);
        var p := Planned(i, fields[i].key, Replacement(supply[i]), RefTo(q, fields[i], supply[i]));
        RefsNext(plan, p);
        plan := plan + [p];
        original, retained := original + |Content(fields[i].value)|, retained + ByteLen(p.replacement);
      } else {
        ProgressSkips(q, midFiles, midRows, wasFiles, wasRows, fields, supply, i);
        assert plan + [] == plan;
      }
    }
    assert fields[..|fields|] == fields && supply[..|supply|] == supply;
    ok := true;
  }

  /** A spill fails exactly if it is switched on and the write or size update of some oversized field fails. */
  predicate Fails(q: Request, fields: seq<ResultField>, supply: seq<Fresh>, disk: string -> Fate)
    requires |fields| == |supply|
  {
    q.max > 0 && FailureFrom(q, fields, supply, disk, 0) < |fields|
  }

  /** Said of the fields: it is on, and some oversized field is not written, indexed and updated. */
  lemma FailsIff(q: Request, fields: seq<ResultField>, supply: seq<Fresh>, disk: string -> Fate)
    requires |fields| == |supply|
    ensures Fails(q, fields, supply, disk) <==>
            q.max > 0 && exists i | 0 <= i < |fields| && Oversized(fields[i], q.max) ::
                           !(disk(supply[i].id).write == Indexed && disk(supply[i].id).updated)
  {
    hide Oversized;
    var n := FailureFrom(q, fields, supply, disk, 0);
    if n < |fields| { assert !(disk(supply[n].id).write == Indexed && disk(supply[n].id).updated); }
  }

  /**
   * Spills every field over the limit. Success replaces exactly those fields, keeps their whole
   * content in the store, and accounts for the bytes. Failure leaves the result as it was; the files
   * are as they were exactly if no file was abandoned and every deletion that was due worked, and the
   * rows exactly if every row that was due was dropped.
   */
  method SpillLargeFields(
    fields: array<ResultField>, refs: seq<OutputRef>, truncation: Option<TruncationMetadata>,
    store: LocalArtifactStore, q: Request, supply: seq<Fresh>, disk: string -> Fate)
    returns (r: Outcome, newRefs: seq<OutputRef>, newTruncation: Option<TruncationMetadata>)
    requires store.Valid() && fields.Length == |supply|
    requires Unused(q, store.files, store.Rows(q.scope), supply)
    modifies store, fields
    ensures store.Valid() && store.OnlyScope(old(store.index), q.scope)
    ensures r.Failed? <==> Fails(q, old(fields[..]), supply, disk)
    ensures r.NothingToSpill? <==> q.max == 0 || !AnyOversized(old(fields[..]), q.max)
    ensures !r.Spilled? ==> fields[..] == old(fields[..]) && newRefs == refs && newTruncation == truncation
    ensures r.NothingToSpill? ==> store.files == old(store.files) && store.Rows(q.scope) == old(store.Rows(q.scope))
    ensures r.Failed? ==>
      var n := FailureFrom(q, old(fields[..]), supply, disk, 0);
      && Leftovers(q, store.files, store.Rows(q.scope), old(store.files), old(store.Rows(q.scope)),
                   old(fields[..]), supply, disk, n)
      && (store.files == old(store.files) <==>
          forall i | 0 <= i < |supply| :: !LeavesFile(q, old(fields[i]), disk(supply[i].id), i, n))
      && (store.Rows(q.scope) == old(store.Rows(q.scope)) <==>
          forall i | 0 <= i < |supply| :: !LeavesRow(q, old(fields[i]), disk(supply[i].id), i, n))
    ensures r.Spilled? ==>
      var plan := Plan(q, old(fields[..]), supply);
      && fields[..] == SpilledFields(q, old(fields[..]), supply)
      && r == Spilled(Keys(plan), OriginalTotal(q, old(fields[..])), RetainedTotal(plan))
      && newRefs == refs + Refs(plan)
      && newTruncation == Some(MergeTruncation(truncation, r.original, r.retained, SPILL_REASON))
      && PlanExact(q, old(fields[..]), supply, plan)
    ensures r.Spilled? ==>
      forall i | 0 <= i < fields.Length ::
        fields[i] ==
        if Oversized(old(fields[i]), q.max) then ResultField(old(fields[i]).key, Str("artifact_ref " + supply[i].uri))
        else old(fields[i])
    ensures r.Spilled? ==>
      && SameFilesBut(store.files, old(store.files), q.scope, SupplyIds(supply))
      && SameRowsBut(store.Rows(q.scope), old(store.Rows(q.scope)), SupplyIds(supply))
      && forall i | 0 <= i < fields.Length && Oversized(old(fields[i]), q.max) ::
           ArtifactHolds(q, store.files, store.Rows(q.scope), old(fields[i]), supply[i])
  {
    hide PlanExact; hide ArtifactHolds;
    hide Look; hide Sorted; hide UniqueIds; hide Unused; hide SupplyIds; hide SpillIds; hide Oversized;
    hide StoredField; hide OriginalTotal; hide RetainedTotal; hide Plan; hide LeavesFile; hide LeavesRow;
    hide Leftovers; hide FailureFrom;
    ghost var before := fields[..];
    UniqueRows(store, q.scope);
    if q.max == 0 { return NothingToSpill, refs, truncation; }
    var ok, plan, original, retained := WriteAll(store, q, fields[..], supply, disk);
    UniqueRows(store, q.scope);
    if !ok {
      RestoredIff(q, store.files, store.Rows(q.scope), old(store.files), old(store.Rows(q.scope)), before, supply, disk,
                  FailureFrom(q, before, supply, disk, 0));
      return Outcome.Failed, refs, truncation;
    }
    ProgressBounds(q, store.files, store.Rows(q.scope), old(store.files), old(store.Rows(q.scope)),
                   before, supply, |before|);
    if plan == [] {
      NothingWritten(q, store.files, store.Rows(q.scope), old(store.files), old(store.Rows(q.scope)), before, supply);
      return NothingToSpill, refs, truncation;
    }
    forall i | 0 <= i < |before| && Oversized(before[i], q.max)
      ensures ArtifactHolds(q, store.files, store.Rows(q.scope), before[i], supply[i])
    {
      StoredHolds(q, store.files, store.Rows(q.scope), before[i], supply[i]);
    }
    ApplyAll(fields, plan);
    PlanSpillsOversized(q, before, supply);
    PlanIsExact(q, before, supply, |before|);
    assert before[..|before|] == before && supply[..|before|] == supply;
    newRefs := refs + Refs(plan);
    newTruncation := Some(MergeTruncation(truncation, original, retained, SPILL_REASON));
    r := Spilled(Keys(plan), original, retained);
  }

  lemma NothingWritten(
    q: Request, files: Files, rows: seq<Row>, wasFiles: Files, wasRows: seq<Row>,
    fields: seq<ResultField>, supply: seq<Fresh>)
    requires |fields| == |supply| && Plan(q, fields, supply) == []
    requires Progress(q, files, rows, wasFiles, wasRows, fields, supply, |fields|)
    requires Sorted(rows) && UniqueIds(rows) && Sorted(wasRows) && UniqueIds(wasRows)
    ensures files == wasFiles && rows == wasRows && !AnyOversized(fields, q.max)
  {
    hide Look; hide Sorted; hide UniqueIds; hide StoredField; hide Oversized;
    assert SpillIds(q, fields, supply, |fields|) == {};
    UndoneFiles(files, wasFiles, q.scope, {});
    UndoneRows(rows, wasRows, {});
  }

  method ApplyAll(fields: array<ResultField>, plan: seq<Planned>)
    requires forall p | p in plan :: p.at < fields.Length
    modifies fields
    ensures fields[..] == Apply(old(fields[..]), plan)
  {
    for i := 0 to |plan|
      invariant forall p | p in plan[..i] :: p in plan
      invariant fields[..] == Apply(old(fields[..]), plan[..i])
    {
      assert plan[i] in plan;
      assert plan[..i + 1][..i] == plan[..i] && plan[..i + 1] == plan[..i] + [plan[i]];
      fields[plan[i].at] := fields[plan[i].at].(value := Str(plan[i].replacement));
    }
    assert plan[..|plan|] == plan;
  }
}
