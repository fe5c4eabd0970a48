/** Applying the byte budget to the fields of a result, in place: once by the runtime, and once more
    by the renderer. */
module FieldBudget {
  import opened Prelude
  import opened Utf8
  import opened ToolResults
  import opened Truncation
  import opened Settings

  function RuntimeField(f: ResultField, max: nat): ResultField {
    if !Oversized(f, max) then f
    else match f.value
         case Str(s) => f.(value := Str(Prefix(s, max)))
         case StrList(items) => f.(value := StrList(RuntimeKeep(items, max, 0, true)))
  }

  function RenderField(f: ResultField, max: nat): ResultField {
    if !Oversized(f, max) then f
    else match f.value
         case Str(s) => f.(value := Str(Prefix(s, max)))
         case StrList(items) => f.(value := StrList(RenderKeep(items, max, 0, true)))
  }

  function RuntimeFields(fields: seq<ResultField>, max: nat): (r: seq<ResultField>)
    ensures |r| == |fields|
  {
    seq(|fields|, i requires 0 <= i < |fields| => RuntimeField(fields[i], max))
  }

  function RenderFields(fields: seq<ResultField>, max: nat): (r: seq<ResultField>)
    ensures |r| == |fields|
  {
    seq(|fields|, i requires 0 <= i < |fields| => RenderField(fields[i], max))
  }

  predicate AnyOversized(fields: seq<ResultField>, max: nat) {
    exists i | 0 <= i < |fields| :: Oversized(fields[i], max)
  }

  function SizeOf(f: ResultField): nat {
    if FieldBytes(f.value).Some? then FieldBytes(f.value).value else 0
  }

  function TotalBytes(fields: seq<ResultField>): nat {
    if fields == [] then 0 else TotalBytes(fields[..|fields| - 1]) + SizeOf(fields[|fields| - 1])
  }

  /** How many fields were over budget, and the bytes they had and kept. */
  datatype Totals = Totals(fields: nat, original: nat, retained: nat)

  function CutTotals(before: seq<ResultField>, after: seq<ResultField>, max: nat): (t: Totals)
    requires |before| == |after|
    ensures t.fields > 0 <==> AnyOversized(before, max)
  {
    var n := |before| - 1;
    if before == [] then Totals(0, 0, 0)
    else
      var t := CutTotals(before[..n], after[..n], max);
      assert before == before[..n] + [before[n]];
      assert forall i | 0 <= i < n :: before[..n][i] == before[i];
      if Oversized(before[n], max) then
        Totals(t.fields + 1, SatAdd(t.original, SizeOf(before[n])), SatAdd(t.retained, SizeOf(after[n])))
      else t
  }

  /** The bytes reported as removed are the bytes that are gone. */
  lemma {:induction false} BytesConserved(fields: seq<ResultField>, after: seq<ResultField>, max: nat)
    requires |after| == |fields|
    requires forall i | 0 <= i < |fields| :: SizeOf(after[i]) <= SizeOf(fields[i])
    requires forall i | 0 <= i < |fields| :: !Oversized(fields[i], max) ==> after[i] == fields[i]
    requires TotalBytes(fields) <= U64_MAX
    ensures CutTotals(fields, after, max).retained <= CutTotals(fields, after, max).original <= TotalBytes(fields)
    ensures TotalBytes(fields) - TotalBytes(after) ==
            CutTotals(fields, after, max).original - CutTotals(fields, after, max).retained
    ensures TotalBytes(after) <= TotalBytes(fields)
  {
    if fields == [] {
    } else {
      var n := |fields| - 1;
      BytesConserved(fields[..n], after[..n], max);
    }
  }

  /** The limit can tell a saturated length from a smaller one, or no length saturates. */
  predicate Measurable(fields: seq<ResultField>, max: nat) {
    max < U64_MAX || forall i | 0 <= i < |fields| :: SizeOf(fields[i]) <= U64_MAX
  }

  // ---- the runtime's pass

  /** The size of a field that is over budget, as the runtime measures it. */
  method MeasureRuntime(f: ResultField, max: nat) returns (bytes: Option<nat>)
    requires max < U64_MAX || SizeOf(f) <= U64_MAX
    ensures bytes == if Oversized(f, max) then Some(SatAdd(0, SizeOf(f))) else None
  {
    hide ByteLen; hide JoinedLen;
    var n := 0;
    match f.value {
      case Str(s) => n := SatAdd(0, ByteLen(s));
      case StrList(items) => n := StringListByteLen(items);
      case _ => return None;
    }
    return if n > max then Some(n) else None;
  }

  lemma {:induction false} RuntimeKeepFits(items: seq<string>, max: nat, used: nat, first: bool)
    requires used <= max
    ensures UsedAfter(used, first, RuntimeKeep(items, max, used, first)) <= max
  {
    assert ByteLen("") == 0;
    hide ByteLen; hide Fit; hide Join;
    if items == [] {
    } else {
      var start := if first then used else used + 1;
      var room := Left(max, start);
      PrefixIsLongest(items[0], room);
      if 0 < room && ByteLen(items[0]) <= room {
        RuntimeKeepFits(items[1..], max, start + ByteLen(items[0]), false);
        var rest := RuntimeKeep(items[1..], max, start + ByteLen(items[0]), false);
        assert ([items[0]] + rest)[1..] == rest;
      }
    }
  }

  /** After the runtime's pass no field is over budget, by the measure the renderer uses too. */
  lemma RuntimePassLeavesNothingOver(fields: seq<ResultField>, max: nat)
    ensures !AnyOversized(RuntimeFields(fields, max), max)
  {
    forall i | 0 <= i < |fields|
      ensures !Oversized(RuntimeField(fields[i], max), max)
    {
      if fields[i].value.Str? {
        PrefixIsLongest(fields[i].value.s, max);
      } else if fields[i].value.StrList? {
        RuntimeKeepFits(fields[i].value.items, max, 0, true);
      }
    }
  }

  lemma RuntimeBytesConserved(fields: seq<ResultField>, max: nat)
    requires TotalBytes(fields) <= U64_MAX
    ensures
      var after := RuntimeFields(fields, max);
      var totals := CutTotals(fields, after, max);
      TotalBytes(fields) - TotalBytes(after) == totals.original - totals.retained
  {
    hide RuntimeField;
    var after := RuntimeFields(fields, max);
    RuntimePassLeavesNothingOver(fields, max);
    forall i | 0 <= i < |fields|
      ensures SizeOf(after[i]) <= SizeOf(fields[i]) && (!Oversized(fields[i], max) ==> after[i] == fields[i])
    {
      RuntimeFieldKeeps(fields[i], max);
      assert !Oversized(after[i], max);
    }
    BytesConserved(fields, after, max);
  }

  /** The check that turns oversized results away, made on all fields of the result. */
  method RejectsOversized(fields: array<ResultField>, max: nat) returns (any: bool)
    requires Measurable(fields[..], max)
    ensures any == AnyOversized(fields[..], max)
  {
    hide Oversized;
    any := false;
    for i := 0 to fields.Length
      invariant any == exists j | 0 <= j < i :: Oversized(fields[j], max)
    {
      var size := MeasureRuntime(fields[i], max);
      any := any || size.Some?;
    }
  }

  method CutFieldRuntime(f: ResultField, max: nat) returns (cut: ResultField)
    requires Oversized(f, max)
    ensures cut == RuntimeField(f, max)
  {
    match f.value
    case Str(s) =>
      var text := TruncateStringValue(s, max);
      return f.(value := Str(text.value));
    case StrList(items) =>
      var kept, _ := TruncateStringListRuntime(items, max);
      return f.(value := StrList(kept));
  }

  method TruncateOversizedFields(fields: array<ResultField>, max: nat) returns (report: Option<Totals>)
    requires Measurable(fields[..], max)
    modifies fields
    ensures fields[..] == RuntimeFields(old(fields[..]), max)
    ensures report == if AnyOversized(old(fields[..]), max)
                      then Some(CutTotals(old(fields[..]), fields[..], max)) else None
  {
    hide RuntimeField; hide Oversized; hide SizeOf;
    ghost var before := fields[..];
    var totals := Totals(0, 0, 0);
    for i := 0 to fields.Length
      invariant forall j | i <= j < fields.Length :: fields[j] == before[j]
      invariant forall j | 0 <= j < i :: fields[j] == RuntimeField(before[j], max)
      invariant totals == CutTotals(before[..i], fields[..i], max)
    {
      assert before[..i + 1][..i] == before[..i];
      ghost var done := fields[..i];
      RuntimeFieldKeeps(fields[i], max);
      var size := MeasureRuntime(fields[i], max);
      if size.Some? {
        fields[i] := CutFieldRuntime(fields[i], max);
        totals := Totals(
          totals.fields + 1, SatAdd(totals.original, size.value), SatAdd(totals.retained, SizeOf(fields[i])));
      }
      assert fields[..i + 1][..i] == done;
    }
    assert before[..fields.Length] == before && fields[..fields.Length] == fields[..];
    return if totals.fields == 0 then None else Some(totals);
  }

  lemma RuntimeFieldKeeps(f: ResultField, max: nat)
    ensures !Oversized(f, max) ==> RuntimeField(f, max) == f && RenderField(f, max) == f
  {
  }

  /** The longest part of a text, from its start, that fits in a number of bytes. */
  ghost predicate LongestPart(s: string, t: string, max: nat) {
    t <= s && ByteLen(t) <= max && forall k | |t| < k <= |s| :: ByteLen(s[..k]) > max
  }

  /**
   * Both passes cut a text to the longest part that fits; the runtime's pass cuts a list so that what is left,
   * joined, is a part of it from its start that fits and wastes at most four bytes. Keys never change.
   */
  lemma CutSays(f: ResultField, max: nat)
    requires Oversized(f, max)
    ensures var (run, ren) := (RuntimeField(f, max), RenderField(f, max));
            && run.key == f.key && ren.key == f.key
            && (f.value.Str? ==> run == ren && run.value.Str? && LongestPart(f.value.s, run.value.s, max))
            && (f.value.StrList? ==>
                  && run.value.StrList? && ren.value.StrList? && "" !in ren.value.items
                  && Join(run.value.items) <= Join(f.value.items)
                  && max - 4 <= ByteLen(Join(run.value.items)) <= max)
  {
    hide ByteLen; hide Fit; hide RuntimeKeep; hide RenderKeep; hide Join;
    match f.value
    case Str(s) => PrefixIsLongest(s, max);
    case StrList(items) =>
      RuntimeKeepsPrefix(items, max, 0, true);
      RuntimeKeepFits(items, max, 0, true);
      RuntimeWastesLittle(items, max, 0, true);
  }

  /** A result within the budget is left alone. */
  lemma RuntimePassKeeps(fields: seq<ResultField>, max: nat)
    requires !AnyOversized(fields, max)
    ensures RuntimeFields(fields, max) == fields
  {
    hide Oversized; hide RuntimeField;
    forall i | 0 <= i < |fields|
      ensures RuntimeField(fields[i], max) == fields[i]
    {
      RuntimeFieldKeeps(fields[i], max);
    }
  }

  // ---- the renderer's pass

  /** The size of a field that is over budget, as the renderer measures it. */
  method MeasureRender(f: ResultField, max: nat) returns (bytes: Option<nat>)
    ensures bytes == if Oversized(f, max) then Some(SizeOf(f)) else None
  {
    hide ByteLen; hide JoinedLen;
    var n := 0;
    match f.value {
      case Str(s) => n := ByteLen(s);
      case StrList(items) => n := SummedByteLen(items);
      case _ => return None;
    }
    return if n > max then Some(n) else None;
  }

  /** Looks for fields over budget before anything is cut. */
  method FindOversized(fields: array<ResultField>, max: nat) returns (any: bool)
    ensures any == AnyOversized(fields[..], max)
  {
    hide Oversized;
    any := false;
    for i := 0 to fields.Length
      invariant any == exists j | 0 <= j < i :: Oversized(fields[j], max)
    {
      var size := MeasureRender(fields[i], max);
      any := any || size.Some?;
    }
  }

  datatype Budgeted = WithinBudget | Rejected | Cut(totals: Totals)

  method CutFieldRender(f: ResultField, max: nat) returns (cut: ResultField)
    requires Oversized(f, max)
    ensures cut == RenderField(f, max)
  {
    match f.value
    case Str(s) =>
      var text := TruncateStringValue(s, max);
      return f.(value := Str(text.value));
    case StrList(items) =>
      var kept, _ := TruncateStringListRender(items, max);
      return f.(value := StrList(kept));
  }

  /** The renderer's cutting loop. */
  method CutOversized(fields: array<ResultField>, max: nat) returns (totals: Totals)
    modifies fields
    ensures fields[..] == RenderFields(old(fields[..]), max)
    ensures totals == CutTotals(old(fields[..]), fields[..], max)
  {
    hide RenderField; hide Oversized; hide SizeOf;
    ghost var before := fields[..];
    totals := Totals(0, 0, 0);
    for i := 0 to fields.Length
      invariant forall j | i <= j < fields.Length :: fields[j] == before[j]
      invariant forall j | 0 <= j < i :: fields[j] == RenderField(before[j], max)
      invariant totals == CutTotals(before[..i], fields[..i], max)
    {
      assert before[..i + 1][..i] == before[..i];
      ghost var done := fields[..i];
      RuntimeFieldKeeps(fields[i], max);
      var size := MeasureRender(fields[i], max);
      if size.Some? {
        fields[i] := CutFieldRender(fields[i], max);
        totals := Totals(
          totals.fields + 1, SatAdd(totals.original, size.value), SatAdd(totals.retained, SizeOf(fields[i])));
      }
      assert fields[..i + 1][..i] == done;
    }
    assert before[..fields.Length] == before && fields[..fields.Length] == fields[..];
  }

  const RENDER_REASON := "rendering truncated oversized tool output"
  const RUNTIME_REASON := "runtime truncate_with_metadata"

  method ApplyRenderByteBudget(
    fields: array<ResultField>, existing: Option<TruncationMetadata>, max: nat, policy: OversizePolicy)
    returns (outcome: Budgeted, truncation: Option<TruncationMetadata>)
    modifies fields
    ensures
      if !AnyOversized(old(fields[..]), max) then
        outcome == WithinBudget && fields[..] == old(fields[..]) && truncation == existing
      else if policy == RejectOversize then
        outcome == Rejected && fields[..] == old(fields[..]) && truncation == existing
      else
        && fields[..] == RenderFields(old(fields[..]), max)
        && outcome == Cut(CutTotals(old(fields[..]), fields[..], max))
        && truncation ==
           Some(MergeTruncation(existing, outcome.totals.original, outcome.totals.retained, RENDER_REASON))
  {
    hide RenderFields; hide AnyOversized; hide CutTotals;
    var any := FindOversized(fields, max);
    if !any {
      return WithinBudget, existing;
    }
    if policy == RejectOversize {
      return Rejected, existing;
    }
    var totals := CutOversized(fields, max);
    return Cut(totals), Some(MergeTruncation(existing, totals.original, totals.retained, RENDER_REASON));
  }

  /** A run under the truncating policy: the runtime cuts the recorded fields and the renderer then
      finds nothing to do, so every byte removed is counted once. */
  method TruncateThenRender(fields: array<ResultField>, existing: Option<TruncationMetadata>, max: nat)
    returns (outcome: Budgeted, truncation: Option<TruncationMetadata>)
    requires Measurable(fields[..], max)
    modifies fields
    ensures fields[..] == RuntimeFields(old(fields[..]), max)
    ensures outcome == WithinBudget
    ensures truncation ==
            if !AnyOversized(old(fields[..]), max) then existing
            else
              var totals := CutTotals(old(fields[..]), fields[..], max);
              Some(MergeTruncation(existing, totals.original, totals.retained, RUNTIME_REASON))
  {
    hide RuntimeFields; hide CutTotals; hide AnyOversized;
    ghost var before := fields[..];
    var report := TruncateOversizedFields(fields, max);
    truncation := existing;
    if report.Some? {
      truncation := Some(MergeTruncation(existing, report.value.original, report.value.retained, RUNTIME_REASON));
    }
    RuntimePassLeavesNothingOver(before, max);
    outcome, truncation := ApplyRenderByteBudget(fields, truncation, max, TruncateWithMetadata);
  }
}
