/** Rendering a tool result as TOON under a line budget. */
module ToonRender {
  import opened Prelude
  import opened ToolResults
  import opened ToonValue

  type FloatTest = string -> bool

  datatype Section = Section(title: string, count: nat, lines: seq<string>)

  // ---- the lines of a result

  function StatusName(s: ResultStatus): string {
    match s
    case Succeeded => "succeeded"
    case Failed => "failed"
    case Canceled => "canceled"
    case TimedOut => "timeout"
  }

  function PreludeLines(r: ToolResult, f: FloatTest): seq<string> {
    ["status " + StatusName(r.status),
     "schema_version tool_result.v" + Decimal(r.schemaVersion),
     "format toon",
     "tool_id " + RenderText(r.toolId, f),
     "result_id " + r.id,
     "invocation_id " + r.invocationId] +
    (if r.schemaRef.Some? then ["schema_ref " + RenderText(r.schemaRef.value, f)] else [])
  }

  function RenderRef(ref: OutputRef, f: FloatTest): string {
    "  " + ref.id + "," + RenderText(ref.uri, f) + "," + RenderText(ref.mediaType, f) + "," +
    RenderOptional(ref.caption, f) + "," + RenderOptional(ref.digest, f)
  }

  function Header(title: string, n: nat, columns: string): string {
    title + "[" + Decimal(n) + columns
  }

  function RefsSection(title: string, refs: seq<OutputRef>, f: FloatTest): seq<string> {
    if refs == [] then []
    else [Header(title, |refs|, "]{id,uri,media_type,label,digest}")] +
         seq(|refs|, i requires 0 <= i < |refs| => RenderRef(refs[i], f))
  }

  function TruncationSection(t: TruncationMetadata, f: FloatTest): seq<string> {
    ["truncation",
     "  truncated true",
     "  original_bytes " + Decimal(t.originalBytes),
     "  retained_bytes " + Decimal(t.retainedBytes),
     "  reason " + RenderText(t.reason, f)]
  }

  function RenderRedaction(m: RedactionMarker, f: FloatTest): string {
    "  " + RenderText(m.fieldPath, f) + "," + RenderText(m.reason, f) + "," + RenderInteger(m.redactedAt)
  }

  function RedactionsSection(ms: seq<RedactionMarker>, f: FloatTest): seq<string> {
    if ms == [] then []
    else [Header("redactions", |ms|, "]{field_path,reason,redacted_at_ms}")] +
         seq(|ms|, i requires 0 <= i < |ms| => RenderRedaction(ms[i], f))
  }

  function Sections(r: ToolResult, f: FloatTest): seq<Section> {
    [Section("fields", |r.fields|, FieldsSection(r.fields, f)),
     Section("evidence_refs", |r.evidenceRefs|, RefsSection("evidence_refs", r.evidenceRefs, f)),
     Section("output_refs", |r.outputRefs|, RefsSection("output_refs", r.outputRefs, f))] +
    (if r.truncation.Some? then [Section("truncation", 1, TruncationSection(r.truncation.value, f))] else []) +
    [Section("redactions", |r.redactions|, RedactionsSection(r.redactions, f))]
  }

  function Flatten(sections: seq<Section>): seq<string> {
    if sections == [] then [] else sections[0].lines + Flatten(sections[1..])
  }

  // ---- the budget

  predicate Overflows(lines: nat, budget: Option<nat>) {
    budget.Some? && lines > budget.value
  }

  /** The leading sections that fit whole after `used` lines. */
  function Admitted(sections: seq<Section>, used: nat, budget: Option<nat>): seq<string> {
    if sections == [] || (sections[0].lines != [] && Overflows(used + |sections[0].lines|, budget)) then []
    else sections[0].lines + Admitted(sections[1..], used + |sections[0].lines|, budget)
  }

  /** The admitted lines come first, they fit, and they are all there is exactly when all of them fit. */
  lemma {:induction false} AdmittedFits(sections: seq<Section>, used: nat, budget: Option<nat>)
    requires !Overflows(used, budget)
    ensures Admitted(sections, used, budget) <= Flatten(sections)
    ensures !Overflows(used + |Admitted(sections, used, budget)|, budget)
    ensures |Admitted(sections, used, budget)| == |Flatten(sections)| <==>
            !Overflows(used + |Flatten(sections)|, budget)
  {
    if sections != [] && !(sections[0].lines != [] && Overflows(used + |sections[0].lines|, budget)) {
      AdmittedFits(sections[1..], used + |sections[0].lines|, budget);
    }
  }

  function OmittedCount(sections: seq<Section>, title: string): nat {
    if sections == [] then 0
    else (if sections[0].title == title then sections[0].count else 0) + OmittedCount(sections[1..], title)
  }

  /** The reason printed in the notice, with the number of omitted entries of each section. */
  function TruncationReason(omitted: seq<Section>, max: nat, before: string, preludeOmitted: Option<nat>): string {
    "toon rendering truncated to max_inline_lines=" + Decimal(max) + " before " + before +
    (if preludeOmitted.Some? then "; prelude_lines_omitted=" + Decimal(preludeOmitted.value) else "") +
    "; omitted fields=" + Decimal(OmittedCount(omitted, "fields")) +
    ", evidence_refs=" + Decimal(OmittedCount(omitted, "evidence_refs")) +
    ", output_refs=" + Decimal(OmittedCount(omitted, "output_refs")) +
    ", truncation=" + Decimal(OmittedCount(omitted, "truncation")) +
    ", redactions=" + Decimal(OmittedCount(omitted, "redactions"))
  }

  /** One line when there is room for at most one, otherwise two. */
  function Notice(reason: string, room: nat, f: FloatTest): (r: seq<string>)
    ensures |r| == if room <= 1 then 1 else 2
  {
    if room <= 1 then ["rendering_truncated true; rendering_truncation_reason " + RenderText(reason, f)]
    else ["rendering_truncated true", "rendering_truncation_reason " + RenderText(reason, f)]
  }

  lemma AdmitStep(sections: seq<Section>, i: nat, used: nat, budget: Option<nat>)
    requires i < |sections|
    ensures
      var lines := sections[i].lines;
      Admitted(sections[i..], used, budget) ==
      if lines != [] && Overflows(used + |lines|, budget) then []
      else lines + Admitted(sections[i + 1..], used + |lines|, budget)
    ensures |Flatten(sections[i..])| == |sections[i].lines| + |Flatten(sections[i + 1..])|
  {
    assert sections[i..][1..] == sections[i + 1..];
  }

  lemma EmptySections(used: nat, budget: Option<nat>)
    ensures Admitted([], used, budget) == [] && Flatten([]) == []
  {
  }

  lemma {:induction false} FlattenNext(sections: seq<Section>, n: nat)
    requires n < |sections|
    ensures Flatten(sections[..n + 1]) == Flatten(sections[..n]) + sections[n].lines
    decreases n
  {
    if n == 0 {
      assert sections[..1][1..] == [];
      assert Flatten(sections[..1]) == sections[0].lines + Flatten([]);
    } else {
      FlattenNext(sections[1..], n - 1);
      assert sections[..n + 1][1..] == sections[1..][..n];
      assert sections[..n][1..] == sections[1..][..n - 1];
    }
  }

  /** The sections before this one fit after `used` lines; with this one they do not. */
  ghost predicate StopsAt(sections: seq<Section>, used: nat, budget: Option<nat>, stop: nat) {
    && stop < |sections| && sections[stop].lines != []
    && !Overflows(used + |Flatten(sections[..stop])|, budget)
    && Overflows(used + |Flatten(sections[..stop])| + |sections[stop].lines|, budget)
  }

  /** Appends sections as long as they fit; reports the first one that does not. */
  method AdmitSections(sections: seq<Section>, used: nat, budget: Option<nat>)
    returns (admitted: seq<string>, stop: nat)
    requires !Overflows(used, budget)
    ensures admitted == Admitted(sections, used, budget)
    ensures stop <= |sections|
    ensures stop == |sections| <==> !Overflows(used + |Flatten(sections)|, budget)
    ensures admitted == Flatten(sections[..stop])
    ensures stop < |sections| ==> StopsAt(sections, used, budget, stop)
  {
    hide Admitted; hide Flatten;
    assert sections[0..] == sections && sections[..0] == [];
    EmptySections(used, budget);
    admitted, stop := [], 0;
    while stop < |sections|
      invariant 0 <= stop <= |sections|
      invariant !Overflows(used + |admitted|, budget)
      invariant Admitted(sections, used, budget) == admitted + Admitted(sections[stop..], used + |admitted|, budget)
      invariant |Flatten(sections)| == |admitted| + |Flatten(sections[stop..])|
      invariant admitted == Flatten(sections[..stop])
    {
      var section := sections[stop];
      AdmitStep(sections, stop, used + |admitted|, budget);
      FlattenNext(sections, stop);
      ghost var rest := Admitted(sections[stop + 1..], used + |admitted| + |section.lines|, budget);
      assert admitted + (section.lines + rest) == (admitted + section.lines) + rest;
      if section.lines != [] {
        if Overflows(used + |admitted| + |section.lines|, budget) {
          return;
        }
        admitted := admitted + section.lines;
      } else {
        assert admitted + section.lines == admitted;
      }
      stop := stop + 1;
    }
    EmptySections(used + |admitted|, budget);
    assert sections[stop..] == [];
  }

  /** The single-line notice, and the notice on two lines. */
  function ShortNotice(reason: string, f: FloatTest): seq<string> {
    ["rendering_truncated true; rendering_truncation_reason " + RenderText(reason, f)]
  }

  function LongNotice(reason: string, f: FloatTest): seq<string> {
    ["rendering_truncated true", "rendering_truncation_reason " + RenderText(reason, f)]
  }

  lemma NoticeSays(reason: string, room: nat, f: FloatTest)
    ensures Notice(reason, room, f) == if room <= 1 then ShortNotice(reason, f) else LongNotice(reason, f)
  {
  }

  /** A prelude over the budget: what is kept of it leaves one line for the notice. */
  ghost predicate PreludeCut(
    prelude: seq<string>, sections: seq<Section>, max: nat, f: FloatTest, lines: seq<string>, notice: seq<string>)
    requires |prelude| > max
  {
    && lines == prelude[..if max == 0 then 0 else max - 1]
    && notice == ShortNotice(TruncationReason(sections, max, "tool output prelude", Some(|prelude| - max)), f)
  }

  /**
   * Sections over the budget: whole sections are kept up to the first that does not fit, and the notice
   * names it. The notice takes two spare lines if there are, or the one spare line, or the last kept line.
   */
  ghost predicate SectionsCut(
    prelude: seq<string>, sections: seq<Section>, max: nat, f: FloatTest, stop: nat, lines: seq<string>,
    notice: seq<string>)
  {
    && StopsAt(sections, |prelude|, Some(max), stop)
    && var body := prelude + Flatten(sections[..stop]);
       var reason := TruncationReason(sections[stop..], max, sections[stop].title, None);
       if max >= |body| + 2 then lines == body && notice == LongNotice(reason, f)
       else if max == |body| + 1 || body == [] then lines == body && notice == ShortNotice(reason, f)
       else lines == body[..|body| - 1] && notice == ShortNotice(reason, f)
  }

  /** Lays out the prelude and the sections under a budget of lines. Without a budget, or when all
      lines fit, they are printed as they are. Otherwise a leading part of them is printed, then a
      notice, within the budget as far as a notice alone allows; and when the prelude fits, at most one
      of the admitted lines gives way to the notice. */
  method LayOut(prelude: seq<string>, sections: seq<Section>, budget: Option<nat>, f: FloatTest)
    returns (lines: seq<string>, notice: seq<string>, ghost stop: nat)
    ensures lines <= prelude + Flatten(sections)
    ensures !Overflows(|prelude| + |Flatten(sections)|, budget) ==>
              lines == prelude + Flatten(sections) && notice == []
    ensures Overflows(|prelude| + |Flatten(sections)|, budget) ==>
              && notice != []
              && |lines| + |notice| <= (if budget.value == 0 then 1 else budget.value)
              && (|prelude| <= budget.value ==> |prelude| + |Admitted(sections, |prelude|, budget)| <= |lines| + 1)
    ensures forall line | line in notice :: '\n' !in line
    ensures Overflows(|prelude|, budget) ==> PreludeCut(prelude, sections, budget.value, f, lines, notice)
    ensures Overflows(|prelude| + |Flatten(sections)|, budget) && !Overflows(|prelude|, budget) ==>
              SectionsCut(prelude, sections, budget.value, f, stop, lines, notice)
  {
    hide TruncationReason; hide RenderText; hide Admitted; hide Flatten; hide Notice; hide ShortNotice; hide LongNotice;
    stop := 0;
    var body := prelude;
    var reason: Option<string> := None;
    if Overflows(|prelude|, budget) {
      reason := Some(TruncationReason(sections, budget.value, "tool output prelude", Some(|body| - budget.value)));
    } else {
      var admitted, n := AdmitSections(sections, |prelude|, budget);
      stop := n;
      AdmittedFits(sections, |prelude|, budget);
      body := prelude + admitted;
      if n < |sections| {
        reason := Some(TruncationReason(sections[n..], budget.value, sections[n].title, None));
      }
    }
    if reason.Some? {
      var room := if budget.value > |body| then budget.value - |body| else 0;
      notice := Notice(reason.value, room, f);
      NoticeOnOneLine(reason.value, room, f);
      NoticeSays(reason.value, room, f);
      var keep := if budget.value > |notice| then budget.value - |notice| else 0;
      lines := if keep < |body| then body[..keep] else body;
    } else {
      lines, notice := body, [];
    }
  }

  // ---- one printed line is one line

  predicate OnOneLine(line: string) {
    '\n' !in line
  }

  predicate AllOnOneLine(lines: seq<string>) {
    forall i | 0 <= i < |lines| :: OnOneLine(lines[i])
  }

  lemma NoticeOnOneLine(reason: string, room: nat, f: FloatTest)
    ensures forall line | line in Notice(reason, room, f) :: OnOneLine(line)
  {
    hide RenderText;
    TextOnOneLine(reason, f);
  }

  /** Ids are printed as they are; being a prefix and a UUID, they hold no line break. */
  predicate IdsOnOneLine(r: ToolResult) {
    && OnOneLine(r.id) && OnOneLine(r.invocationId)
    && (forall i | 0 <= i < |r.evidenceRefs| :: OnOneLine(r.evidenceRefs[i].id))
    && (forall i | 0 <= i < |r.outputRefs| :: OnOneLine(r.outputRefs[i].id))
  }

  lemma OptionalOnOneLine(o: Option<string>, f: FloatTest)
    ensures OnOneLine(RenderOptional(o, f))
  {
    hide RenderText;
    if o.Some? { TextOnOneLine(o.value, f); }
  }

  lemma PreludeOnOneLine(r: ToolResult, f: FloatTest)
    requires IdsOnOneLine(r)
    ensures AllOnOneLine(PreludeLines(r, f))
  {
    hide RenderText;
    TextOnOneLine(r.toolId, f);
    DecimalOnOneLine(r.schemaVersion);
    if r.schemaRef.Some? { TextOnOneLine(r.schemaRef.value, f); }
  }

  lemma HeaderOnOneLine(title: string, n: nat, columns: string)
    requires OnOneLine(title) && OnOneLine(columns)
    ensures OnOneLine(Header(title, n, columns))
  {
    DecimalOnOneLine(n);
  }

  lemma RefOnOneLine(ref: OutputRef, f: FloatTest)
    requires OnOneLine(ref.id)
    ensures OnOneLine(RenderRef(ref, f))
  {
    hide RenderText; hide RenderOptional;
    TextOnOneLine(ref.uri, f);
    TextOnOneLine(ref.mediaType, f);
    OptionalOnOneLine(ref.caption, f);
    OptionalOnOneLine(ref.digest, f);
  }

  lemma RefsOnOneLine(title: string, refs: seq<OutputRef>, f: FloatTest)
    requires OnOneLine(title) && forall i | 0 <= i < |refs| :: OnOneLine(refs[i].id)
    ensures AllOnOneLine(RefsSection(title, refs, f))
  {
    hide RenderRef; hide Header;
    HeaderOnOneLine(title, |refs|, "]{id,uri,media_type,label,digest}");
    forall i | 0 <= i < |refs| ensures OnOneLine(RenderRef(refs[i], f)) { RefOnOneLine(refs[i], f); }
    hide OnOneLine;
  }

  lemma FieldsOnOneLine(fields: seq<ResultField>, f: FloatTest)
    ensures AllOnOneLine(FieldsSection(fields, f))
  {
    hide RenderRow; hide Decimal;
    DecimalOnOneLine(|fields|);
    forall i | 0 <= i < |fields| ensures OnOneLine(RenderRow(fields[i], f)) { RowOnOneLine(fields[i], f); }
  }

  lemma TruncationOnOneLine(t: TruncationMetadata, f: FloatTest)
    ensures AllOnOneLine(TruncationSection(t, f))
  {
    hide RenderText; hide Decimal;
    DecimalOnOneLine(t.originalBytes);
    DecimalOnOneLine(t.retainedBytes);
    TextOnOneLine(t.reason, f);
  }

  lemma RedactionOnOneLine(m: RedactionMarker, f: FloatTest)
    ensures OnOneLine(RenderRedaction(m, f))
  {
    hide RenderText; hide RenderInteger;
    TextOnOneLine(m.fieldPath, f);
    TextOnOneLine(m.reason, f);
    IntegerOnOneLine(m.redactedAt);
  }

  lemma RedactionsOnOneLine(ms: seq<RedactionMarker>, f: FloatTest)
    ensures AllOnOneLine(RedactionsSection(ms, f))
  {
    hide RenderRedaction; hide Header;
    HeaderOnOneLine("redactions", |ms|, "]{field_path,reason,redacted_at_ms}");
    forall i | 0 <= i < |ms| ensures OnOneLine(RenderRedaction(ms[i], f)) { RedactionOnOneLine(ms[i], f); }
    hide OnOneLine;
  }

  lemma {:induction false} FlattenOnOneLine(sections: seq<Section>)
    requires forall i | 0 <= i < |sections| :: AllOnOneLine(sections[i].lines)
    ensures AllOnOneLine(Flatten(sections))
  {
    if sections == [] {
    } else {
      FlattenOnOneLine(sections[1..]);
    }
  }

  lemma SectionsOnOneLine(r: ToolResult, f: FloatTest)
    requires IdsOnOneLine(r)
    ensures AllOnOneLine(Flatten(Sections(r, f)))
  {
    hide FieldsSection; hide RefsSection; hide TruncationSection; hide RedactionsSection; hide AllOnOneLine;
    FieldsOnOneLine(r.fields, f);
    RefsOnOneLine("evidence_refs", r.evidenceRefs, f);
    RefsOnOneLine("output_refs", r.outputRefs, f);
    if r.truncation.Some? { TruncationOnOneLine(r.truncation.value, f); }
    RedactionsOnOneLine(r.redactions, f);
    FlattenOnOneLine(Sections(r, f));
  }

  /** The number of lines a text has when it is split at line breaks. */
  function LineCount(s: string): nat {
    if s == "" then 1 else (if s[0] == '\n' then 1 else 0) + LineCount(s[1..])
  }

  lemma {:induction false} LineCountConcat(s: string, t: string)
    ensures LineCount(s + t) == LineCount(s) + LineCount(t) - 1
  {
    if s == "" {
      assert s + t == t;
    } else {
      assert (s + t)[1..] == s[1..] + t;
      LineCountConcat(s[1..], t);
    }
  }

  lemma {:induction false} LineCountOne(s: string)
    requires OnOneLine(s)
    ensures LineCount(s) == 1
  {
    if s == "" {
    } else {
      LineCountOne(s[1..]);
    }
  }

  lemma {:induction false} LineCountJoin(lines: seq<string>)
    requires AllOnOneLine(lines)
    ensures LineCount(Join(lines)) == if lines == [] then 1 else |lines|
  {
    if lines == [] {
    } else {
      LineCountOne(lines[0]);
      if |lines| > 1 {
        LineCountJoin(lines[1..]);
        LineCountConcat(lines[0], "\n");
        LineCountConcat(lines[0] + "\n", Join(lines[1..]));
        assert LineCount("\n") == 2 by { assert "\n"[1..] == ""; }
      }
    }
  }

  /** A title that only the k-th section bears, or none. */
  predicate OnlyTitle(sections: seq<Section>, k: nat, title: string) {
    forall i | 0 <= i < |sections| :: sections[i].title == title <==> i == k
  }

  lemma {:induction false} CountOnce(sections: seq<Section>, stop: nat, k: nat, title: string)
    requires stop <= |sections| && OnlyTitle(sections, k, title)
    ensures OmittedCount(sections[stop..], title) == if stop <= k < |sections| then sections[k].count else 0
    decreases |sections| - stop
  {
    if stop == |sections| {
      assert sections[stop..] == [];
    } else {
      CountOnce(sections, stop + 1, k, title);
      assert sections[stop..][1..] == sections[stop + 1..];
    }
  }

  lemma SectionTitles(r: ToolResult, f: FloatTest)
    ensures var all := Sections(r, f);
            && |all| == (if r.truncation.Some? then 5 else 4)
            && OnlyTitle(all, 0, "fields") && all[0].count == |r.fields|
            && OnlyTitle(all, 1, "evidence_refs") && all[1].count == |r.evidenceRefs|
            && OnlyTitle(all, 2, "output_refs") && all[2].count == |r.outputRefs|
            && OnlyTitle(all, if r.truncation.Some? then 3 else |all|, "truncation")
            && (r.truncation.Some? ==> all[3].count == 1)
            && OnlyTitle(all, |all| - 1, "redactions") && all[|all| - 1].count == |r.redactions|
  {
    hide FieldsSection; hide RefsSection; hide TruncationSection; hide RedactionsSection;
    assert "fields"[0] == 'f' && "evidence_refs"[0] == 'e' && "output_refs"[0] == 'o';
    assert "truncation"[0] == 't' && "redactions"[0] == 'r';
  }

  /**
   * The number each part of a result contributes to the notice when the sections from `stop` on are left
   * out: all of its entries, or none.
   */
  lemma OmittedCounts(r: ToolResult, f: FloatTest, stop: nat)
    requires stop < |Sections(r, f)|
    ensures var omitted := Sections(r, f)[stop..];
            && OmittedCount(omitted, "fields") == (if stop == 0 then |r.fields| else 0)
            && OmittedCount(omitted, "evidence_refs") == (if stop <= 1 then |r.evidenceRefs| else 0)
            && OmittedCount(omitted, "output_refs") == (if stop <= 2 then |r.outputRefs| else 0)
            && OmittedCount(omitted, "truncation") == (if r.truncation.Some? && stop <= 3 then 1 else 0)
            && OmittedCount(omitted, "redactions") == |r.redactions|
  {
    hide Sections; hide OmittedCount;
    var all := Sections(r, f);
    SectionTitles(r, f);
    CountOnce(all, stop, 0, "fields");
    CountOnce(all, stop, 1, "evidence_refs");
    CountOnce(all, stop, 2, "output_refs");
    CountOnce(all, stop, if r.truncation.Some? then 3 else |all|, "truncation");
    CountOnce(all, stop, |all| - 1, "redactions");
  }

  /**
   * The printed body of a result never has more lines than its budget, or one if the budget is zero: all of
   * the result if it fits, otherwise what the cut leaves and the notice.
   */
  method RenderToon(r: ToolResult, budget: Option<nat>, f: FloatTest)
    returns (body: string, ghost lines: seq<string>, ghost notice: seq<string>, ghost stop: nat)
    requires IdsOnOneLine(r)
    ensures budget.Some? ==> LineCount(body) <= if budget.value == 0 then 1 else budget.value
    ensures !Overflows(|PreludeLines(r, f)| + |Flatten(Sections(r, f))|, budget) ==>
              body == Join(PreludeLines(r, f) + Flatten(Sections(r, f)))
    ensures Overflows(|PreludeLines(r, f)| + |Flatten(Sections(r, f))|, budget) ==>
      && body == Join(lines + notice)
      && if |PreludeLines(r, f)| > budget.value
         then PreludeCut(PreludeLines(r, f), Sections(r, f), budget.value, f, lines, notice)
         else SectionsCut(PreludeLines(r, f), Sections(r, f), budget.value, f, stop, lines, notice)
  {
    hide PreludeLines; hide Sections; hide Flatten; hide Admitted; hide PreludeCut; hide SectionsCut;
    var kept, end;
    kept, end, stop := LayOut(PreludeLines(r, f), Sections(r, f), budget, f);
    lines, notice := kept, end;
    PreludeOnOneLine(r, f);
    SectionsOnOneLine(r, f);
    assert AllOnOneLine(lines + notice);
    LineCountJoin(lines + notice);
    assert |PreludeLines(r, f)| >= 6 by { PreludeHasLines(r, f); }
    assert lines + [] == lines;
    body := Join(kept + end);
  }

  lemma PreludeHasLines(r: ToolResult, f: FloatTest)
    ensures |PreludeLines(r, f)| >= 6
  {
  }
}
