/** A result printed in full can be told from every other: nothing about it is lost. */
module ToonLossless {
  import opened Prelude
  import opened ToolResults
  import opened ToonValue
  import opened ToonRender
  import ToonRules

  // ---- pieces of a line

  /** Ids are a prefix and a UUID: no line break, comma or bracket. */
  predicate PlainId(id: string) { '\n' !in id && ',' !in id && ']' !in id }

  predicate PlainIds(r: ToolResult) {
    && OnOneLine(r.id) && OnOneLine(r.invocationId)
    && (forall i | 0 <= i < |r.evidenceRefs| :: PlainId(r.evidenceRefs[i].id))
    && (forall i | 0 <= i < |r.outputRefs| :: PlainId(r.outputRefs[i].id))
  }

  lemma TextApart(s: string, t: string, f: FloatTest, g: FloatTest, x: string, y: string)
    requires Stops(x) && Stops(y) && RenderText(s, f) + x == RenderText(t, g) + y
    ensures s == t && x == y
  {
    hide RenderText; hide ReadText;
    TextRoundTrip(s, f, x);
    TextRoundTrip(t, g, y);
  }

  lemma WholeTextApart(s: string, t: string, f: FloatTest, g: FloatTest)
    requires RenderText(s, f) == RenderText(t, g)
    ensures s == t
  {
    hide RenderText;
    assert RenderText(s, f) + "" == RenderText(t, g) + "";
    TextApart(s, t, f, g, "", "");
  }

  lemma IdApart(s: string, t: string, x: string, y: string)
    requires PlainId(s) && PlainId(t) && s + ("," + x) == t + ("," + y)
    ensures s == t && x == y
  {
    BareLenStops(s, "," + x);
    BareLenStops(t, "," + y);
    var u := s + ("," + x);
    assert u[..|s|] == s && u[|s| + 1..] == x;
    assert u[..|t|] == t && u[|t| + 1..] == y;
  }

  /** An absent caption is the bare word, a present one never is. */
  lemma OptionalReads(o: Option<string>, f: FloatTest, x: string)
    requires Stops(x)
    ensures ReadText(RenderOptional(o, f) + x) == Some(Parsed(if o.Some? then o.value else "null", x))
    ensures o.None? <==> RenderOptional(o, f)[..1] == "n" && ReadText(RenderOptional(o, f) + x).value.text == "null"
  {
    hide RenderText;
    if o.Some? {
      TextRoundTrip(o.value, f, x);
      if o.value == "null" { NullIsQuoted(f); }
    } else {
      BareLenStops("null", x);
      assert ("null" + x)[..4] == "null" && ("null" + x)[4..] == x;
    }
  }

  lemma NullIsQuoted(f: FloatTest)
    ensures RenderText("null", f)[..1] == "\""
  {
  }

  lemma OptionalApart(o: Option<string>, p: Option<string>, f: FloatTest, g: FloatTest, x: string, y: string)
    requires Stops(x) && Stops(y) && RenderOptional(o, f) + x == RenderOptional(p, g) + y
    ensures o == p && x == y
  {
    hide RenderOptional; hide ReadText;
    OptionalReads(o, f, x);
    OptionalReads(p, g, y);
    assert (RenderOptional(o, f) + x)[..1] == RenderOptional(o, f)[..1] by { OptionalIsNotEmpty(o, f); }
    assert (RenderOptional(p, g) + y)[..1] == RenderOptional(p, g)[..1] by { OptionalIsNotEmpty(p, g); }
  }

  lemma OptionalIsNotEmpty(o: Option<string>, f: FloatTest)
    ensures RenderOptional(o, f) != ""
  {
  }

  lemma IntegerApart(i: int, j: int)
    requires RenderInteger(i) == RenderInteger(j)
    ensures i == j
  {
    ToonRules.IntegerSays(i);
    ToonRules.IntegerSays(j);
  }

  lemma DecimalApart(m: nat, n: nat)
    requires Decimal(m) == Decimal(n)
    ensures m == n
  {
    DecimalRoundTrip(m);
    DecimalRoundTrip(n);
  }

  lemma Front(a: string, b: string, c: string)
    requires a + b == a + c
    ensures b == c
  {
    assert (a + b)[|a|..] == b && (a + c)[|a|..] == c;
  }

  // ---- rows

  lemma RefRow(ref: OutputRef, f: FloatTest)
    ensures RenderRef(ref, f) ==
            "  " + (ref.id + ("," + (RenderText(ref.uri, f) + ("," + (RenderText(ref.mediaType, f) + ("," +
            (RenderOptional(ref.caption, f) + ("," + (RenderOptional(ref.digest, f) + "")))))))))
  {
    hide RenderText; hide RenderOptional;
  }

  lemma RefApart(a: OutputRef, b: OutputRef, f: FloatTest, g: FloatTest)
    requires PlainId(a.id) && PlainId(b.id) && RenderRef(a, f) == RenderRef(b, g)
    ensures a == b
  {
    hide RenderText; hide RenderOptional; hide RenderRef;
    RefRow(a, f);
    RefRow(b, g);
    var a4, b4 := RenderOptional(a.digest, f) + "", RenderOptional(b.digest, g) + "";
    var a3, b3 := RenderOptional(a.caption, f) + ("," + a4), RenderOptional(b.caption, g) + ("," + b4);
    var a2, b2 := RenderText(a.mediaType, f) + ("," + a3), RenderText(b.mediaType, g) + ("," + b3);
    var a1, b1 := RenderText(a.uri, f) + ("," + a2), RenderText(b.uri, g) + ("," + b2);
    Front("  ", a.id + ("," + a1), b.id + ("," + b1));
    IdApart(a.id, b.id, a1, b1);
    TextApart(a.uri, b.uri, f, g, "," + a2, "," + b2);
    Front(",", a2, b2);
    TextApart(a.mediaType, b.mediaType, f, g, "," + a3, "," + b3);
    Front(",", a3, b3);
    OptionalApart(a.caption, b.caption, f, g, "," + a4, "," + b4);
    Front(",", a4, b4);
    OptionalApart(a.digest, b.digest, f, g, "", "");
  }

  lemma RedactionRow(m: RedactionMarker, f: FloatTest)
    ensures RenderRedaction(m, f) ==
            "  " + (RenderText(m.fieldPath, f) + ("," + (RenderText(m.reason, f) + ("," +
            RenderInteger(m.redactedAt)))))
  {
    hide RenderText; hide RenderInteger;
  }

  lemma RedactionApart(a: RedactionMarker, b: RedactionMarker, f: FloatTest, g: FloatTest)
    requires RenderRedaction(a, f) == RenderRedaction(b, g)
    ensures a == b
  {
    hide RenderText; hide RenderInteger; hide RenderRedaction;
    RedactionRow(a, f);
    RedactionRow(b, g);
    var a2, b2 := RenderInteger(a.redactedAt), RenderInteger(b.redactedAt);
    var a1, b1 := RenderText(a.reason, f) + ("," + a2), RenderText(b.reason, g) + ("," + b2);
    Front("  ", RenderText(a.fieldPath, f) + ("," + a1), RenderText(b.fieldPath, g) + ("," + b1));
    TextApart(a.fieldPath, b.fieldPath, f, g, "," + a1, "," + b1);
    Front(",", a1, b1);
    TextApart(a.reason, b.reason, f, g, "," + a2, "," + b2);
    Front(",", a2, b2);
    IntegerApart(a.redactedAt, b.redactedAt);
  }

  // ---- sections

  /** A part of the output: empty, or a block whose first line starts with this character. */
  predicate Opens(block: seq<string>, c: char) { block == [] || (block[0] != "" && block[0][0] == c) }

  predicate OpensOtherwise(rest: seq<string>, c: char) { rest == [] || rest[0] == "" || rest[0][0] != c }

  predicate SameLength(a: seq<string>, b: seq<string>) { a != [] && b != [] && a[0] == b[0] ==> |a| == |b| }

  /** Two outputs that agree, whose first blocks open alike and have lengths set by their first lines. */
  lemma Peel(a: seq<string>, x: seq<string>, b: seq<string>, y: seq<string>, c: char)
    requires a + x == b + y
    requires Opens(a, c) && Opens(b, c) && OpensOtherwise(x, c) && OpensOtherwise(y, c)
    requires SameLength(a, b)
    ensures a == b && x == y
  {
    var all := a + x;
    if all != [] {
      assert all[0] == if a != [] then a[0] else x[0];
      assert all[0] == if b != [] then b[0] else y[0];
    }
    assert |a| == |b|;
    assert (a + x)[..|a|] == a && (b + y)[..|b|] == b;
    assert (a + x)[|a|..] == x && (b + y)[|b|..] == y;
  }

  lemma HeaderApart(title: string, m: nat, n: nat, columns: string)
    requires Header(title, m, columns) == Header(title, n, columns)
    ensures m == n
  {
    hide Decimal;
    var a, b := title + "[", columns;
    assert Header(title, m, columns) == a + (Decimal(m) + b);
    assert Header(title, n, columns) == a + (Decimal(n) + b);
    Front(a, Decimal(m) + b, Decimal(n) + b);
    assert |Decimal(m)| == |Decimal(n)|;
    assert (Decimal(m) + b)[..|Decimal(m)|] == Decimal(m);
    assert (Decimal(n) + b)[..|Decimal(n)|] == Decimal(n);
    DecimalApart(m, n);
  }

  lemma RefsApart(title: string, a: seq<OutputRef>, b: seq<OutputRef>, f: FloatTest, g: FloatTest)
    requires forall i | 0 <= i < |a| :: PlainId(a[i].id)
    requires forall i | 0 <= i < |b| :: PlainId(b[i].id)
    requires RefsSection(title, a, f) == RefsSection(title, b, g)
    ensures a == b
  {
    hide RenderRef; hide Header; hide PlainId;
    assert |a| == |b|;
    forall i | 0 <= i < |a|
      ensures a[i] == b[i]
    {
      assert RefsSection(title, a, f)[i + 1] == RenderRef(a[i], f);
      assert RefsSection(title, b, g)[i + 1] == RenderRef(b[i], g);
      RefApart(a[i], b[i], f, g);
    }
  }

  lemma RedactionsApart(a: seq<RedactionMarker>, b: seq<RedactionMarker>, f: FloatTest, g: FloatTest)
    requires RedactionsSection(a, f) == RedactionsSection(b, g)
    ensures a == b
  {
    hide RenderRedaction; hide Header;
    assert |a| == |b|;
    forall i | 0 <= i < |a|
      ensures a[i] == b[i]
    {
      assert RedactionsSection(a, f)[i + 1] == RenderRedaction(a[i], f);
      assert RedactionsSection(b, g)[i + 1] == RenderRedaction(b[i], g);
      RedactionApart(a[i], b[i], f, g);
    }
  }

  lemma FieldsApart(a: seq<ResultField>, b: seq<ResultField>, f: FloatTest, g: FloatTest)
    requires FieldsSection(a, f) == FieldsSection(b, g)
    ensures a == b
  {
    hide FieldsSection; hide DecodeFields;
    FieldsRoundTrip(a, f);
    FieldsRoundTrip(b, g);
  }

  /** The optional parts, as blocks. */
  function SchemaBlock(r: ToolResult, f: FloatTest): seq<string> {
    if r.schemaRef.Some? then ["schema_ref " + RenderText(r.schemaRef.value, f)] else []
  }

  function TruncationBlock(r: ToolResult, f: FloatTest): seq<string> {
    if r.truncation.Some? then TruncationSection(r.truncation.value, f) else []
  }

  lemma SchemaApart(q: ToolResult, r: ToolResult, f: FloatTest, g: FloatTest)
    requires SchemaBlock(q, f) == SchemaBlock(r, g)
    ensures q.schemaRef == r.schemaRef
  {
    hide RenderText;
    assert q.schemaRef.Some? <==> SchemaBlock(q, f) != [];
    if q.schemaRef.Some? {
      assert SchemaBlock(q, f)[0] == SchemaBlock(r, g)[0];
      Front("schema_ref ", RenderText(q.schemaRef.value, f), RenderText(r.schemaRef.value, g));
      WholeTextApart(q.schemaRef.value, r.schemaRef.value, f, g);
    }
  }

  lemma TruncationApart(q: ToolResult, r: ToolResult, f: FloatTest, g: FloatTest)
    requires TruncationBlock(q, f) == TruncationBlock(r, g)
    ensures q.truncation == r.truncation
  {
    hide RenderText; hide Decimal;
    var a, b := TruncationBlock(q, f), TruncationBlock(r, g);
    if q.truncation.Some? && r.truncation.Some? {
      var s, t := q.truncation.value, r.truncation.value;
      assert a[2] == b[2] && a[3] == b[3] && a[4] == b[4];
      Front("  original_bytes ", Decimal(s.originalBytes), Decimal(t.originalBytes));
      Front("  retained_bytes ", Decimal(s.retainedBytes), Decimal(t.retainedBytes));
      Front("  reason ", RenderText(s.reason, f), RenderText(t.reason, g));
      DecimalApart(s.originalBytes, t.originalBytes);
      DecimalApart(s.retainedBytes, t.retainedBytes);
      WholeTextApart(s.reason, t.reason, f, g);
    }
  }

  // ---- the whole output

  function FixedLines(r: ToolResult, f: FloatTest): seq<string> {
    ["status " + StatusName(r.status),
     "schema_version tool_result.v" + Decimal(r.schemaVersion),
     "format toon",
     "tool_id " + RenderText(r.toolId, f),
     "result_id " + r.id,
     "invocation_id " + r.invocationId]
  }

  /** What follows each part. */
  function AfterOutputs(r: ToolResult, f: FloatTest): seq<string> {
    TruncationBlock(r, f) + RedactionsSection(r.redactions, f)
  }

  function AfterEvidence(r: ToolResult, f: FloatTest): seq<string> {
    RefsSection("output_refs", r.outputRefs, f) + AfterOutputs(r, f)
  }

  function AfterFields(r: ToolResult, f: FloatTest): seq<string> {
    RefsSection("evidence_refs", r.evidenceRefs, f) + AfterEvidence(r, f)
  }

  function AfterSchema(r: ToolResult, f: FloatTest): seq<string> { FieldsSection(r.fields, f) + AfterFields(r, f) }

  function Output(r: ToolResult, f: FloatTest): seq<string> { PreludeLines(r, f) + Flatten(Sections(r, f)) }

  lemma OutputParts(r: ToolResult, f: FloatTest)
    ensures Output(r, f) == FixedLines(r, f) + (SchemaBlock(r, f) + AfterSchema(r, f))
  {
    hide RenderText; hide Decimal; hide StatusName;
    hide FieldsSection; hide RefsSection; hide TruncationSection; hide RedactionsSection; hide Flatten;
    FlattenSections(r, f);
    assert PreludeLines(r, f) == FixedLines(r, f) + SchemaBlock(r, f);
  }

  lemma FlattenSections(r: ToolResult, f: FloatTest)
    ensures Flatten(Sections(r, f)) == AfterSchema(r, f)
  {
    hide FieldsSection; hide RefsSection; hide TruncationSection; hide RedactionsSection; hide Flatten;
    var all := Sections(r, f);
    var n := |all|;
    FlattenLast(all, n - 1);
    FlattenLast(all, n - 2);
    FlattenLast(all, n - 3);
    FlattenLast(all, n - 4);
    if n == 5 { FlattenLast(all, 0); }
    assert all[0..] == all && all[n..] == [];
    EmptySections(0, None);
  }

  lemma FlattenLast(sections: seq<Section>, n: nat)
    requires n < |sections|
    ensures Flatten(sections[n..]) == sections[n].lines + Flatten(sections[n + 1..])
  {
    assert sections[n..][1..] == sections[n + 1..];
  }

  lemma FixedApart(q: ToolResult, r: ToolResult, f: FloatTest, g: FloatTest)
    requires FixedLines(q, f) == FixedLines(r, g)
    ensures q.status == r.status && q.schemaVersion == r.schemaVersion && q.toolId == r.toolId
    ensures q.id == r.id && q.invocationId == r.invocationId
  {
    hide RenderText; hide Decimal; hide StatusName;
    var a, b := FixedLines(q, f), FixedLines(r, g);
    assert a[0] == b[0] && a[1] == b[1] && a[3] == b[3] && a[4] == b[4] && a[5] == b[5];
    Front("status ", StatusName(q.status), StatusName(r.status));
    StatusApart(q.status, r.status);
    Front("schema_version tool_result.v", Decimal(q.schemaVersion), Decimal(r.schemaVersion));
    DecimalApart(q.schemaVersion, r.schemaVersion);
    Front("tool_id ", RenderText(q.toolId, f), RenderText(r.toolId, g));
    WholeTextApart(q.toolId, r.toolId, f, g);
    Front("result_id ", q.id, r.id);
    Front("invocation_id ", q.invocationId, r.invocationId);
  }

  lemma StatusApart(a: ResultStatus, b: ResultStatus)
    requires StatusName(a) == StatusName(b)
    ensures a == b
  {
    assert StatusName(Succeeded)[0] == 's' && StatusName(ResultStatus.Failed)[0] == 'f';
    assert StatusName(Canceled)[0] == 'c' && StatusName(TimedOut)[0] == 't';
  }

  /** Each block opens with its own letter. */
  lemma BlocksOpen(r: ToolResult, f: FloatTest)
    ensures Opens(SchemaBlock(r, f), 's') && Opens(FieldsSection(r.fields, f), 'f')
    ensures Opens(RefsSection("evidence_refs", r.evidenceRefs, f), 'e')
    ensures Opens(RefsSection("output_refs", r.outputRefs, f), 'o')
    ensures Opens(TruncationBlock(r, f), 't') && Opens(RedactionsSection(r.redactions, f), 'r')
  {
    hide RenderText; hide Decimal; hide RenderRow; hide RenderRef; hide RenderRedaction;
  }

  lemma Follow(a: seq<string>, x: seq<string>, c: char, d: char)
    requires Opens(a, d) && d != c && OpensOtherwise(x, c)
    ensures OpensOtherwise(a + x, c)
  {
  }

  /** No later block opens with the letter of an earlier one. */
  lemma RestsOpen(r: ToolResult, f: FloatTest)
    ensures OpensOtherwise(AfterSchema(r, f), 's') && OpensOtherwise(AfterFields(r, f), 'f')
    ensures OpensOtherwise(AfterEvidence(r, f), 'e') && OpensOtherwise(AfterOutputs(r, f), 'o')
    ensures OpensOtherwise(RedactionsSection(r.redactions, f), 't')
  {
    hide FieldsSection; hide RefsSection; hide TruncationBlock; hide RedactionsSection; hide SchemaBlock;
    BlocksOpen(r, f);
    forall c | c in "sfeot"
      ensures OpensOtherwise(RedactionsSection(r.redactions, f), c)
    {
    }
    forall c | c in "sfeo"
      ensures OpensOtherwise(AfterOutputs(r, f), c)
    {
      Follow(TruncationBlock(r, f), RedactionsSection(r.redactions, f), c, 't');
    }
    forall c | c in "sfe"
      ensures OpensOtherwise(AfterEvidence(r, f), c)
    {
      Follow(RefsSection("output_refs", r.outputRefs, f), AfterOutputs(r, f), c, 'o');
    }
    forall c | c in "sf"
      ensures OpensOtherwise(AfterFields(r, f), c)
    {
      Follow(RefsSection("evidence_refs", r.evidenceRefs, f), AfterEvidence(r, f), c, 'e');
    }
    Follow(FieldsSection(r.fields, f), AfterFields(r, f), 's', 'f');
  }

  /** A block's first line says how long it is. */
  lemma BlockLengths(q: ToolResult, r: ToolResult, f: FloatTest, g: FloatTest)
    ensures SameLength(SchemaBlock(q, f), SchemaBlock(r, g))
    ensures SameLength(FieldsSection(q.fields, f), FieldsSection(r.fields, g))
    ensures SameLength(RefsSection("evidence_refs", q.evidenceRefs, f), RefsSection("evidence_refs", r.evidenceRefs, g))
    ensures SameLength(RefsSection("output_refs", q.outputRefs, f), RefsSection("output_refs", r.outputRefs, g))
    ensures SameLength(TruncationBlock(q, f), TruncationBlock(r, g))
  {
    hide RenderText; hide Decimal; hide RenderRow; hide RenderRef;
    FieldsLength(q.fields, r.fields, f, g);
    RefsLength("evidence_refs", q.evidenceRefs, r.evidenceRefs, f, g);
    RefsLength("output_refs", q.outputRefs, r.outputRefs, f, g);
  }

  lemma RefsLength(title: string, a: seq<OutputRef>, b: seq<OutputRef>, f: FloatTest, g: FloatTest)
    ensures SameLength(RefsSection(title, a, f), RefsSection(title, b, g))
  {
    hide RenderRef; hide Header;
    var columns := "]{id,uri,media_type,label,digest}";
    if Header(title, |a|, columns) == Header(title, |b|, columns) { HeaderApart(title, |a|, |b|, columns); }
  }

  lemma FieldsLength(a: seq<ResultField>, b: seq<ResultField>, f: FloatTest, g: FloatTest)
    ensures SameLength(FieldsSection(a, f), FieldsSection(b, g))
  {
    hide RenderRow; hide Decimal;
    forall n: nat ensures FieldsHeader(n) == Header("fields", n, "]{key,value}") { FieldsHeaderIs(n); }
    hide FieldsHeader;
    if FieldsHeader(|a|) == FieldsHeader(|b|) { HeaderApart("fields", |a|, |b|, "]{key,value}"); }
  }

  lemma FieldsHeaderIs(n: nat)
    ensures FieldsHeader(n) == Header("fields", n, "]{key,value}")
  {
    hide Decimal;
    assert "fields" + "[" == "fields[";
  }

  /** Two outputs that agree line by line come from the same result. */
  lemma OutputApart(q: ToolResult, r: ToolResult, f: FloatTest, g: FloatTest)
    requires PlainIds(q) && PlainIds(r) && Output(q, f) == Output(r, g)
    ensures q == r
  {
    hide *;
    OutputParts(q, f);
    OutputParts(r, g);
    BlocksOpen(q, f);
    BlocksOpen(r, g);
    RestsOpen(q, f);
    RestsOpen(r, g);
    BlockLengths(q, r, f, g);
    SplitFixed(q, r, f, g);
    FixedApart(q, r, f, g);
    Peel(SchemaBlock(q, f), AfterSchema(q, f), SchemaBlock(r, g), AfterSchema(r, g), 's');
    SchemaApart(q, r, f, g);
    Tails(q, f);
    Tails(r, g);
    Peel(FieldsSection(q.fields, f), AfterFields(q, f), FieldsSection(r.fields, g), AfterFields(r, g), 'f');
    FieldsApart(q.fields, r.fields, f, g);
    Peel(RefsSection("evidence_refs", q.evidenceRefs, f), AfterEvidence(q, f),
             RefsSection("evidence_refs", r.evidenceRefs, g), AfterEvidence(r, g), 'e');
    Peel(RefsSection("output_refs", q.outputRefs, f), AfterOutputs(q, f),
             RefsSection("output_refs", r.outputRefs, g), AfterOutputs(r, g), 'o');
    Peel(TruncationBlock(q, f), RedactionsSection(q.redactions, f),
             TruncationBlock(r, g), RedactionsSection(r.redactions, g), 't');
    IdsArePlain(q);
    IdsArePlain(r);
    RefsApart("evidence_refs", q.evidenceRefs, r.evidenceRefs, f, g);
    RefsApart("output_refs", q.outputRefs, r.outputRefs, f, g);
    TruncationApart(q, r, f, g);
    RedactionsApart(q.redactions, r.redactions, f, g);
  }

  lemma Tails(r: ToolResult, f: FloatTest)
    ensures AfterSchema(r, f) == FieldsSection(r.fields, f) + AfterFields(r, f)
    ensures AfterFields(r, f) == RefsSection("evidence_refs", r.evidenceRefs, f) + AfterEvidence(r, f)
    ensures AfterEvidence(r, f) == RefsSection("output_refs", r.outputRefs, f) + AfterOutputs(r, f)
    ensures AfterOutputs(r, f) == TruncationBlock(r, f) + RedactionsSection(r.redactions, f)
  {
  }

  lemma SplitFixed(q: ToolResult, r: ToolResult, f: FloatTest, g: FloatTest)
    requires FixedLines(q, f) + (SchemaBlock(q, f) + AfterSchema(q, f)) ==
             FixedLines(r, g) + (SchemaBlock(r, g) + AfterSchema(r, g))
    ensures FixedLines(q, f) == FixedLines(r, g)
    ensures SchemaBlock(q, f) + AfterSchema(q, f) == SchemaBlock(r, g) + AfterSchema(r, g)
  {
    hide SchemaBlock; hide AfterSchema; hide RenderText; hide Decimal; hide StatusName;
    var a, b := FixedLines(q, f), FixedLines(r, g);
    var x, y := SchemaBlock(q, f) + AfterSchema(q, f), SchemaBlock(r, g) + AfterSchema(r, g);
    assert |a| == |b| == 6;
    assert (a + x)[..6] == a && (b + y)[..6] == b && (a + x)[6..] == x && (b + y)[6..] == y;
  }

  lemma IdsArePlain(r: ToolResult)
    requires PlainIds(r)
    ensures forall i | 0 <= i < |r.evidenceRefs| :: PlainId(r.evidenceRefs[i].id)
    ensures forall i | 0 <= i < |r.outputRefs| :: PlainId(r.outputRefs[i].id)
    ensures IdsOnOneLine(r)
  {
  }

  lemma OutputOnOneLine(r: ToolResult, f: FloatTest)
    requires PlainIds(r)
    ensures Output(r, f) != [] && forall i | 0 <= i < |Output(r, f)| :: '\n' !in Output(r, f)[i]
  {
    hide PreludeLines; hide Sections; hide Flatten;
    IdsArePlain(r);
    PreludeOnOneLine(r, f);
    SectionsOnOneLine(r, f);
    PreludeHasLines(r, f);
  }

  /** Distinct results never print alike, whatever counts as float-like text. */
  lemma PrintedResultsDiffer(q: ToolResult, r: ToolResult, f: FloatTest, g: FloatTest)
    requires PlainIds(q) && PlainIds(r)
    requires Join(Output(q, f)) == Join(Output(r, g))
    ensures q == r
  {
    hide *;
    OutputOnOneLine(q, f);
    OutputOnOneLine(r, g);
    LinesOfJoin(Output(q, f));
    LinesOfJoin(Output(r, g));
    OutputApart(q, r, f, g);
  }
}
